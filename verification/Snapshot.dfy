/** The registry of sequences protected by live snapshot guards. */
module Snapshots {
  import opened Bytes

  /** The smallest guarded sequence, if any guard is live. */
  ghost predicate IsOldest(guards: multiset<u64>, oldest: Option<u64>) {
    match oldest
    case None => guards == multiset{}
    case Some(q) => q in guards && forall r | r in guards :: q <= r
  }

  class SnapshotRegistry {
    var active: map<u64, nat>
    ghost var guards: multiset<u64>   // one element per live guard

    ghost predicate Valid()
      reads this
    {
      forall q: u64 :: guards[q] == if q in active then active[q] else 0
    }

    /** No count is ever stored as zero. */
    ghost predicate Counted()
      reads this
    {
      forall q | q in active :: active[q] > 0
    }

    constructor ()
      ensures Valid() && Counted() && guards == multiset{}
    {
      active, guards := map[], multiset{};
    }

    method Acquire(q: u64)
      requires Valid() && Counted()
      modifies this
      ensures Valid() && Counted() && guards == old(guards) + multiset{q}
    {
      var count := if q in active then active[q] else 0;
      active := active[q := count + 1];
      guards := guards + multiset{q};
    }

    /** Dropping a guard removes one registration and forgets a sequence with none left. */
    method Release(q: u64)
      requires Valid() && Counted()
      modifies this
      ensures Valid() && Counted() && guards == old(guards) - multiset{q}
    {
      if q in active && active[q] > 1 {
        active := active[q := active[q] - 1];
      } else if q in active {
        active := active - {q};
      }
      guards := guards - multiset{q};
    }

    method OldestActive() returns (oldest: Option<u64>)
      requires Valid() && Counted()
      ensures IsOldest(guards, oldest)
    {
      oldest := None;
      var keys := active.Keys;
      while keys != {}
        invariant keys <= active.Keys
        invariant oldest == None ==> keys == active.Keys
        invariant oldest.Some? ==> oldest.value in active && forall r | r in active && r !in keys :: oldest.value <= r
        decreases |keys|
      {
        var q :| q in keys;
        keys := keys - {q};
        if oldest == None || q < oldest.value {
          oldest := Some(q);
        }
      }
      assert forall r | r in guards :: r in active;
      if oldest == None {
        assert forall r: u64 :: guards[r] == 0;
        assert guards == multiset{};
      }
    }
  }
}
