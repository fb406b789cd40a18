/** Write batches and the ordered in-memory table they are applied to. */
module MemTables {
  import opened Bytes
  import opened InternalKeys
  import opened Mvcc

  datatype WriteOp =
    | Put(key: bytes, value: bytes, expires: Option<u64>)
    | Delete(key: bytes)

  type Batch = seq<WriteOp>

  function RecordOf(op: WriteOp): Record {
    match op
    case Put(_, value, expires) => Stored(value, expires)
    case Delete(_) => Tombstone
  }

  /** The versions a batch commits at `seqno`: the last operation on each key wins. */
  function Effects(ops: Batch, seqno: u64): set<Entry> {
    if ops == [] then {} else
      var last := ops[|ops| - 1];
      (set e | e in Effects(ops[..|ops| - 1], seqno) && e.user != last.key)
      + {Entry(last.key, seqno, RecordOf(last))}
  }

  /** A batch writes exactly its keys, each at `seqno` with the record of its last operation. */
  lemma {:induction false} EffectsMeaning(ops: Batch, seqno: u64, e: Entry)
    ensures e in Effects(ops, seqno) <==>
            e.seqno == seqno &&
            exists i :: 0 <= i < |ops| && ops[i].key == e.user && RecordOf(ops[i]) == e.record
                        && forall j | i < j < |ops| :: ops[j].key != e.user
  {
    if ops != [] {
      var n := |ops| - 1;
      var init := ops[..n];
      EffectsMeaning(init, seqno, e);
      if e in Effects(init, seqno) && e.user != ops[n].key {
        var i :| 0 <= i < |init| && init[i].key == e.user && RecordOf(init[i]) == e.record
                 && forall j | i < j < |init| :: init[j].key != e.user;
        assert ops[i] == init[i] && forall j | i < j < |ops| :: ops[j].key != e.user;
      }
      if i :| 0 <= i < n && ops[i].key == e.user && RecordOf(ops[i]) == e.record
              && forall j | i < j < |ops| :: ops[j].key != e.user {
        assert init[i] == ops[i] && forall j | i < j < |init| :: init[j].key != e.user;
      }
    }
  }

  lemma EffectsFunctional(ops: Batch, seqno: u64)
    ensures Functional(Effects(ops, seqno))
    ensures forall e | e in Effects(ops, seqno) :: e.seqno == seqno
  {
  }

  function Versioned(final: map<bytes, Record>, seqno: u64): set<Entry> {
    set k | k in final :: Entry(k, seqno, final[k])
  }

  /** The last operation on each key, collected in batch order. */
  method FinalOperations(batch: Batch, ghost seqno: u64) returns (final: map<bytes, Record>)
    ensures Versioned(final, seqno) == Effects(batch, seqno)
  {
    final := map[];
    for i := 0 to |batch|
      invariant Versioned(final, seqno) == Effects(batch[..i], seqno)
    {
      assert batch[..i + 1][..i] == batch[..i];
      FinalStep(final, seqno, batch[i].key, RecordOf(batch[i]));
      final := final[batch[i].key := RecordOf(batch[i])];
    }
    assert batch[..|batch|] == batch;
  }

  lemma FinalStep(final: map<bytes, Record>, seqno: u64, key: bytes, record: Record)
    ensures Versioned(final[key := record], seqno) ==
            (set e | e in Versioned(final, seqno) && e.user != key) + {Entry(key, seqno, record)}
  {
    var next := final[key := record];
    var kept := set e | e in Versioned(final, seqno) && e.user != key;
    forall e | e in Versioned(next, seqno)
      ensures e in kept + {Entry(key, seqno, record)}
    {
      if e.user != key {
        assert e.user in final && final[e.user] == e.record;
      }
    }
    forall e | e in kept + {Entry(key, seqno, record)}
      ensures e in Versioned(next, seqno)
    {
      assert e.user in next && next[e.user] == e.record && e.seqno == seqno;
    }
  }

  /** Position of the first entry that does not precede the encoded key. */
  method LowerBound(t: seq<Entry>, encoded: bytes) returns (i: nat)
    ensures i <= |t|
    ensures forall j | 0 <= j < i :: Less(Encode(Key(t[j])), encoded)
    ensures i < |t| ==> !Less(Encode(Key(t[i])), encoded)
  {
    i := 0;
    while i < |t| && Less(Encode(Key(t[i])), encoded)
      invariant i <= |t|
      invariant forall j | 0 <= j < i :: Less(Encode(Key(t[j])), encoded)
    {
      i := i + 1;
    }
  }

  class MemTable {
    var entries: seq<Entry>
    var approximateBytes: nat

    ghost predicate Valid()
      reads this
    {
      Sorted(entries)
    }

    ghost function Versions(): set<Entry>
      reads this
    {
      Entries(entries)
    }

    constructor ()
      ensures Valid() && entries == [] && approximateBytes == 0
    {
      entries, approximateBytes := [], 0;
    }

    /** Inserts a version at a sequence its key does not have yet. */
    method Insert(e: Entry)
      requires Valid()
      requires forall f | f in Versions() && f.user == e.user :: f.seqno != e.seqno
      modifies this
      ensures Valid()
      ensures Versions() == old(Versions()) + {e}
    {
      var i := LowerBound(entries, Encode(Key(e)));
      ghost var was := entries;
      InsertSorted(entries, i, e);
      entries := entries[..i] + [e] + entries[i..];
      approximateBytes := approximateBytes + |Encode(Key(e))|
        + (if e.record.Stored? then |e.record.value| + 16 else 0);
      assert was == was[..i] + was[i..];
    }

    /** Applies one complete batch at `seqno`, keeping the last operation of each key. */
    method Apply(seqno: u64, batch: Batch) returns (r: Result<()>)
      requires Valid()
      requires forall e | e in Versions() :: e.seqno != seqno
      modifies this
      ensures Valid()
      ensures r.Ok? <==> ValidSequence(seqno) || batch == []
      ensures Versions() == old(Versions()) + (if r.Ok? then Effects(batch, seqno) else {})
    {
      if !ValidSequence(seqno) && batch != [] {
        return Err;
      }
      var final := FinalOperations(batch, seqno);
      InsertAll(seqno, final);
      assert Effects(batch, seqno) == Versioned(final, seqno);
      return Ok(());
    }

    method InsertAll(seqno: u64, final: map<bytes, Record>)
      requires Valid()
      requires forall e | e in Versions() :: e.seqno != seqno
      modifies this
      ensures Valid()
      ensures Versions() == old(Versions()) + Versioned(final, seqno)
    {
      ghost var stored := Versions();
      var pending := final;
      while pending.Keys != {}
        invariant Valid()
        invariant pending.Keys <= final.Keys
        invariant forall k | k in pending :: pending[k] == final[k]
        invariant Versions() == stored + Versioned(final - pending.Keys, seqno)
        decreases |pending|
      {
        var k :| k in pending.Keys;
        var e := Entry(k, seqno, pending[k]);
        ghost var inserted := final - pending.Keys;
        FinalStep(inserted, seqno, k, pending[k]);
        Insert(e);
        pending := pending - {k};
        assert final - pending.Keys == inserted[k := final[k]];
      }
      assert final - {} == final;
    }

    /** The newest version of `user` visible at `seqno`, found by one ordered range seek. */
    method GetEntry(user: bytes, seqno: u64) returns (r: Result<Option<Entry>>)
      requires Valid()
      ensures r.Ok? <==> ValidSequence(seqno)
      ensures r.Ok? ==> r.value == Newest(Versions(), user, seqno)
    {
      var seek := TryNew(user, seqno, Deletion);
      if seek.Err? {
        return Err;
      }
      var i := LowerBound(entries, seek.value);
      forall j | 0 <= j < |entries| {
        SeekIsByteOrder(entries[j], user, seqno);
      }
      LowerBoundIsNewest(entries, user, seqno, i);
      if i < |entries| && entries[i].user == user {
        return Ok(Some(entries[i]));
      }
      return Ok(None);
    }
  }

  lemma InsertSorted(t: seq<Entry>, i: nat, e: Entry)
    requires Sorted(t) && i <= |t|
    requires forall f | f in t && f.user == e.user :: f.seqno != e.seqno
    requires forall j | 0 <= j < i :: Less(Encode(Key(t[j])), Encode(Key(e)))
    requires i < |t| ==> !Less(Encode(Key(t[i])), Encode(Key(e)))
    ensures Sorted(t[..i] + [e] + t[i..])
  {
    forall j | 0 <= j < i ensures Before(t[j], e) {
      BeforeIsByteOrder(t[j], e);
      assert t[j] in t;
    }
    if i < |t| {
      assert t[i] in t;
      BeforeTotal(t[i], e);
      BeforeIsByteOrder(t[i], e);
      forall j | i < j < |t| ensures Before(e, t[j]) {
        BeforeTransitive(e, t[i], t[j]);
      }
    }
  }
}
