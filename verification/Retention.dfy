/** Which versions of a key a compaction keeps, and why reads cannot tell the difference. */
module Retention {
  import opened Bytes
  import opened Mvcc

  predicate Expired(r: Record, now: u64) {
    r.Stored? && r.expires.Some? && r.expires.value <= now
  }

  /** An expired value becomes a tombstone at the same sequence. */
  function Rewrite(e: Entry, now: u64): Entry {
    if Expired(e.record, now) then e.(record := Tombstone) else e
  }

  function RewriteAll(g: seq<Entry>, now: u64): seq<Entry> {
    seq(|g|, i requires 0 <= i < |g| => Rewrite(g[i], now))
  }

  /** All versions of one user key, newest first. */
  predicate IsGroup(g: seq<Entry>) {
    && (forall i | 0 <= i < |g| :: g[i].user == g[0].user)
    && (forall i, j | 0 <= i < j < |g| :: g[i].seqno > g[j].seqno)
  }

  /** How many leading versions survive: everything above the oldest snapshot and the first
      one at or below it; just the newest when no snapshot is registered. */
  function KeepCount(g: seq<Entry>, oldest: Option<u64>): (n: nat)
    ensures n <= |g|
    ensures g != [] ==> n >= 1
  {
    if g == [] then 0
    else if oldest.None? || g[0].seqno <= oldest.value then 1
    else 1 + KeepCount(g[1..], oldest)
  }

  predicate DropsTombstone(kept: seq<Entry>, oldest: Option<u64>, below: bool) {
    && kept != []
    && kept[0].record.Tombstone?
    && !below
    && (oldest.None? || kept[0].seqno <= oldest.value)
  }

  /** The versions of one key a compaction writes out. */
  function Retained(g: seq<Entry>, oldest: Option<u64>, below: bool, now: u64): seq<Entry> {
    var kept := RewriteAll(g, now)[..KeepCount(g, oldest)];
    if DropsTombstone(kept, oldest, below) then [] else kept
  }

  method RetainVersions(g: seq<Entry>, oldest: Option<u64>, below: bool, now: u64) returns (retained: seq<Entry>)
    requires IsGroup(g)
    ensures retained == Retained(g, oldest, below, now)
  {
    var entries := [];
    for i := 0 to |g|
      invariant entries == RewriteAll(g, now)[..i]
    {
      if Expired(g[i].record, now) {
        entries := entries + [g[i].(record := Tombstone)];
      } else {
        entries := entries + [g[i]];
      }
    }
    assert entries == RewriteAll(g, now);
    retained := [];
    var keptBase := false;
    for i := 0 to |entries|
      invariant |retained| == (if i <= KeepCount(g, oldest) then i else KeepCount(g, oldest))
      invariant retained == entries[..|retained|]
      invariant oldest.Some? ==> (keptBase <==> i > 0 && g[i - 1].seqno <= oldest.value)
    {
      KeepCountAt(g, oldest, i);
      assert entries[i].seqno == g[i].seqno && (i > 0 ==> g[i - 1].seqno > g[i].seqno);
      var keep;
      if retained == [] {
        if oldest.Some? && entries[i].seqno <= oldest.value {
          keptBase := true;
        }
        keep := true;
      } else if oldest.Some? {
        if entries[i].seqno > oldest.value {
          keep := true;
        } else if !keptBase {
          keptBase := true;
          keep := true;
        } else {
          keep := false;
        }
      } else {
        keep := false;
      }
      assert keep <==> i < KeepCount(g, oldest);
      if keep {
        retained := retained + [entries[i]];
      }
    }
    if retained != [] && retained[0].record.Tombstone? && !below
       && (oldest.None? || retained[0].seqno <= oldest.value) {
      retained := [];
    }
  }

  /** A version is kept exactly when it is first, above the oldest snapshot, or just after one that is. */
  lemma {:induction false} KeepCountAt(g: seq<Entry>, oldest: Option<u64>, i: nat)
    requires IsGroup(g) && i < |g|
    ensures i < KeepCount(g, oldest) <==> i == 0 || (oldest.Some? && g[i - 1].seqno > oldest.value)
  {
    if i > 0 && oldest.Some? && g[0].seqno > oldest.value {
      KeepCountAt(g[1..], oldest, i - 1);
    }
  }

  // ----- One key -----

  /** Read sequences a compaction must serve. */
  predicate Served(at: u64, oldest: Option<u64>, newest: u64) {
    match oldest
    case Some(snapshot) => at >= snapshot
    case None => at >= newest
  }

  /** Position of the newest version visible at `at`. */
  function FirstVisible(g: seq<Entry>, at: u64): (k: nat)
    ensures k <= |g|
    ensures forall i | 0 <= i < k :: g[i].seqno > at
    ensures k < |g| ==> g[k].seqno <= at
  {
    if g == [] || g[0].seqno <= at then 0 else
      var k := 1 + FirstVisible(g[1..], at);
      assert forall i | 0 < i < |g| :: g[i] == g[1..][i - 1];
      k
  }

  lemma GroupNewest(g: seq<Entry>, user: bytes, at: u64)
    requires IsGroup(g) && forall e | e in g :: e.user == user
    ensures Functional(Entries(g))
    ensures Newest(Entries(g), user, at) ==
            var k := FirstVisible(g, at); if k < |g| then Some(g[k]) else None
  {
    GroupSorted(g);
    SortedFunctional(g);
    LessIrreflexive(user);
    LowerBoundIsNewest(g, user, at, FirstVisible(g, at));
  }

  lemma GroupSorted(g: seq<Entry>)
    requires IsGroup(g)
    ensures Sorted(g)
  {
  }

  lemma RetainedGroup(g: seq<Entry>, oldest: Option<u64>, below: bool, now: u64)
    requires IsGroup(g)
    ensures var r := Retained(g, oldest, below, now);
            && IsGroup(r) && |r| <= |g|
            && forall i | 0 <= i < |r| :: r[i] == Rewrite(g[i], now)
  {
  }

  /** Dropping history, tombstones and expired values of one key changes no served read. */
  lemma RetainedReads(g: seq<Entry>, lower: set<Entry>, user: bytes,
                      oldest: Option<u64>, below: bool, at: u64, ran: u64, now: u64)
    requires IsGroup(g) && forall e | e in g :: e.user == user
    requires Functional(lower) && NewerThan(Entries(g), lower)
    requires !below ==> forall e | e in lower :: e.user != user
    requires Served(at, oldest, if g == [] then 0 else g[0].seqno)
    requires now >= ran
    ensures Read(Entries(g) + lower, user, at, now) ==
            Read(Entries(Retained(g, oldest, below, ran)) + lower, user, at, now)
  {
    var r := Retained(g, oldest, below, ran);
    RetainedNewer(g, lower, user, oldest, below, ran);
    GroupNewest(g, user, at);
    GroupNewest(r, user, at);
    NewestOfLayers(Entries(g), lower, user, at);
    NewestOfLayers(Entries(r), lower, user, at);
    RetainedAnswer(g, oldest, below, at, ran, now);
    if !below {
      NewestNone(lower, user, at);
    }
  }

  /** The newest visible version is kept with the same answer, or it was a tombstone and nothing is kept. */
  lemma RetainedAnswer(g: seq<Entry>, oldest: Option<u64>, below: bool, at: u64, ran: u64, now: u64)
    requires IsGroup(g)
    requires Served(at, oldest, if g == [] then 0 else g[0].seqno)
    requires now >= ran
    ensures var r, k := Retained(g, oldest, below, ran), FirstVisible(g, at);
            if k == |g| then FirstVisible(r, at) == |r|
            else if k < |r| then FirstVisible(r, at) == k && Live(r[k].record, now) == Live(g[k].record, now)
            else r == [] && !below && Live(g[k].record, now) == None
  {
    var r, k := Retained(g, oldest, below, ran), FirstVisible(g, at);
    RetainedGroup(g, oldest, below, ran);
    if k < |g| {
      KeepCountAt(g, oldest, k);
      var kept := RewriteAll(g, ran)[..KeepCount(g, oldest)];
      if DropsTombstone(kept, oldest, below) {
        assert kept[0] == Rewrite(g[0], ran);
        assert k == 0;
      } else {
        assert r[k] == Rewrite(g[k], ran);
      }
    }
  }

  lemma RetainedNewer(g: seq<Entry>, lower: set<Entry>, user: bytes, oldest: Option<u64>, below: bool, now: u64)
    requires IsGroup(g) && (forall e | e in g :: e.user == user) && NewerThan(Entries(g), lower)
    ensures var r := Retained(g, oldest, below, now);
            && IsGroup(r) && (forall e | e in r :: e.user == user)
            && NewerThan(Entries(r), lower)
  {
    RetainedGroup(g, oldest, below, now);
    var r := Retained(g, oldest, below, now);
    forall e | e in r
      ensures exists o :: o in Entries(g) && o.user == e.user && o.seqno == e.seqno
    {
      var i :| 0 <= i < |r| && r[i] == e;
      assert g[i] in Entries(g);
    }
  }
}
