/** What a scan of merged runs returns, in terms of point reads, and prefix scans. */
module Scans {
  import opened Bytes
  import opened Mvcc
  import opened Iterators

  lemma {:induction false} ConsideredIsNewest(start: Option<Entry>, g: seq<Entry>, user: bytes, at: u64)
    requires forall i | 0 <= i < |g| :: g[i].user == user
    requires start.Some? ==> Visible(start.value, user, at)
    ensures var all := Entries(g) + (if start.Some? then {start.value} else {});
            match Considered(start, g, at)
            case Some(e) => IsNewest(all, user, at, e)
            case None => forall e | e in all :: !Visible(e, user, at)
    decreases |g|
  {
    if g != [] {
      ConsideredIsNewest(Consider(start, g[0], at), g[1..], user, at);
      assert g == [g[0]] + g[1..];
      assert Entries(g) == {g[0]} + Entries(g[1..]);
    }
  }

  /** A group of a sorted run answers reads of its key; the rest answers every other key. */
  lemma GroupReads(t: seq<Entry>, user: bytes, at: u64)
    requires Sorted(t) && t != []
    ensures user == t[0].user ==> Newest(Entries(t), user, at) == Considered(None, t[..GroupEnd(t)], at)
    ensures user != t[0].user ==> Newest(Entries(t), user, at) == Newest(Entries(t[GroupEnd(t)..]), user, at)
  {
    var n := GroupEnd(t);
    var head, rest := t[..n], t[n..];
    assert t == head + rest;
    assert Entries(t) == Entries(head) + Entries(rest);
    SortedFunctional(t);
    SortedSuffix(t, n);
    SortedFunctional(rest);
    LaterKeys(t);
    LessIrreflexive(t[0].user);
    if user == t[0].user {
      ConsideredIsNewest(None, head, user, at);
      NewestNone(Entries(t), user, at);
      var newest := Considered(None, head, at);
      if newest.Some? {
        assert IsNewest(Entries(t), user, at, newest.value);
        NewestIs(Entries(t), user, at, newest.value);
      }
    } else {
      NewestLocal(Entries(t), Entries(rest), user, at);
    }
  }

  lemma LaterKeys(t: seq<Entry>)
    requires Sorted(t) && t != []
    ensures forall e | e in t[GroupEnd(t)..] :: Less(t[0].user, e.user)
  {
    var n := GroupEnd(t);
    forall i | n <= i < |t| ensures Less(t[0].user, t[i].user) {
      assert Before(t[0], t[n]);
      if n < i {
        assert Before(t[n], t[i]);
        LaterUser(t[0], t[n], t[i]);
      }
    }
  }

  lemma LaterUser(a: Entry, b: Entry, c: Entry)
    requires Less(a.user, b.user) && Before(b, c)
    ensures Less(a.user, c.user)
  {
    if Less(b.user, c.user) {
      LessTransitive(a.user, b.user, c.user);
    }
  }

  /** Rows ascend, and each is a live in-bounds key with the value a point read returns. */
  ghost predicate RowsAreReads(rows: seq<(bytes, bytes)>, s: set<Entry>, b: ScanBounds, at: u64, now: u64) {
    && (forall i, j | 0 <= i < j < |rows| :: Less(rows[i].0, rows[j].0))
    && (forall i | 0 <= i < |rows| ::
          InBounds(b, rows[i].0) && Read(s, rows[i].0, at, now) == Some(rows[i].1))
  }

  /** A live in-bounds key is missing only because the limit was reached on smaller keys. */
  ghost predicate NothingSkipped(rows: seq<(bytes, bytes)>, s: set<Entry>, b: ScanBounds, at: u64, now: u64,
                                 limit: nat) {
    forall user | InBounds(b, user) && Read(s, user, at, now).Some? ::
      || (user, Read(s, user, at, now).value) in rows
      || (|rows| == limit && forall i | 0 <= i < |rows| :: Less(rows[i].0, user))
  }

  ghost predicate RowsComeFrom(rows: seq<(bytes, bytes)>, t: seq<Entry>) {
    forall i | 0 <= i < |rows| :: exists e :: e in t && e.user == rows[i].0
  }

  ghost predicate ScanIs(rows: seq<(bytes, bytes)>, t: seq<Entry>, b: ScanBounds, at: u64, now: u64, limit: nat) {
    && |rows| <= limit
    && RowsComeFrom(rows, t)
    && RowsAreReads(rows, Entries(t), b, at, now)
    && NothingSkipped(rows, Entries(t), b, at, now, limit)
  }

  lemma ReadHasEntry(t: seq<Entry>, user: bytes, at: u64, now: u64)
    ensures Read(Entries(t), user, at, now).Some? ==> exists i :: 0 <= i < |t| && t[i].user == user
  {
    if Read(Entries(t), user, at, now).Some? {
      var e := Newest(Entries(t), user, at).value;
      var i :| 0 <= i < |t| && t[i] == e;
    }
  }

  /** Rows of the rest of the stream read the same from the whole stream. */
  lemma RestReads(t: seq<Entry>, rows: seq<(bytes, bytes)>, at: u64, now: u64, i: nat)
    requires Sorted(t) && t != [] && i < |rows| && RowsComeFrom(rows, t[GroupEnd(t)..])
    ensures Less(t[0].user, rows[i].0)
    ensures Read(Entries(t), rows[i].0, at, now) == Read(Entries(t[GroupEnd(t)..]), rows[i].0, at, now)
    ensures exists e :: e in t && e.user == rows[i].0
  {
    var n := GroupEnd(t);
    var e :| e in t[n..] && e.user == rows[i].0;
    assert e in t;
    LaterKeys(t);
    GroupReads(t, e.user, at);
    LessIrreflexive(t[0].user);
  }

  lemma LiftRows(t: seq<Entry>, b: ScanBounds, at: u64, now: u64, rows: seq<(bytes, bytes)>)
    requires Sorted(t) && t != []
    requires RowsComeFrom(rows, t[GroupEnd(t)..])
    requires RowsAreReads(rows, Entries(t[GroupEnd(t)..]), b, at, now)
    ensures RowsComeFrom(rows, t) && RowsAreReads(rows, Entries(t), b, at, now)
    ensures forall i | 0 <= i < |rows| :: Less(t[0].user, rows[i].0)
  {
    forall i | 0 <= i < |rows|
      ensures Less(t[0].user, rows[i].0)
      ensures exists e :: e in t && e.user == rows[i].0
      ensures Read(Entries(t), rows[i].0, at, now) == Some(rows[i].1)
    {
      RestReads(t, rows, at, now, i);
    }
  }

  lemma ConsRow(r: (bytes, bytes), rows: seq<(bytes, bytes)>, t: seq<Entry>, b: ScanBounds, at: u64, now: u64)
    requires RowsComeFrom(rows, t) && RowsAreReads(rows, Entries(t), b, at, now)
    requires t != [] && r.0 == t[0].user && forall i | 0 <= i < |rows| :: Less(r.0, rows[i].0)
    requires InBounds(b, r.0) && Read(Entries(t), r.0, at, now) == Some(r.1)
    ensures RowsComeFrom([r] + rows, t) && RowsAreReads([r] + rows, Entries(t), b, at, now)
  {
    var all := [r] + rows;
    assert t[0] in t;
    assert forall i | 0 < i < |all| :: all[i] == rows[i - 1];
  }

  lemma SkippedKey(t: seq<Entry>, b: ScanBounds, at: u64, now: u64, limit: nat, rows: seq<(bytes, bytes)>)
    requires Sorted(t) && OutcomeOf(t, b, at, now) == Skip
    requires ScanIs(rows, t[GroupEnd(t)..], b, at, now, limit)
    ensures ScanIs(rows, t, b, at, now, limit)
  {
    LiftRows(t, b, at, now, rows);
    forall user | InBounds(b, user) && Read(Entries(t), user, at, now).Some?
      ensures || (user, Read(Entries(t), user, at, now).value) in rows
              || (|rows| == limit && forall i | 0 <= i < |rows| :: Less(rows[i].0, user))
    {
      GroupReads(t, user, at);
    }
  }

  lemma YieldedKey(t: seq<Entry>, b: ScanBounds, at: u64, now: u64, limit: nat, rows: seq<(bytes, bytes)>)
    requires Sorted(t) && limit > 0 && OutcomeOf(t, b, at, now).Row?
    requires ScanIs(rows, t[GroupEnd(t)..], b, at, now, limit - 1)
    ensures ScanIs([OutcomeOf(t, b, at, now).row] + rows, t, b, at, now, limit)
  {
    LiftRows(t, b, at, now, rows);
    GroupReads(t, t[0].user, at);
    ConsRow(OutcomeOf(t, b, at, now).row, rows, t, b, at, now);
    YieldedNothingSkipped(t, b, at, now, limit, rows);
  }

  lemma YieldedNothingSkipped(t: seq<Entry>, b: ScanBounds, at: u64, now: u64, limit: nat, rows: seq<(bytes, bytes)>)
    requires Sorted(t) && limit > 0 && OutcomeOf(t, b, at, now).Row?
    requires NothingSkipped(rows, Entries(t[GroupEnd(t)..]), b, at, now, limit - 1)
    ensures NothingSkipped([OutcomeOf(t, b, at, now).row] + rows, Entries(t), b, at, now, limit)
  {
    var rest := t[GroupEnd(t)..];
    var all := [OutcomeOf(t, b, at, now).row] + rows;
    forall user | InBounds(b, user) && Read(Entries(t), user, at, now).Some?
      ensures || (user, Read(Entries(t), user, at, now).value) in all
              || (|all| == limit && forall i | 0 <= i < |all| :: Less(all[i].0, user))
    {
      GroupReads(t, user, at);
      if user == t[0].user {
        assert all[0] == (user, Read(Entries(t), user, at, now).value);
      } else if (user, Read(Entries(t), user, at, now).value) in rows {
        assert (user, Read(Entries(t), user, at, now).value) in all;
      } else {
        ReadHasEntry(rest, user, at, now);
        var k :| 0 <= k < |rest| && rest[k].user == user;
        LaterKeys(t);
        assert rest[k] in rest;
      }
    }
  }

  lemma PastUpper(t: seq<Entry>, b: ScanBounds, at: u64, now: u64, limit: nat)
    requires Sorted(t) && OutcomeOf(t, b, at, now) == End
    ensures ScanIs([], t, b, at, now, limit)
  {
    forall user | InBounds(b, user)
      ensures Read(Entries(t), user, at, now) == None
    {
      ReadHasEntry(t, user, at, now);
      forall i | 0 <= i < |t| ensures t[i].user != user {
        if i > 0 {
          assert Before(t[0], t[i]);
          if Less(t[0].user, t[i].user) {
            UpperMonotone(b, t[0].user, t[i].user);
          }
        }
      }
    }
  }

  lemma NoRows(t: seq<Entry>, b: ScanBounds, at: u64, now: u64)
    ensures ScanIs([], t, b, at, now, 0)
  {
  }

  /** A scan yields exactly the first `limit` live in-bounds keys with their visible values. */
  lemma {:induction false} ScanMeaning(t: seq<Entry>, b: ScanBounds, at: u64, now: u64, limit: nat)
    requires Sorted(t)
    ensures ScanIs(Scan(t, b, at, now, limit), t, b, at, now, limit)
    decreases |t|
  {
    if limit == 0 {
      NoRows(t, b, at, now);
    } else if t == [] {
      PastUpper(t, b, at, now, limit);
    } else {
      ScanByOutcome(t, b, at, now, limit);
      var rest := t[GroupEnd(t)..];
      SortedSuffix(t, GroupEnd(t));
      match OutcomeOf(t, b, at, now) {
        case Row(r) =>
          ScanMeaning(rest, b, at, now, limit - 1);
          YieldedKey(t, b, at, now, limit, Scan(rest, b, at, now, limit - 1));
        case Skip =>
          ScanMeaning(rest, b, at, now, limit);
          SkippedKey(t, b, at, now, limit, Scan(rest, b, at, now, limit));
        case End =>
          PastUpper(t, b, at, now, limit);
      }
    }
  }

  // ----- Prefix bounds -----

  /** The prefix with its last byte below `ff` incremented and everything after it cut off. */
  function PrefixSuccessor(prefix: bytes): Option<bytes> {
    if prefix == [] then None
    else
      var n := |prefix| - 1;
      if prefix[n] == 0xff then PrefixSuccessor(prefix[..n])
      else Some(prefix[..n] + [prefix[n] + 1])
  }

  function PrefixBounds(prefix: bytes): ScanBounds {
    match PrefixSuccessor(prefix)
    case Some(successor) => ScanBounds(Included(prefix), Excluded(successor))
    case None => ScanBounds(Included(prefix), Unbounded)
  }

  /** Finds the successor by searching from the end, as the engine does. */
  method ComputePrefixSuccessor(prefix: bytes) returns (r: Option<bytes>)
    ensures r == PrefixSuccessor(prefix)
  {
    var index := |prefix|;
    assert prefix[..index] == prefix;
    while index > 0 && prefix[index - 1] == 0xff
      invariant 0 <= index <= |prefix|
      invariant PrefixSuccessor(prefix) == PrefixSuccessor(prefix[..index])
    {
      assert prefix[..index][..index - 1] == prefix[..index - 1];
      index := index - 1;
    }
    if index == 0 {
      return None;
    }
    assert prefix[..index][..index - 1] == prefix[..index - 1];
    return Some(prefix[..index - 1] + [prefix[index - 1] + 1]);
  }

  lemma AtLeastPrefix(prefix: bytes, key: bytes)
    ensures prefix <= key ==> LessEq(prefix, key)
    ensures LessEq(prefix, key) && !(prefix <= key) ==>
              var k := Shared(prefix, key); k < |prefix| && k < |key| && prefix[k] < key[k]
  {
    LessByShared(prefix, key);
    if prefix <= key {
      assert prefix[..|prefix|] == prefix == key[..|prefix|];
      SharedUnique(prefix, key, |prefix|);
    }
  }

  /** Below the successor means: no byte of the prefix is exceeded. */
  lemma {:induction false} BelowSuccessor(prefix: bytes, key: bytes)
    requires LessEq(prefix, key)
    ensures (PrefixSuccessor(prefix).Some? ==> Less(key, PrefixSuccessor(prefix).value)) <==> prefix <= key
  {
    AtLeastPrefix(prefix, key);
    if prefix != [] {
      var n := |prefix| - 1;
      var init := prefix[..n];
      var k := Shared(prefix, key);
      if prefix[n] == 0xff {
        InitLessEq(prefix, key);
        BelowSuccessor(init, key);
        AllFf(prefix, key);
      } else {
        var succ := init + [prefix[n] + 1];
        if prefix <= key {
          assert key[..n] == init && succ[..n] == init;
          LessAt(key, succ, n);
        } else if k < n {
          assert key[..k] == prefix[..k] == succ[..k];
          LessAt(key, succ, k);
        } else {
          assert key[..n] == init == succ[..n];
          assert key == key[..n] + key[n..];
          if key[n] == succ[n] {
            assert key[..n + 1] == succ;
            LessAt(key, succ, n + 1);
          } else {
            LessAt(key, succ, n);
          }
        }
      }
    }
  }

  lemma InitLessEq(prefix: bytes, key: bytes)
    requires prefix != [] && LessEq(prefix, key)
    ensures LessEq(prefix[..|prefix| - 1], key)
  {
    var init := prefix[..|prefix| - 1];
    assert init == prefix[..|prefix| - 1];
    LessAt(init, prefix, |prefix| - 1);
    if prefix != key {
      LessTransitive(init, prefix, key);
    }
  }

  lemma AllFf(prefix: bytes, key: bytes)
    requires prefix != [] && prefix[|prefix| - 1] == 0xff && LessEq(prefix, key)
    ensures prefix <= key <==> prefix[..|prefix| - 1] <= key
  {
    var n := |prefix| - 1;
    var init := prefix[..n];
    AtLeastPrefix(prefix, key);
    assert forall i | 0 <= i < n :: init[i] == prefix[i];
  }

  /** Prefix bounds hold exactly the keys that start with the prefix. */
  lemma PrefixBoundsExact(prefix: bytes, key: bytes)
    ensures InBounds(PrefixBounds(prefix), key) <==> prefix <= key
  {
    AtLeastPrefix(prefix, key);
    if LessEq(prefix, key) {
      BelowSuccessor(prefix, key);
    }
  }
}
