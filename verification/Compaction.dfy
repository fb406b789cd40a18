/** One compaction run: merged input, per-key retention, and output splitting. */
module Compactions {
  import opened Bytes
  import opened InternalKeys
  import opened Mvcc
  import opened Iterators
  import opened Scans
  import opened Retention

  /** Everything a run writes, in table order. */
  function RetainAll(t: seq<Entry>, oldest: Option<u64>, below: bytes -> bool, now: u64): seq<Entry>
    decreases |t|
  {
    if t == [] then [] else
      var n := GroupEnd(t);
      Retained(t[..n], oldest, below(t[0].user), now) + RetainAll(t[n..], oldest, below, now)
  }

  /** The versions of one key in a sorted run. */
  function Group(t: seq<Entry>, user: bytes): seq<Entry>
    decreases |t|
  {
    if t == [] then []
    else if t[0].user == user then t[..GroupEnd(t)]
    else Group(t[GroupEnd(t)..], user)
  }

  lemma HeadGroup(t: seq<Entry>)
    requires Sorted(t) && t != []
    ensures IsGroup(t[..GroupEnd(t)])
    ensures forall e | e in t[..GroupEnd(t)] :: e.user == t[0].user
    ensures forall e | e in t[GroupEnd(t)..] :: Less(t[0].user, e.user)
  {
    LaterKeys(t);
    LessIrreflexive(t[0].user);
    var n := GroupEnd(t);
    forall i, j | 0 <= i < j < n ensures t[..n][i].seqno > t[..n][j].seqno {
      assert Before(t[i], t[j]);
    }
  }

  lemma {:induction false} GroupVersions(t: seq<Entry>, user: bytes)
    requires Sorted(t)
    ensures IsGroup(Group(t, user)) && forall e | e in Group(t, user) :: e.user == user
    ensures VersionsOf(Entries(t), user) == Entries(Group(t, user))
    decreases |t|
  {
    if t != [] {
      var n := GroupEnd(t);
      var head, rest := t[..n], t[n..];
      SplitAtGroup(t, user);
      if user != t[0].user {
        GroupVersions(rest, user);
      }
    }
  }

  lemma SplitAtGroup(t: seq<Entry>, user: bytes)
    requires Sorted(t) && t != []
    ensures var n := GroupEnd(t);
            && Sorted(t[n..])
            && IsGroup(t[..n]) && (forall e | e in t[..n] :: e.user == t[0].user)
            && VersionsOf(Entries(t), user) ==
                 (if user == t[0].user then Entries(t[..n]) else VersionsOf(Entries(t[n..]), user))
            && (user == t[0].user ==> VersionsOf(Entries(t[n..]), user) == {})
  {
    var n := GroupEnd(t);
    var head, rest := t[..n], t[n..];
    SortedSuffix(t, n);
    HeadGroup(t);
    LessIrreflexive(t[0].user);
    VersionsAround(head, rest, t[0].user, user);
    TakeDrop(t, n);
  }

  lemma VersionsAround(head: seq<Entry>, rest: seq<Entry>, first: bytes, user: bytes)
    requires forall e | e in head :: e.user == first
    requires forall e | e in rest :: e.user != first
    ensures VersionsOf(Entries(head + rest), user) ==
              (if user == first then Entries(head) else VersionsOf(Entries(rest), user))
    ensures user == first ==> VersionsOf(Entries(rest), user) == {}
  {
    EntriesConcat(head, rest);
    VersionsOfUnion(Entries(head), Entries(rest), user);
    if user == first {
      VersionsOfAll(Entries(head), user);
      VersionsOfNone(Entries(rest), user);
    } else {
      VersionsOfNone(Entries(head), user);
    }
  }

  /** Retention works key by key. */
  lemma {:induction false} RetainAllByKey(t: seq<Entry>, oldest: Option<u64>, below: bytes -> bool, now: u64,
                                          user: bytes)
    requires Sorted(t)
    ensures VersionsOf(Entries(RetainAll(t, oldest, below, now)), user)
         == Entries(Retained(Group(t, user), oldest, below(user), now))
    decreases |t|
  {
    if t != [] {
      var n := GroupEnd(t);
      var head, rest := t[..n], t[n..];
      var first := Retained(head, oldest, below(t[0].user), now);
      var others := RetainAll(rest, oldest, below, now);
      SplitAtGroup(t, user);
      RetainAllByKey(rest, oldest, below, now, user);
      EntriesConcat(first, others);
      VersionsOfUnion(Entries(first), Entries(others), user);
      RetainedUsers(head, oldest, below(t[0].user), now, t[0].user);
      if user == t[0].user {
        VersionsOfAll(Entries(first), user);
        GroupVersions(rest, user);
        EmptyGroup(rest, user, oldest, below(user), now);
      } else {
        VersionsOfNone(Entries(first), user);
      }
    }
  }

  lemma RetainedUsers(g: seq<Entry>, oldest: Option<u64>, below: bool, now: u64, user: bytes)
    requires IsGroup(g) && forall e | e in g :: e.user == user
    ensures forall e | e in Retained(g, oldest, below, now) ::
              e.user == user && exists f :: f in g && f.seqno == e.seqno && e == Rewrite(f, now)
  {
    var r := Retained(g, oldest, below, now);
    RetainedGroup(g, oldest, below, now);
    forall e | e in r ensures exists f :: f in g && f.user == e.user && f.seqno == e.seqno && e == Rewrite(f, now) {
      var i :| 0 <= i < |r| && r[i] == e;
      assert g[i] in g;
    }
  }

  lemma EmptyGroup(t: seq<Entry>, user: bytes, oldest: Option<u64>, below: bool, now: u64)
    requires Entries(Group(t, user)) == {}
    ensures Retained(Group(t, user), oldest, below, now) == []
  {
    var g := Group(t, user);
    assert forall i | 0 <= i < |g| :: g[i] in Entries(g);
  }

  /** Each version written comes from an input version of the same key and sequence. */
  lemma RetainAllOrigin(t: seq<Entry>, oldest: Option<u64>, below: bytes -> bool, now: u64, e: Entry)
    requires Sorted(t) && e in RetainAll(t, oldest, below, now)
    ensures exists f :: f in t && f.user == e.user && f.seqno == e.seqno && e == Rewrite(f, now)
  {
    RetainAllByKey(t, oldest, below, now, e.user);
    GroupVersions(t, e.user);
    var g := Group(t, e.user);
    RetainedUsers(g, oldest, below(e.user), now, e.user);
    assert e in VersionsOf(Entries(RetainAll(t, oldest, below, now)), e.user);
    var f :| f in g && f.seqno == e.seqno && e == Rewrite(f, now);
    assert f in VersionsOf(Entries(t), e.user);
  }

  lemma {:induction false} RetainAllSorted(t: seq<Entry>, oldest: Option<u64>, below: bytes -> bool, now: u64)
    requires Sorted(t)
    ensures Sorted(RetainAll(t, oldest, below, now))
    decreases |t|
  {
    if t != [] {
      var n := GroupEnd(t);
      HeadGroup(t);
      SortedSuffix(t, n);
      RetainAllSorted(t[n..], oldest, below, now);
      var first := Retained(t[..n], oldest, below(t[0].user), now);
      var rest := RetainAll(t[n..], oldest, below, now);
      RetainedGroup(t[..n], oldest, below(t[0].user), now);
      GroupSorted(first);
      RetainedUsers(t[..n], oldest, below(t[0].user), now, t[0].user);
      forall e, f | e in first && f in rest ensures Before(e, f) {
        RetainAllOrigin(t[n..], oldest, below, now, f);
      }
      SortedConcat(first, rest);
    }
  }

  lemma SortedConcat(a: seq<Entry>, b: seq<Entry>)
    requires Sorted(a) && Sorted(b)
    requires forall e, f | e in a && f in b :: Before(e, f)
    ensures Sorted(a + b)
  {
    var s := a + b;
    forall i, j | 0 <= i < j < |s| ensures Before(s[i], s[j]) {
      if i < |a| <= j {
        assert s[i] in a && s[j] in b;
      }
    }
  }

  // ----- Meaning -----

  /** Versions outside the run are, key by key, newer than the whole run or older than it;
      older ones only where the key may exist below the output level. */
  ghost predicate Sandwiched(outside: set<Entry>, run: set<Entry>, below: bytes -> bool) {
    forall x | x in outside :: Above(x, run) || (below(x.user) && Beneath(x, run))
  }

  ghost predicate Above(x: Entry, run: set<Entry>) {
    forall e | e in run && e.user == x.user :: x.seqno > e.seqno
  }

  ghost predicate Beneath(x: Entry, run: set<Entry>) {
    forall e | e in run && e.user == x.user :: x.seqno < e.seqno
  }

  /** At least the oldest snapshot, or at least every version in the run when there is none. */
  ghost predicate ServedBy(at: u64, oldest: Option<u64>, run: set<Entry>) {
    match oldest
    case Some(snapshot) => at >= snapshot
    case None => forall e | e in run :: at >= e.seqno
  }

  /** The key's versions outside the run, split around the run. */
  lemma SplitOutside(outside: set<Entry>, run: set<Entry>, below: bytes -> bool, user: bytes)
      returns (upper: set<Entry>, lower: set<Entry>)
    requires Functional(outside) && Sandwiched(outside, run, below)
    ensures upper + lower == VersionsOf(outside, user)
    ensures Functional(upper) && Functional(lower) && NewerThan(upper, lower)
    ensures NewerThan(upper, VersionsOf(run, user)) && NewerThan(VersionsOf(run, user), lower)
    ensures !below(user) ==> forall e | e in lower :: e.user != user
  {
    upper := set x | x in outside && x.user == user && Above(x, run);
    lower := set x | x in outside && x.user == user && !Above(x, run);
    forall x, y | x in upper && y in lower ensures x.seqno > y.seqno {
      var e :| e in run && e.user == y.user && y.seqno <= e.seqno;
      assert Beneath(y, run);
    }
  }

  /** A run changes no served read at or after its own time. */
  lemma RunPreservesReads(outside: set<Entry>, t: seq<Entry>, oldest: Option<u64>, below: bytes -> bool, ran: u64,
                          user: bytes, at: u64, now: u64)
    requires Functional(outside) && Sorted(t) && Sandwiched(outside, Entries(t), below)
    requires ServedBy(at, oldest, Entries(t)) && now >= ran
    ensures Read(outside + Entries(t), user, at, now) ==
            Read(outside + Entries(RetainAll(t, oldest, below, ran)), user, at, now)
  {
    var g := Group(t, user);
    RetainAllByKey(t, oldest, below, ran, user);
    GroupVersions(t, user);
    assert g != [] ==> g[0] in Entries(g) && g[0] in Entries(t);
    var upper, lower := SplitOutside(outside, Entries(t), below, user);
    VersionsOfUnion(outside, Entries(t), user);
    VersionsOfUnion(outside, Entries(RetainAll(t, oldest, below, ran)), user);
    var kept := Retained(g, oldest, below(user), ran);
    assert (upper + lower) + Entries(g) == upper + (Entries(g) + lower);
    assert (upper + lower) + Entries(kept) == upper + (Entries(kept) + lower);
    KeyPreserved(outside + Entries(t), outside + Entries(RetainAll(t, oldest, below, ran)),
                 upper, g, lower, user, oldest, below(user), at, ran, now);
  }

  lemma KeyPreserved(s: set<Entry>, s': set<Entry>, upper: set<Entry>, g: seq<Entry>, lower: set<Entry>, user: bytes,
                     oldest: Option<u64>, below: bool, at: u64, ran: u64, now: u64)
    requires IsGroup(g) && (forall e | e in g :: e.user == user)
    requires Functional(upper) && Functional(lower)
    requires NewerThan(upper, lower) && NewerThan(upper, Entries(g)) && NewerThan(Entries(g), lower)
    requires !below ==> forall e | e in lower :: e.user != user
    requires Served(at, oldest, if g == [] then 0 else g[0].seqno) && now >= ran
    requires VersionsOf(s, user) == upper + (Entries(g) + lower)
    requires VersionsOf(s', user) == upper + (Entries(Retained(g, oldest, below, ran)) + lower)
    ensures Read(s, user, at, now) == Read(s', user, at, now)
  {
    var kept := Retained(g, oldest, below, ran);
    RetainedReads(g, lower, user, oldest, below, at, ran, now);
    RetainedNewer(g, lower, user, oldest, below, ran);
    KeptUnder(upper, g, oldest, below, ran);
    ReadAsLayers(s, upper, Entries(g), lower, user, at);
    ReadAsLayers(s', upper, Entries(kept), lower, user, at);
    ReadThroughUpper(upper, Entries(g) + lower, Entries(kept) + lower, user, at, now);
  }

  lemma ReadAsLayers(s: set<Entry>, upper: set<Entry>, middle: set<Entry>, lower: set<Entry>, user: bytes, at: u64)
    requires VersionsOf(s, user) == upper + (middle + lower)
    requires Functional(upper) && Functional(middle) && Functional(lower)
    requires NewerThan(upper, middle) && NewerThan(upper, lower) && NewerThan(middle, lower)
    ensures Functional(middle + lower) && NewerThan(upper, middle + lower)
    ensures Newest(s, user, at) == Newest(upper + (middle + lower), user, at)
  {
    FunctionalUnion(middle, lower);
    FunctionalUnion(upper, middle + lower);
    NewestOfKey(s, user, at);
  }

  lemma KeptUnder(upper: set<Entry>, g: seq<Entry>, oldest: Option<u64>, below: bool, now: u64)
    requires IsGroup(g) && NewerThan(upper, Entries(g))
    ensures NewerThan(upper, Entries(Retained(g, oldest, below, now)))
    ensures Functional(Entries(g)) && Functional(Entries(Retained(g, oldest, below, now)))
  {
    var r := Retained(g, oldest, below, now);
    RetainedGroup(g, oldest, below, now);
    GroupSorted(g);
    SortedFunctional(g);
    GroupSorted(r);
    SortedFunctional(r);
    forall e | e in r ensures exists o :: o in Entries(g) && o.user == e.user && o.seqno == e.seqno {
      var i :| 0 <= i < |r| && r[i] == e;
      assert g[i] in Entries(g);
    }
  }

  // ----- The run -----

  /** Bytes charged for an entry when splitting outputs: encoded key plus encoded value. */
  function EntrySize(e: Entry): nat {
    |Encode(Key(e))| + 6 + match e.record
      case Stored(value, expires) => |value| + (if expires.Some? then 8 else 0)
      case Tombstone => 0
  }

  function GroupSize(g: seq<Entry>): nat {
    if g == [] then 0 else EntrySize(g[0]) + GroupSize(g[1..])
  }

  function Flatten(outputs: seq<seq<Entry>>): seq<Entry> {
    if outputs == [] then [] else Flatten(outputs[..|outputs| - 1]) + outputs[|outputs| - 1]
  }

  predicate UserBefore(e: Entry, f: Entry) {
    Less(e.user, f.user)
  }

  /** All user keys of `a` precede all user keys of `b`. */
  ghost predicate KeysPrecede(a: seq<Entry>, b: seq<Entry>) {
    forall e, f {:trigger UserBefore(e, f)} | e in a && f in b :: UserBefore(e, f)
  }

  /** Nonempty outputs over ascending, disjoint user-key ranges. */
  ghost predicate SplitByKey(outputs: seq<seq<Entry>>) {
    && (forall i | 0 <= i < |outputs| :: outputs[i] != [])
    && (forall i, j | 0 <= i < j < |outputs| :: KeysPrecede(outputs[i], outputs[j]))
  }

  ghost predicate AllPrecede(outputs: seq<seq<Entry>>, b: seq<Entry>) {
    forall i | 0 <= i < |outputs| :: KeysPrecede(outputs[i], b)
  }

  /** Finished outputs, the open output and the unread input follow each other in key order. */
  ghost predicate InKeyOrder(outputs: seq<seq<Entry>>, builder: seq<Entry>, rest: seq<Entry>) {
    && SplitByKey(outputs)
    && AllPrecede(outputs, builder) && AllPrecede(outputs, rest)
    && KeysPrecede(builder, rest)
  }

  /** Merges, retains per key and splits near the target size without splitting a key. */
  method Run(merged: seq<Entry>, oldest: Option<u64>, below: bytes -> bool, now: u64, target: nat)
      returns (outputs: seq<seq<Entry>>)
    requires Sorted(merged)
    ensures Flatten(outputs) == RetainAll(merged, oldest, below, now)
    ensures SplitByKey(outputs)
  {
    outputs := [];
    var builder: seq<Entry> := [];
    var estimated := 0;
    var position := 0;
    ghost var written: seq<Entry> := [];
    TakeDrop(merged, 0);
    while position < |merged|
      invariant position <= |merged| && Sorted(merged[position..])
      invariant written + RetainAll(merged[position..], oldest, below, now) == RetainAll(merged, oldest, below, now)
      invariant written == Flatten(outputs) + builder
      invariant InKeyOrder(outputs, builder, merged[position..])
    {
      var retained, next := RetainNext(merged, position, oldest, below, now);
      OrderStep(outputs, builder, merged[position..], retained);
      ConcatAssociative(written, retained, RetainAll(merged[next..], oldest, below, now));
      FlattenMore(outputs, builder, retained);
      position := next;
      if retained == [] {
        continue;
      }
      written := written + retained;
      var groupBytes := GroupSize(retained);
      if builder != [] && estimated != 0 && estimated + groupBytes > target {
        outputs, builder, estimated := outputs + [builder], retained, groupBytes;
      } else {
        builder, estimated := builder + retained, estimated + groupBytes;
      }
    }
    ConcatAssociative(written, [], []);
    if builder != [] {
      SplitMore(outputs, builder);
      FlattenMore(outputs, builder, []);
      outputs := outputs + [builder];
    }
  }

  /** Retains the versions of the key at `position`. */
  method RetainNext(merged: seq<Entry>, position: nat, oldest: Option<u64>, below: bytes -> bool, now: u64)
      returns (retained: seq<Entry>, next: nat)
    requires position < |merged| && Sorted(merged[position..])
    ensures position < next <= |merged| && Sorted(merged[next..])
    ensures var rest := merged[position..];
            && merged[next..] == rest[GroupEnd(rest)..]
            && RetainAll(rest, oldest, below, now) == retained + RetainAll(merged[next..], oldest, below, now)
            && (forall e | e in retained :: e.user == rest[0].user)
            && (forall e | e in rest[GroupEnd(rest)..] :: Less(rest[0].user, e.user))
  {
    ghost var rest := merged[position..];
    next := EndOfKey(merged, position);
    HeadGroup(rest);
    SortedSuffix(rest, next - position);
    DropDrop(merged, position, next);
    retained := RetainVersions(merged[position..next], oldest, below(merged[position].user), now);
    RetainedUsers(merged[position..next], oldest, below(merged[position].user), now, rest[0].user);
  }

  /** Position after the last version of the key at `position`. */
  method EndOfKey(merged: seq<Entry>, position: nat) returns (next: nat)
    requires position < |merged|
    ensures next == position + GroupEnd(merged[position..])
  {
    next := position + 1;
    while next < |merged| && merged[next].user == merged[position].user
      invariant position < next <= |merged|
      invariant forall i | position <= i < next :: merged[i].user == merged[position].user
    {
      next := next + 1;
    }
    GroupEndIs(merged[position..], next - position);
  }

  lemma FlattenMore(outputs: seq<seq<Entry>>, builder: seq<Entry>, retained: seq<Entry>)
    ensures Flatten(outputs + [builder]) == Flatten(outputs) + builder
    ensures Flatten(outputs) + (builder + retained) == (Flatten(outputs) + builder) + retained
    ensures retained == [] ==> (Flatten(outputs) + builder) + retained == Flatten(outputs) + builder
  {
    ConcatParts(outputs, [builder]);
  }

  lemma SplitMore(outputs: seq<seq<Entry>>, builder: seq<Entry>)
    requires SplitByKey(outputs) && AllPrecede(outputs, builder) && builder != []
    ensures SplitByKey(outputs + [builder])
  {
  }

  /** A retained group may join the open output or start a new one. */
  lemma OrderStep(outputs: seq<seq<Entry>>, builder: seq<Entry>, rest: seq<Entry>, retained: seq<Entry>)
    requires rest != [] && InKeyOrder(outputs, builder, rest)
    requires forall e | e in retained :: e.user == rest[0].user
    requires forall e | e in rest[GroupEnd(rest)..] :: Less(rest[0].user, e.user)
    ensures InKeyOrder(outputs, builder, rest[GroupEnd(rest)..])
    ensures InKeyOrder(outputs, builder + retained, rest[GroupEnd(rest)..])
    ensures builder != [] ==> InKeyOrder(outputs + [builder], retained, rest[GroupEnd(rest)..])
  {
    var later := rest[GroupEnd(rest)..];
    forall i | 0 <= i < |outputs|
      ensures KeysPrecede(outputs[i], retained) && KeysPrecede(outputs[i], later)
    {
      PrecedeStep(outputs[i], rest, retained);
    }
    PrecedeStep(builder, rest, retained);
    if builder != [] {
      SplitMore(outputs, builder);
    }
  }

  lemma PrecedeStep(a: seq<Entry>, rest: seq<Entry>, retained: seq<Entry>)
    requires rest != [] && KeysPrecede(a, rest)
    requires forall e | e in retained :: e.user == rest[0].user
    requires forall e | e in rest[GroupEnd(rest)..] :: Less(rest[0].user, e.user)
    ensures KeysPrecede(a, retained) && KeysPrecede(a, rest[GroupEnd(rest)..])
    ensures KeysPrecede(retained, rest[GroupEnd(rest)..]) && KeysPrecede(a + retained, rest[GroupEnd(rest)..])
  {
    var later := rest[GroupEnd(rest)..];
    forall e, f | e in a && f in retained ensures UserBefore(e, f) {
      assert UserBefore(e, rest[0]);
    }
    assert forall f | f in later :: f in rest;
  }
}
