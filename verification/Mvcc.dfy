/** The specification object: a set of versions, read as "the newest version at or
    below the read sequence, hidden when it is a tombstone or has expired". */
module Mvcc {
  import opened Bytes
  import opened InternalKeys

  datatype Record = Stored(value: bytes, expires: Option<u64>) | Tombstone

  datatype Entry = Entry(user: bytes, seqno: u64, record: Record)

  function KindOf(r: Record): ValueKind {
    if r.Stored? then Value else Deletion
  }

  function Key(e: Entry): InternalKey {
    InternalKey(e.user, e.seqno, KindOf(e.record))
  }

  /** The bytes a reader at time `now` gets from a record. */
  function Live(r: Record, now: u64): Option<bytes> {
    match r
    case Stored(value, None) => Some(value)
    case Stored(value, Some(deadline)) => if deadline > now then Some(value) else None
    case Tombstone => None
  }

  predicate Visible(e: Entry, user: bytes, at: u64) {
    e.user == user && e.seqno <= at
  }

  /** At most one record per user key and sequence. */
  ghost predicate Functional(s: set<Entry>) {
    forall e, f | e in s && f in s && e.user == f.user && e.seqno == f.seqno :: e == f
  }

  ghost predicate IsNewest(s: set<Entry>, user: bytes, at: u64, e: Entry) {
    && e in s
    && Visible(e, user, at)
    && forall f | f in s && Visible(f, user, at) :: f.seqno <= e.seqno
  }

  ghost function Newest(s: set<Entry>, user: bytes, at: u64): Option<Entry> {
    if exists e :: IsNewest(s, user, at, e) then
      var e :| IsNewest(s, user, at, e);
      Some(e)
    else
      None
  }

  /** What a read of `user` at sequence `at` and time `now` must return. */
  ghost function Read(s: set<Entry>, user: bytes, at: u64, now: u64): Option<bytes> {
    match Newest(s, user, at)
    case None => None
    case Some(e) => Live(e.record, now)
  }

  lemma {:induction false} NewestExists(s: set<Entry>, user: bytes, at: u64, e: Entry)
    requires e in s && Visible(e, user, at)
    ensures exists f :: IsNewest(s, user, at, f)
    decreases at - e.seqno
  {
    if !IsNewest(s, user, at, e) {
      var f :| f in s && Visible(f, user, at) && f.seqno > e.seqno;
      NewestExists(s, user, at, f);
    }
  }

  lemma NewestIs(s: set<Entry>, user: bytes, at: u64, e: Entry)
    requires Functional(s) && IsNewest(s, user, at, e)
    ensures Newest(s, user, at) == Some(e)
  {
    var f := Newest(s, user, at).value;
    assert e.seqno == f.seqno;
  }

  lemma NewestNone(s: set<Entry>, user: bytes, at: u64)
    ensures Newest(s, user, at).None? <==> forall e | e in s :: !Visible(e, user, at)
  {
    if e :| e in s && Visible(e, user, at) {
      NewestExists(s, user, at, e);
    }
  }

  /** Only the versions of the key being read matter. */
  lemma NewestLocal(s: set<Entry>, t: set<Entry>, user: bytes, at: u64)
    requires Functional(s) && Functional(t)
    requires forall e | Visible(e, user, at) :: e in s <==> e in t
    ensures Newest(s, user, at) == Newest(t, user, at)
  {
    NewestNone(s, user, at);
    NewestNone(t, user, at);
    if Newest(s, user, at).Some? {
      assert IsNewest(t, user, at, Newest(s, user, at).value);
      NewestIs(t, user, at, Newest(s, user, at).value);
    }
  }

  ghost function VersionsOf(s: set<Entry>, user: bytes): set<Entry> {
    set e | e in s && e.user == user
  }

  lemma NewestOfKey(s: set<Entry>, user: bytes, at: u64)
    requires Functional(VersionsOf(s, user))
    ensures Newest(s, user, at) == Newest(VersionsOf(s, user), user, at)
  {
    var k := VersionsOf(s, user);
    NewestNone(s, user, at);
    NewestNone(k, user, at);
    if Newest(s, user, at).Some? {
      var e := Newest(s, user, at).value;
      assert IsNewest(k, user, at, e);
      NewestIs(k, user, at, e);
    }
  }

  lemma VersionsOfUnion(a: set<Entry>, b: set<Entry>, user: bytes)
    ensures VersionsOf(a + b, user) == VersionsOf(a, user) + VersionsOf(b, user)
  {
  }

  lemma VersionsOfAll(s: set<Entry>, user: bytes)
    requires forall e | e in s :: e.user == user
    ensures VersionsOf(s, user) == s
  {
  }

  lemma VersionsOfNone(s: set<Entry>, user: bytes)
    requires forall e | e in s :: e.user != user
    ensures VersionsOf(s, user) == {}
  {
  }

  // ----- Layers -----

  /** Every version in `upper` is newer than every version of the same key in `lower`. */
  ghost predicate NewerThan(upper: set<Entry>, lower: set<Entry>) {
    forall e, f | e in upper && f in lower && e.user == f.user :: e.seqno > f.seqno
  }

  lemma FunctionalUnion(upper: set<Entry>, lower: set<Entry>)
    requires Functional(upper) && Functional(lower) && NewerThan(upper, lower)
    ensures Functional(upper + lower)
  {
  }

  /** A visible version in the upper layer decides the read. */
  lemma NewestOfLayers(upper: set<Entry>, lower: set<Entry>, user: bytes, at: u64)
    requires Functional(upper) && Functional(lower) && NewerThan(upper, lower)
    ensures Newest(upper + lower, user, at) ==
            if Newest(upper, user, at).Some? then Newest(upper, user, at) else Newest(lower, user, at)
  {
    FunctionalUnion(upper, lower);
    NewestNone(upper, user, at);
    NewestNone(lower, user, at);
    NewestNone(upper + lower, user, at);
    if Newest(upper, user, at).Some? {
      NewestIs(upper + lower, user, at, Newest(upper, user, at).value);
    } else if Newest(lower, user, at).Some? {
      NewestIs(upper + lower, user, at, Newest(lower, user, at).value);
    }
  }

  /** Replacing the lower layer by one with the same answer keeps the answer. */
  lemma ReadThroughUpper(upper: set<Entry>, s: set<Entry>, t: set<Entry>, user: bytes, at: u64, now: u64)
    requires Functional(upper) && Functional(s) && Functional(t)
    requires NewerThan(upper, s) && NewerThan(upper, t)
    requires Read(s, user, at, now) == Read(t, user, at, now)
    ensures Read(upper + s, user, at, now) == Read(upper + t, user, at, now)
  {
    NewestOfLayers(upper, s, user, at);
    NewestOfLayers(upper, t, user, at);
  }

  // ----- Sorted runs -----

  function Entries(t: seq<Entry>): set<Entry> {
    set e | e in t
  }

  lemma EntriesConcat(a: seq<Entry>, b: seq<Entry>)
    ensures Entries(a + b) == Entries(a) + Entries(b)
  {
  }

  predicate Before(a: Entry, b: Entry) {
    Less(a.user, b.user) || (a.user == b.user && a.seqno > b.seqno)
  }

  /** Table order: user keys ascend and each key's versions run newest first. */
  predicate Sorted(t: seq<Entry>) {
    forall i, j {:trigger Before(t[i], t[j])} | 0 <= i < j < |t| :: Before(t[i], t[j])
  }

  lemma BeforeTransitive(a: Entry, b: Entry, c: Entry)
    requires Before(a, b) && Before(b, c)
    ensures Before(a, c)
  {
    if Less(a.user, b.user) && Less(b.user, c.user) {
      LessTransitive(a.user, b.user, c.user);
    }
  }

  lemma BeforeTotal(a: Entry, b: Entry)
    ensures Before(a, b) || Before(b, a) || (a.user == b.user && a.seqno == b.seqno)
    ensures Before(a, b) ==> !Before(b, a)
  {
    LessTotal(a.user, b.user);
    LessIrreflexive(a.user);
  }

  /** The order of entries is the byte order of their encoded keys. */
  lemma BeforeIsByteOrder(a: Entry, b: Entry)
    ensures Before(a, b) ==> Less(Encode(Key(a)), Encode(Key(b)))
    ensures Less(Encode(Key(a)), Encode(Key(b))) && !(a.user == b.user && a.seqno == b.seqno)
            ==> Before(a, b)
  {
    EncodingOrder(Key(a), Key(b));
  }

  lemma SortedCons(e: Entry, t: seq<Entry>)
    requires Sorted(t)
    requires forall f | f in t :: Before(e, f)
    ensures Sorted([e] + t)
  {
    var s := [e] + t;
    forall i, j | 0 <= i < j < |s| ensures Before(s[i], s[j]) {
      assert s[j] == t[j - 1] && t[j - 1] in t;
    }
  }

  lemma SortedSuffix(t: seq<Entry>, n: nat)
    requires Sorted(t) && n <= |t|
    ensures Sorted(t[n..])
  {
  }

  lemma SortedFunctional(t: seq<Entry>)
    requires Sorted(t)
    ensures Functional(Entries(t))
  {
    forall e, f | e in t && f in t && e.user == f.user && e.seqno == f.seqno
      ensures e == f
    {
      var i :| 0 <= i < |t| && t[i] == e;
      var j :| 0 <= j < |t| && t[j] == f;
      LessIrreflexive(e.user);
      assert !Before(t[i], t[j]) && !Before(t[j], t[i]);
    }
  }

  /** Entries ordered strictly before every version of `user` visible at `at`. */
  predicate BeforeSeek(e: Entry, user: bytes, at: u64) {
    Less(e.user, user) || (e.user == user && e.seqno > at)
  }

  /** `BeforeSeek` is the byte comparison with the seek key the engine builds. */
  lemma SeekIsByteOrder(e: Entry, user: bytes, at: u64)
    ensures BeforeSeek(e, user, at) <==> Less(Encode(Key(e)), Encode(InternalKey(user, at, Deletion)))
  {
    EncodingOrder(Key(e), InternalKey(user, at, Deletion));
  }

  /** In table order, the first entry not before the seek position answers the lookup. */
  lemma LowerBoundIsNewest(t: seq<Entry>, user: bytes, at: u64, i: nat)
    requires Sorted(t) && i <= |t|
    requires forall j | 0 <= j < i :: BeforeSeek(t[j], user, at)
    requires i < |t| ==> !BeforeSeek(t[i], user, at)
    ensures Newest(Entries(t), user, at) == if i < |t| && t[i].user == user then Some(t[i]) else None
  {
    SortedFunctional(t);
    LessIrreflexive(user);
    forall j | i < j < |t|
      ensures t[j].user == user ==> t[i].user == user && t[j].seqno < t[i].seqno
    {
      assert Before(t[i], t[j]);
      LessTotal(t[i].user, user);
    }
    if i < |t| && t[i].user == user {
      NewestIs(Entries(t), user, at, t[i]);
    } else {
      NewestNone(Entries(t), user, at);
    }
  }
}
