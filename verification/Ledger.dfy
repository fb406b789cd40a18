/** The issued batches, the versions they wrote, and tables that stand for a prefix of them. */
module Ledgers {
  import opened Bytes
  import opened Mvcc
  import opened MemTables
  import opened Compactions
  import opened Versions
  import opened Plans
  import opened Layouts
  import opened Install
  import opened Outputs
  import opened Stores

  /** Batch `i` was issued at sequence `i + 1`. */
  type Ledger = h: seq<Batch> | |h| < U64_MAX - 1

  /** The versions written by batches `a` up to `b`. */
  function Slice(h: Ledger, a: nat, b: nat): set<Entry>
    requires a <= b <= |h|
    decreases b - a
  {
    if a == b then {} else Slice(h, a, b - 1) + Effects(h[b - 1], b)
  }

  lemma {:induction false} SliceSequences(h: Ledger, a: nat, b: nat)
    requires a <= b <= |h|
    ensures forall e | e in Slice(h, a, b) :: a < e.seqno <= b
    ensures Functional(Slice(h, a, b))
    decreases b - a
  {
    if a < b {
      SliceSequences(h, a, b - 1);
      EffectsFunctional(h[b - 1], b);
    }
  }

  lemma {:induction false} SliceJoin(h: Ledger, a: nat, b: nat, c: nat)
    requires a <= b <= c <= |h|
    ensures Slice(h, a, c) == Slice(h, a, b) + Slice(h, b, c)
    decreases c - b
  {
    if b < c {
      SliceJoin(h, a, b, c - 1);
    }
  }

  lemma {:induction false} SlicePrefix(h: Ledger, m: nat, a: nat, b: nat)
    requires a <= b <= m <= |h|
    ensures Slice(h[..m], a, b) == Slice(h, a, b)
    decreases b - a
  {
    if a < b {
      SlicePrefix(h, m, a, b - 1);
    }
  }

  /** Above every stored sequence the read sequence does not matter. */
  lemma ReadAbove(s: set<Entry>, k: u64, user: bytes, at: u64, at': u64, now: u64)
    requires Functional(s) && UpTo(s, k) && at >= k && at' >= k
    ensures Read(s, user, at, now) == Read(s, user, at', now)
  {
    NewestNone(s, user, at);
    NewestNone(s, user, at');
    if Newest(s, user, at).Some? {
      var e := Newest(s, user, at).value;
      assert IsNewest(s, user, at', e);
      NewestIs(s, user, at', e);
    }
  }

  /** At or above sequence `k` the two sets give the same answers from time `clock` on. */
  ghost predicate SameAnswers(s: set<Entry>, t: set<Entry>, k: u64, clock: u64) {
    forall user: bytes, at: u64, now: u64 | at >= k && now >= clock :: Read(s, user, at, now) == Read(t, user, at, now)
  }

  /** The tables of a version stand for the first `k` batches. */
  ghost predicate Represents(v: Version, disk: Disk, h: Ledger, k: nat, clock: u64)
    requires k <= |h|
  {
    && Layered(v, disk)
    && UpTo(DiskEntries(v, disk), k)
    && SameAnswers(DiskEntries(v, disk), Slice(h, 0, k), k, clock)
  }

  lemma RepresentsPrefix(v: Version, disk: Disk, h: Ledger, m: nat, k: nat, clock: u64)
    requires k <= m <= |h| && Represents(v, disk, h, k, clock)
    ensures Represents(v, disk, h[..m], k, clock)
  {
    SlicePrefix(h, m, 0, k);
  }

  lemma RepresentsMore(v: Version, disk: Disk, h: Ledger, b: Batch, k: nat, clock: u64)
    requires k <= |h| && |h| + 1 < U64_MAX - 1 && Represents(v, disk, h, k, clock)
    ensures Represents(v, disk, h + [b], k, clock)
  {
    SlicePrefix(h + [b], |h|, 0, k);
    assert (h + [b])[..|h|] == h;
  }

  /** Newer versions on top of equal answers keep equal answers. */
  lemma AnswersUnder(upper: set<Entry>, s: set<Entry>, t: set<Entry>, k: u64, m: u64, clock: u64)
    requires Functional(upper) && Functional(s) && Functional(t) && k <= m
    requires UpTo(s, k) && UpTo(t, k) && forall e | e in upper :: e.seqno > k
    requires SameAnswers(s, t, k, clock)
    ensures SameAnswers(upper + s, upper + t, m, clock)
  {
    forall user: bytes, at: u64, now: u64 | at >= m && now >= clock
      ensures Read(upper + s, user, at, now) == Read(upper + t, user, at, now)
    {
      ReadThroughUpper(upper, s, t, user, at, now);
    }
  }

  // ----- Flush -----

  /** The store the flush lemmas speak about: one immutable table and an empty mutable one. */
  ghost function FlushStore(v: Version, disk: Disk, number: u64, t: seq<Entry>, k: nat): Store
    requires number < U64_MAX && k < U64_MAX
  {
    Store([[], t], Some(number), v, disk, number + 1, k, multiset{}, 0)
  }

  lemma EmptyOverTable(t: seq<Entry>, below: set<Entry>)
    requires Sorted(t) && NewerThan(Entries(t), below)
    ensures MemoryOrdered([[], t], below) && MemoryEntries([[], t]) == Entries(t)
  {
    var mem := [[], t];
    assert Entries(mem[0]) == {} && mem[1] == t;
    forall e | e in t ensures e in MemoryEntries(mem) {
      assert e in mem[1];
    }
  }

  lemma FlushStoreShaped(v: Version, disk: Disk, h: Ledger, a: nat, b: nat, number: u64, t: seq<Entry>)
    requires a < b <= |h| && Layered(v, disk) && UpTo(DiskEntries(v, disk), a)
    requires NumbersBelow(v, number) && number < U64_MAX
    requires t != [] && Sorted(t) && Entries(t) == Slice(h, a, b)
    ensures Shaped(FlushStore(v, disk, number, t, b))
  {
    SliceSequences(h, a, b);
    EmptyOverTable(t, DiskEntries(v, disk));
  }

  lemma FlushStoreCommits(s: Store, size: u64, w: Version, s': Store)
    requires Shaped(s) && |s.mem| == 2 && s.flushing.Some? && size != 0
    requires Applied(s.version, FlushEdit(s, size)) == Ok(w)
    requires s' == s.(mem := s.mem[..1], flushing := None, version := w, disk := s.disk[s.flushing.value := s.mem[1]])
    ensures Layered(w, s'.disk) && NumbersBelow(w, s.nextFile)
    ensures DiskEntries(w, s'.disk) == DiskEntries(s.version, s.disk) + Entries(s.mem[1])
  {
    FlushLayered(s, s', size);
    FlushDisk(s, s', size);
  }

  /** Adding the table of batches `a` up to `b` moves the represented prefix from `a` to `b`. */
  lemma FlushRepresents(v: Version, disk: Disk, h: Ledger, a: nat, b: nat, clock: u64, number: u64, size: u64,
                        t: seq<Entry>, w: Version)
    requires a < b <= |h| && Represents(v, disk, h, a, clock)
    requires NumbersBelow(v, number) && number < U64_MAX && size != 0
    requires t != [] && Sorted(t) && Entries(t) == Slice(h, a, b)
    requires Applied(v, FlushEdit(FlushStore(v, disk, number, t, b), size)) == Ok(w)
    ensures Represents(w, disk[number := t], h, b, clock) && NumbersBelow(w, number + 1)
  {
    var s := FlushStore(v, disk, number, t, b);
    FlushStoreShaped(v, disk, h, a, b, number, t);
    FlushStoreCommits(s, size, w, s.(mem := s.mem[..1], flushing := None, version := w, disk := disk[number := t]));
    DiskFunctional(v, disk);
    FlushAnswers(DiskEntries(v, disk), DiskEntries(w, disk[number := t]), h, a, b, clock);
  }

  lemma FlushAnswers(d: set<Entry>, d': set<Entry>, h: Ledger, a: nat, b: nat, clock: u64)
    requires a <= b <= |h| && Functional(d) && UpTo(d, a) && SameAnswers(d, Slice(h, 0, a), a, clock)
    requires d' == d + Slice(h, a, b)
    ensures SameAnswers(d', Slice(h, 0, b), b, clock) && UpTo(d', b)
  {
    SliceSequences(h, 0, a);
    SliceSequences(h, a, b);
    SliceJoin(h, 0, a, b);
    AnswersUnder(Slice(h, a, b), d, Slice(h, 0, a), a, b, clock);
    assert Slice(h, a, b) + d == d' && Slice(h, a, b) + Slice(h, 0, a) == Slice(h, 0, b);
  }

  // ----- Compaction -----

  /** Publishing a compaction leaves the represented prefix as it is. */
  lemma CompactRepresents(v: Version, disk: Disk, h: Ledger, k: nat, clock: u64, next: u64, p: Plan,
                          oldest: Option<u64>, below: bytes -> bool, ran: u64,
                          outputs: seq<seq<Entry>>, sizes: seq<u64>, w: Version)
    requires k <= |h| && Represents(v, disk, h, k, clock) && NumbersBelow(v, next)
    requires Closed(v, p) && forall key :: below(key) == MayExistBelow(v, p.inputLevel + 1, key)
    requires SplitByKey(outputs) && Flatten(outputs) == RetainAll(Merged(disk, p), oldest, below, ran)
    requires |sizes| == |outputs| && (forall i | 0 <= i < |sizes| :: sizes[i] != 0) && next + |outputs| <= U64_MAX
    requires Applied(v, CompactionEdit(p, OutputFiles(outputs, next, sizes), next + |outputs|)) == Ok(w)
    ensures Represents(w, WithOutputs(disk, outputs, next), h, k, if ran > clock then ran else clock)
    ensures NumbersBelow(w, next + |outputs|)
  {
    var d, d' := DiskEntries(v, disk), DiskEntries(w, WithOutputs(disk, outputs, next));
    RunOutputs(v, disk, p, oldest, below, ran, outputs);
    InstallMeaning(v, disk, p, outputs, next, sizes);
    InstallStored(v, disk, p, outputs, next, sizes, w);
    InstallOrdered(v, disk, p, outputs, next, sizes, w);
    InstallEntries(v, disk, p, outputs, next, sizes, w);
    CompactUpTo(v, disk, p, oldest, below, ran, outputs, k);
    DiskFunctional(v, disk);
    DiskFunctional(w, WithOutputs(disk, outputs, next));
    CompactAnswers(v, disk, k, p, oldest, below, ran, d', if ran > clock then ran else clock);
  }

  lemma CompactUpTo(v: Version, disk: Disk, p: Plan, oldest: Option<u64>, below: bytes -> bool, ran: u64,
                    outputs: seq<seq<Entry>>, k: nat)
    requires Closed(v, p) && Layered(v, disk) && k < U64_MAX && UpTo(DiskEntries(v, disk), k)
    requires Flatten(outputs) == RetainAll(Merged(disk, p), oldest, below, ran)
    ensures UpTo(Outside(v, disk, p) + Entries(Flatten(outputs)), k)
  {
    DiskSplit(v, disk, p);
    MergedSorted(v, disk, p);
    forall e | e in Flatten(outputs) ensures e.seqno <= k {
      RetainAllOrigin(Merged(disk, p), oldest, below, ran, e);
    }
  }

  lemma CompactAnswers(v: Version, disk: Disk, k: nat, p: Plan, oldest: Option<u64>, below: bytes -> bool, ran: u64,
                       d': set<Entry>, clock: u64)
    requires k < U64_MAX && Closed(v, p) && Layered(v, disk) && UpTo(DiskEntries(v, disk), k)
    requires forall key :: below(key) == MayExistBelow(v, p.inputLevel + 1, key)
    requires d' == Outside(v, disk, p) + Entries(RetainAll(Merged(disk, p), oldest, below, ran))
    requires Functional(DiskEntries(v, disk)) && Functional(d') && UpTo(d', k) && clock >= ran
    ensures SameAnswers(DiskEntries(v, disk), d', k, clock)
  {
    var d := DiskEntries(v, disk);
    forall user: bytes, at: u64, now: u64 | at >= k && now >= clock
      ensures Read(d, user, at, now) == Read(d', user, at, now)
    {
      var high: u64 := if oldest.Some? && oldest.value > at then oldest.value else at;
      ReadAbove(d, k, user, at, high, now);
      ReadAbove(d', k, user, at, high, now);
      CompactAnswersAt(v, disk, k, p, oldest, below, ran, d', user, high, now);
    }
  }

  lemma CompactAnswersAt(v: Version, disk: Disk, k: nat, p: Plan, oldest: Option<u64>, below: bytes -> bool, ran: u64,
                         d': set<Entry>, user: bytes, high: u64, now: u64)
    requires k < U64_MAX && Closed(v, p) && Layered(v, disk) && UpTo(DiskEntries(v, disk), k)
    requires forall key :: below(key) == MayExistBelow(v, p.inputLevel + 1, key)
    requires d' == Outside(v, disk, p) + Entries(RetainAll(Merged(disk, p), oldest, below, ran))
    requires high >= k && (oldest.Some? ==> high >= oldest.value) && now >= ran
    ensures Read(DiskEntries(v, disk), user, high, now) == Read(d', user, high, now)
  {
    var d := DiskEntries(v, disk);
    DiskSplit(v, disk, p);
    CompactionPreservesReads({}, v, disk, p, oldest, below, ran, user, high, now);
    assert {} + d == d && {} + Outside(v, disk, p) == Outside(v, disk, p);
  }
}
