/** Recovery of the memory tables from the logs a manifest needs. */
module Reopening {
  import opened Bytes
  import opened Mvcc
  import opened MemTables
  import opened VersionSets
  import opened Layouts
  import opened Stores
  import opened Ledgers
  import opened Protocols
  import Durability

  /** The listed logs, ascending and without repetition. */
  predicate Listing(files: FileMap, numbers: seq<u64>) {
    && (forall i, j | 0 <= i < j < |numbers| :: numbers[i] < numbers[j])
    && (forall n | n in numbers :: Wal(n) in files)
  }

  predicate Legacy(meta: Meta) {
    meta.log == 0 && meta.active == 0
  }

  predicate Required(meta: Meta, n: u64) {
    Legacy(meta) || meta.log <= n <= meta.active
  }

  /** Applies one log to a new table, checking that sequences continue without a gap. */
  method ReplayLog(records: seq<Rec>, meta: Meta, last: u64, ghost h: Ledger, ghost b: nat)
      returns (r: Result<(seq<Entry>, u64)>)
    requires last <= b <= |h|
    ensures r.Ok? ==> Sorted(r.value.0)
    ensures records == Recs(h, last, b) && meta.last <= last ==>
              r.Ok? && r.value.1 == b && Entries(r.value.0) == Slice(h, last, b)
  {
    var table := new MemTable();
    var sequence := last;
    ghost var sound := records == Recs(h, last, b) && meta.last <= last;
    for i := 0 to |records|
      invariant table.Valid() && UpTo(table.Versions(), sequence)
      invariant sound ==> sequence == last + i && table.Versions() == Slice(h, last, last + i)
    {
      var record := records[i];
      if !record.BatchRec? {
        return Err;
      }
      if Legacy(meta) && record.seqno <= meta.last {
        continue;
      }
      if record.seqno == U64_MAX || sequence == U64_MAX || record.seqno != sequence + 1 {
        return Err;
      }
      var applied := table.Apply(record.seqno, record.batch);
      EffectsFunctional(record.batch, record.seqno);
      sequence := record.seqno;
    }
    return Ok((table.entries, sequence));
  }

  // ----- Walking the logs -----

  /** The first batch not covered by the first `j` segments. */
  function Covered(segs: seq<Seg>, j: nat, n: nat): nat
    requires j <= |segs|
  {
    if j < |segs| then segs[j].start else n
  }

  /** The remaining segments are exactly the segments among the remaining listed logs. */
  ghost predicate Ahead(segs: seq<Seg>, j: nat, numbers: seq<u64>, i: nat)
    requires j <= |segs| && i <= |numbers|
  {
    && (forall q | j <= q < |segs| :: segs[q].number in numbers[i..])
    && (forall q, k | 0 <= q < j && i <= k < |numbers| :: segs[q].number < numbers[k])
  }

  function NextSeg(segs: seq<Seg>, j: nat, n: u64): (r: nat)
    requires j <= |segs|
    ensures r <= |segs|
  {
    if j < |segs| && segs[j].number == n then j + 1 else j
  }

  /** The next listed log is the next segment or no segment at all. */
  lemma NextLog(segs: seq<Seg>, j: nat, numbers: seq<u64>, i: nat)
    requires j <= |segs| && i < |numbers| && Ahead(segs, j, numbers, i)
    requires forall a, b | 0 <= a < b < |segs| :: segs[a].number < segs[b].number
    requires forall a, b | 0 <= a < b < |numbers| :: numbers[a] < numbers[b]
    ensures IsSeg(segs, numbers[i]) ==> NextSeg(segs, j, numbers[i]) == j + 1
    ensures Ahead(segs, NextSeg(segs, j, numbers[i]), numbers, i + 1)
  {
    var n := numbers[i];
    forall q | j <= q < |segs|
      ensures segs[q].number >= n && (segs[q].number != n ==> segs[q].number in numbers[i + 1..])
    {
      var k :| 0 <= k < |numbers[i..]| && numbers[i..][k] == segs[q].number;
      assert k > 0 ==> numbers[i + 1..][k - 1] == segs[q].number && numbers[i] < numbers[i + k];
    }
    assert forall q | j < q < |segs| :: segs[j].number < segs[q].number;
    assert forall q | 0 <= q < j :: segs[q].number < n;
  }

  /** What one required log holds. */
  lemma LogContent(files: FileMap, l: Layout, h: Ledger, j: nat, n: u64)
    requires Stands(files, l, h, |h|) && SegsSound(l.segs, l.meta, |h|) && j <= |l.segs|
    requires Wal(n) in files && Required(l.meta, n)
    requires IsSeg(l.segs, n) ==> NextSeg(l.segs, j, n) == j + 1
    ensures var k := Covered(l.segs, j, |h|);
            var e := Covered(l.segs, NextSeg(l.segs, j, n), |h|);
            k <= e <= |h| && files[Wal(n)] == Recs(h, k, e) && l.meta.last <= k
  {
    if NextSeg(l.segs, j, n) == j + 1 {
      assert SegOn(files, l.segs, j, h, |h|);
    }
    assert j < |l.segs| && j > 0 ==> l.segs[0].start <= l.segs[j].start;
  }

  /** Replays one listed log on top of the tables rebuilt so far. */
  method ReplayNext(files: FileMap, n: u64, meta: Meta, mem: seq<seq<Entry>>, last: u64,
                    ghost l: Layout, ghost h: Ledger, ghost j: nat, ghost below: set<Entry>)
      returns (mem': seq<seq<Entry>>, last': u64)
    requires meta == l.meta && Stands(files, l, h, |h|) && SegsSound(l.segs, l.meta, |h|)
    requires Wal(n) in files && j <= |l.segs| && (IsSeg(l.segs, n) ==> NextSeg(l.segs, j, n) == j + 1)
    requires meta.last <= last == Covered(l.segs, j, |h|) <= |h| && UpTo(below, meta.last)
    requires mem in Rebuilds(below, h, meta.last, last)
    ensures last' == Covered(l.segs, NextSeg(l.segs, j, n), |h|)
    ensures meta.last <= last' <= |h| && mem' in Rebuilds(below, h, meta.last, last')
  {
    if !Required(meta, n) {
      SegNumbers(l, |h|);
      return mem, last;
    }
    LogContent(files, l, h, j, n);
    ghost var end := Covered(l.segs, NextSeg(l.segs, j, n), |h|);
    var replayed := ReplayLog(files[Wal(n)], meta, last, h, end);
    var table := replayed.value.0;
    last' := replayed.value.1;
    if table != [] {
      RebuiltPush(mem, below, h, meta.last, last, end, table);
      mem' := [table] + mem;
    } else {
      assert Entries(table) == {};
      RebuiltSkip(mem, below, h, meta.last, last, end);
      mem' := mem;
    }
  }

  /** Replays every listed log in order. */
  method WalkLogs(files: FileMap, numbers: seq<u64>, meta: Meta, ghost l: Layout, ghost h: Ledger,
                  ghost below: set<Entry>)
      returns (mem: seq<seq<Entry>>, sequence: u64)
    requires Listing(files, numbers) && Ahead(l.segs, 0, numbers, 0)
    requires meta == l.meta && Stands(files, l, h, |h|) && SegsSound(l.segs, l.meta, |h|)
    requires meta.last <= |h| && UpTo(below, meta.last)
    ensures sequence == |h| && mem in Rebuilds(below, h, meta.last, |h|)
  {
    mem, sequence := [], meta.last;
    RebuiltNothing(below, h, meta.last);
    ghost var j: nat := 0;
    for i := 0 to |numbers|
      invariant j <= |l.segs| && Ahead(l.segs, j, numbers, i)
      invariant meta.last <= sequence == Covered(l.segs, j, |h|) <= |h|
      invariant mem in Rebuilds(below, h, meta.last, sequence)
    {
      NextLog(l.segs, j, numbers, i);
      mem, sequence := ReplayNext(files, numbers[i], meta, mem, sequence, l, h, j, below);
      j := NextSeg(l.segs, j, numbers[i]);
    }
    AllCovered(l.segs, j, numbers);
  }

  /** Rebuilds one memory table per nonempty required log, newest first, and the last recovered sequence. */
  method RecoverLogs(files: FileMap, numbers: seq<u64>, meta: Meta, ghost l: Layout, ghost h: Ledger,
                     ghost below: set<Entry>)
      returns (r: Result<(seq<seq<Entry>>, u64)>)
    requires Listing(files, numbers) && (forall n: u64 | Wal(n) in files :: n in numbers)
    requires meta == l.meta && Stands(files, l, h, |h|) && SegsSound(l.segs, l.meta, |h|)
    requires meta.last <= |h| && meta.walSequence <= |h| && UpTo(below, meta.last)
    ensures r.Ok? && r.value.1 == |h|
    ensures r.value.0 in Rebuilds(below, h, meta.last, |h|)
  {
    SegsListed(files, numbers, l, h);
    if !Legacy(meta) && (meta.log !in numbers || meta.active !in numbers) {
      return Err;
    }
    var mem, sequence := WalkLogs(files, numbers, meta, l, h, below);
    if sequence < meta.walSequence {
      return Err;
    }
    return Ok((mem, sequence));
  }

  lemma SegsListed(files: FileMap, numbers: seq<u64>, l: Layout, h: Ledger)
    requires Stands(files, l, h, |h|) && SegsSound(l.segs, l.meta, |h|)
    requires forall n: u64 | Wal(n) in files :: n in numbers
    ensures Ahead(l.segs, 0, numbers, 0)
    ensures !Legacy(l.meta) ==> l.meta.log in numbers && l.meta.active in numbers
  {
    assert numbers[0..] == numbers;
    forall q | 0 <= q < |l.segs| ensures l.segs[q].number in numbers {
      assert SegOn(files, l.segs, q, h, |h|);
    }
  }

  lemma AllCovered(segs: seq<Seg>, j: nat, numbers: seq<u64>)
    requires j <= |segs| && Ahead(segs, j, numbers, |numbers|)
    ensures j == |segs|
  {
    if j < |segs| {
      NotAllCovered(segs, j, numbers);
    }
  }

  lemma NotAllCovered(segs: seq<Seg>, j: nat, numbers: seq<u64>)
    requires j < |segs|
    ensures !Ahead(segs, j, numbers, |numbers|)
  {
    assert segs[j].number !in numbers[|numbers|..];
  }

  // ----- The recovered tables -----

  /** Nonempty tables, newest first, above `below`, holding exactly batches `a` up to `k`. */
  ghost predicate Rebuilt(mem: seq<seq<Entry>>, below: set<Entry>, h: Ledger, a: nat, k: nat) {
    && a <= k <= |h|
    && NoneEmpty(mem) && MemoryOrdered(mem, below)
    && MemoryEntries(mem) == Slice(h, a, k)
  }

  predicate NoneEmpty(mem: seq<seq<Entry>>) {
    forall i | 0 <= i < |mem| :: mem[i] != []
  }

  lemma NoneEmptyCons(table: seq<Entry>, mem: seq<seq<Entry>>)
    requires table != [] && NoneEmpty(mem)
    ensures NoneEmpty([table] + mem)
  {
  }

  lemma RebuiltNothing(below: set<Entry>, h: Ledger, a: nat)
    requires a <= |h|
    ensures [] in Rebuilds(below, h, a, a)
  {
    assert MemoryEntries([]) == {};
  }

  ghost function Rebuilds(below: set<Entry>, h: Ledger, a: nat, k: nat): iset<seq<seq<Entry>>> {
    iset mem: seq<seq<Entry>> | Rebuilt(mem, below, h, a, k)
  }

  lemma RebuiltPush(mem: seq<seq<Entry>>, below: set<Entry>, h: Ledger, a: nat, k: nat, e: nat, table: seq<Entry>)
    requires Rebuilt(mem, below, h, a, k) && k <= e <= |h| && UpTo(below, a)
    requires table != [] && Sorted(table) && Entries(table) == Slice(h, k, e)
    ensures Rebuilt([table] + mem, below, h, a, e)
  {
    SliceUnion(h, a, k, e, MemoryEntries(mem), Entries(table));
    SlicesNewer(h, a, k, e, below);
    PushSets(mem, below, table, Slice(h, a, k), Slice(h, k, e), Slice(h, a, e));
    NoneEmptyCons(table, mem);
  }

  lemma RebuiltSkip(mem: seq<seq<Entry>>, below: set<Entry>, h: Ledger, a: nat, k: nat, e: nat)
    requires Rebuilt(mem, below, h, a, k) && k <= e <= |h| && Slice(h, k, e) == {}
    ensures Rebuilt(mem, below, h, a, e)
  {
    SliceUnion(h, a, k, e, MemoryEntries(mem), {});
  }

  lemma SliceUnion(h: Ledger, a: nat, k: nat, e: nat, s: set<Entry>, t: set<Entry>)
    requires a <= k <= e <= |h| && s == Slice(h, a, k) && t == Slice(h, k, e)
    ensures s + t == Slice(h, a, e) && (t == {} ==> s == Slice(h, a, e))
  {
    SliceJoin(h, a, k, e);
  }

  lemma PushSets(mem: seq<seq<Entry>>, below: set<Entry>, table: seq<Entry>, s: set<Entry>, t: set<Entry>,
                 u: set<Entry>)
    requires MemoryOrdered(mem, below) && Sorted(table) && MemoryEntries(mem) == s && Entries(table) == t
    requires NewerThan(t, s) && NewerThan(t, below) && s + t == u
    ensures MemoryOrdered([table] + mem, below) && MemoryEntries([table] + mem) == u
  {
    MemoryCons(table, mem);
    MemoryConsOrdered(table, mem, below);
  }

  lemma SlicesNewer(h: Ledger, a: nat, k: nat, e: nat, below: set<Entry>)
    requires a <= k <= e <= |h| && UpTo(below, a)
    ensures NewerThan(Slice(h, k, e), Slice(h, a, k)) && NewerThan(Slice(h, k, e), below)
  {
    SliceSequences(h, k, e);
    SliceSequences(h, a, k);
  }

  /** The reopened store answers for exactly the recovered ledger. */
  lemma ReopenedStore(l: Layout, h: Ledger, mem: seq<seq<Entry>>, next: u64)
    requires Sound(l, h, |h|) && l.meta.next <= next
    requires Rebuilt(mem, DiskEntries(l.meta.version, l.tables), h, l.meta.last, |h|)
    ensures Inv(Store([[]] + mem, None, l.meta.version, l.tables, next, |h|, multiset{}, l.clock), Slice(h, 0, |h|))
  {
    var s := Store([[]] + mem, None, l.meta.version, l.tables, next, |h|, multiset{}, l.clock);
    var d := DiskEntries(l.meta.version, l.tables);
    MemoryCons([], mem);
    SliceSequences(h, 0, |h|);
    assert All(s) == d + Slice(h, l.meta.last, |h|);
    DiskFunctional(l.meta.version, l.tables);
    FlushAnswers(d, All(s), h, l.meta.last, |h|, l.clock);
    ReopenedShaped(l, h, mem, next, s);
  }

  lemma ReopenedShaped(l: Layout, h: Ledger, mem: seq<seq<Entry>>, next: u64, s: Store)
    requires Sound(l, h, |h|) && l.meta.next <= next
    requires Rebuilt(mem, DiskEntries(l.meta.version, l.tables), h, l.meta.last, |h|)
    requires s == Store([[]] + mem, None, l.meta.version, l.tables, next, |h|, multiset{}, l.clock)
    requires UpTo(All(s), |h|)
    ensures Shaped(s)
  {
    ReplayCoherent(l.edits);
    MemoryConsOrdered([], mem, DiskEntries(l.meta.version, l.tables));
  }

  /** Reopening after any crash: recovery succeeds and the store answers for every surviving batch. */
  method Reopen(files: FileMap, numbers: seq<u64>, meta: Meta, next: u64, ghost s: Durability.Sys)
      returns (mem: seq<seq<Entry>>, sequence: u64)
    requires s in Durability.SAFE && s.mode.Down? && files == s.disc.volatile && meta == s.cur.meta && meta.next <= next
    requires Listing(files, numbers) && (forall n: u64 | Wal(n) in files :: n in numbers)
    ensures sequence == |s.h|
    ensures Inv(Store([[]] + mem, None, meta.version, s.cur.tables, next, sequence, multiset{}, s.cur.clock),
                Slice(s.h, 0, |s.h|))
  {
    Durability.SafeParts(s);
    Durability.SafeKept(s);
    var r := RecoverLogs(files, numbers, meta, s.cur, s.h, DiskEntries(meta.version, s.cur.tables));
    mem, sequence := r.value.0, r.value.1;
    ReopenedStore(s.cur, s.h, mem, next);
  }
}
