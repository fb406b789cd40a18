/** The engine's state as a step system, and the invariant every run keeps. */
module Stores {
  import opened Bytes
  import opened Mvcc
  import opened MemTables
  import opened Compactions
  import opened Versions
  import opened Acceptance
  import opened Plans
  import opened Layouts
  import opened PointReads
  import opened Install
  import opened Outputs
  import opened Snapshots

  /** Memory tables newest first: the mutable one, then the immutable queue from its back. */
  datatype Store = Store(
    mem: seq<seq<Entry>>,
    flushing: Option<u64>,
    version: Version,
    disk: Disk,
    nextFile: u64,
    committed: u64,
    snapshots: multiset<u64>,
    clock: u64)   // the latest time any compaction judged expiry by

  ghost function All(s: Store): set<Entry> {
    MemoryEntries(s.mem) + DiskEntries(s.version, s.disk)
  }

  /** A sequence some reader may still use: the newest, or one at or above a registered snapshot. */
  ghost predicate Readable(s: Store, at: u64) {
    at >= s.committed || exists q :: q in s.snapshots && q <= at
  }

  /** Every version is at most the committed sequence. */
  ghost predicate UpTo(entries: set<Entry>, committed: u64) {
    forall e | e in entries :: e.seqno <= committed
  }

  /** Layers are ordered and file numbers are fresh. */
  ghost predicate Shaped(s: Store) {
    && |s.mem| >= 1 && (forall i | 1 <= i < |s.mem| :: s.mem[i] != [])
    && Layered(s.version, s.disk)
    && MemoryOrdered(s.mem, DiskEntries(s.version, s.disk))
    && NumbersBelow(s.version, s.nextFile)
    && (s.flushing.Some? ==>
          |s.mem| >= 2 && s.flushing.value < s.nextFile && NumbersBelow(s.version, s.flushing.value))
    && UpTo(All(s), s.committed)
    && (forall q | q in s.snapshots :: q <= s.committed)
  }

  /** The layered store answers every permitted read as the whole history does. */
  ghost predicate Agrees(s: Store, history: set<Entry>) {
    forall user: bytes, at: u64, now: u64 | Readable(s, at) && now >= s.clock ::
      Read(All(s), user, at, now) == Read(history, user, at, now)
  }

  ghost predicate Inv(s: Store, history: set<Entry>) {
    Shaped(s) && Functional(history) && UpTo(history, s.committed) && Agrees(s, history)
  }

  lemma AllFunctional(s: Store)
    requires Shaped(s)
    ensures Functional(MemoryEntries(s.mem)) && Functional(All(s))
    ensures NewerThan(MemoryEntries(s.mem), DiskEntries(s.version, s.disk))
  {
    LayeredNewest(s.mem, s.version, s.disk, [], 0);
    FunctionalUnion(MemoryEntries(s.mem), DiskEntries(s.version, s.disk));
  }

  /** Agreement carries over to a state with the same versions, no new readers and no earlier clock. */
  lemma AgreesAgain(s: Store, t: Store, history: set<Entry>)
    requires Agrees(s, history) && All(t) == All(s) && t.clock >= s.clock
    requires forall at: u64 | Readable(t, at) :: Readable(s, at)
    ensures Agrees(t, history)
  {
  }

  // ----- Steps -----

  /** A batch enters the mutable table at the next sequence. */
  ghost predicate Writes(s: Store, t: Store, batch: Batch) {
    && |s.mem| >= 1 && s.committed + 1 < U64_MAX
    && |t.mem| == |s.mem| && t.mem[1..] == s.mem[1..]
    && Sorted(t.mem[0]) && Entries(t.mem[0]) == Entries(s.mem[0]) + Effects(batch, s.committed + 1)
    && t == s.(mem := t.mem, committed := s.committed + 1)
  }

  /** The mutable table joins the immutable queue; its successor's log takes a file number. */
  ghost predicate Rotates(s: Store, t: Store) {
    && |s.mem| >= 1 && s.mem[0] != [] && s.nextFile < U64_MAX
    && t == s.(mem := [[]] + s.mem, nextFile := s.nextFile + 1)
  }

  /** The flush worker takes the oldest immutable table and a file number. */
  ghost predicate BeginsFlush(s: Store, t: Store) {
    && |s.mem| >= 2 && s.flushing == None && s.nextFile < U64_MAX
    && t == s.(flushing := Some(s.nextFile), nextFile := s.nextFile + 1)
  }

  function FlushEdit(s: Store, size: u64): VersionEdit
    requires s.flushing.Some? && |s.mem| >= 2 && s.mem[|s.mem| - 1] != []
  {
    var meta := TableMeta(s.flushing.value, size, s.mem[|s.mem| - 1]);
    VersionEdit([(0, meta)], [], Some(s.nextFile), None, None, None, None)
  }

  /** The flushed table becomes the newest level-zero file and leaves memory. */
  ghost predicate CommitsFlush(s: Store, t: Store, size: u64) {
    && s.flushing.Some? && |s.mem| >= 2 && size != 0
    && var last := |s.mem| - 1;
       && s.mem[last] != []
       && Applied(s.version, FlushEdit(s, size)) == Ok(t.version)
       && t == s.(mem := s.mem[..last], flushing := None, version := t.version,
                  disk := s.disk[s.flushing.value := s.mem[last]])
  }

  /** Everything a compaction decides before it publishes its edit. */
  ghost predicate Compacted(s: Store, p: Plan, oldest: Option<u64>, below: bytes -> bool, ran: u64,
                            outputs: seq<seq<Entry>>, sizes: seq<u64>) {
    && |s.mem| == 1 && s.flushing == None
    && Closed(s.version, p) && IsOldest(s.snapshots, oldest)
    && (forall k :: below(k) == MayExistBelow(s.version, p.inputLevel + 1, k))
    && SplitByKey(outputs) && Flatten(outputs) == RetainAll(Merged(s.disk, p), oldest, below, ran)
    && |sizes| == |outputs| && (forall i | 0 <= i < |sizes| :: sizes[i] != 0)
    && s.nextFile + |outputs| <= U64_MAX
  }

  /** A closed plan is merged, retained, split and published. */
  ghost predicate Compacts(s: Store, t: Store, p: Plan, oldest: Option<u64>, below: bytes -> bool, ran: u64,
                           outputs: seq<seq<Entry>>, sizes: seq<u64>) {
    && Compacted(s, p, oldest, below, ran, outputs, sizes)
    && Applied(s.version, CompactionEdit(p, OutputFiles(outputs, s.nextFile, sizes), s.nextFile + |outputs|))
         == Ok(t.version)
    && t == s.(version := t.version, disk := WithOutputs(s.disk, outputs, s.nextFile),
               nextFile := s.nextFile + |outputs|, clock := if ran > s.clock then ran else s.clock)
  }

  /** A guard is registered at the committed sequence or at one already guarded. */
  ghost predicate Acquires(s: Store, t: Store, q: u64) {
    (q == s.committed || q in s.snapshots) && t == s.(snapshots := s.snapshots + multiset{q})
  }

  ghost predicate Releases(s: Store, t: Store, q: u64) {
    q in s.snapshots && t == s.(snapshots := s.snapshots - multiset{q})
  }

  // ----- Each step keeps the invariant -----

  lemma MemoryCons(first: seq<Entry>, rest: seq<seq<Entry>>)
    ensures MemoryEntries([first] + rest) == Entries(first) + MemoryEntries(rest)
  {
    var mem := [first] + rest;
    forall e ensures e in MemoryEntries(mem) <==> e in first || e in MemoryEntries(rest) {
      if i :| 0 <= i < |mem| && e in mem[i] {
        assert i > 0 ==> e in rest[i - 1];
      }
      if e in first {
        assert e in mem[0];
      }
      if i :| 0 <= i < |rest| && e in rest[i] {
        assert e in mem[i + 1];
      }
    }
  }

  lemma MemorySnoc(init: seq<seq<Entry>>, last: seq<Entry>)
    ensures MemoryEntries(init + [last]) == MemoryEntries(init) + Entries(last)
  {
    var mem := init + [last];
    forall e ensures e in MemoryEntries(mem) <==> e in MemoryEntries(init) || e in last {
      if i :| 0 <= i < |mem| && e in mem[i] {
        assert i < |init| ==> e in init[i];
      }
      if i :| 0 <= i < |init| && e in init[i] {
        assert e in mem[i];
      }
      if e in last {
        assert e in mem[|init|];
      }
    }
  }

  lemma MemoryConsOrdered(first: seq<Entry>, rest: seq<seq<Entry>>, below: set<Entry>)
    requires MemoryOrdered(rest, below) && Sorted(first)
    requires NewerThan(Entries(first), MemoryEntries(rest)) && NewerThan(Entries(first), below)
    ensures MemoryOrdered([first] + rest, below)
  {
    var mem := [first] + rest;
    forall j | 1 <= j < |mem| ensures NewerThan(Entries(first), Entries(mem[j])) {
      assert Entries(rest[j - 1]) <= MemoryEntries(rest);
    }
    forall i, j | 0 <= i < j < |mem| ensures NewerThan(Entries(mem[i]), Entries(mem[j])) {
      assert i > 0 ==> NewerThan(Entries(rest[i - 1]), Entries(rest[j - 1]));
    }
  }

  lemma MemoryTailOrdered(mem: seq<seq<Entry>>, below: set<Entry>)
    requires MemoryOrdered(mem, below) && |mem| >= 1
    ensures MemoryOrdered(mem[1..], below) && Sorted(mem[0])
    ensures NewerThan(Entries(mem[0]), MemoryEntries(mem[1..])) && NewerThan(Entries(mem[0]), below)
  {
    forall e, f | e in Entries(mem[0]) && f in MemoryEntries(mem[1..]) && e.user == f.user ensures e.seqno > f.seqno {
      var i :| 0 <= i < |mem[1..]| && f in mem[1..][i];
      assert NewerThan(Entries(mem[0]), Entries(mem[i + 1]));
    }
  }

  lemma WriteMemory(s: Store, t: Store, batch: Batch)
    requires Shaped(s) && Writes(s, t, batch)
    ensures All(t) == Effects(batch, s.committed + 1) + All(s)
    ensures MemoryOrdered(t.mem, DiskEntries(t.version, t.disk))
    ensures forall e | e in Effects(batch, s.committed + 1) :: e.seqno == s.committed + 1
  {
    var added := Effects(batch, s.committed + 1);
    forall e | e in added ensures e.seqno == s.committed + 1 {
      EffectsMeaning(batch, s.committed + 1, e);
    }
    var rest := s.mem[1..];
    assert s.mem == [s.mem[0]] + rest && t.mem == [t.mem[0]] + rest;
    MemoryCons(s.mem[0], rest);
    MemoryCons(t.mem[0], rest);
    assert All(t) == added + All(s);
    MemoryTailOrdered(s.mem, DiskEntries(s.version, s.disk));
    forall e, f | e in t.mem[0] && f in MemoryEntries(rest) + DiskEntries(s.version, s.disk) && e.user == f.user
      ensures e.seqno > f.seqno
    {
      assert f in All(s);
      assert e in added || e in Entries(s.mem[0]);
    }
    MemoryConsOrdered(t.mem[0], rest, DiskEntries(s.version, s.disk));
  }

  lemma WriteKeeps(s: Store, t: Store, history: set<Entry>, batch: Batch)
    requires Inv(s, history) && Writes(s, t, batch)
    ensures Inv(t, history + Effects(batch, s.committed + 1))
  {
    var added := Effects(batch, s.committed + 1);
    WriteMemory(s, t, batch);
    EffectsFunctional(batch, s.committed + 1);
    FunctionalUnion(added, history);
    assert added + history == history + added;
    AllFunctional(s);
    WriteAgrees(s, t, history, added);
  }

  lemma WriteAgrees(s: Store, t: Store, history: set<Entry>, added: set<Entry>)
    requires Agrees(s, history) && All(t) == added + All(s) && t.clock == s.clock
    requires t.snapshots == s.snapshots && t.committed == s.committed + 1
    requires Functional(added) && Functional(All(s)) && Functional(history)
    requires forall e | e in added :: e.seqno == s.committed + 1
    requires UpTo(All(s), s.committed) && UpTo(history, s.committed)
    ensures Agrees(t, history + added)
  {
    assert added + history == history + added;
    forall user: bytes, at: u64, now: u64 | Readable(t, at) && now >= t.clock
      ensures Read(All(t), user, at, now) == Read(history + added, user, at, now)
    {
      assert Readable(s, at);
      ReadThroughUpper(added, All(s), history, user, at, now);
    }
  }

  lemma RotateKeeps(s: Store, t: Store, history: set<Entry>)
    requires Inv(s, history) && Rotates(s, t)
    ensures Inv(t, history)
  {
    MemoryCons([], s.mem);
    MemoryConsOrdered([], s.mem, DiskEntries(s.version, s.disk));
    assert All(t) == All(s);
    AgreesAgain(s, t, history);
  }

  lemma BeginFlushKeeps(s: Store, t: Store, history: set<Entry>)
    requires Inv(s, history) && BeginsFlush(s, t)
    ensures Inv(t, history)
  {
    assert All(t) == All(s);
    AgreesAgain(s, t, history);
  }

  // ----- Flush -----

  /** A flush edit is always accepted. */
  lemma FlushAccepted(s: Store, size: u64)
    requires Shaped(s) && s.flushing.Some? && size != 0
    ensures Applied(s.version, FlushEdit(s, size)).Ok?
    ensures var w := Applied(s.version, FlushEdit(s, size)).value;
            var f := TableMeta(s.flushing.value, size, s.mem[|s.mem| - 1]);
            && WellFormed(w) && ValidFile(f)
            && forall l: nat, g :: HasFile(w, l, g) <==> HasFile(s.version, l, g) || (l == 0 && g == f)
  {
    var edit := FlushEdit(s, size);
    var f := TableMeta(s.flushing.value, size, s.mem[|s.mem| - 1]);
    MetaValid(s.flushing.value, size, s.mem[|s.mem| - 1]);
    assert edit.added == [(0, f)];
    forall l: nat, g, h | l >= 1 && Survives(s.version, edit, l, g) && Survives(s.version, edit, l, h) && g != h
      ensures Apart(g, h)
    {
      ApartMembers(s.version[l]);
    }
    assert DeletesLive(s.version, edit.deleted);
    assert AddsFresh(s.version, edit.deleted, edit.added);
    EditAccepted(s.version, edit);
    AppliedMeaning(s.version, edit);
  }

  lemma FlushLevels(s: Store, t: Store, size: u64, l: nat)
    requires Shaped(s) && CommitsFlush(s, t, size) && l < NUM_LEVELS
    ensures LevelEntries(t.version, t.disk, l) ==
            LevelEntries(s.version, s.disk, l) + if l == 0 then Entries(s.mem[|s.mem| - 1]) else {}
  {
    FlushAccepted(s, size);
    var table := s.mem[|s.mem| - 1];
    var f := TableMeta(s.flushing.value, size, table);
    forall g | HasFile(s.version, l, g) ensures Table(t.disk, g) == Table(s.disk, g) {
    }
    forall e ensures e in LevelEntries(t.version, t.disk, l) <==>
                     e in LevelEntries(s.version, s.disk, l) || (l == 0 && e in table) {
      if g :| g in t.version[l] && e in Table(t.disk, g) {
        assert HasFile(t.version, l, g);
        assert HasFile(s.version, l, g) ==> e in LevelEntries(s.version, s.disk, l);
      }
      if g :| g in s.version[l] && e in Table(s.disk, g) {
        assert HasFile(s.version, l, g) && HasFile(t.version, l, g);
      }
      if l == 0 && e in table {
        assert HasFile(t.version, 0, f) && Table(t.disk, f) == table;
      }
    }
  }

  lemma FlushEntry(s: Store, t: Store, size: u64, e: Entry)
    requires Shaped(s) && CommitsFlush(s, t, size)
    ensures e in DiskEntries(t.version, t.disk) <==> e in DiskEntries(s.version, s.disk) || e in s.mem[|s.mem| - 1]
  {
    if l :| 0 <= l < NUM_LEVELS && e in LevelEntries(t.version, t.disk, l) {
      FlushLevels(s, t, size, l);
    }
    if l :| 0 <= l < NUM_LEVELS && e in LevelEntries(s.version, s.disk, l) {
      FlushLevels(s, t, size, l);
    }
    FlushLevels(s, t, size, 0);
  }

  lemma FlushDisk(s: Store, t: Store, size: u64)
    requires Shaped(s) && CommitsFlush(s, t, size)
    ensures DiskEntries(t.version, t.disk) == DiskEntries(s.version, s.disk) + Entries(s.mem[|s.mem| - 1])
  {
    forall e ensures e in DiskEntries(t.version, t.disk) <==>
                     e in DiskEntries(s.version, s.disk) || e in s.mem[|s.mem| - 1] {
      FlushEntry(s, t, size, e);
    }
  }

  lemma FlushEntries(s: Store, t: Store, size: u64)
    requires Shaped(s) && CommitsFlush(s, t, size)
    ensures DiskEntries(t.version, t.disk) == DiskEntries(s.version, s.disk) + Entries(s.mem[|s.mem| - 1])
    ensures All(t) == All(s)
  {
    FlushDisk(s, t, size);
    MovedToDisk(s, t);
  }

  lemma MovedToDisk(s: Store, t: Store)
    requires |s.mem| >= 1 && t.mem == s.mem[..|s.mem| - 1]
    requires DiskEntries(t.version, t.disk) == DiskEntries(s.version, s.disk) + Entries(s.mem[|s.mem| - 1])
    ensures All(t) == All(s)
  {
    MemoryToDisk(s.mem, DiskEntries(s.version, s.disk));
  }

  lemma MemoryToDisk(mem: seq<seq<Entry>>, disk: set<Entry>)
    requires |mem| >= 1
    ensures MemoryEntries(mem) + disk == MemoryEntries(mem[..|mem| - 1]) + (disk + Entries(mem[|mem| - 1]))
  {
    var last := |mem| - 1;
    MemorySnoc(mem[..last], mem[last]);
    assert mem == mem[..last] + [mem[last]];
  }

  lemma FlushedFile(s: Store, t: Store, size: u64, g: FileMeta)
    requires Shaped(s) && CommitsFlush(s, t, size) && HasFile(t.version, 0, g)
    ensures if g.number == s.flushing.value then Table(t.disk, g) == s.mem[|s.mem| - 1]
            else HasFile(s.version, 0, g) && Table(t.disk, g) == Table(s.disk, g) && g.number < s.flushing.value
  {
    FlushAccepted(s, size);
  }

  lemma FileBelow(v: Version, disk: Disk, h: FileMeta, table: seq<Entry>)
    requires HasFile(v, 0, h) && NewerThan(Entries(table), DiskEntries(v, disk))
    ensures NewerThan(Entries(table), Entries(Table(disk, h)))
  {
    assert Entries(Table(disk, h)) <= LevelEntries(v, disk, 0) <= DiskEntries(v, disk);
  }

  /** The flushed file is newer than every other level-zero file. */
  lemma FlushOrderedZero(s: Store, t: Store, size: u64, g: FileMeta, h: FileMeta)
    requires Shaped(s) && CommitsFlush(s, t, size)
    requires HasFile(t.version, 0, g) && HasFile(t.version, 0, h) && g.number > h.number
    ensures NewerThan(Entries(Table(t.disk, g)), Entries(Table(t.disk, h)))
  {
    FlushedFile(s, t, size, g);
    FlushedFile(s, t, size, h);
    if g.number == s.flushing.value {
      FileBelow(s.version, s.disk, h, s.mem[|s.mem| - 1]);
    }
  }

  lemma FlushOrderedLevels(s: Store, t: Store, size: u64, l: nat, m: nat)
    requires Shaped(s) && CommitsFlush(s, t, size) && l < m < NUM_LEVELS
    ensures NewerThan(LevelEntries(t.version, t.disk, l), LevelEntries(t.version, t.disk, m))
  {
    FlushLevels(s, t, size, l);
    FlushLevels(s, t, size, m);
    assert LevelEntries(s.version, s.disk, m) <= DiskEntries(s.version, s.disk);
    assert NewerThan(LevelEntries(s.version, s.disk, l), LevelEntries(s.version, s.disk, m));
  }

  lemma FlushLayered(s: Store, t: Store, size: u64)
    requires Shaped(s) && CommitsFlush(s, t, size)
    ensures Layered(t.version, t.disk) && NumbersBelow(t.version, t.nextFile)
  {
    FlushAccepted(s, size);
    forall g, h | g in t.version[0] && h in t.version[0] && g.number > h.number
      ensures NewerThan(Entries(Table(t.disk, g)), Entries(Table(t.disk, h)))
    {
      FlushOrderedZero(s, t, size, g, h);
    }
    forall l, m | 0 <= l < m < NUM_LEVELS
      ensures NewerThan(LevelEntries(t.version, t.disk, l), LevelEntries(t.version, t.disk, m))
    {
      FlushOrderedLevels(s, t, size, l, m);
    }
  }

  lemma FlushMemory(s: Store, t: Store, size: u64)
    requires Shaped(s) && CommitsFlush(s, t, size)
    ensures MemoryOrdered(t.mem, DiskEntries(t.version, t.disk))
  {
    var last := |s.mem| - 1;
    FlushEntries(s, t, size);
    forall i | 0 <= i < last ensures NewerThan(Entries(t.mem[i]), DiskEntries(t.version, t.disk)) {
      assert NewerThan(Entries(s.mem[i]), Entries(s.mem[last]));
    }
  }

  lemma CommitFlushKeeps(s: Store, t: Store, history: set<Entry>, size: u64)
    requires Inv(s, history) && CommitsFlush(s, t, size)
    ensures Inv(t, history)
  {
    FlushLayered(s, t, size);
    FlushMemory(s, t, size);
    FlushEntries(s, t, size);
    AgreesAgain(s, t, history);
  }

  // ----- Compaction -----

  lemma CompactReady(s: Store, p: Plan, oldest: Option<u64>, below: bytes -> bool, ran: u64,
                     outputs: seq<seq<Entry>>, sizes: seq<u64>)
    requires Shaped(s) && Compacted(s, p, oldest, below, ran, outputs, sizes)
    ensures Ready(s.version, s.disk, p, outputs, s.nextFile, sizes)
    ensures Applied(s.version, CompactionEdit(p, OutputFiles(outputs, s.nextFile, sizes), s.nextFile + |outputs|)).Ok?
  {
    RunOutputs(s.version, s.disk, p, oldest, below, ran, outputs);
    InstallAccepted(s.version, s.disk, p, outputs, s.nextFile, sizes);
  }

  lemma CompactShaped(s: Store, t: Store, p: Plan, oldest: Option<u64>, below: bytes -> bool, ran: u64,
                      outputs: seq<seq<Entry>>, sizes: seq<u64>)
    requires Shaped(s) && Compacts(s, t, p, oldest, below, ran, outputs, sizes)
    ensures Shaped(t)
    ensures DiskEntries(t.version, t.disk) == Outside(s.version, s.disk, p) + Entries(Flatten(outputs))
  {
    CompactReady(s, p, oldest, below, ran, outputs, sizes);
    InstallMeaning(s.version, s.disk, p, outputs, s.nextFile, sizes);
    InstallStored(s.version, s.disk, p, outputs, s.nextFile, sizes, t.version);
    InstallOrdered(s.version, s.disk, p, outputs, s.nextFile, sizes, t.version);
    InstallEntries(s.version, s.disk, p, outputs, s.nextFile, sizes, t.version);
    forall e | e in DiskEntries(t.version, t.disk) ensures OldVersion(DiskEntries(s.version, s.disk), e) {
      KeptVersion(s, p, oldest, below, ran, outputs, sizes, e);
    }
    CompactMemory(s, t);
  }

  /** The set has a version with this entry's key and sequence. */
  predicate OldVersion(before: set<Entry>, e: Entry) {
    exists o :: o in before && o.user == e.user && o.seqno == e.seqno
  }

  lemma KeptVersion(s: Store, p: Plan, oldest: Option<u64>, below: bytes -> bool, ran: u64,
                    outputs: seq<seq<Entry>>, sizes: seq<u64>, e: Entry)
    requires Shaped(s) && Compacted(s, p, oldest, below, ran, outputs, sizes)
    requires e in Outside(s.version, s.disk, p) + Entries(Flatten(outputs))
    ensures OldVersion(DiskEntries(s.version, s.disk), e)
  {
    DiskSplit(s.version, s.disk, p);
    if e in Flatten(outputs) {
      MergedSorted(s.version, s.disk, p);
      RetainAllOrigin(Merged(s.disk, p), oldest, below, ran, e);
    }
  }

  lemma CompactMemory(s: Store, t: Store)
    requires Shaped(s) && t.mem == s.mem && t.committed == s.committed
    requires forall e | e in DiskEntries(t.version, t.disk) :: OldVersion(DiskEntries(s.version, s.disk), e)
    ensures MemoryOrdered(t.mem, DiskEntries(t.version, t.disk)) && UpTo(All(t), t.committed)
  {
    forall i, e, f
      | 0 <= i < |t.mem| && e in Entries(t.mem[i]) && f in DiskEntries(t.version, t.disk) && e.user == f.user
      ensures e.seqno > f.seqno
    {
      assert OldVersion(DiskEntries(s.version, s.disk), f);
    }
    forall e | e in DiskEntries(t.version, t.disk) ensures e.seqno <= t.committed {
      var o :| o in DiskEntries(s.version, s.disk) && o.user == e.user && o.seqno == e.seqno;
      assert o in All(s);
    }
  }

  lemma CompactKeeps(s: Store, t: Store, history: set<Entry>, p: Plan, oldest: Option<u64>, below: bytes -> bool,
                     ran: u64, outputs: seq<seq<Entry>>, sizes: seq<u64>)
    requires Inv(s, history) && Compacts(s, t, p, oldest, below, ran, outputs, sizes)
    ensures Inv(t, history)
  {
    CompactShaped(s, t, p, oldest, below, ran, outputs, sizes);
    AllFunctional(s);
    var mem := MemoryEntries(s.mem);
    forall user: bytes, at: u64, now: u64 | Readable(t, at) && now >= t.clock
      ensures Read(All(t), user, at, now) == Read(history, user, at, now)
    {
      assert Readable(s, at);
      ReadableServed(s, p, oldest, at);
      CompactionPreservesReads(mem, s.version, s.disk, p, oldest, below, ran, user, at, now);
      assert mem + Outside(s.version, s.disk, p) + Entries(Flatten(outputs)) == All(t);
    }
  }

  lemma ReadableServed(s: Store, p: Plan, oldest: Option<u64>, at: u64)
    requires Shaped(s) && Closed(s.version, p) && IsOldest(s.snapshots, oldest) && Readable(s, at)
    ensures ServedBy(at, oldest, Entries(Merged(s.disk, p)))
  {
    DiskSplit(s.version, s.disk, p);
    assert DiskEntries(s.version, s.disk) <= All(s);
  }

  // ----- Snapshots -----

  lemma AcquireKeeps(s: Store, t: Store, history: set<Entry>, q: u64)
    requires Inv(s, history) && Acquires(s, t, q)
    ensures Inv(t, history)
  {
    assert All(t) == All(s);
    AgreesAgain(s, t, history);
  }

  lemma ReleaseKeeps(s: Store, t: Store, history: set<Entry>, q: u64)
    requires Inv(s, history) && Releases(s, t, q)
    ensures Inv(t, history)
  {
    assert All(t) == All(s);
    AgreesAgain(s, t, history);
  }
}
