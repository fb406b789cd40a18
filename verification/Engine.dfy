/** The engine: its operations refine the steps of the layered store. */
module Engines {
  import opened Bytes
  import opened Mvcc
  import opened MemTables
  import opened Iterators
  import opened Compactions
  import opened Versions
  import opened Plans
  import opened Layouts
  import opened PointReads
  import opened StoreScans
  import opened Install
  import opened Outputs
  import opened Snapshots
  import opened Stores
  import opened Runs
  import opened BatchCodecs
  import opened Logs

  datatype Options = Options(
    memtableBytes: nat,
    targetTableBytes: nat,
    maxImmutables: nat,
    maxKeyBytes: nat,
    maxValueBytes: nat,
    maxBatchBytes: nat)

  const MAX_BATCH_OPERATIONS := 0xffff_ffff
  const L0_TRIGGER := 4

  /** The limits a batch must meet. */
  predicate Accepts(options: Options, batch: Batch) {
    && 0 < |batch| <= MAX_BATCH_OPERATIONS
    && Payload(batch) <= options.maxBatchBytes
    && forall op | op in batch :: |op.key| <= options.maxKeyBytes && (op.Put? ==> |op.value| <= options.maxValueBytes)
  }

  /** A record too large for the log: a length that needs more than 32 bits, or more bytes of per-operation
      overhead than the limit reserves for the payload it admits. */
  predicate Unloggable(batch: Batch, maxBatch: nat) {
    !BatchEncodable(batch) || Payload(batch) + Overhead(batch) > 19 * maxBatch
  }

  /** Exactly which batches within the limits the log refuses. */
  lemma UnloggableIff(options: Options, batch: Batch)
    requires Accepts(options, batch)
    ensures !Appendable(options.maxBatchBytes, batch) <==> Unloggable(batch, options.maxBatchBytes)
  {
    if BatchEncodable(batch) {
      AppendableIff(options.maxBatchBytes, batch);
    }
  }

  /** Such batches exist: four deletions of the empty key under a one-byte payload limit. */
  lemma AcceptedAndRefused(options: Options)
    requires options.maxBatchBytes == 1
    ensures exists batch :: Accepts(options, batch) && Unloggable(batch, options.maxBatchBytes)
  {
    var batch := [Delete([]), Delete([]), Delete([]), Delete([])];
    ManyEmptyOperations();
    UnloggableIff(options, batch);
  }

  function NewestFirst(queue: seq<seq<Entry>>): seq<seq<Entry>> {
    seq(|queue|, i requires 0 <= i < |queue| => queue[|queue| - 1 - i])
  }

  class Engine {
    const options: Options
    var mutable: MemTable
    var immutables: seq<seq<Entry>>   // oldest at the front
    var flushing: Option<u64>
    var version: Version
    var disk: Disk
    var nextFile: u64
    var committed: u64
    const registry: SnapshotRegistry
    var failed: bool       // writing has ended
    var background: bool   // ... because of the flush worker or a compaction, so that reading has ended too
    var closed: bool
    ghost var clock: u64
    ghost var history: set<Entry>

    ghost function State(): Store
      reads this, mutable, registry
    {
      Store([mutable.entries] + NewestFirst(immutables), flushing, version, disk, nextFile, committed,
            registry.guards, clock)
    }

    ghost predicate Valid()
      reads this, mutable, registry
    {
      mutable.Valid() && registry.Valid() && registry.Counted() && history in Histories(State())
    }

    predicate Writable()
      reads this
    {
      !failed && !closed
    }

    predicate Serving()
      reads this
    {
      !background && !closed
    }

    constructor (options: Options)
      ensures Valid() && history == {} && committed == 0 && Writable() && Serving() && this.options == options
      ensures fresh(mutable) && fresh(registry)
    {
      this.options := options;
      mutable := new MemTable();
      registry := new SnapshotRegistry();
      immutables, flushing, version, disk := [], None, EMPTY_VERSION, map[];
      nextFile, committed := 2, 0;
      failed, background, closed := false, false, false;
      clock, history := 0, {};
      new;
      FreshInv(State());
    }

    /** Commits a batch at the next sequence, or rejects it and keeps every stored version. A batch whose record the
        log refuses or fails to write, and a rotation that fails after the commit, end all further writing. */
    method Write(batch: Batch, logs: bool, rotates: bool) returns (r: Result<()>)
      requires Valid()
      modifies this, mutable
      ensures Valid() && (mutable == old(mutable) || fresh(mutable))
      ensures r.Ok? ==> committed == old(committed) + 1 && history == old(history) + Effects(batch, committed)
      ensures r.Err? ==> State() == old(State()) && history == old(history)
      ensures r.Err? <==> !old(Writable()) || old(Rejects(batch)) || !Appendable(options.maxBatchBytes, batch) || !logs
      ensures r.Err? ==>
                var refused := Unloggable(batch, options.maxBatchBytes) || !logs;
                failed <==> old(failed) || (!old(closed) && !old(Rejects(batch)) && refused)
      ensures r.Ok? && failed ==> !rotates || old(nextFile) == U64_MAX
      ensures background == old(background) && closed == old(closed)
    {
      if !Writable() || Rejects(batch) {
        return Err;
      }
      UnloggableIff(options, batch);
      if !Appendable(options.maxBatchBytes, batch) || !logs {
        failed := true;
        return Err;
      }
      CommitLogged(batch, rotates);
      return Ok(());
    }

    /** Commits a logged batch and rotates a full table. */
    method CommitLogged(batch: Batch, rotates: bool)
      requires Valid() && !failed && batch != [] && committed + 1 < U64_MAX
      modifies this, mutable
      ensures Valid() && (mutable == old(mutable) || fresh(mutable))
      ensures committed == old(committed) + 1 && history == old(history) + Effects(batch, committed)
      ensures failed ==> !rotates || old(nextFile) == U64_MAX
      ensures background == old(background) && closed == old(closed)
    {
      CommitBatch(batch);
      if mutable.approximateBytes >= options.memtableBytes {
        var rotated := RotateMemtable(rotates);
        failed := !rotated;
      }
    }

    /** The checks that refuse a batch without consequences. */
    predicate Rejects(batch: Batch)
      reads this
    {
      !Accepts(options, batch) || |immutables| >= options.maxImmutables || committed + 1 >= U64_MAX
    }

    /** Applies an accepted batch to the mutable table at the next sequence. */
    method CommitBatch(batch: Batch)
      requires Valid() && batch != [] && committed + 1 < U64_MAX
      modifies this`committed, this`history, mutable
      ensures Valid() && mutable.entries != []
      ensures committed == old(committed) + 1 && history == old(history) + Effects(batch, committed)
    {
      ghost var before := State();
      CommittedFresh(before, history);
      var applied := mutable.Apply(committed + 1, batch);
      BatchApplied(before, history, batch, mutable.entries);
      committed := committed + 1;
      assert State() == AfterBatch(before, mutable.entries);
      history := history + Effects(batch, committed);
    }

    /** Replaces the mutable table by an empty one; its log needs a file number. */
    method RotateMemtable(logs: bool) returns (ok: bool)
      requires Valid() && mutable.entries != []
      modifies this
      ensures Valid() && history == old(history) && committed == old(committed) && clock == old(clock)
      ensures failed == old(failed) && background == old(background) && closed == old(closed)
      ensures ok <==> logs && old(nextFile) < U64_MAX
      ensures ok ==> fresh(mutable) && immutables == old(immutables) + [old(mutable.entries)]
      ensures !ok ==>
                mutable == old(mutable) && State() == old(State()).(nextFile := nextFile) && nextFile >= old(nextFile)
    {
      if nextFile == U64_MAX {
        return false;
      }
      ghost var before := State();
      nextFile := nextFile + 1;
      if !logs {
        NumberSkipped(before, history);
        return false;
      }
      QueueBack(immutables, mutable.entries);
      immutables := immutables + [mutable.entries];
      mutable := new MemTable();
      StepKeeps(before, history, Rotate, State());
      return true;
    }

    // ----- Flush worker -----

    /** A failure of the flush worker or of a compaction ends writing and reading. */
    method FailInBackground()
      modifies this`failed, this`background
      ensures failed && background
    {
      failed, background := true, true;
    }

    /** Takes a file number for the oldest immutable table; the worker stops when none is left. */
    method BeginFlush() returns (ok: bool)
      requires Valid() && flushing == None
      modifies this`flushing, this`nextFile, this`failed, this`background
      ensures Valid()
      ensures ok <==> old(Writable()) && immutables != [] && old(nextFile) < U64_MAX
      ensures ok ==> flushing == Some(old(nextFile)) && nextFile == old(nextFile) + 1
      ensures !ok ==> State() == old(State())
      ensures var exhausted := old(Writable()) && immutables != [] && old(nextFile) == U64_MAX;
              failed == (old(failed) || exhausted) && background == (old(background) || exhausted)
    {
      if !Writable() || immutables == [] {
        return false;
      }
      if nextFile == U64_MAX {
        FailInBackground();
        return false;
      }
      ghost var before := State();
      flushing, nextFile := Some(nextFile), nextFile + 1;
      StepKeeps(before, history, Action.BeginFlush, State());
      return true;
    }

    /** Publishes the built table and drops it from memory; the edit is never rejected. */
    method CommitFlush(size: u64)
      requires Valid() && flushing.Some? && size != 0
      modifies this`flushing, this`version, this`disk, this`immutables
      ensures Valid()
      ensures old(immutables) != [] && immutables == old(immutables)[1..] && flushing == None
      ensures disk == old(disk)[old(flushing).value := old(immutables)[0]]
    {
      ghost var after := FlushApplies(State(), history, size);
      QueueFront(immutables);
      var table := immutables[0];
      var meta := TableMeta(flushing.value, size, table);
      var edit := VersionEdit([(0, meta)], [], Some(nextFile), None, None, None, None);
      var applied := Apply(version, edit);
      disk := disk[flushing.value := table];
      version, immutables, flushing := applied.value, immutables[1..], None;
      assert State() == after;
    }

    /** The table could not be written or published: it stays in memory. */
    method AbandonFlush()
      requires Valid()
      modifies this`flushing, this`failed, this`background
      ensures Valid() && failed && background && State() == old(State()).(flushing := None)
    {
      FlushAbandoned(State(), history);
      flushing := None;
      FailInBackground();
    }

    // ----- Compaction -----

    /** Compacts the fullest overfull level, if any; no served read changes. A failure on the way, or in the
        removal of the old files afterwards, ends writing and reading. */
    method Compact(now: u64, sizeOf: seq<Entry> -> u64, io: CompactionIo) returns (r: Result<bool>)
      requires Valid() && forall t :: sizeOf(t) != 0
      modifies this`version, this`disk, this`nextFile, this`failed, this`background, this`clock
      ensures Valid() && history == old(history) && committed == old(committed)
      ensures r == Ok(false) <==> old(Writable()) && forall l | 0 <= l < NUM_LEVELS - 1 ::
                !Overfull(old(version), l, L0_TRIGGER, options.targetTableBytes)
      ensures r == Ok(true) ==> old(Writable()) && immutables == [] && flushing == None && io == Works
      ensures r == Ok(true) ==> clock == if now > old(clock) then now else old(clock)
      ensures r != Ok(true) && io != LeavesOldFiles ==> State() == old(State())
      ensures r.Ok? ==> !failed && background == old(background)
      ensures r.Err? && old(Writable()) && immutables == [] && flushing == None ==> failed && background
      ensures r.Err? && (!old(Writable()) || immutables != [] || flushing.Some?) ==>
                failed == old(failed) && background == old(background) && State() == old(State())
    {
      if !Writable() {
        return Err;
      }
      StateShaped(State(), history);
      var plan := Pick(version, L0_TRIGGER, options.targetTableBytes);
      if plan == None {
        return Ok(false);
      }
      if immutables != [] || flushing.Some? {
        return Err;
      }
      var ok := false;
      if io != BreaksOff {
        ok := RunPlan(plan.value, now, sizeOf);
      }
      if !ok || io != Works {
        FailInBackground();
        return Err;
      }
      return Ok(true);
    }

    /** Merges, retains and splits the plan's files, then publishes one edit that is never rejected. */
    method RunPlan(p: Plan, now: u64, sizeOf: seq<Entry> -> u64) returns (ok: bool)
      requires Valid() && immutables == [] && flushing == None && Closed(version, p) && forall t :: sizeOf(t) != 0
      modifies this`version, this`disk, this`nextFile, this`clock
      ensures Valid()
      ensures !ok ==> State() == old(State())
      ensures ok ==> clock == if now > old(clock) then now else old(clock)
    {
      ghost var before := State();
      StateShaped(before, history);
      var oldest := registry.OldestActive();
      var below := CoverageBelow(version, p.inputLevel + 1);
      var outputs := PlanOutputs(version, disk, p, oldest, below, now, options.targetTableBytes);
      if nextFile + |outputs| > U64_MAX {
        return false;
      }
      var sizes := seq(|outputs|, i requires 0 <= i < |outputs| => sizeOf(outputs[i]));
      Publish(p, oldest, below, now, outputs, sizes);
      return true;
    }

    method Publish(p: Plan, ghost oldest: Option<u64>, ghost below: bytes -> bool, ghost ran: u64,
                   outputs: seq<seq<Entry>>, sizes: seq<u64>)
      requires Valid() && Compacted(State(), p, oldest, below, ran, outputs, sizes)
      modifies this`version, this`disk, this`nextFile, this`clock
      ensures Valid() && clock == if ran > old(clock) then ran else old(clock)
    {
      ghost var after := CompactionApplies(State(), history, p, oldest, below, ran, outputs, sizes);
      var edit := CompactionEdit(p, OutputFiles(outputs, nextFile, sizes), nextFile + |outputs|);
      var applied := Apply(version, edit);
      version, disk, nextFile := applied.value, WithOutputs(disk, outputs, nextFile), nextFile + |outputs|;
      clock := if ran > clock then ran else clock;
      assert State() == after;
    }

    // ----- Reads -----

    /** A read at `at` and `now` that a snapshot or the committed sequence protects. */
    ghost predicate Served(at: u64, now: u64)
      reads this, mutable, registry
    {
      Readable(State(), at) && now >= clock
    }

    /** A read at a snapshot's sequence. Table files are searched through their block index: it finds the newest
        visible version if and only if no file that may hold the key has a block boundary that skips the read. */
    method GetAt(key: bytes, at: u64, now: u64, blocks: Blocking)
        returns (r: Result<Option<bytes>>, ghost hit: Option<Entry>)
      requires Valid() && BlocksHold(version, disk, blocks)
      ensures r.Err? <==> !Serving() || |key| > options.maxKeyBytes
      ensures r.Ok? ==> r.value == Value(hit, now)
      ensures r.Ok? ==> (hit == Newest(All(State()), key, at) <==> Unskipped(version, blocks, key, at))
      ensures r.Ok? && !Unskipped(version, blocks, key, at) ==> Outdated(hit, Newest(All(State()), key, at))
      ensures r.Ok? && Served(at, now) && Unskipped(version, blocks, key, at)
              ==> r.value == Read(history, key, at, now)
    {
      hit := None;
      if !Serving() || |key| > options.maxKeyBytes {
        return Err, None;
      }
      ReadsRight(State(), history);
      var value;
      value, hit := PointReads.Get([mutable.entries] + NewestFirst(immutables), version, disk, blocks, key, at, now);
      r := Ok(value);
    }

    /** The newest committed value of a key: no block boundary can skip this read. */
    method Get(key: bytes, now: u64, blocks: Blocking) returns (r: Result<Option<bytes>>)
      requires Valid() && BlocksHold(version, disk, blocks)
      ensures r.Err? <==> !Serving() || |key| > options.maxKeyBytes
      ensures r.Ok? && now >= clock ==> r.value == Read(history, key, committed, now)
    {
      CommittedUnskipped(State(), history, blocks, key, committed);
      ghost var hit;
      r, hit := GetAt(key, committed, now, blocks);
    }

    /** A scan of nothing is answered even by a closed engine. */
    method ScanAt(bounds: ScanBounds, limit: nat, at: u64, now: u64) returns (r: Result<seq<(bytes, bytes)>>)
      requires Valid()
      ensures r.Err? <==> background || TooLong(options, bounds) || (limit > 0 && closed)
      ensures r.Ok? && Served(at, now) ==> ScanOf(r.value, history, bounds, at, now, limit)
    {
      if background || TooLong(options, bounds) || (limit > 0 && closed) {
        return Err;
      }
      ReadsRight(State(), history);
      var rows := ScanStore([mutable.entries] + NewestFirst(immutables), version, disk, bounds, at, now, limit);
      if Served(at, now) {
        ScanOfSameReads(rows, All(State()), history, bounds, at, now, limit);
      }
      return Ok(rows);
    }

    // ----- Snapshots -----

    method TakeSnapshot() returns (r: Result<u64>)
      requires Valid()
      modifies registry
      ensures Valid() && (r == if Serving() then Ok(committed) else Err)
      ensures registry.guards == old(registry.guards) + if r.Ok? then multiset{committed} else multiset{}
    {
      if !Serving() {
        return Err;
      }
      ghost var before := State();
      registry.Acquire(committed);
      StepKeeps(before, history, Action.Acquire(committed), State());
      return Ok(committed);
    }

    method DropSnapshot(sequence: u64)
      requires Valid() && sequence in registry.guards
      modifies registry
      ensures Valid() && registry.guards == old(registry.guards) - multiset{sequence}
    {
      ghost var before := State();
      registry.Release(sequence);
      StepKeeps(before, history, Action.Release(sequence), State());
    }

    /** Closes the engine; a failed sync, or an earlier failure, is reported once. */
    method Close(synced: bool) returns (r: Result<()>)
      requires Valid()
      modifies this`failed, this`closed
      ensures Valid() && closed && State() == old(State())
      ensures r.Err? <==> old(failed) || (!old(closed) && !synced)
      ensures failed == r.Err?
    {
      if failed {
        closed := true;
        return Err;
      }
      if closed {
        return Ok(());
      }
      failed, closed := !synced, true;
      return if synced then Ok(()) else Err;
    }
  }

  /** Where a compaction's files can fail: before its edit is published, or in the removal of the old ones. */
  datatype CompactionIo = Works | BreaksOff | LeavesOldFiles

  predicate TooLong(options: Options, b: ScanBounds) {
    BoundLength(b.start) > options.maxKeyBytes || BoundLength(b.end) > options.maxKeyBytes
  }

  function BoundLength(b: Bound): nat {
    match b
    case Unbounded => 0
    case Included(key) => |key|
    case Excluded(key) => |key|
  }

  /** A file number that names no file changes nothing. */
  lemma NumberSkipped(s: Store, history: set<Entry>)
    requires history in Histories(s) && s.nextFile < U64_MAX
    ensures history in Histories(s.(nextFile := s.nextFile + 1))
  {
    var t := s.(nextFile := s.nextFile + 1);
    assert Inv(s, history) && All(t) == All(s);
    AgreesAgain(s, t, history);
  }

  lemma FlushAbandoned(s: Store, history: set<Entry>)
    requires history in Histories(s)
    ensures history in Histories(s.(flushing := None))
  {
    var t := s.(flushing := None);
    assert Inv(s, history) && All(t) == All(s);
    AgreesAgain(s, t, history);
  }

  lemma QueueBack(queue: seq<seq<Entry>>, t: seq<Entry>)
    ensures NewestFirst(queue + [t]) == [t] + NewestFirst(queue)
  {
  }

  ghost function AfterBatch(s: Store, entries: seq<Entry>): Store
    requires |s.mem| >= 1 && s.committed + 1 < U64_MAX
  {
    s.(mem := [entries] + s.mem[1..], committed := s.committed + 1)
  }

  lemma BatchApplied(s: Store, history: set<Entry>, batch: Batch, entries: seq<Entry>)
    requires history in Histories(s) && |s.mem| >= 1 && s.committed + 1 < U64_MAX && batch != []
    requires Sorted(entries) && Entries(entries) == Entries(s.mem[0]) + Effects(batch, s.committed + 1)
    ensures history + Effects(batch, s.committed + 1) in Histories(AfterBatch(s, entries))
    ensures entries != []
  {
    var last := batch[|batch| - 1];
    assert Entry(last.key, s.committed + 1, RecordOf(last)) in Entries(entries);
    assert AfterBatch(s, entries).mem[1..] == s.mem[1..];
    WriteStepKeeps(s, history, batch, AfterBatch(s, entries));
  }

  /** The mutable table has no version at the next sequence. */
  lemma CommittedFresh(s: Store, history: set<Entry>)
    requires history in Histories(s)
    ensures |s.mem| >= 1 && forall e | e in s.mem[0] :: e.seqno <= s.committed
  {
    assert Inv(s, history);
    forall e | e in s.mem[0] ensures e.seqno <= s.committed {
      assert e in MemoryEntries(s.mem);
    }
  }

  lemma QueueFront(queue: seq<seq<Entry>>)
    ensures queue != [] ==> var r := NewestFirst(queue);
              |r| > 0 && r[|r| - 1] == queue[0] && r[..|r| - 1] == NewestFirst(queue[1..])
  {
  }

  lemma FlushReady(s: Store, history: set<Entry>, size: u64)
    requires history in Histories(s) && s.flushing.Some? && size != 0
    ensures |s.mem| >= 2 && s.mem[|s.mem| - 1] != []
    ensures Applied(s.version, FlushEdit(s, size)).Ok?
  {
    assert Inv(s, history);
    FlushAccepted(s, size);
  }

  lemma FlushApplies(s: Store, history: set<Entry>, size: u64) returns (t: Store)
    requires history in Histories(s) && s.flushing.Some? && size != 0
    ensures |s.mem| >= 2 && Applied(s.version, FlushEdit(s, size)) == Ok(t.version)
    ensures history in Histories(t)
    ensures t == s.(mem := s.mem[..|s.mem| - 1], flushing := None, version := t.version,
                    disk := s.disk[s.flushing.value := s.mem[|s.mem| - 1]])
  {
    FlushReady(s, history, size);
    var last := |s.mem| - 1;
    t := s.(mem := s.mem[..last], flushing := None, version := Applied(s.version, FlushEdit(s, size)).value,
            disk := s.disk[s.flushing.value := s.mem[last]]);
    CommitFlushKeeps(s, t, history, size);
  }

  lemma ReadsRight(s: Store, history: set<Entry>)
    requires history in Histories(s)
    ensures Consistent(s.mem, s.version, s.disk)
    ensures forall user: bytes, at: u64, now: u64 | Readable(s, at) && now >= s.clock ::
              Read(All(s), user, at, now) == Read(history, user, at, now)
  {
    assert Inv(s, history);
  }

  lemma StateShaped(s: Store, history: set<Entry>)
    requires history in Histories(s)
    ensures WellFormed(s.version) && Layered(s.version, s.disk)
  {
    assert Inv(s, history);
  }

  /** Whether a key lies in the range of some file below a level. */
  function CoverageBelow(v: Version, level: nat): (below: bytes -> bool)
    ensures forall k :: below(k) == MayExistBelow(v, level, k)
  {
    k => MayExistBelow(v, level, k)
  }

  method MergeFiles(disk: Disk, files: Level) returns (merged: seq<Entry>)
    ensures merged == Merge(Tables(disk, files))
  {
    var children := seq(|files|, i requires 0 <= i < |files| => Child(Table(disk, files[i]), false));
    assert seq(|children|, i requires 0 <= i < |children| => children[i].rest) == Tables(disk, files);
    var it := new MergingIterator(children);
    merged := Drain(it);
  }

  method PlanOutputs(v: Version, disk: Disk, p: Plan, oldest: Option<u64>, below: bytes -> bool, now: u64, target: nat)
      returns (outputs: seq<seq<Entry>>)
    requires Closed(v, p) && Layered(v, disk)
    ensures SplitByKey(outputs) && Flatten(outputs) == RetainAll(Merged(disk, p), oldest, below, now)
  {
    MergedSorted(v, disk, p);
    var merged := MergeFiles(disk, PlanFiles(p));
    outputs := Compactions.Run(merged, oldest, below, now, target);
  }

  lemma CompactionApplies(s: Store, history: set<Entry>, p: Plan, oldest: Option<u64>, below: bytes -> bool, ran: u64,
                          outputs: seq<seq<Entry>>, sizes: seq<u64>) returns (t: Store)
    requires history in Histories(s) && Compacted(s, p, oldest, below, ran, outputs, sizes)
    ensures history in Histories(t)
    ensures Compacts(s, t, p, oldest, below, ran, outputs, sizes)
  {
    assert Inv(s, history);
    CompactReady(s, p, oldest, below, ran, outputs, sizes);
    var edit := CompactionEdit(p, OutputFiles(outputs, s.nextFile, sizes), s.nextFile + |outputs|);
    t := s.(version := Applied(s.version, edit).value, disk := WithOutputs(s.disk, outputs, s.nextFile),
            nextFile := s.nextFile + |outputs|, clock := if ran > s.clock then ran else s.clock);
    CompactKeeps(s, t, history, p, oldest, below, ran, outputs, sizes);
  }
}
