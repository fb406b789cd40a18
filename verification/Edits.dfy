/** Manifest edits: rotation, flush, compaction and counter edits, and their publication. */
module Edits {
  import opened Bytes
  import opened Mvcc
  import opened Compactions
  import opened Versions
  import opened VersionSets
  import opened Plans
  import opened Layouts
  import opened Install
  import opened Outputs
  import opened Ledgers
  import opened Fs
  import opened Protocols
  import opened Durability
  import opened Steps

  /** The edit reaches the end of the visible manifest; it is not published yet. */
  ghost predicate AppendsEdit(s: Sys, t: Sys, e: VersionEdit, l: Layout) {
    && s.mode != Down && s.pend == None && |s.h| == s.acked
    && ValidEdit(e) && ApplyEdit(s.cur.meta, e) == Ok(l.meta) && l.edits == s.cur.edits + [e]
    && t == s.(disc := Appended(s.disc, Manifest, [EditRec(e)]), pend := Some(l), flushing := t.flushing)
  }

  /** The synced edit becomes the published state; a rotation hands the new log to the writers. */
  ghost predicate Publishes(s: Sys, t: Sys) {
    && s.pend.Some? && Manifest in s.disc.synced && s.disc.synced[Manifest] == Content(s.disc.volatile, Manifest)
    && t == s.(cur := s.pend.value, pend := None, mode := if s.spare.Some? then Ready else s.mode, spare := None)
  }

  lemma RecsSnoc(edits: seq<VersionEdit>, e: VersionEdit)
    ensures EditRecs(edits) + [EditRec(e)] == EditRecs(edits + [e]) && (edits + [e])[..|edits|] == edits
  {
  }

  lemma AppendedManifest(s: Sys, t: Sys, e: VersionEdit, l: Layout)
    requires s in SAFE && AppendsEdit(s, t, e, l)
    ensures DiscOk(t.disc) && ManifestOk(t) && Kept(t, t.cur)
    ensures Recover(l.edits) == Ok(l.meta) && forall d | d in l.edits :: ValidEdit(d)
  {
    SafeParts(s);
    SafeKept(s);
    MetaCoherent(s.cur, s.h, s.acked);
    ReplaySnoc(s.cur.edits, e);
    ApplyEditMonotone(s.cur.meta, e);
    RecsSnoc(s.cur.edits, e);
    KeptFrame(s, t, s.cur);
  }

  /** The part of a layout's soundness that an edit kind must establish. */
  ghost predicate Prepared(s: Sys, l: Layout) {
    && SegsSound(l.segs, l.meta, |s.h|) && l.segs != []
    && l.meta.last <= |s.h| && Represents(l.meta.version, l.tables, s.h, l.meta.last, l.clock)
    && l.meta.walSequence <= s.acked && l.meta.next <= s.next
    && Stands(s.disc.durable, l, s.h, s.acked) && Stands(s.disc.volatile, l, s.h, |s.h|)
  }

  function Or(change: Option<u64>, counter: u64): u64 {
    if change.Some? then change.value else counter
  }

  /** An accepted edit sets exactly the counters it names. */
  lemma EditCounters(m: Meta, e: VersionEdit, r: Meta)
    requires ApplyEdit(m, e) == Ok(r)
    ensures r.next == Or(e.nextFile, m.next) && r.last == Or(e.lastSequence, m.last) && r.log == Or(e.logNumber, m.log)
    ensures r.active == Or(e.activeLog, m.active) && r.walSequence == Or(e.walSequence, m.walSequence)
  {
  }

  /** The edit of a running database, or one that moves the writers to a durable log. */
  predicate Timely(s: Sys, l: Layout) {
    if s.spare == None then s.mode == Ready else l.meta.next == s.next && Wal(s.spare.value) in s.disc.durable
  }

  lemma AppendedLogs(s: Sys, t: Sys, e: VersionEdit, l: Layout)
    requires s in SAFE && AppendsEdit(s, t, e, l) && l.meta.next <= s.next && Timely(s, l)
    ensures LogsOk(t) && ModeOk(t)
  {
    SafeParts(s);
    ApplyEditMonotone(s.cur.meta, e);
    assert forall p | p != Manifest :: p in t.disc.volatile <==> p in s.disc.volatile;
  }

  lemma AppendEditKeeps(s: Sys, t: Sys, e: VersionEdit, l: Layout)
    requires s in SAFE && AppendsEdit(s, t, e, l) && Prepared(s, l) && FlushOk(t) && Timely(s, l)
    ensures t in SAFE
  {
    AppendedManifest(s, t, e, l);
    AppendedLogs(s, t, e, l);
    SafeParts(s);
    SegNumbers(l, |s.h|);
    AppendedAgree(s.disc, e, l);
    StandsFrame(s.disc.volatile, t.disc.volatile, l, s.h, |s.h|);
    SafeJoin(t);
  }

  lemma AppendedAgree(i: Disc, e: VersionEdit, l: Layout)
    ensures AgreeOn(i.volatile, Appended(i, Manifest, [EditRec(e)]).volatile, l)
  {
  }

  lemma PublishKeeps(s: Sys, t: Sys)
    requires s in SAFE && Publishes(s, t)
    ensures t in SAFE
  {
    SafeParts(s);
    SafeKept(s);
    assert t.disc.durable[Manifest] == EditRecs(t.cur.edits);
    SafeJoin(t);
  }

  // ----- Edits without files -----

  predicate CounterEdit(e: VersionEdit) {
    e.added == [] && e.deleted == []
  }

  lemma SameFiles(m: Meta, e: VersionEdit, r: Meta)
    requires WellFormed(m.version) && CounterEdit(e) && ApplyEdit(m, e) == Ok(r)
    ensures WellFormed(r.version) && forall l: nat, f :: HasFile(r.version, l, f) <==> HasFile(m.version, l, f)
  {
    AppliedMeaning(m.version, e);
  }

  lemma SameFilesRepresents(v: Version, w: Version, disk: Disk, h: Ledger, k: nat, clock: u64)
    requires k <= |h| && Represents(v, disk, h, k, clock) && WellFormed(w)
    requires forall l: nat, f :: HasFile(w, l, f) <==> HasFile(v, l, f)
    ensures Represents(w, disk, h, k, clock)
  {
    forall l | 0 <= l < NUM_LEVELS ensures LevelEntries(w, disk, l) == LevelEntries(v, disk, l) {
      SameLevel(v, w, disk, l);
    }
    assert DiskEntries(w, disk) == DiskEntries(v, disk);
    forall f, g | f in w[0] && g in w[0] && f.number > g.number
      ensures NewerThan(Entries(Table(disk, f)), Entries(Table(disk, g)))
    {
      assert HasFile(w, 0, f) && HasFile(w, 0, g) && HasFile(v, 0, f) && HasFile(v, 0, g);
    }
  }

  lemma SameLevel(v: Version, w: Version, disk: Disk, l: nat)
    requires l < NUM_LEVELS && forall k: nat, f :: HasFile(w, k, f) <==> HasFile(v, k, f)
    ensures LevelEntries(w, disk, l) == LevelEntries(v, disk, l)
  {
    forall f ensures f in w[l] <==> f in v[l] {
      assert HasFile(w, l, f) <==> HasFile(v, l, f);
    }
  }

  lemma SameFilesTables(files: FileMap, l: Layout, r: Layout)
    requires TablesOn(files, l) && r.tables == l.tables
    requires forall k: nat, f :: HasFile(r.meta.version, k, f) <==> HasFile(l.meta.version, k, f)
    ensures TablesOn(files, r)
  {
  }

  // ----- Persisting the log state -----

  /** All logs are synced, so the manifest may promise their last sequence. */
  ghost predicate Persists(s: Sys, t: Sys, e: VersionEdit, l: Layout) {
    && AppendsEdit(s, t, e, l) && s.mode == Ready && s.spare == None && t.flushing == s.flushing && s.cur.segs != []
    && e == VersionEdit([], [], Some(s.next), None, Some(s.cur.segs[0].number), Some(s.cur.meta.active), Some(s.acked))
    && l == s.cur.(edits := l.edits, meta := l.meta)
  }

  lemma PersistKeeps(s: Sys, t: Sys, e: VersionEdit, l: Layout)
    requires s in SAFE && Persists(s, t, e, l)
    ensures t in SAFE
  {
    SafeParts(s);
    SafeKept(s);
    MetaCoherent(s.cur, s.h, s.acked);
    SameFiles(s.cur.meta, e, l.meta);
    SameFilesRepresents(s.cur.meta.version, l.meta.version, l.tables, s.h, l.meta.last, l.clock);
    SameFilesTables(s.disc.durable, s.cur, l);
    SameFilesTables(s.disc.volatile, s.cur, l);
    AppendEditKeeps(s, t, e, l);
  }

  // ----- Rotation -----

  /** Segments that hold at least one batch. */
  function NonEmpty(segs: seq<Seg>, n: nat): seq<Seg> {
    if segs == [] then [] else
      (if segs[0].start < SegEnd(segs, 0, n) then [segs[0]] else []) + NonEmpty(segs[1..], n)
  }

  ghost predicate Ascending(segs: seq<Seg>, n: nat) {
    && (forall i, j | 0 <= i < j < |segs| :: segs[i].number < segs[j].number && segs[i].start <= segs[j].start)
    && (forall i | 0 <= i < |segs| :: segs[i].start <= n)
  }

  /** The rotated list: nonempty segments followed by the new log. */
  function Rotated(segs: seq<Seg>, k: u64, n: nat): (r: seq<Seg>)
    ensures r != []
  {
    NonEmpty(segs, n) + [Seg(k, n)]
  }

  lemma RotatedCons(segs: seq<Seg>, k: u64, n: nat)
    requires segs != []
    ensures var rest := Rotated(segs[1..], k, n);
            Rotated(segs, k, n) == if segs[0].start < SegEnd(segs, 0, n) then [segs[0]] + rest else rest
  {
  }

  lemma {:induction false} RotatedMembers(segs: seq<Seg>, k: u64, n: nat, x: Seg)
    requires x in Rotated(segs, k, n)
    ensures x in segs || x == Seg(k, n)
  {
    if segs != [] {
      RotatedCons(segs, k, n);
      if x in Rotated(segs[1..], k, n) {
        RotatedMembers(segs[1..], k, n, x);
      }
    }
  }

  lemma AscendingCons(first: Seg, rest: seq<Seg>, n: nat)
    requires Ascending(rest, n) && first.start <= n
    requires forall x | x in rest :: first.number < x.number && first.start <= x.start
    ensures Ascending([first] + rest, n)
  {
    var segs := [first] + rest;
    forall i, j | 0 <= i < j < |segs| ensures segs[i].number < segs[j].number && segs[i].start <= segs[j].start {
      assert segs[j] == rest[j - 1] && rest[j - 1] in rest;
    }
  }

  lemma AscendingHead(segs: seq<Seg>, n: nat)
    requires Ascending(segs, n) && segs != []
    ensures Ascending(segs[1..], n)
    ensures forall x | x in segs[1..] :: segs[0].number < x.number && segs[0].start <= x.start
  {
    forall x | x in segs[1..] ensures segs[0].number < x.number && segs[0].start <= x.start {
      var j :| 0 <= j < |segs[1..]| && segs[1..][j] == x;
      assert segs[0].number < segs[j + 1].number;
    }
  }

  lemma {:induction false} RotatedAscending(segs: seq<Seg>, k: u64, n: nat)
    requires Ascending(segs, n) && forall i | 0 <= i < |segs| :: segs[i].number < k
    ensures Ascending(Rotated(segs, k, n), n)
    ensures Rotated(segs, k, n)[0].start == if segs == [] then n else segs[0].start
    ensures Rotated(segs, k, n)[0].number >= if segs == [] then k else segs[0].number
  {
    if segs != [] {
      var rest := segs[1..];
      AscendingHead(segs, n);
      RotatedAscending(rest, k, n);
      RotatedCons(segs, k, n);
      forall x | x in Rotated(rest, k, n) ensures segs[0].number < x.number && segs[0].start <= x.start {
        RotatedMembers(rest, k, n, x);
      }
      AscendingCons(segs[0], Rotated(rest, k, n), n);
      assert Rotated(rest, k, n)[0] in Rotated(rest, k, n);
    }
  }

  /** The rotated list describes the same files. */
  lemma {:induction false} RotatedOn(files: FileMap, segs: seq<Seg>, k: u64, h: Ledger)
    requires SegsOn(files, segs, h, |h|) && Ascending(segs, |h|)
    requires forall i | 0 <= i < |segs| :: segs[i].number < k
    requires Wal(k) in files && files[Wal(k)] == []
    ensures SegsOn(files, Rotated(segs, k, |h|), h, |h|)
  {
    if segs == [] {
      assert SegOn(files, [Seg(k, |h|)], 0, h, |h|);
    } else {
      var rest := segs[1..];
      SegsOnTail(files, segs, h, |h|);
      RotatedOn(files, rest, k, h);
      RotatedCons(segs, k, |h|);
      if segs[0].start < SegEnd(segs, 0, |h|) {
        RotatedAscending(rest, k, |h|);
        assert SegOn(files, segs, 0, h, |h|);
        SegsOnCons(files, segs[0], Rotated(rest, k, |h|), h, |h|);
      }
    }
  }

  /** Every dropped segment is empty. */
  lemma {:induction false} RotatedDropped(files: FileMap, segs: seq<Seg>, k: u64, h: Ledger, i: nat)
    requires SegsOn(files, segs, h, |h|) && i < |segs| && segs[i] !in Rotated(segs, k, |h|)
    ensures Content(files, Wal(segs[i].number)) == []
  {
    RotatedCons(segs, k, |h|);
    assert SegOn(files, segs, 0, h, |h|);
    if i > 0 {
      SegsOnTail(files, segs, h, |h|);
      RotatedDropped(files, segs[1..], k, h, i - 1);
    }
  }

  lemma SegsOnTail(files: FileMap, segs: seq<Seg>, h: Ledger, floor: nat)
    requires SegsOn(files, segs, h, floor) && segs != []
    ensures SegsOn(files, segs[1..], h, floor)
  {
    forall i | 0 <= i < |segs| - 1 ensures SegOn(files, segs[1..], i, h, floor) {
      assert SegOn(files, segs, i + 1, h, floor);
    }
  }

  lemma SegsOnCons(files: FileMap, first: Seg, rest: seq<Seg>, h: Ledger, floor: nat)
    requires SegsOn(files, rest, h, floor) && rest != []
    requires Wal(first.number) in files && first.start + |files[Wal(first.number)]| == rest[0].start <= |h|
    requires files[Wal(first.number)] == Recs(h, first.start, rest[0].start)
    ensures SegsOn(files, [first] + rest, h, floor)
  {
    var segs := [first] + rest;
    forall i | 0 <= i < |segs| ensures SegOn(files, segs, i, h, floor) {
      assert i > 0 ==> SegOn(files, rest, i - 1, h, floor);
    }
  }

  /** Rotation, and the first edit of a reopened database, move writers to the new durable log. */
  ghost predicate Rotates(s: Sys, t: Sys, e: VersionEdit, l: Layout) {
    && AppendsEdit(s, t, e, l) && s.spare.Some? && Wal(s.spare.value) in s.disc.durable && t.flushing == s.flushing
    && var segs := Rotated(s.cur.segs, s.spare.value, |s.h|);
       && l == s.cur.(edits := l.edits, meta := l.meta, segs := segs)
       && e == VersionEdit([], [], Some(s.next), if s.mode == Opening then Some(s.cur.meta.last) else None,
                           Some(segs[0].number), Some(s.spare.value), if s.mode == Opening then Some(|s.h|) else None)
  }

  lemma RotateStands(files: FileMap, cur: Layout, l: Layout, h: Ledger, k: u64)
    requires Stands(files, cur, h, |h|) && SegsSound(cur.segs, cur.meta, |h|) && TablesOn(files, l)
    requires cur.meta.active < k && Wal(k) in files && files[Wal(k)] == []
    requires l.segs == Rotated(cur.segs, k, |h|) && l.meta.log == l.segs[0].number
    ensures Stands(files, l, h, |h|)
  {
    SegNumbers(cur, |h|);
    RotatedAscending(cur.segs, k, |h|);
    RotatedOn(files, cur.segs, k, h);
    forall n: u64 | Wal(n) in files && n >= l.meta.log && !IsSeg(l.segs, n) ensures files[Wal(n)] == [] {
      if i :| 0 <= i < |cur.segs| && cur.segs[i].number == n {
        RotatedMissing(cur.segs, l.segs, i);
        RotatedDropped(files, cur.segs, k, h, i);
      } else {
        assert !IsSeg(cur.segs, n);
      }
    }
  }

  lemma RotatedMissing(segs: seq<Seg>, r: seq<Seg>, i: nat)
    requires i < |segs| && !IsSeg(r, segs[i].number)
    ensures segs[i] !in r
  {
    assert forall j | 0 <= j < |r| :: r[j].number != segs[i].number;
  }

  lemma RotateKeeps(s: Sys, t: Sys, e: VersionEdit, l: Layout)
    requires s in SAFE && Rotates(s, t, e, l)
    ensures t in SAFE
  {
    SafeParts(s);
    SafeKept(s);
    MetaCoherent(s.cur, s.h, s.acked);
    SegNumbers(s.cur, |s.h|);
    var k := s.spare.value;
    RotatedAscending(s.cur.segs, k, |s.h|);
    SameFiles(s.cur.meta, e, l.meta);
    SameFilesRepresents(s.cur.meta.version, l.meta.version, l.tables, s.h, l.meta.last, l.clock);
    SameFilesTables(s.disc.durable, s.cur, l);
    SameFilesTables(s.disc.volatile, s.cur, l);
    RotateStands(s.disc.durable, s.cur, l, s.h, k);
    RotateStands(s.disc.volatile, s.cur, l, s.h, k);
    AppendEditKeeps(s, t, e, l);
  }

  // ----- Flush -----

  /** The oldest immutable table is durable as a table file and its log is no longer needed. */
  ghost predicate Flushes(s: Sys, t: Sys, e: VersionEdit, l: Layout, size: u64, table: seq<Entry>) {
    && AppendsEdit(s, t, e, l) && s.mode == Ready && s.spare == None && s.flushing.Some? && t.flushing == None
    && |s.cur.segs| >= 2 && size != 0 && table != [] && Sorted(table)
    && var number, segs := s.flushing.value, s.cur.segs;
       && segs[0].start < segs[1].start <= |s.h| && Entries(table) == Slice(s.h, segs[0].start, segs[1].start)
       && Content(s.disc.durable, Sst(number)) == [TableRec(table)]
       && Content(s.disc.volatile, Sst(number)) == [TableRec(table)]
       && e == VersionEdit([(0, TableMeta(number, size, table))], [], Some(s.next), Some(segs[1].start),
                           Some(segs[1].number), Some(s.cur.meta.active), None)
       && l == s.cur.(edits := l.edits, meta := l.meta, segs := segs[1..], tables := s.cur.tables[number := table])
  }

  lemma FlushFiles(m: Meta, e: VersionEdit, r: Meta, f: FileMeta)
    requires WellFormed(m.version) && ValidFile(f) && e.added == [(0, f)] && e.deleted == [] && ApplyEdit(m, e) == Ok(r)
    ensures forall l: nat, g :: HasFile(r.version, l, g) <==> HasFile(m.version, l, g) || (l == 0 && g == f)
  {
    AppliedMeaning(m.version, e);
  }

  lemma FlushTables(files: FileMap, l: Layout, r: Layout, f: FileMeta, table: seq<Entry>)
    requires TablesOn(files, l) && r.tables == l.tables[f.number := table]
    requires Content(files, Sst(f.number)) == [TableRec(table)] && NumbersBelow(l.meta.version, f.number)
    requires forall k: nat, g :: HasFile(r.meta.version, k, g) <==> HasFile(l.meta.version, k, g) || (k == 0 && g == f)
    ensures TablesOn(files, r)
  {
    forall k: nat, g | HasFile(r.meta.version, k, g) ensures TableOn(files, r.tables, g.number) {
      if HasFile(l.meta.version, k, g) {
        assert TableOn(files, l.tables, g.number);
      }
    }
  }

  lemma FlushStands(files: FileMap, cur: Layout, l: Layout, h: Ledger, floor: nat)
    requires Stands(files, cur, h, floor) && SegsSound(cur.segs, cur.meta, |h|) && TablesOn(files, l)
    requires |cur.segs| >= 2 && l.segs == cur.segs[1..] && l.meta.log == cur.segs[1].number
    ensures Stands(files, l, h, floor)
  {
    SegsOnTail(files, cur.segs, h, floor);
    forall n: u64 | Wal(n) in files && n >= l.meta.log && !IsSeg(l.segs, n) ensures files[Wal(n)] == [] {
      assert cur.segs[0].number < cur.segs[1].number;
      assert forall i | 0 < i < |cur.segs| :: l.segs[i - 1] == cur.segs[i];
      assert !IsSeg(cur.segs, n);
    }
  }

  lemma FlushOn(files: FileMap, cur: Layout, l: Layout, f: FileMeta, table: seq<Entry>, h: Ledger, floor: nat)
    requires Stands(files, cur, h, floor) && SegsSound(cur.segs, cur.meta, |h|)
    requires |cur.segs| >= 2 && l.segs == cur.segs[1..] && l.meta.log == cur.segs[1].number
    requires l.tables == cur.tables[f.number := table]
    requires Content(files, Sst(f.number)) == [TableRec(table)] && NumbersBelow(cur.meta.version, f.number)
    requires forall k: nat, g :: HasFile(l.meta.version, k, g) <==>
               HasFile(cur.meta.version, k, g) || (k == 0 && g == f)
    ensures Stands(files, l, h, floor)
  {
    FlushTables(files, cur, l, f, table);
    FlushStands(files, cur, l, h, floor);
  }

  lemma FlushedRepresents(s: Sys, t: Sys, e: VersionEdit, l: Layout, size: u64, table: seq<Entry>)
    requires s in SAFE && Flushes(s, t, e, l, size, table)
    ensures Represents(l.meta.version, l.tables, s.h, s.cur.segs[1].start, l.clock)
  {
    SafeParts(s);
    SafeKept(s);
    var v, number, a, b := s.cur.meta.version, s.flushing.value, s.cur.segs[0].start, s.cur.segs[1].start;
    var store := FlushStore(v, s.cur.tables, number, table, b);
    assert Applied(v, Stores.FlushEdit(store, size)) == Applied(v, e);
    FlushRepresents(v, s.cur.tables, s.h, a, b, s.cur.clock, number, size, table, l.meta.version);
  }

  lemma FlushedStands(s: Sys, t: Sys, e: VersionEdit, l: Layout, size: u64, table: seq<Entry>)
    requires s in SAFE && Flushes(s, t, e, l, size, table) && l.meta.log == s.cur.segs[1].number
    ensures Stands(s.disc.durable, l, s.h, s.acked) && Stands(s.disc.volatile, l, s.h, |s.h|)
  {
    SafeParts(s);
    SafeKept(s);
    var f := TableMeta(s.flushing.value, size, table);
    MetaValid(s.flushing.value, size, table);
    FlushFiles(s.cur.meta, e, l.meta, f);
    FlushOn(s.disc.durable, s.cur, l, f, table, s.h, s.acked);
    FlushOn(s.disc.volatile, s.cur, l, f, table, s.h, |s.h|);
  }

  lemma FlushKeeps(s: Sys, t: Sys, e: VersionEdit, l: Layout, size: u64, table: seq<Entry>)
    requires s in SAFE && Flushes(s, t, e, l, size, table)
    ensures t in SAFE
  {
    EditCounters(s.cur.meta, e, l.meta);
    FlushedRepresents(s, t, e, l, size, table);
    FlushedStands(s, t, e, l, size, table);
    SegsOfCur(s);
    FlushPrepared(s, l);
    AppendEditKeeps(s, t, e, l);
  }

  lemma FlushPrepared(s: Sys, l: Layout)
    requires SegsSound(s.cur.segs, s.cur.meta, |s.h|) && s.cur.meta.walSequence <= s.acked && |s.cur.segs| >= 2
    requires l.segs == s.cur.segs[1..] && l.meta.last == s.cur.segs[1].start && l.meta.log == s.cur.segs[1].number
    requires l.meta.active == s.cur.meta.active && l.meta.walSequence == s.cur.meta.walSequence && l.meta.next == s.next
    requires l.meta.last <= |s.h| && Represents(l.meta.version, l.tables, s.h, l.meta.last, l.clock)
    requires Stands(s.disc.durable, l, s.h, s.acked) && Stands(s.disc.volatile, l, s.h, |s.h|)
    ensures Prepared(s, l)
  {
  }

  lemma SegsOfCur(s: Sys)
    requires s in SAFE
    ensures SegsSound(s.cur.segs, s.cur.meta, |s.h|) && s.cur.meta.walSequence <= s.acked
    ensures s.mode != Down ==> s.cur.meta.active < s.next
  {
    SafeKept(s);
    if s.mode != Down {
      ActiveBelow(s);
    }
  }

  // ----- Compaction -----

  /** What a finished compaction run left on disk under new numbers. */
  ghost predicate OutputsOn(files: FileMap, outputs: seq<seq<Entry>>, first: u64)
    requires first + |outputs| <= U64_MAX
  {
    forall i | 0 <= i < |outputs| :: Content(files, Sst(first + i)) == [TableRec(outputs[i])]
  }

  /** One edit replaces the plan's files by the durable outputs. */
  ghost predicate Compacts(s: Sys, t: Sys, e: VersionEdit, l: Layout, p: Plan, oldest: Option<u64>,
                           below: bytes -> bool,
                           ran: u64, outputs: seq<seq<Entry>>, sizes: seq<u64>, first: u64) {
    && AppendsEdit(s, t, e, l) && s.mode == Ready && s.spare == None && s.flushing == None && t.flushing == None
    && s.cur.meta.next <= first && first + |outputs| == s.next
    && Closed(s.cur.meta.version, p) && (forall k :: below(k) == MayExistBelow(s.cur.meta.version, p.inputLevel + 1, k))
    && SplitByKey(outputs) && Flatten(outputs) == RetainAll(Merged(s.cur.tables, p), oldest, below, ran)
    && |sizes| == |outputs| && (forall i | 0 <= i < |sizes| :: sizes[i] != 0)
    && OutputsOn(s.disc.durable, outputs, first) && OutputsOn(s.disc.volatile, outputs, first)
    && e == CompactionEdit(p, OutputFiles(outputs, first, sizes), s.next)
    && l == s.cur.(edits := l.edits, meta := l.meta, tables := WithOutputs(s.cur.tables, outputs, first),
                   clock := if ran > s.cur.clock then ran else s.cur.clock)
  }

  lemma OutputTable(files: FileMap, tables: Disk, outputs: seq<seq<Entry>>, first: u64, sizes: seq<u64>, f: FileMeta)
    requires first + |outputs| <= U64_MAX && OutputsOn(files, outputs, first) && |sizes| == |outputs|
    requires (forall i | 0 <= i < |outputs| :: outputs[i] != []) && f in OutputFiles(outputs, first, sizes)
    ensures TableOn(files, WithOutputs(tables, outputs, first), f.number)
  {
    var added := OutputFiles(outputs, first, sizes);
    var i :| 0 <= i < |added| && added[i] == f;
    WithOutputsAt(tables, outputs, first, f.number);
    assert Content(files, Sst(first + i)) == [TableRec(outputs[i])];
  }

  lemma OldTableOn(files: FileMap, tables: Disk, outputs: seq<seq<Entry>>, first: u64, number: u64)
    requires first + |outputs| <= U64_MAX && TableOn(files, tables, number) && number < first
    ensures TableOn(files, WithOutputs(tables, outputs, first), number)
  {
    WithOutputsAt(tables, outputs, first, number);
  }

  lemma CompactTables(files: FileMap, cur: Layout, l: Layout, p: Plan, outputs: seq<seq<Entry>>, first: u64,
                      sizes: seq<u64>)
    requires TablesOn(files, cur) && NumbersBelow(cur.meta.version, first) && first + |outputs| <= U64_MAX
    requires l.tables == WithOutputs(cur.tables, outputs, first) && OutputsOn(files, outputs, first)
    requires |sizes| == |outputs| && forall i | 0 <= i < |outputs| :: outputs[i] != []
    requires Installed(cur.meta.version, p, OutputFiles(outputs, first, sizes), l.meta.version)
    ensures TablesOn(files, l)
  {
    forall k: nat, f | HasFile(l.meta.version, k, f) ensures TableOn(files, l.tables, f.number) {
      if HasFile(cur.meta.version, k, f) {
        assert TableOn(files, cur.tables, f.number);
        OldTableOn(files, cur.tables, outputs, first, f.number);
      } else {
        OutputTable(files, cur.tables, outputs, first, sizes, f);
      }
    }
  }

  lemma CompactedVersion(s: Sys, t: Sys, e: VersionEdit, l: Layout, p: Plan, oldest: Option<u64>, below: bytes -> bool,
                         ran: u64, outputs: seq<seq<Entry>>, sizes: seq<u64>, first: u64)
    requires s in SAFE && Compacts(s, t, e, l, p, oldest, below, ran, outputs, sizes, first)
    ensures Represents(l.meta.version, l.tables, s.h, s.cur.meta.last, l.clock)
    ensures Installed(s.cur.meta.version, p, OutputFiles(outputs, first, sizes), l.meta.version)
    ensures NumbersBelow(s.cur.meta.version, first)
  {
    SafeKept(s);
    MetaCoherent(s.cur, s.h, s.acked);
    var v := s.cur.meta.version;
    CompactRepresents(v, s.cur.tables, s.h, s.cur.meta.last, s.cur.clock, first, p, oldest, below, ran, outputs, sizes,
                      l.meta.version);
    RunOutputs(v, s.cur.tables, p, oldest, below, ran, outputs);
    InstallMeaning(v, s.cur.tables, p, outputs, first, sizes);
  }

  lemma CompactedStands(s: Sys, l: Layout, p: Plan, outputs: seq<seq<Entry>>, sizes: seq<u64>, first: u64)
    requires s in SAFE && NumbersBelow(s.cur.meta.version, first) && first + |outputs| <= U64_MAX
    requires l.tables == WithOutputs(s.cur.tables, outputs, first) && l.segs == s.cur.segs
    requires l.meta.log == s.cur.meta.log
    requires OutputsOn(s.disc.durable, outputs, first) && OutputsOn(s.disc.volatile, outputs, first)
    requires |sizes| == |outputs| && forall i | 0 <= i < |outputs| :: outputs[i] != []
    requires Installed(s.cur.meta.version, p, OutputFiles(outputs, first, sizes), l.meta.version)
    ensures Stands(s.disc.durable, l, s.h, s.acked) && Stands(s.disc.volatile, l, s.h, |s.h|)
  {
    SafeKept(s);
    CompactTables(s.disc.durable, s.cur, l, p, outputs, first, sizes);
    CompactTables(s.disc.volatile, s.cur, l, p, outputs, first, sizes);
  }

  lemma CompactKeeps(s: Sys, t: Sys, e: VersionEdit, l: Layout, p: Plan, oldest: Option<u64>, below: bytes -> bool,
                     ran: u64, outputs: seq<seq<Entry>>, sizes: seq<u64>, first: u64)
    requires s in SAFE && Compacts(s, t, e, l, p, oldest, below, ran, outputs, sizes, first)
    ensures t in SAFE
  {
    EditCounters(s.cur.meta, e, l.meta);
    CompactedVersion(s, t, e, l, p, oldest, below, ran, outputs, sizes, first);
    CompactedStands(s, l, p, outputs, sizes, first);
    SegsOfCur(s);
    ReadySegs(s);
    SamePrepared(s, l);
    AppendEditKeeps(s, t, e, l);
  }

  lemma ReadySegs(s: Sys)
    requires s in SAFE && s.mode == Ready
    ensures s.cur.segs != []
  {
    SafeParts(s);
  }

  /** Prepared for an edit that keeps the logs and the flushed prefix. */
  lemma SamePrepared(s: Sys, l: Layout)
    requires SegsSound(s.cur.segs, s.cur.meta, |s.h|) && s.cur.segs != [] && l.segs == s.cur.segs
    requires l.meta.last == s.cur.meta.last && l.meta.log == s.cur.meta.log && l.meta.active == s.cur.meta.active
    requires l.meta.walSequence <= s.acked && l.meta.next <= s.next
    requires Represents(l.meta.version, l.tables, s.h, l.meta.last, l.clock)
    requires Stands(s.disc.durable, l, s.h, s.acked) && Stands(s.disc.volatile, l, s.h, |s.h|)
    ensures Prepared(s, l)
  {
  }
}
