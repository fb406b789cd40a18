/** The window in which a kill, followed by a power failure, loses a table: every compaction passes through it. */
module KillWindows {
  import opened Bytes
  import opened InternalKeys
  import opened Mvcc
  import opened MemTables
  import opened Versions
  import opened Acceptance
  import opened VersionSets
  import opened Plans
  import opened Layouts
  import opened Install
  import opened Outputs
  import opened Ledgers
  import opened Protocols
  import opened Durability
  import opened Edits
  import opened Steps
  import opened Kills

  /** An edit that is visible but not durable drops a table of the published state. */
  ghost predicate InWindow(s: Sys, n: u64) {
    && s in SAFE && s.pend.Some? && Needs(s.cur, Sst(n)) && !Needs(s.pend.value, Sst(n))
    && Manifest in s.disc.durable && Manifest in s.disc.volatile
    && s.disc.durable[Manifest] != s.disc.volatile[Manifest]
  }

  lemma InputDropped(v: Version, w: Version, p: Plan, files: Level, next: u64, f: FileMeta)
    requires WellFormed(v) && Closed(v, p) && f in p.inputs && HasFile(v, p.inputLevel, f)
    requires Applied(v, CompactionEdit(p, files, next)) == Ok(w)
    requires forall g | g in files :: ValidFile(g) && g.number != f.number
    ensures forall l: nat, g | HasFile(w, l, g) :: g.number != f.number
  {
    var e := CompactionEdit(p, files, next);
    forall l: nat, g | (l, g) in e.added ensures g in files {
    }
    AppliedMeaning(v, e);
    EditDeletes(v, p, files, next, p.inputLevel, f);
    assert forall l: nat, g | HasFile(v, l, g) && g.number == f.number :: l == p.inputLevel && g == f;
  }

  /** Between the append and the sync of its edit, every compaction stands in the window of each input file. */
  lemma CompactionOpensWindow(s: Sys, t: Sys, e: VersionEdit, l: Layout, p: Plan, oldest: Option<u64>,
                              below: bytes -> bool, ran: u64, outputs: seq<seq<Entry>>, sizes: seq<u64>, first: u64,
                              f: FileMeta)
    requires s in SAFE && Compacts(s, t, e, l, p, oldest, below, ran, outputs, sizes, first) && f in p.inputs
    ensures InWindow(t, f.number) && !SurvivesPowerLoss(t, f.number)
  {
    CompactKeeps(s, t, e, l, p, oldest, below, ran, outputs, sizes, first);
    SafeParts(s);
    SafeParts(t);
    SafeKept(s);
    assert t.disc.durable[Manifest] != t.disc.volatile[Manifest] by {
      EditRecsLength(s.cur.edits, l.edits);
    }
    InputNeeded(s.cur, p, f);
    CompactionDrops(s, t, e, l, p, oldest, below, ran, outputs, sizes, first, f);
    KillSafety(t, f.number);
  }

  lemma InputNeeded(l: Layout, p: Plan, f: FileMeta)
    requires Closed(l.meta.version, p) && f in p.inputs
    ensures HasFile(l.meta.version, p.inputLevel, f) && Needs(l, Sst(f.number))
  {
    assert HasFile(l.meta.version, p.inputLevel, f);
  }

  lemma CompactionDrops(s: Sys, t: Sys, e: VersionEdit, l: Layout, p: Plan, oldest: Option<u64>,
                        below: bytes -> bool, ran: u64, outputs: seq<seq<Entry>>, sizes: seq<u64>, first: u64,
                        f: FileMeta)
    requires s in SAFE && Compacts(s, t, e, l, p, oldest, below, ran, outputs, sizes, first) && f in p.inputs
    ensures !Needs(l, Sst(f.number))
  {
    var files := OutputFiles(outputs, first, sizes);
    CurrentBelow(s, p, first, f);
    OutputNumbers(e, p, outputs, first, sizes, s.next);
    InputDropped(s.cur.meta.version, l.meta.version, p, files, s.next, f);
  }

  lemma CurrentBelow(s: Sys, p: Plan, first: u64, f: FileMeta)
    requires s in SAFE && Closed(s.cur.meta.version, p) && f in p.inputs && s.cur.meta.next <= first
    ensures WellFormed(s.cur.meta.version) && HasFile(s.cur.meta.version, p.inputLevel, f) && f.number < first
  {
    SafeParts(s);
    SafeKept(s);
    MetaCoherent(s.cur, s.h, s.acked);
    assert HasFile(s.cur.meta.version, p.inputLevel, f);
  }

  lemma OutputNumbers(e: VersionEdit, p: Plan, outputs: seq<seq<Entry>>, first: u64, sizes: seq<u64>, next: u64)
    requires |sizes| == |outputs| && first + |outputs| <= U64_MAX && forall i | 0 <= i < |outputs| :: outputs[i] != []
    requires ValidEdit(e) && e == CompactionEdit(p, OutputFiles(outputs, first, sizes), next)
    ensures forall g | g in OutputFiles(outputs, first, sizes) :: ValidFile(g) && g.number >= first
  {
    var files := OutputFiles(outputs, first, sizes);
    forall g | g in files ensures ValidFile(g) && g.number >= first {
      var i :| 0 <= i < |files| && files[i] == g;
      assert e.added[i] == (p.inputLevel + 1, g);
    }
  }

  // ----- One such state -----

  const GONE := Entry([], 1, Tombstone)
  const TABLE := FileMeta(2, 1, InternalKey([], 1, Deletion), InternalKey([], 1, Deletion))
  const FLUSHED := VersionEdit([(0, TABLE)], [], Some(4), Some(1), Some(3), Some(3), Some(1))
  const DROPPED := VersionEdit([], [(0, 2)], None, None, None, None, None)
  const HISTORY: Ledger := [[Delete([])]]
  const TABLES: Disk := map[2 := [GONE]]

  /** The version holds exactly the one file, or nothing. */
  ghost predicate HoldsOnly(v: Version, present: bool) {
    WellFormed(v) && forall l: nat, f :: HasFile(v, l, f) <==> present && l == 0 && f == TABLE
  }

  lemma AddsTable() returns (m: Meta)
    ensures ApplyEdit(BLANK.(next := 2), FLUSHED) == Ok(m) && HoldsOnly(m.version, true)
    ensures m == Meta(m.version, m.used, 4, 1, 3, 3, 1)
  {
    BlankWellFormed();
    var v := BLANK.version;
    assert ValidFile(TABLE);
    forall l: nat, f | (l, f) in FLUSHED.added ensures ValidFile(f) {
    }
    EditAccepted(v, FLUSHED);
    AppliedMeaning(v, FLUSHED);
    m := ApplyEdit(BLANK.(next := 2), FLUSHED).value;
  }

  lemma DropsTable(m: Meta) returns (r: Meta)
    requires m == Meta(m.version, m.used, 4, 1, 3, 3, 1) && HoldsOnly(m.version, true)
    requires forall n | n in m.used :: n < 4
    ensures ApplyEdit(m, DROPPED) == Ok(r) && HoldsOnly(r.version, false) && r == m.(version := r.version)
  {
    assert HasFile(m.version, 0, TABLE) && Names(TABLE, 2);
    assert NamesLive(m.version, (0, 2));
    EditAccepted(m.version, DROPPED);
    AppliedMeaning(m.version, DROPPED);
    assert AddedNumbers([]) == {} && m.used + {} == m.used;
    r := ApplyEdit(m, DROPPED).value;
  }

  lemma OneTableEntries(v: Version, present: bool)
    requires HoldsOnly(v, present)
    ensures Layered(v, TABLES) && DiskEntries(v, TABLES) == if present then {GONE} else {}
  {
    forall l | 0 <= l < NUM_LEVELS
      ensures LevelEntries(v, TABLES, l) == if present && l == 0 then {GONE} else {}
    {
      forall f | f in v[l] ensures present && l == 0 && f == TABLE {
        assert HasFile(v, l, f);
      }
      if present && l == 0 {
        assert HasFile(v, 0, TABLE);
        assert GONE in Table(TABLES, TABLE);
      }
    }
    forall f, g | f in v[0] && g in v[0] ensures f == g {
      assert HasFile(v, 0, f) && HasFile(v, 0, g);
    }
    if present {
      assert GONE in LevelEntries(v, TABLES, 0);
    }
  }

  lemma OneTableRepresents(v: Version, present: bool)
    requires HoldsOnly(v, present)
    ensures Represents(v, TABLES, HISTORY, 1, 0)
  {
    OneTableEntries(v, present);
    OneBatch();
    var s := DiskEntries(v, TABLES);
    forall user: bytes, at: u64, now: u64 | at >= 1
      ensures Read(s, user, at, now) == Read(Slice(HISTORY, 0, 1), user, at, now)
    {
      ReadsNothing(s, user, at, now);
      ReadsNothing({GONE}, user, at, now);
    }
  }

  lemma OneBatch()
    ensures Slice(HISTORY, 0, 1) == {GONE}
  {
    assert HISTORY[0] == [Delete([])];
  }

  lemma ReadsNothing(s: set<Entry>, user: bytes, at: u64, now: u64)
    requires forall e | e in s :: e.record == Tombstone
    ensures Read(s, user, at, now) == None
  {
  }

  function FilesWith(edits: seq<VersionEdit>): FileMap {
    map[Current := [PointerRec], Manifest := EditRecs(edits), Sst(2) := [TableRec([GONE])], Wal(3) := []]
  }

  function LayoutWith(edits: seq<VersionEdit>, m: Meta): Layout {
    Layout(edits, m, [Seg(3, 1)], TABLES, 0)
  }

  lemma WindowLayout(edits: seq<VersionEdit>, m: Meta, present: bool, files: FileMap)
    requires edits != [] && (forall e | e in edits :: ValidEdit(e)) && Recover(edits) == Ok(m)
    requires m == Meta(m.version, m.used, 4, 1, 3, 3, 1) && HoldsOnly(m.version, present)
    requires exists more :: files == FilesWith(more)
    ensures Sound(LayoutWith(edits, m), HISTORY, 1) && Stands(files, LayoutWith(edits, m), HISTORY, 1)
  {
    OneTableRepresents(m.version, present);
    assert Recs(HISTORY, 1, 1) == [];
  }

  const BEFORE := [INITIAL_EDIT, FLUSHED]
  const AFTER := [INITIAL_EDIT, FLUSHED, DROPPED]

  lemma WindowMetas() returns (m: Meta, r: Meta)
    ensures Recover(BEFORE) == Ok(m) && HoldsOnly(m.version, true) && m == Meta(m.version, m.used, 4, 1, 3, 3, 1)
    ensures Recover(AFTER) == Ok(r) && HoldsOnly(r.version, false) && r == m.(version := r.version)
    ensures forall e | e in AFTER :: ValidEdit(e)
  {
    InitialReplay();
    m := AddsTable();
    ReplaySnoc([INITIAL_EDIT], FLUSHED);
    assert [INITIAL_EDIT] + [FLUSHED] == BEFORE && BEFORE + [DROPPED] == AFTER;
    assert ValidFile(TABLE);
    ReplayCoherent(BEFORE);
    r := DropsTable(m);
    ReplaySnoc(BEFORE, DROPPED);
  }

  lemma WindowDisc()
    ensures DiscOk(Fs.Image(FilesWith(AFTER), FilesWith(BEFORE), FilesWith(BEFORE)))
    ensures AFTER[..|BEFORE|] == BEFORE && |AFTER| == |BEFORE| + 1
  {
    assert EditRecs(BEFORE) <= EditRecs(AFTER);
  }

  ghost function WindowSys(m: Meta, r: Meta): Sys {
    Sys(Fs.Image(FilesWith(AFTER), FilesWith(BEFORE), FilesWith(BEFORE)), LayoutWith(BEFORE, m),
        Some(LayoutWith(AFTER, r)), HISTORY, 1, Ready, 4, None, None)
  }

  lemma WindowKept(m: Meta, r: Meta)
    requires Recover(BEFORE) == Ok(m) && HoldsOnly(m.version, true) && m == Meta(m.version, m.used, 4, 1, 3, 3, 1)
    requires Recover(AFTER) == Ok(r) && HoldsOnly(r.version, false) && r == m.(version := r.version)
    requires forall e | e in AFTER :: ValidEdit(e)
    ensures var s := WindowSys(m, r); Kept(s, s.cur) && Kept(s, s.pend.value)
  {
    assert forall e | e in BEFORE :: e in AFTER;
    WindowLayout(BEFORE, m, true, FilesWith(BEFORE));
    WindowLayout(BEFORE, m, true, FilesWith(AFTER));
    WindowLayout(AFTER, r, false, FilesWith(BEFORE));
    WindowLayout(AFTER, r, false, FilesWith(AFTER));
  }

  lemma WindowManifest(m: Meta, r: Meta)
    ensures DiscOk(WindowSys(m, r).disc) && ManifestOk(WindowSys(m, r))
  {
    WindowDisc();
  }

  lemma WindowNumbers(m: Meta, r: Meta)
    requires m == Meta(m.version, m.used, 4, 1, 3, 3, 1) && r == m.(version := r.version)
    ensures ModeOk(WindowSys(m, r)) && SpareOk(WindowSys(m, r)) && FlushOk(WindowSys(m, r))
  {
  }

  lemma WindowSafe(s: Sys, m: Meta, r: Meta)
    requires m == Meta(m.version, m.used, 4, 1, 3, 3, 1) && r == m.(version := r.version)
    requires s == WindowSys(m, r) && Kept(s, s.cur) && Kept(s, s.pend.value)
    ensures s in SAFE
  {
    WindowManifest(m, r);
    WindowNumbers(m, r);
    SafeJoin(s);
  }

  /** A database that flushed one deletion and is about to publish an edit that drops the table. */
  lemma WindowExample() returns (s: Sys)
    ensures InWindow(s, 2) && !SurvivesPowerLoss(s, 2)
  {
    var m, r := WindowMetas();
    WindowKept(m, r);
    s := WindowSys(m, r);
    WindowSafe(s, m, r);
    assert HasFile(m.version, 0, TABLE);
    EditRecsLength(BEFORE, AFTER);
    KillSafety(s, 2);
  }
}
