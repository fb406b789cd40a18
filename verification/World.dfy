/** Whole lives of a database directory: bootstrap, runs, orderly ends, power failures and reopenings. */
module Worlds {
  import opened Bytes
  import opened Mvcc
  import opened MemTables
  import opened Versions
  import opened VersionSets
  import opened Plans
  import opened Fs
  import opened Protocols
  import opened Durability
  import opened Steps
  import opened Edits
  import Runs

  // ----- Bootstrap -----

  /** Only bootstrap files exist, and a pointer is visible or durable only over a durable manifest. */
  ghost predicate BootOk(i: Disc) {
    && DiscOk(i)
    && (forall p | p in i.volatile || p in i.durable :: p.Manifest? || p.Current? || Temporary(p))
    && (Manifest in i.volatile ==>
          Manifest in i.synced && i.synced[Manifest] == i.volatile[Manifest] == EditRecs([INITIAL_EDIT]))
    && (Manifest in i.durable ==> Manifest in i.volatile)
    && (Current in i.volatile ==> Current in i.synced && i.synced[Current] == i.volatile[Current] == [PointerRec])
    && (Current in i.volatile ==> Manifest in i.durable)
    && (Current in i.durable ==> Current in i.volatile)
  }

  /** Calls on the temporary files, and the two installations. */
  datatype BootCall =
    | CreateTmp(p: Path)
    | WriteTmp(p: Path, rs: seq<Rec>)
    | RemoveTmp(p: Path)
    | SyncAny(p: Path)
    | SyncDir
    | InstallManifest
    | InstallCurrent

  ghost predicate Boots(i: Disc, c: BootCall, j: Disc) {
    match c
    case CreateTmp(p) => Temporary(p) && j == Created(i, p)
    case WriteTmp(p, rs) => Temporary(p) && p in i.volatile && j == Appended(i, p, rs)
    case RemoveTmp(p) => Temporary(p) && j == Removed(i, p)
    case SyncAny(p) => j == FileSynced(i, p)
    case SyncDir => j == DirectorySynced(i)
    case InstallManifest =>
      && Manifest !in i.volatile && Manifest !in i.durable
      && ManifestTmp in i.synced && ManifestTmp in i.volatile
      && i.synced[ManifestTmp] == i.volatile[ManifestTmp] == EditRecs([INITIAL_EDIT])
      && j == Renamed(i, ManifestTmp, Manifest)
    case InstallCurrent =>
      && Current !in i.volatile && Current !in i.durable && Manifest in i.durable
      && CurrentTmp in i.synced && CurrentTmp in i.volatile
      && i.synced[CurrentTmp] == i.volatile[CurrentTmp] == [PointerRec]
      && j == Renamed(i, CurrentTmp, Current)
  }

  lemma BootKeeps(i: Disc, c: BootCall, j: Disc)
    requires BootOk(i) && Boots(i, c, j)
    ensures BootOk(j)
  {
    match c
    case CreateTmp(_) => BootTemporary(i, c, j);
    case WriteTmp(_, _) => BootTemporary(i, c, j);
    case RemoveTmp(_) => BootTemporary(i, c, j);
    case SyncAny(_) => BootSync(i, c, j);
    case SyncDir => BootSync(i, c, j);
    case InstallManifest => BootInstall(i, c, j);
    case InstallCurrent => BootInstall(i, c, j);
  }

  lemma BootTemporary(i: Disc, c: BootCall, j: Disc)
    requires BootOk(i) && Boots(i, c, j) && (c.CreateTmp? || c.WriteTmp? || c.RemoveTmp?)
    ensures BootOk(j)
  {
  }

  lemma BootSync(i: Disc, c: BootCall, j: Disc)
    requires BootOk(i) && Boots(i, c, j) && (c.SyncAny? || c.SyncDir?)
    ensures BootOk(j)
  {
  }

  lemma BootInstall(i: Disc, c: BootCall, j: Disc)
    requires BootOk(i) && Boots(i, c, j) && (c.InstallManifest? || c.InstallCurrent?)
    ensures BootOk(j)
  {
  }

  const INITIAL_LAYOUT := Layout([INITIAL_EDIT], BLANK.(next := 2), [], map[], 0)

  lemma InitialSound()
    ensures Sound(INITIAL_LAYOUT, [], 0)
  {
    InitialReplay();
    Runs.EmptyLayered(map[]);
  }

  lemma FreshSafe(i: Disc, s: Sys)
    requires BootOk(i) && Current in i.durable && i.volatile.Keys <= i.durable.Keys
    requires s == Sys(i, INITIAL_LAYOUT, None, [], 0, Down, 0, None, None)
    ensures s in SAFE
  {
    InitialSound();
    assert Stands(i.durable, INITIAL_LAYOUT, [], 0) && Stands(i.volatile, INITIAL_LAYOUT, [], 0) by {
      assert forall k: nat, f :: !HasFile(INITIAL_LAYOUT.meta.version, k, f);
    }
    SafeJoin(s);
  }

  lemma BootCrash(i: Disc, files: FileMap)
    requires BootOk(i) && Survives(i, files)
    ensures BootOk(Image(files, files, files))
  {
    forall p | p in files && !Temporary(p) ensures files[p] == i.durable[p] == i.volatile[p] {
      assert MaySurvive(i, p, files[p]);
      assert p in i.volatile && p in i.synced;
    }
  }

  // ----- Opening -----

  /** Recovery has removed unpublished tables, synced the directory and chosen a file counter above every log. */
  ghost predicate Opens(s: Sys, t: Sys, next: u64) {
    && s.mode == Down
    && (forall n: u64 :: SstTmp(n) !in s.disc.volatile)
    && (forall n: u64 | Sst(n) in s.disc.volatile :: Needs(s.cur, Sst(n)))
    && s.cur.meta.next <= next && (forall n: u64 | Wal(n) in s.disc.volatile :: n < next)
    && t == s.(mode := Opening, next := next)
  }

  lemma OpenKeeps(s: Sys, t: Sys, next: u64)
    requires s in SAFE && Opens(s, t, next)
    ensures t in SAFE
  {
    SafeParts(s);
    SafeKept(s);
    MetaCoherent(s.cur, s.h, s.acked);
    forall p | p in s.disc.volatile && Numbered(p) ensures p.n < next {
      if p.Sst? {
        assert Needs(s.cur, p);
      }
    }
    SafeJoin(t);
  }

  /** An orderly end: no edit is half done and every batch acknowledged. */
  ghost predicate Closes(s: Sys, t: Sys) {
    && s.mode == Ready && s.pend == None && |s.h| == s.acked
    && t == s.(mode := Down, next := 0, spare := None, flushing := None)
  }

  lemma CloseKeeps(s: Sys, t: Sys)
    requires s in SAFE && Closes(s, t)
    ensures t in SAFE
  {
    SafeParts(s);
    SafeKept(s);
    SafeJoin(t);
  }

  /** The process is killed and the machine runs on: the next process finds all that was visible. */
  ghost predicate Dies(s: Sys, t: Sys) {
    && Content(s.disc.durable, Manifest) == Content(s.disc.volatile, Manifest)
    && t == s.(cur := Top(s), pend := None, mode := Down, next := 0, spare := None, flushing := None)
  }

  lemma KillKeeps(s: Sys, t: Sys)
    requires s in SAFE && Dies(s, t)
    ensures t in SAFE
  {
    SafeParts(s);
    SafeKept(s);
    SafeJoin(t);
  }

  // ----- Lives -----

  datatype World = Booting(disc: Disc) | Running(sys: Sys)

  datatype Act =
    | Boot(call: BootCall)
    | Booted
    | Crash(files: FileMap)
    | Open(next: u64)
    | SyncDirectory
    | SyncFile(p: Path)
    | CreateTable(n: u64)
    | WriteTable(n: u64, rs: seq<Rec>)
    | InstallTable(n: u64)
    | Remove(p: Path)
    | Allocate
    | BeginFlush
    | CreateLog
    | Issue(batch: Batch)
    | Ack
    | Persist(e: VersionEdit, l: Layout)
    | Rotate(e: VersionEdit, l: Layout)
    | Flush(e: VersionEdit, l: Layout, size: u64, table: seq<Entry>)
    | Compact(e: VersionEdit, l: Layout, plan: Plan, oldest: Option<u64>, below: bytes -> bool, ran: u64,
              outputs: seq<seq<Entry>>, sizes: seq<u64>, first: u64)
    | Publish
    | Close
    | Kill

  /** One filesystem call or one in-memory step of the running process. */
  ghost predicate Moves(s: Sys, a: Act, t: Sys) {
    match a
    case Open(next) => Opens(s, t, next)
    case SyncDirectory => SyncsDirectory(s, t)
    case SyncFile(p) => SyncsFile(s, t, p)
    case CreateTable(n) => CreatesTable(s, t, n)
    case WriteTable(n, rs) => WritesTable(s, t, n, rs)
    case InstallTable(n) => InstallsTable(s, t, n)
    case Remove(p) => Removes(s, t, p)
    case Allocate => Allocates(s, t)
    case BeginFlush => BeginsFlush(s, t)
    case CreateLog => CreatesLog(s, t)
    case Issue(b) => Issues(s, t, b)
    case Ack => Acks(s, t)
    case Persist(e, l) => Persists(s, t, e, l)
    case Rotate(e, l) => Rotates(s, t, e, l)
    case Flush(e, l, size, table) => Flushes(s, t, e, l, size, table)
    case Compact(e, l, plan, oldest, below, ran, outputs, sizes, first) =>
      Compacts(s, t, e, l, plan, oldest, below, ran, outputs, sizes, first)
    case Publish => Publishes(s, t)
    case Close => Closes(s, t)
    case Kill => Dies(s, t)
    case _ => false
  }

  ghost function Moved(s: Sys, a: Act): iset<Sys> {
    iset t: Sys | Moves(s, a, t)
  }

  ghost predicate Lives(w: World, a: Act, w': World) {
    match (w, a)
    case (Booting(i), Boot(call)) => w'.Booting? && Boots(i, call, w'.disc)
    case (Booting(i), Booted) =>
      Current in i.durable && i.volatile.Keys <= i.durable.Keys
      && w' == Running(Sys(i, INITIAL_LAYOUT, None, [], 0, Down, 0, None, None))
    case (Booting(i), Crash(files)) =>
      Survives(i, files) && w' == if Current in files
        then Running(Sys(Image(files, files, files), INITIAL_LAYOUT, None, [], 0, Down, 0, None, None))
        else Booting(Image(files, files, files))
    case (Booting(i), Kill) => (Current in i.volatile ==> Current in i.durable) && w' == w
    case (Running(s), Crash(files)) => Survives(s.disc, files) && w' == Running(Crashed(s, files))
    case (Running(s), _) => w'.Running? && w'.sys in Moved(s, a)
    case _ => false
  }

  ghost predicate Sane(w: World) {
    match w
    case Booting(i) => BootOk(i)
    case Running(s) => s in SAFE
  }

  ghost const SANE: iset<World> := iset w: World | Sane(w)

  ghost function Next(w: World, a: Act): iset<World> {
    iset w': World | Lives(w, a, w')
  }

  lemma MoveKeeps(s: Sys, a: Act, t: Sys)
    requires s in SAFE && t in Moved(s, a)
    ensures t in SAFE
  {
    assert Moves(s, a, t);
    match a
    case Open(next) => OpenKeeps(s, t, next);
    case SyncDirectory => SyncDirectoryKeeps(s, t);
    case SyncFile(p) => SyncFileKeeps(s, t, p);
    case CreateTable(n) => CreateTableKeeps(s, t, n);
    case WriteTable(n, rs) => WriteTableKeeps(s, t, n, rs);
    case InstallTable(n) => InstallTableKeeps(s, t, n);
    case Remove(p) => RemoveKeeps(s, t, p);
    case Allocate => AllocateKeeps(s, t);
    case BeginFlush => BeginFlushKeeps(s, t);
    case CreateLog => CreateLogKeeps(s, t);
    case Issue(b) => IssueKeeps(s, t, b);
    case Ack => AckKeeps(s, t);
    case Persist(e, l) => PersistKeeps(s, t, e, l);
    case Rotate(e, l) => RotateKeeps(s, t, e, l);
    case Flush(e, l, size, table) => FlushKeeps(s, t, e, l, size, table);
    case Compact(e, l, plan, oldest, below, ran, outputs, sizes, first) =>
      CompactKeeps(s, t, e, l, plan, oldest, below, ran, outputs, sizes, first);
    case Publish => PublishKeeps(s, t);
    case Close => CloseKeeps(s, t);
    case Kill => KillKeeps(s, t);
  }

  /** The acknowledged batches, in order. */
  function Acknowledged(w: World): seq<Batch> {
    match w
    case Booting(_) => []
    case Running(s) => if s.acked <= |s.h| then s.h[..s.acked] else s.h
  }

  /** No step, a crash included, takes back or reorders an acknowledged batch. */
  lemma LifeKeeps(w: World, a: Act, w': World)
    requires w in SANE && w' in Next(w, a)
    ensures w' in SANE && Acknowledged(w) <= Acknowledged(w')
  {
    assert Sane(w) && Lives(w, a, w');
    match w {
      case Booting(i) => BootLife(i, a, w');
      case Running(s) => RunningLife(s, a, w');
    }
  }

  lemma RunningLife(s: Sys, a: Act, w': World)
    requires s in SAFE && Lives(Running(s), a, w')
    ensures w'.Running? && w'.sys in SAFE
    ensures Acknowledged(Running(s)) <= Acknowledged(w')
  {
    if a.Crash? {
      CrashLife(s, a.files);
    } else {
      MoveKeeps(s, a, w'.sys);
      MoveAcknowledges(s, a, w'.sys);
      PrefixAcknowledged(s, w'.sys);
    }
  }

  lemma CrashLife(s: Sys, files: FileMap)
    requires s in SAFE && Survives(s.disc, files)
    ensures Crashed(s, files) in SAFE
    ensures Acknowledged(Running(s)) <= Acknowledged(Running(Crashed(s, files)))
  {
    CrashSafe(s, files);
    PrefixCrashed(s, files);
  }

  lemma PrefixCrashed(s: Sys, files: FileMap)
    requires var t := Crashed(s, files); s.acked <= |t.h| <= |s.h| && t.h == s.h[..|t.h|] && t.acked >= |t.h|
    ensures Acknowledged(Running(s)) <= Acknowledged(Running(Crashed(s, files)))
  {
  }

  lemma PrefixAcknowledged(s: Sys, t: Sys)
    requires s.acked <= t.acked <= |t.h| && s.h <= t.h && s.acked <= |s.h|
    ensures Acknowledged(Running(s)) <= Acknowledged(Running(t))
  {
  }

  lemma BootLife(i: Disc, a: Act, w': World)
    requires BootOk(i) && Lives(Booting(i), a, w')
    ensures Sane(w')
  {
    if a.Boot? {
      BootKeeps(i, a.call, w'.disc);
    } else if a.Booted? {
      FreshSafe(i, w'.sys);
    } else if a.Crash? {
      BootCrash(i, a.files);
      if Current in a.files {
        FreshSafe(Image(a.files, a.files, a.files), w'.sys);
      }
    }
  }

  lemma MoveLedger(s: Sys, a: Act, t: Sys)
    requires Moves(s, a, t) && s.acked <= |s.h|
    ensures s.h <= t.h && s.acked <= t.acked
  {
  }

  lemma SafeAcked(s: Sys)
    requires s in SAFE
    ensures s.acked <= |s.h|
  {
  }

  lemma MoveAcknowledges(s: Sys, a: Act, t: Sys)
    requires s in SAFE && t in SAFE && t in Moved(s, a)
    ensures s.acked <= t.acked <= |t.h| && s.h <= t.h && s.acked <= |s.h|
  {
    SafeAcked(s);
    SafeAcked(t);
    MoveLedger(s, a, t);
  }

  ghost predicate IsLife(ws: seq<World>, acts: seq<Act>) {
    && |ws| == |acts| + 1 && ws[0] == Booting(Image(map[], map[], map[]))
    && forall i | 0 <= i < |acts| :: Lived(ws, acts, i)
  }

  ghost predicate Lived(ws: seq<World>, acts: seq<Act>, i: nat)
    requires |ws| == |acts| + 1 && i < |acts|
  {
    ws[i + 1] in Next(ws[i], acts[i])
  }

  ghost predicate Gains(ws: seq<World>, good: iset<World>, known: World -> seq<Batch>, k: nat)
    requires k + 1 < |ws|
  {
    ws[k + 1] in good && known(ws[k]) <= known(ws[k + 1])
  }

  lemma {:induction false} Accumulates(ws: seq<World>, good: iset<World>, known: World -> seq<Batch>, i: nat, j: nat)
    requires i <= j < |ws| && ws[0] in good
    requires forall k | 0 <= k < |ws| - 1 && ws[k] in good :: Gains(ws, good, known, k)
    ensures ws[j] in good && known(ws[i]) <= known(ws[j])
    decreases j
  {
    if j > 0 {
      Accumulates(ws, good, known, if i < j then i else j - 1, j - 1);
      assert Gains(ws, good, known, j - 1);
    }
  }

  /** Over any life with any number of power failures, and of kills that find the manifest synced, acknowledged
      batches only accumulate. */
  lemma NothingAcknowledgedIsLost(ws: seq<World>, acts: seq<Act>, i: nat, j: nat)
    requires IsLife(ws, acts) && i <= j < |ws|
    ensures ws[j] in SANE && Acknowledged(ws[i]) <= Acknowledged(ws[j])
  {
    assert BootOk(ws[0].disc);
    forall k | 0 <= k < |ws| - 1 && ws[k] in SANE ensures Gains(ws, SANE, Acknowledged, k) {
      assert Lived(ws, acts, k);
      LifeKeeps(ws[k], acts[k], ws[k + 1]);
    }
    Accumulates(ws, SANE, Acknowledged, i, j);
  }
}
