/** The durability protocol as a step system in which power may fail between any two filesystem calls. */
module Durability {
  import opened Bytes
  import opened Versions
  import opened Outputs
  import opened Ledgers
  import opened Fs
  import opened Protocols

  /** Down: no process has the files open. Opening: recovery has read them. Ready: writes are accepted. */
  datatype Mode = Down | Opening | Ready

  datatype Sys = Sys(
    disc: Disc,
    cur: Layout,              // the published state
    pend: Option<Layout>,     // the state after an appended, unpublished manifest edit
    h: Ledger,                // issued batches
    acked: nat,               // acknowledged batches
    mode: Mode,
    next: u64,                // next file number of the running process
    spare: Option<u64>,       // a log created for the next rotation
    flushing: Option<u64>)    // the number the flush worker took

  /** Synced content never runs ahead of the visible one and is durable under a durable name. */
  ghost predicate DiscOk(i: Disc) {
    && (forall p | p in i.synced :: p in i.volatile && i.synced[p] <= i.volatile[p])
    && (forall p | p in i.synced && p in i.durable && !Temporary(p) :: i.synced[p] == i.durable[p])
    && (forall p | p in i.volatile && p in i.durable && !Temporary(p) :: i.durable[p] <= i.volatile[p])
  }

  /** The layout holds in both the visible and the durable files. */
  ghost predicate Kept(s: Sys, l: Layout) {
    && Sound(l, s.h, s.acked)
    && Stands(s.disc.durable, l, s.h, s.acked) && Stands(s.disc.volatile, l, s.h, |s.h|)
  }

  function Top(s: Sys): Layout {
    if s.pend.Some? then s.pend.value else s.cur
  }

  /** The visible manifest holds the newest edit; the durable one may still lack it. */
  ghost predicate ManifestOk(s: Sys) {
    && Manifest in s.disc.volatile && Manifest in s.disc.durable
    && s.disc.volatile[Manifest] == EditRecs(Top(s).edits)
    && (s.disc.durable[Manifest] == EditRecs(s.cur.edits) || s.disc.durable[Manifest] == EditRecs(Top(s).edits))
    && (s.pend.Some? ==>
          |s.pend.value.edits| == |s.cur.edits| + 1 && s.pend.value.edits[..|s.cur.edits|] == s.cur.edits)
  }

  predicate Numbered(p: Path) {
    p.Wal? || p.Sst? || p.SstTmp?
  }

  /** The process has synced the directory since it opened it, so that no name removed before can come back. */
  predicate Settled(s: Sys) {
    s.mode == Ready || (s.spare.Some? && Wal(s.spare.value) in s.disc.durable)
  }

  /** Every numbered file of a running process is below its counter. */
  ghost predicate NumbersOk(s: Sys) {
    && s.cur.meta.next <= s.next && Top(s).meta.next <= s.next
    && (forall p | p in s.disc.volatile && Numbered(p) :: p.n < s.next)
    && (Settled(s) ==> forall p | p in s.disc.durable && Numbered(p) :: p.n < s.next)
  }

  /** Logs that were removed, and in a running database all but the spare one, are below the manifest's counter. */
  ghost predicate LogsOk(s: Sys) {
    && (forall n: u64 | Wal(n) in s.disc.durable && Wal(n) !in s.disc.volatile :: n < s.cur.meta.next)
    && (s.mode == Ready ==> forall n: u64 | Wal(n) in s.disc.volatile :: n < s.cur.meta.next || s.spare == Some(n))
    && (s.pend.Some? ==> s.cur.meta.next <= Top(s).meta.next
                         && forall n: u64 | Wal(n) in s.disc.volatile :: n < Top(s).meta.next)
  }

  ghost predicate SpareOk(s: Sys) {
    s.spare.Some? ==>
      && Wal(s.spare.value) in s.disc.volatile && s.disc.volatile[Wal(s.spare.value)] == []
      && s.cur.meta.active < s.spare.value
  }

  /** The flush worker's number is above every published file's. */
  ghost predicate FlushOk(s: Sys) {
    s.flushing.Some? ==>
      && s.flushing.value < s.next
      && NumbersBelow(s.cur.meta.version, s.flushing.value) && NumbersBelow(Top(s).meta.version, s.flushing.value)
  }

  ghost predicate ModeOk(s: Sys) {
    match s.mode
    case Down => s.pend == None && s.spare == None && s.flushing == None
    case Opening => NumbersOk(s) && (s.pend.Some? ==> Settled(s))
    case Ready => NumbersOk(s) && s.cur.segs != []
  }

  /** What every reachable state keeps. */
  ghost predicate Safe(s: Sys) {
    && s.acked <= |s.h| && DiscOk(s.disc)
    && Kept(s, s.cur) && ManifestOk(s) && ModeOk(s) && LogsOk(s) && SpareOk(s) && FlushOk(s)
    && (s.pend.Some? ==> Kept(s, s.pend.value) && |s.h| == s.acked && s.pend.value.segs != [])
  }

  /** The safe states. */
  ghost const SAFE: iset<Sys> := iset s: Sys | Safe(s)

  /** The parts of safety that do not speak about file contents. */
  lemma SafeParts(s: Sys)
    requires s in SAFE
    ensures s.acked <= |s.h| && DiscOk(s.disc) && ManifestOk(s) && ModeOk(s) && SpareOk(s) && FlushOk(s) && LogsOk(s)
    ensures s.pend.Some? ==> |s.h| == s.acked && s.pend.value.segs != []
  {
    assert Safe(s);
  }

  lemma SafeJoin(s: Sys)
    requires s.acked <= |s.h| && DiscOk(s.disc) && ManifestOk(s) && ModeOk(s) && SpareOk(s) && FlushOk(s) && LogsOk(s)
    requires Kept(s, s.cur) && (s.pend.Some? ==> Kept(s, s.pend.value) && |s.h| == s.acked && s.pend.value.segs != [])
    ensures s in SAFE
  {
  }

  lemma SafeKept(s: Sys)
    requires s in SAFE
    ensures Kept(s, s.cur) && (s.pend.Some? ==> Kept(s, s.pend.value))
  {
    assert Safe(s);
  }

  // ----- Crash -----

  /** The layout a surviving manifest replays to. */
  function LayoutAfter(s: Sys, files: FileMap): Layout {
    if Content(files, Manifest) == EditRecs(s.cur.edits) then s.cur else Top(s)
  }

  /** After power loss the ledger is cut down to the batches the surviving files hold. */
  function Crashed(s: Sys, files: FileMap): Sys {
    var l := LayoutAfter(s, files);
    var m := BatchesOn(files, l, |s.h|);
    Sys(Image(files, files, files), l, None, if m <= |s.h| then s.h[..m] else s.h, m, Down, 0, None, None)
  }

  lemma SurvivesBetween(i: Disc, files: FileMap)
    requires DiscOk(i) && Survives(i, files)
    ensures Between(i.durable, i.volatile, files)
  {
    forall p | p in files && !Temporary(p) && p in i.durable
      ensures i.durable[p] <= files[p] && (files[p] == i.durable[p] || (p in i.volatile && files[p] <= i.volatile[p]))
    {
      assert MaySurvive(i, p, files[p]);
      if p !in i.volatile {
        assert files[p] <= [] ==> files[p] == [];
      }
    }
  }

  lemma EditRecsPrefix(edits: seq<VersionEdit>, edits': seq<VersionEdit>, c: seq<Rec>)
    requires |edits'| <= |edits| + 1 && edits <= edits'
    requires EditRecs(edits) <= c <= EditRecs(edits')
    ensures c == EditRecs(edits) || c == EditRecs(edits')
  {
    if |c| == |edits| {
      assert c == EditRecs(edits);
    } else {
      assert c == EditRecs(edits');
    }
  }

  lemma ManifestSurvives(s: Sys, files: FileMap)
    requires DiscOk(s.disc) && ManifestOk(s) && Survives(s.disc, files)
    ensures Manifest in files
    ensures files[Manifest] == EditRecs(s.cur.edits) || files[Manifest] == EditRecs(Top(s).edits)
  {
    assert MaySurvive(s.disc, Manifest, files[Manifest]);
    var d, v := s.disc.durable[Manifest], s.disc.volatile[Manifest];
    assert d <= files[Manifest] <= v || files[Manifest] == d;
    if d == EditRecs(s.cur.edits) && files[Manifest] != d {
      EditRecsPrefix(s.cur.edits, Top(s).edits, files[Manifest]);
    }
  }

  /** No crash loses an acknowledged batch: recovery finds a prefix of the ledger that contains all of them. */
  lemma CrashSafe(s: Sys, files: FileMap)
    requires s in SAFE && Survives(s.disc, files)
    ensures var s' := Crashed(s, files);
            && s.acked <= |s'.h| <= |s.h| && s'.h == s.h[..|s'.h|]
            && s' in SAFE
  {
    var l := LayoutAfter(s, files);
    SafeParts(s);
    ManifestSurvives(s, files);
    CrashStands(s, files, l);
    CrashKept(s, files, l);
    var m := BatchesOn(files, l, |s.h|);
    CrashJoin(files, l, s.h[..m]);
  }

  lemma CrashStands(s: Sys, files: FileMap, l: Layout)
    requires s in SAFE && Survives(s.disc, files) && (l == s.cur || l == Top(s))
    ensures s.acked <= |s.h| && Kept(s, l) && Stands(files, l, s.h, s.acked)
  {
    SafeParts(s);
    SafeKept(s);
    SurvivesBetween(s.disc, files);
    StandsBetween(s.disc.durable, s.disc.volatile, files, l, s.h, s.acked);
  }

  lemma CrashJoin(files: FileMap, l: Layout, h: Ledger)
    requires Sound(l, h, |h|) && Stands(files, l, h, |h|)
    requires Content(files, Manifest) == EditRecs(l.edits) && Manifest in files
    ensures Sys(Image(files, files, files), l, None, h, |h|, Down, 0, None, None) in SAFE
  {
    SafeJoin(Sys(Image(files, files, files), l, None, h, |h|, Down, 0, None, None));
  }

  lemma CrashKept(s: Sys, files: FileMap, l: Layout)
    requires s.acked <= |s.h| && Kept(s, l) && Stands(files, l, s.h, s.acked)
    ensures var m := BatchesOn(files, l, |s.h|);
            && s.acked <= m <= |s.h|
            && Sound(l, s.h[..m], m) && Stands(files, l, s.h[..m], m)
  {
    var m := BatchesOn(files, l, |s.h|);
    if l.segs != [] {
      assert SegOn(files, l.segs, |l.segs| - 1, s.h, s.acked);
    }
    SoundLess(l, s.h, s.acked, m);
    StandsLess(files, l, s.h, s.acked, m);
  }
}
