/** The steps of a running process that leave the published state alone. */
module Steps {
  import opened Bytes
  import opened MemTables
  import opened Versions
  import opened VersionSets
  import opened Outputs
  import opened Ledgers
  import opened Fs
  import opened Protocols
  import opened Durability

  // ----- Synchronization: allowed at any moment -----

  ghost predicate SyncsDirectory(s: Sys, t: Sys) {
    t == s.(disc := DirectorySynced(s.disc))
  }

  ghost predicate SyncsFile(s: Sys, t: Sys, p: Path) {
    t == s.(disc := FileSynced(s.disc, p))
  }

  lemma KeptBetween(s: Sys, t: Sys, l: Layout)
    requires Kept(s, l) && t.h == s.h && t.acked == s.acked && t.disc.volatile == s.disc.volatile
    requires Between(s.disc.durable, s.disc.volatile, t.disc.durable)
    ensures Kept(t, l)
  {
    StandsBetween(s.disc.durable, s.disc.volatile, t.disc.durable, l, s.h, s.acked);
  }

  lemma SyncDirectoryBetween(i: Disc)
    requires DiscOk(i)
    ensures DiscOk(DirectorySynced(i)) && Between(i.durable, i.volatile, DirectorySynced(i).durable)
  {
    var j := DirectorySynced(i);
    forall p | p in j.durable && !Temporary(p)
      ensures j.durable[p] <= i.volatile[p] && (p in i.durable ==> j.durable[p] == i.durable[p])
    {
    }
  }

  lemma SyncDirectoryKeeps(s: Sys, t: Sys)
    requires s in SAFE && SyncsDirectory(s, t)
    ensures t in SAFE
  {
    SafeParts(s);
    SafeKept(s);
    SyncDirectoryBetween(s.disc);
    KeptBetween(s, t, s.cur);
    if s.pend.Some? {
      KeptBetween(s, t, s.pend.value);
    }
    assert t.disc.durable[Manifest] == s.disc.durable[Manifest];
  }

  lemma SyncFileBetween(i: Disc, p: Path)
    requires DiscOk(i)
    ensures DiscOk(FileSynced(i, p)) && Between(i.durable, i.volatile, FileSynced(i, p).durable)
  {
  }

  lemma SyncFileKeeps(s: Sys, t: Sys, p: Path)
    requires s in SAFE && SyncsFile(s, t, p)
    ensures t in SAFE
  {
    SafeParts(s);
    SafeKept(s);
    SyncFileBetween(s.disc, p);
    KeptBetween(s, t, s.cur);
    if s.pend.Some? {
      KeptBetween(s, t, s.pend.value);
    }
    SafeJoin(t);
  }

  // ----- Files outside the published state -----

  lemma KeptFrame(s: Sys, t: Sys, l: Layout)
    requires Kept(s, l) && t.h == s.h && t.acked == s.acked && t.disc.durable == s.disc.durable
    requires AgreeOn(s.disc.volatile, t.disc.volatile, l)
    ensures Kept(t, l)
  {
    SegNumbers(l, |s.h|);
    StandsFrame(s.disc.volatile, t.disc.volatile, l, s.h, |s.h|);
  }

  /** Nothing but the disc, the counter, the spare log and the flush number changes. */
  ghost predicate Aside(s: Sys, t: Sys) {
    && t == s.(disc := t.disc, next := t.next, spare := t.spare, flushing := t.flushing)
    && t.disc.durable == s.disc.durable
    && AgreeOn(s.disc.volatile, t.disc.volatile, s.cur) && AgreeOn(s.disc.volatile, t.disc.volatile, Top(s))
    && Manifest in t.disc.volatile && Content(t.disc.volatile, Manifest) == Content(s.disc.volatile, Manifest)
  }

  lemma AsideKeeps(s: Sys, t: Sys)
    requires s in SAFE && Aside(s, t) && DiscOk(t.disc) && SpareOk(t) && FlushOk(t) && LogsOk(t) && ModeOk(t)
    ensures t in SAFE
  {
    SafeParts(s);
    SafeKept(s);
    KeptFrame(s, t, s.cur);
    if s.pend.Some? {
      KeptFrame(s, t, s.pend.value);
    }
  }

  /** Only temporary files differ. */
  ghost predicate SameKept(files: FileMap, files': FileMap) {
    forall p | !Temporary(p) :: (p in files <==> p in files') && (p in files ==> files'[p] == files[p])
  }

  lemma SameKeptAgree(files: FileMap, files': FileMap, l: Layout)
    requires SameKept(files, files')
    ensures AgreeOn(files, files', l)
  {
  }

  lemma TemporaryChange(s: Sys, t: Sys)
    requires s in SAFE && s.mode == Ready && t == s.(disc := t.disc) && t.disc.durable == s.disc.durable
    requires DiscOk(t.disc) && SameKept(s.disc.volatile, t.disc.volatile)
    requires forall p | p in t.disc.volatile && p.SstTmp? :: p.n < s.next
    ensures t in SAFE
  {
    SafeParts(s);
    SameKeptAgree(s.disc.volatile, t.disc.volatile, s.cur);
    SameKeptAgree(s.disc.volatile, t.disc.volatile, Top(s));
    AsideKeeps(s, t);
  }

  lemma TemporaryDisc(i: Disc, p: Path, rs: seq<Rec>)
    requires DiscOk(i) && Temporary(p)
    ensures DiscOk(Created(i, p)) && DiscOk(Appended(i, p, rs))
    ensures SameKept(i.volatile, Created(i, p).volatile) && SameKept(i.volatile, Appended(i, p, rs).volatile)
  {
  }

  /** The flush worker takes the next file number. */
  ghost predicate BeginsFlush(s: Sys, t: Sys) {
    && s.mode == Ready && s.pend == None && s.flushing == None && s.next < U64_MAX
    && t == s.(flushing := Some(s.next), next := s.next + 1)
  }

  ghost predicate Allocates(s: Sys, t: Sys) {
    s.mode == Ready && s.next < U64_MAX && t == s.(next := s.next + 1)
  }

  /** Creates, extends or installs a table file that no published edit names. */
  ghost predicate CreatesTable(s: Sys, t: Sys, n: u64) {
    && s.mode == Ready && n < s.next && SstTmp(n) !in s.disc.volatile
    && t == s.(disc := Created(s.disc, SstTmp(n)))
  }

  ghost predicate WritesTable(s: Sys, t: Sys, n: u64, rs: seq<Rec>) {
    && s.mode == Ready && SstTmp(n) in s.disc.volatile
    && t == s.(disc := Appended(s.disc, SstTmp(n), rs))
  }

  ghost predicate InstallsTable(s: Sys, t: Sys, n: u64) {
    && s.mode == Ready && SstTmp(n) in s.disc.volatile && SstTmp(n) in s.disc.synced
    && Sst(n) !in s.disc.volatile && Sst(n) !in s.disc.durable
    && t == s.(disc := Renamed(s.disc, SstTmp(n), Sst(n)))
  }

  /** Removes a file that neither the published state nor a pending edit needs. */
  ghost predicate Removes(s: Sys, t: Sys, p: Path) {
    && s.pend == None && t == s.(disc := Removed(s.disc, p))
    && match p
       case SstTmp(_) => true
       case Sst(n) => forall k: nat, f | HasFile(s.cur.meta.version, k, f) :: f.number != n
       case Wal(n) => s.mode == Ready && !IsSeg(s.cur.segs, n) && s.spare != Some(n)
       case _ => false
  }

  /** Creates the log of the next memory table under a new number. */
  ghost predicate CreatesLog(s: Sys, t: Sys) {
    && s.mode != Down && s.pend == None && s.spare == None && s.next < U64_MAX
    && t == s.(disc := Created(s.disc, Wal(s.next)), spare := Some(s.next), next := s.next + 1)
  }

  lemma BeginFlushKeeps(s: Sys, t: Sys)
    requires s in SAFE && BeginsFlush(s, t)
    ensures t in SAFE
  {
    SafeParts(s);
    SafeKept(s);
    MetaCoherent(s.cur, s.h, s.acked);
    AsideKeeps(s, t);
  }

  /** Published files are below the manifest's counter. */
  lemma MetaCoherent(l: Layout, h: Ledger, acked: nat)
    requires Sound(l, h, acked)
    ensures Coherent(l.meta) && forall n: u64 | n >= l.meta.next && n >= 1 :: NumbersBelow(l.meta.version, n)
  {
    ReplayCoherent(l.edits);
  }

  lemma AllocateKeeps(s: Sys, t: Sys)
    requires s in SAFE && Allocates(s, t)
    ensures t in SAFE
  {
    SafeParts(s);
    AsideKeeps(s, t);
  }

  lemma CreateTableKeeps(s: Sys, t: Sys, n: u64)
    requires s in SAFE && CreatesTable(s, t, n)
    ensures t in SAFE
  {
    SafeParts(s);
    TemporaryDisc(s.disc, SstTmp(n), []);
    TemporaryChange(s, t);
  }

  lemma WriteTableKeeps(s: Sys, t: Sys, n: u64, rs: seq<Rec>)
    requires s in SAFE && WritesTable(s, t, n, rs)
    ensures t in SAFE
  {
    SafeParts(s);
    TemporaryDisc(s.disc, SstTmp(n), rs);
    TemporaryChange(s, t);
  }

  lemma Unneeded(s: Sys, n: u64)
    requires s in SAFE && Sst(n) !in s.disc.volatile
    ensures !Needs(s.cur, Sst(n)) && !Needs(Top(s), Sst(n))
  {
    SafeKept(s);
    assert forall k: nat, f | HasFile(s.cur.meta.version, k, f) :: TableOn(s.disc.volatile, s.cur.tables, f.number);
    assert forall k: nat, f | HasFile(Top(s).meta.version, k, f) :: TableOn(s.disc.volatile, Top(s).tables, f.number);
  }

  lemma InstallTableKeeps(s: Sys, t: Sys, n: u64)
    requires s in SAFE && InstallsTable(s, t, n)
    ensures t in SAFE
  {
    SafeParts(s);
    Unneeded(s, n);
    InstalledDisc(s.disc, n);
    InstalledAgree(s.disc, n, s.cur);
    InstalledAgree(s.disc, n, Top(s));
    AsideKeeps(s, t);
  }

  lemma InstalledDisc(i: Disc, n: u64)
    requires DiscOk(i) && SstTmp(n) in i.volatile && SstTmp(n) in i.synced && Sst(n) !in i.volatile
    requires Sst(n) !in i.durable
    ensures DiscOk(Renamed(i, SstTmp(n), Sst(n)))
  {
  }

  lemma InstalledAgree(i: Disc, n: u64, l: Layout)
    requires Sst(n) !in i.volatile && !Needs(l, Sst(n))
    ensures AgreeOn(i.volatile, Renamed(i, SstTmp(n), Sst(n)).volatile, l)
  {
  }

  lemma RemoveKeeps(s: Sys, t: Sys, p: Path)
    requires s in SAFE && Removes(s, t, p)
    ensures t in SAFE
  {
    SafeParts(s);
    assert AgreeOn(s.disc.volatile, t.disc.volatile, s.cur);
    AsideKeeps(s, t);
  }

  lemma CreateLogKeeps(s: Sys, t: Sys)
    requires s in SAFE && CreatesLog(s, t)
    ensures t in SAFE
  {
    SafeParts(s);
    ActiveBelow(s);
    assert Wal(s.next) !in s.disc.volatile;
    AsideKeeps(s, t);
  }

  lemma ActiveBelow(s: Sys)
    requires s in SAFE && s.mode != Down
    ensures s.cur.meta.active < s.next
  {
    SafeParts(s);
    SafeKept(s);
    MetaCoherent(s.cur, s.h, s.acked);
  }

  // ----- Writes -----

  /** A batch reaches the end of the active log. */
  ghost predicate Issues(s: Sys, t: Sys, b: Batch) {
    && s.mode == Ready && s.pend == None && s.spare == None && |s.h| == s.acked && |s.h| + 1 < U64_MAX - 1
    && t == s.(disc := Appended(s.disc, Wal(s.cur.meta.active), [BatchRec(|s.h| + 1, b)]), h := s.h + [b])
  }

  /** The write is acknowledged once its log has been synced; a process that opens the files syncs the logs, and
      from then on counts every recovered batch. */
  ghost predicate Acks(s: Sys, t: Sys) {
    && s.mode != Down && s.cur.segs != [] && Wal(s.cur.meta.active) in s.disc.synced
    && s.disc.synced[Wal(s.cur.meta.active)] == Content(s.disc.volatile, Wal(s.cur.meta.active))
    && t == s.(acked := |s.h|)
  }

  lemma AppendedSegs(files: FileMap, files': FileMap, segs: seq<Seg>, h: Ledger, b: Batch)
    requires SegsOn(files, segs, h, |h|) && segs != [] && |h| + 1 < U64_MAX - 1
    requires forall i, j | 0 <= i < j < |segs| :: segs[i].number < segs[j].number
    requires var p := Wal(segs[|segs| - 1].number);
             files' == files[p := Content(files, p) + [BatchRec(|h| + 1, b)]]
    ensures SegsOn(files', segs, h + [b], |h| + 1)
  {
    var last, more, floor := |segs| - 1, h + [b], |h| + 1;
    forall i | 0 <= i < |segs| ensures SegOn(files', segs, i, more, floor) {
      assert SegOn(files, segs, i, h, |h|);
      var start := segs[i].start;
      RecsMore(h, h + [b], start, start + |files[Wal(segs[i].number)]|);
      if i == last {
        assert Recs(h + [b], start, |h| + 1) == Recs(h, start, |h|) + [BatchRec(|h| + 1, b)];
      } else {
        assert segs[i].number < segs[last].number;
      }
    }
  }

  /** The ledger and the visible log grow together. */
  lemma IssueKept(s: Sys, t: Sys, b: Batch)
    requires Kept(s, s.cur) && Issues(s, t, b) && s.cur.segs != []
    ensures Kept(t, t.cur) && Wal(s.cur.meta.active) in s.disc.volatile
  {
    var l := s.cur;
    SoundMore(l, s.h, b, s.acked);
    SegsOnMore(s.disc.durable, l.segs, s.h, t.h, s.acked);
    AppendedSegs(s.disc.volatile, t.disc.volatile, l.segs, s.h, b);
    assert SegOn(s.disc.volatile, l.segs, |l.segs| - 1, s.h, |s.h|);
    IssueFiles(s.disc.volatile, t.disc.volatile, l);
  }

  lemma IssueFiles(files: FileMap, files': FileMap, l: Layout)
    requires Pointed(files) && TablesOn(files, l) && StraysEmpty(files, l)
    requires l.segs != [] && l.segs[|l.segs| - 1].number == l.meta.active
    requires forall p | p != Wal(l.meta.active) ::
               (p in files <==> p in files') && (p in files ==> files'[p] == files[p])
    ensures Pointed(files') && TablesOn(files', l) && StraysEmpty(files', l)
  {
    assert IsSeg(l.segs, l.meta.active);
    forall k: nat, f | HasFile(l.meta.version, k, f) ensures TableOn(files', l.tables, f.number) {
      assert TableOn(files, l.tables, f.number);
    }
  }

  lemma IssueKeeps(s: Sys, t: Sys, b: Batch)
    requires s in SAFE && Issues(s, t, b)
    ensures t in SAFE
  {
    SafeParts(s);
    SafeKept(s);
    IssueKept(s, t, b);
    SafeJoin(t);
  }

  lemma AckKeeps(s: Sys, t: Sys)
    requires s in SAFE && Acks(s, t)
    ensures t in SAFE
  {
    SafeParts(s);
    SafeKept(s);
    if s.pend.Some? {
      assert t == s;
    } else {
      AckKept(s, t);
    }
  }

  lemma AckKept(s: Sys, t: Sys)
    requires Kept(s, s.cur) && DiscOk(s.disc) && s.acked <= |s.h| && Acks(s, t) && s.cur.segs != []
    ensures Kept(t, t.cur)
  {
    var l := s.cur;
    forall i | 0 <= i < |l.segs| ensures SegOn(s.disc.durable, l.segs, i, s.h, |s.h|) {
      assert SegOn(s.disc.durable, l.segs, i, s.h, s.acked);
      assert SegOn(s.disc.volatile, l.segs, i, s.h, |s.h|);
    }
  }
}
