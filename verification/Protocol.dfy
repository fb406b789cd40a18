/** What the files of a database mean to recovery. */
module Protocols {
  import opened Bytes
  import opened Mvcc
  import opened MemTables
  import opened Versions
  import opened VersionSets
  import opened Layouts
  import opened Ledgers
  import opened Fs

  datatype Path = Wal(n: u64) | Sst(n: u64) | SstTmp(n: u64) | Manifest | ManifestTmp | Current | CurrentTmp

  datatype Rec =
    | BatchRec(seqno: u64, batch: Batch)
    | EditRec(edit: VersionEdit)
    | TableRec(table: seq<Entry>)
    | PointerRec

  type Disc = Image<Path, Rec>
  type FileMap = Files<Path, Rec>

  predicate Temporary(p: Path) {
    p.SstTmp? || p.ManifestTmp? || p.CurrentTmp?
  }

  /** A log segment: its number and the index of its first batch. */
  datatype Seg = Seg(number: u64, start: nat)

  /** A manifest, what it replays to, the logs it needs and the tables it names. */
  datatype Layout = Layout(edits: seq<VersionEdit>, meta: Meta, segs: seq<Seg>, tables: Disk, clock: u64)

  function Recs(h: Ledger, a: nat, b: nat): seq<Rec>
    requires a <= b <= |h|
  {
    seq(b - a, i requires 0 <= i < b - a => BatchRec(a + i + 1, h[a + i]))
  }

  function EditRecs(edits: seq<VersionEdit>): seq<Rec> {
    seq(|edits|, i requires 0 <= i < |edits| => EditRec(edits[i]))
  }

  predicate IsSeg(segs: seq<Seg>, n: u64) {
    exists i | 0 <= i < |segs| :: segs[i].number == n
  }

  function SegEnd(segs: seq<Seg>, i: nat, n: nat): nat
    requires i < |segs|
  {
    if i + 1 < |segs| then segs[i + 1].start else n
  }

  /** Segments ascend, begin at the first unflushed batch and span the manifest's log range. */
  ghost predicate SegsSound(segs: seq<Seg>, meta: Meta, n: nat) {
    && (forall i, j | 0 <= i < j < |segs| :: segs[i].number < segs[j].number && segs[i].start <= segs[j].start)
    && (forall i | 0 <= i < |segs| :: segs[i].start <= n)
    && (if segs == [] then meta.log == 0 && meta.active == 0 && meta.last == n
        else segs[0].number == meta.log && segs[|segs| - 1].number == meta.active && segs[0].start == meta.last)
  }

  /** The layout describes the ledger `h`. */
  ghost predicate Sound(l: Layout, h: Ledger, acked: nat) {
    && l.edits != [] && (forall e | e in l.edits :: ValidEdit(e)) && Recover(l.edits) == Ok(l.meta)
    && SegsSound(l.segs, l.meta, |h|)
    && l.meta.last <= |h| && Represents(l.meta.version, l.tables, h, l.meta.last, l.clock)
    && l.meta.walSequence <= acked
  }

  // ----- Files that a layout needs -----

  predicate TableOn(files: FileMap, tables: Disk, number: u64) {
    && number in tables && Sst(number) in files
    && files[Sst(number)] == [TableRec(tables[number])]
  }

  ghost predicate TablesOn(files: FileMap, l: Layout) {
    forall k: nat, f | HasFile(l.meta.version, k, f) :: TableOn(files, l.tables, f.number)
  }

  /** Earlier segments are complete; the last holds at least the batches below `floor`. */
  predicate SegOn(files: FileMap, segs: seq<Seg>, i: nat, h: Ledger, floor: nat) {
    && i < |segs| && Wal(segs[i].number) in files
    && var start, end := segs[i].start, segs[i].start + |files[Wal(segs[i].number)]|;
       && end <= |h| && files[Wal(segs[i].number)] == Recs(h, start, end)
       && (if i + 1 < |segs| then end == segs[i + 1].start else floor <= end)
  }

  ghost predicate SegsOn(files: FileMap, segs: seq<Seg>, h: Ledger, floor: nat) {
    forall i | 0 <= i < |segs| :: SegOn(files, segs, i, h, floor)
  }

  /** Any other log in or above the range is empty. */
  ghost predicate StraysEmpty(files: FileMap, l: Layout) {
    forall n: u64 | Wal(n) in files && n >= l.meta.log && !IsSeg(l.segs, n) :: files[Wal(n)] == []
  }

  predicate Pointed(files: FileMap) {
    Current in files && files[Current] == [PointerRec]
  }

  ghost predicate Stands(files: FileMap, l: Layout, h: Ledger, floor: nat) {
    && Pointed(files) && TablesOn(files, l)
    && SegsOn(files, l.segs, h, floor) && StraysEmpty(files, l)
  }

  // ----- Mixing two standing file maps -----

  /** Each kept file of `f` continues its durable content by part of the visible one. */
  ghost predicate Between(d: FileMap, v: FileMap, f: FileMap) {
    && (forall p | p in f && !Temporary(p) && p in d ::
          d[p] <= f[p] && (f[p] == d[p] || (p in v && f[p] <= v[p])))
    && (forall p | p in f && !Temporary(p) && p !in d :: p in v && f[p] <= v[p])
    && (forall p | p in d && p in v && !Temporary(p) :: p in f)
  }

  lemma BetweenEqual(d: FileMap, v: FileMap, f: FileMap, p: Path)
    requires Between(d, v, f) && !Temporary(p) && p in d && p in v && d[p] == v[p]
    ensures p in f && f[p] == d[p]
  {
  }

  lemma RecsPrefix(h: Ledger, a: nat, b: nat, c: seq<Rec>)
    requires a <= b <= |h| && c <= Recs(h, a, b)
    ensures a + |c| <= b && c == Recs(h, a, a + |c|)
  {
  }

  lemma SegBetween(d: FileMap, v: FileMap, f: FileMap, segs: seq<Seg>, i: nat, h: Ledger, floor: nat)
    requires Between(d, v, f) && SegOn(d, segs, i, h, floor) && SegOn(v, segs, i, h, |h|)
    ensures SegOn(f, segs, i, h, floor)
  {
    var p := Wal(segs[i].number);
    if f[p] != d[p] {
      RecsPrefix(h, segs[i].start, segs[i].start + |v[p]|, f[p]);
    }
  }

  /** Whatever part of the unsynced appends survives, the layout still stands. */
  lemma StandsBetween(d: FileMap, v: FileMap, f: FileMap, l: Layout, h: Ledger, floor: nat)
    requires Between(d, v, f) && Stands(d, l, h, floor) && Stands(v, l, h, |h|)
    ensures Stands(f, l, h, floor)
  {
    BetweenEqual(d, v, f, Current);
    forall k: nat, g | HasFile(l.meta.version, k, g) ensures TableOn(f, l.tables, g.number) {
      assert TableOn(d, l.tables, g.number) && TableOn(v, l.tables, g.number);
      BetweenEqual(d, v, f, Sst(g.number));
    }
    forall i | 0 <= i < |l.segs| ensures SegOn(f, l.segs, i, h, floor) {
      assert SegOn(d, l.segs, i, h, floor) && SegOn(v, l.segs, i, h, |h|);
      SegBetween(d, v, f, l.segs, i, h, floor);
    }
  }

  // ----- Framing -----

  /** Files a layout depends on. */
  ghost predicate Needs(l: Layout, p: Path) {
    match p
    case Current => true
    case Wal(n) => n >= l.meta.log
    case Sst(n) => exists k: nat, f :: HasFile(l.meta.version, k, f) && f.number == n
    case _ => false
  }

  /** Changes outside the needed files, new empty logs and removed strays do not matter. */
  ghost predicate AgreeOn(files: FileMap, files': FileMap, l: Layout) {
    && (forall p | Needs(l, p) && p in files' :: files'[p] == if p in files then files[p] else [])
    && (forall p | Needs(l, p) && p in files && p !in files' :: p.Wal? && !IsSeg(l.segs, p.n))
  }

  lemma StandsFrame(files: FileMap, files': FileMap, l: Layout, h: Ledger, floor: nat)
    requires Stands(files, l, h, floor) && AgreeOn(files, files', l)
    requires forall i | 0 <= i < |l.segs| :: l.segs[i].number >= l.meta.log
    ensures Stands(files', l, h, floor)
  {
    assert Needs(l, Current);
    forall k: nat, f | HasFile(l.meta.version, k, f) ensures TableOn(files', l.tables, f.number) {
      assert TableOn(files, l.tables, f.number);
      assert Needs(l, Sst(f.number));
    }
    forall i | 0 <= i < |l.segs| ensures SegOn(files', l.segs, i, h, floor) {
      assert SegOn(files, l.segs, i, h, floor);
      assert Needs(l, Wal(l.segs[i].number)) && IsSeg(l.segs, l.segs[i].number);
    }
    forall n: u64 | Wal(n) in files' && n >= l.meta.log && !IsSeg(l.segs, n) ensures files'[Wal(n)] == [] {
      assert Needs(l, Wal(n));
    }
  }

  lemma SegNumbers(l: Layout, n: nat)
    requires SegsSound(l.segs, l.meta, n)
    ensures forall i | 0 <= i < |l.segs| :: l.meta.log <= l.segs[i].number <= l.meta.active
  {
  }

  // ----- Growing the ledger -----

  lemma RecsMore(h: Ledger, h': Ledger, a: nat, b: nat)
    requires a <= b <= |h| && h <= h'
    ensures Recs(h', a, b) == Recs(h, a, b)
  {
  }

  lemma SegsOnMore(files: FileMap, segs: seq<Seg>, h: Ledger, h': Ledger, floor: nat)
    requires SegsOn(files, segs, h, floor) && h <= h'
    ensures SegsOn(files, segs, h', floor)
  {
    forall i | 0 <= i < |segs| ensures SegOn(files, segs, i, h', floor) {
      assert SegOn(files, segs, i, h, floor);
      RecsMore(h, h', segs[i].start, segs[i].start + |files[Wal(segs[i].number)]|);
    }
  }

  lemma SoundMore(l: Layout, h: Ledger, b: Batch, acked: nat)
    requires Sound(l, h, acked) && |h| + 1 < U64_MAX - 1 && l.segs != []
    ensures Sound(l, h + [b], acked)
  {
    RepresentsMore(l.meta.version, l.tables, h, b, l.meta.last, l.clock);
  }

  /** Cutting the ledger down to what the last segment holds. */
  lemma SoundLess(l: Layout, h: Ledger, acked: nat, m: nat)
    requires Sound(l, h, acked) && acked <= m <= |h|
    requires if l.segs == [] then m == |h| else l.segs[|l.segs| - 1].start <= m
    ensures Sound(l, h[..m], m)
  {
    assert l.segs != [] ==> l.segs[0].start <= l.segs[|l.segs| - 1].start;
    RepresentsPrefix(l.meta.version, l.tables, h, m, l.meta.last, l.clock);
    forall i | 0 <= i < |l.segs| ensures l.segs[i].start <= m {
      assert i < |l.segs| - 1 ==> l.segs[i].start <= l.segs[|l.segs| - 1].start;
    }
  }

  /** How many batches the files of a layout hold. */
  function BatchesOn(files: FileMap, l: Layout, n: nat): nat {
    if l.segs == [] then n else
      var last := l.segs[|l.segs| - 1];
      last.start + |Content(files, Wal(last.number))|
  }

  lemma StandsLess(files: FileMap, l: Layout, h: Ledger, floor: nat, m: nat)
    requires Stands(files, l, h, floor) && SegsSound(l.segs, l.meta, |h|)
    requires m == BatchesOn(files, l, |h|) && m <= |h|
    ensures Stands(files, l, h[..m], m)
  {
    var last := |l.segs| - 1;
    forall i | 0 <= i < |l.segs| ensures SegOn(files, l.segs, i, h[..m], m) {
      assert SegOn(files, l.segs, i, h, floor);
      assert i < last ==> l.segs[i + 1].start <= l.segs[last].start;
      RecsMore(h[..m], h, l.segs[i].start, l.segs[i].start + |files[Wal(l.segs[i].number)]|);
    }
  }
}
