/** The layers a read visits: memory tables, level-zero files and the deeper levels. */
module Layouts {
  import opened Bytes
  import opened Mvcc
  import opened Versions

  /** Table contents by file number. */
  type Disk = map<u64, seq<Entry>>

  /** The metadata describes this table. */
  predicate Describes(f: FileMeta, t: seq<Entry>) {
    t != [] && Sorted(t) && f.smallest == Key(t[0]) && f.largest == Key(t[|t| - 1])
  }

  function Table(disk: Disk, f: FileMeta): seq<Entry> {
    if f.number in disk then disk[f.number] else []
  }

  ghost predicate AllStored(v: Version, disk: Disk) {
    forall l: nat, f :: HasFile(v, l, f) ==> f.number in disk && Describes(f, disk[f.number])
  }

  /** The key lies in the file's user-key range. */
  predicate Covers(f: FileMeta, user: bytes) {
    LessEq(f.smallest.user, user) && LessEq(user, f.largest.user)
  }

  lemma DescribedRange(f: FileMeta, t: seq<Entry>, e: Entry)
    requires Describes(f, t) && e in t
    ensures Covers(f, e.user)
  {
    var i :| 0 <= i < |t| && t[i] == e;
    if i > 0 {
      assert Before(t[0], t[i]);
    }
    if i < |t| - 1 {
      assert Before(t[i], t[|t| - 1]);
    }
  }

  ghost function LevelEntries(v: Version, disk: Disk, l: nat): set<Entry>
    requires l < NUM_LEVELS
  {
    set f, e | f in v[l] && e in Table(disk, f) :: e
  }

  /** Every version on disk. */
  ghost function DiskEntries(v: Version, disk: Disk): set<Entry> {
    set l, e | 0 <= l < NUM_LEVELS && e in LevelEntries(v, disk, l) :: e
  }

  predicate OnDisk(v: Version, disk: Disk, l: nat, f: FileMeta, e: Entry) {
    HasFile(v, l, f) && e in Table(disk, f)
  }

  lemma DiskMember(v: Version, disk: Disk, e: Entry)
    ensures e in DiskEntries(v, disk) <==> exists l: nat, f :: OnDisk(v, disk, l, f, e)
  {
    if e in DiskEntries(v, disk) {
      var l :| 0 <= l < NUM_LEVELS && e in LevelEntries(v, disk, l);
      var f :| f in v[l] && e in Table(disk, f);
      assert OnDisk(v, disk, l, f, e);
    }
    if l: nat, f :| OnDisk(v, disk, l, f, e) {
      assert e in LevelEntries(v, disk, l);
    }
  }

  // ----- Order of the layers -----

  /** Newer level-zero files hold newer versions, and so do shallower levels. */
  ghost predicate DiskOrdered(v: Version, disk: Disk) {
    && (forall f, g | f in v[0] && g in v[0] && f.number > g.number ::
          NewerThan(Entries(Table(disk, f)), Entries(Table(disk, g))))
    && (forall l, m | 0 <= l < m < NUM_LEVELS :: NewerThan(LevelEntries(v, disk, l), LevelEntries(v, disk, m)))
  }

  /** Memory tables, newest first, above everything on disk. */
  ghost predicate MemoryOrdered(mem: seq<seq<Entry>>, below: set<Entry>) {
    && (forall i | 0 <= i < |mem| :: Sorted(mem[i]) && NewerThan(Entries(mem[i]), below))
    && (forall i, j | 0 <= i < j < |mem| :: NewerThan(Entries(mem[i]), Entries(mem[j])))
  }

  ghost function MemoryEntries(mem: seq<seq<Entry>>): set<Entry> {
    set i, e | 0 <= i < |mem| && e in mem[i] :: e
  }

  // ----- No version is stored twice -----

  lemma SameFile(files: Level, m: FileMeta, n: FileMeta, user: bytes)
    requires RangesDisjoint(files) && m in files && n in files && Covers(m, user) && Covers(n, user)
    ensures m == n
  {
    var i :| 0 <= i < |files| && files[i] == m;
    var j :| 0 <= j < |files| && files[j] == n;
    if i < j {
      assert RangeBefore(files[i], files[j]);
      Uncovered(m, n, user);
    } else if j < i {
      assert RangeBefore(files[j], files[i]);
      Uncovered(n, m, user);
    }
  }

  lemma Uncovered(f: FileMeta, g: FileMeta, user: bytes)
    requires RangeBefore(f, g)
    ensures !(Covers(f, user) && Covers(g, user))
  {
    var a, b := f.largest.user, g.smallest.user;
    LessTotal(a, b);
    LessTotal(a, user);
    if LessEq(user, a) && LessEq(b, user) && user != a && b != user {
      LessTransitive(b, user, a);
    }
  }

  /** Two live files never hold the same version. */
  lemma FilesDisjoint(v: Version, disk: Disk, l: nat, f: FileMeta, e: Entry, m: nat, g: FileMeta, x: Entry)
    requires WellFormed(v) && AllStored(v, disk) && DiskOrdered(v, disk)
    requires OnDisk(v, disk, l, f, e) && OnDisk(v, disk, m, g, x) && (l != m || f != g)
    ensures !(e.user == x.user && e.seqno == x.seqno)
  {
    assert e in LevelEntries(v, disk, l) && x in LevelEntries(v, disk, m);
    if l < m {
      assert NewerThan(LevelEntries(v, disk, l), LevelEntries(v, disk, m));
    } else if m < l {
      assert NewerThan(LevelEntries(v, disk, m), LevelEntries(v, disk, l));
    } else if l == 0 {
      assert HasFile(v, 0, f) && HasFile(v, 0, g);
      assert e in Entries(Table(disk, f)) && x in Entries(Table(disk, g));
    } else {
      DescribedRange(f, disk[f.number], e);
      DescribedRange(g, disk[g.number], x);
      if e.user == x.user {
        SameFile(v[l], f, g, e.user);
      }
    }
  }

  lemma DiskFunctional(v: Version, disk: Disk)
    requires WellFormed(v) && AllStored(v, disk) && DiskOrdered(v, disk)
    ensures Functional(DiskEntries(v, disk))
  {
    var s := DiskEntries(v, disk);
    forall e, x | e in s && x in s && e.user == x.user && e.seqno == x.seqno ensures e == x {
      DiskMember(v, disk, e);
      DiskMember(v, disk, x);
      var l: nat, f :| OnDisk(v, disk, l, f, e);
      var m: nat, g :| OnDisk(v, disk, m, g, x);
      if l != m || f != g {
        FilesDisjoint(v, disk, l, f, e, m, g, x);
      }
      SortedFunctional(disk[f.number]);
    }
  }

  // ----- Early stopping over a list of layers -----

  ghost function Union(layers: seq<set<Entry>>): set<Entry> {
    set i, e | 0 <= i < |layers| && e in layers[i] :: e
  }

  ghost predicate LayersOrdered(layers: seq<set<Entry>>) {
    && (forall i | 0 <= i < |layers| :: Functional(layers[i]))
    && (forall i, j | 0 <= i < j < |layers| :: NewerThan(layers[i], layers[j]))
  }

  /** The answer of the first layer that has one. */
  ghost function FirstHit(layers: seq<set<Entry>>, user: bytes, at: u64): Option<Entry> {
    if layers == [] then None
    else if Newest(layers[0], user, at).Some? then Newest(layers[0], user, at)
    else FirstHit(layers[1..], user, at)
  }

  lemma UnionCons(layers: seq<set<Entry>>)
    requires layers != []
    ensures Union(layers) == layers[0] + Union(layers[1..])
  {
    var rest := layers[1..];
    forall e | e in Union(layers) ensures e in layers[0] + Union(rest) {
      var i :| 0 <= i < |layers| && e in layers[i];
      if i > 0 {
        assert e in rest[i - 1];
      }
    }
    forall e | e in layers[0] + Union(rest) ensures e in Union(layers) {
      if e !in layers[0] {
        var i :| 0 <= i < |rest| && e in rest[i];
        assert e in layers[i + 1];
      }
    }
  }

  /** With ordered layers, the first layer that answers holds the newest visible version of all. */
  lemma {:induction false} FirstHitIsNewest(layers: seq<set<Entry>>, user: bytes, at: u64)
    requires LayersOrdered(layers)
    ensures FirstHit(layers, user, at) == Newest(Union(layers), user, at)
    ensures Functional(Union(layers))
  {
    if layers == [] {
      NewestNone(Union(layers), user, at);
    } else {
      var rest := layers[1..];
      RestOrdered(layers);
      FirstHitIsNewest(rest, user, at);
      UnionCons(layers);
      NewestOfLayers(layers[0], Union(rest), user, at);
      FunctionalUnion(layers[0], Union(rest));
    }
  }

  lemma RestOrdered(layers: seq<set<Entry>>)
    requires LayersOrdered(layers) && layers != []
    ensures LayersOrdered(layers[1..]) && NewerThan(layers[0], Union(layers[1..])) && Functional(layers[0])
  {
    var rest := layers[1..];
    forall e, f | e in layers[0] && f in Union(rest) && e.user == f.user ensures e.seqno > f.seqno {
      var i :| 0 <= i < |rest| && f in rest[i];
      assert NewerThan(layers[0], layers[i + 1]);
    }
  }
}
