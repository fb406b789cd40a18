/** The point read: it visits layers from newest to oldest and stops at the first answer. */
module PointReads {
  import opened Bytes
  import opened InternalKeys
  import opened Mvcc
  import opened MemTables
  import opened Versions
  import opened Layouts
  import opened Routing

  /** Range lookup in a sorted memory table: the first entry at or after the seek position. */
  method Probe(t: seq<Entry>, user: bytes, at: u64) returns (r: Option<Entry>)
    requires Sorted(t)
    ensures r == Newest(Entries(t), user, at)
  {
    var i := LowerBound(t, Encode(InternalKey(user, at, Deletion)));
    forall j | 0 <= j < |t| ensures BeforeSeek(t[j], user, at) <==>
                                    Less(Encode(Key(t[j])), Encode(InternalKey(user, at, Deletion))) {
      SeekIsByteOrder(t[j], user, at);
    }
    LowerBoundIsNewest(t, user, at, i);
    if i < |t| && t[i].user == user {
      return Some(t[i]);
    }
    return None;
  }

  // ----- Table files -----

  /** The blocks each table file was written in. */
  type Blocking = u64 -> seq<Block>

  ghost predicate WrittenIn(f: FileMeta, disk: Disk, blocks: Blocking) {
    f.number in disk && Describes(f, disk[f.number]) && Join(blocks(f.number)) == disk[f.number]
  }

  ghost predicate BlocksHold(v: Version, disk: Disk, blocks: Blocking) {
    forall l: nat, f | HasFile(v, l, f) :: WrittenIn(f, disk, blocks)
  }

  /** No block boundary of a file that may hold the key is skipped by this read. */
  ghost predicate Unskipped(v: Version, blocks: Blocking, user: bytes, at: u64) {
    forall l: nat, f | HasFile(v, l, f) && Covers(f, user) :: !Skipped(blocks(f.number), user, at)
  }

  /** What the index of this file leads the read to. */
  predicate Leads(blocks: Blocking, f: FileMeta, user: bytes, at: u64, r: Option<Entry>) {
    Covers(f, user) && Lookup(blocks(f.number), user, at) == r
  }

  /** Looks a key up in one table through its index. */
  method TableGet(blocks: seq<Block>, user: bytes, at: u64) returns (r: Option<Entry>)
    requires Cut(blocks)
    ensures r == Newest(Entries(Join(blocks)), user, at) <==> !Skipped(blocks, user, at)
    ensures r == Lookup(blocks, user, at)
  {
    LookupExact(blocks, user, at);
    r := Lookup(blocks, user, at);
  }

  /** A read at or above every stored sequence of its key meets no skipped boundary. */
  lemma LatestUnskipped(v: Version, disk: Disk, blocks: Blocking, user: bytes, at: u64)
    requires BlocksHold(v, disk, blocks)
    requires forall e | e in DiskEntries(v, disk) && e.user == user :: e.seqno <= at
    ensures Unskipped(v, blocks, user, at)
  {
    forall l: nat, f | HasFile(v, l, f) && Covers(f, user) ensures !Skipped(blocks(f.number), user, at) {
      assert WrittenIn(f, disk, blocks);
      forall e | e in Join(blocks(f.number)) && e.user == user ensures e.seqno <= at {
        assert OnDisk(v, disk, l, f, e);
        DiskMember(v, disk, e);
      }
      LatestNeverSkipped(blocks(f.number), user, at);
    }
  }

  // ----- The three parts of the layer list -----

  ghost function MemoryLayers(mem: seq<seq<Entry>>): seq<set<Entry>> {
    seq(|mem|, i requires 0 <= i < |mem| => Entries(mem[i]))
  }

  ghost function FileLayers(disk: Disk, files: Level): seq<set<Entry>> {
    seq(|files|, i requires 0 <= i < |files| => Entries(Table(disk, files[i])))
  }

  ghost function DeepLayers(v: Version, disk: Disk): seq<set<Entry>> {
    seq(NUM_LEVELS - 1, i requires 0 <= i < NUM_LEVELS - 1 => LevelEntries(v, disk, i + 1))
  }

  lemma {:induction false} FirstHitAt(layers: seq<set<Entry>>, user: bytes, at: u64, k: nat)
    requires k <= |layers| && forall i | 0 <= i < k :: Newest(layers[i], user, at) == None
    ensures FirstHit(layers, user, at) == FirstHit(layers[k..], user, at)
  {
    if k > 0 {
      FirstHitAt(layers[1..], user, at, k - 1);
      DropDrop(layers, 1, k);
    } else {
      TakeDrop(layers, 0);
    }
  }

  method ReadMemory(mem: seq<seq<Entry>>, user: bytes, at: u64) returns (r: Option<Entry>)
    requires forall i | 0 <= i < |mem| :: Sorted(mem[i])
    ensures r == FirstHit(MemoryLayers(mem), user, at)
  {
    ghost var layers := MemoryLayers(mem);
    for i := 0 to |mem|
      invariant forall j | 0 <= j < i :: Newest(layers[j], user, at) == None
    {
      r := Probe(mem[i], user, at);
      if r.Some? {
        FirstHitAt(layers, user, at, i);
        return;
      }
    }
    FirstHitAt(layers, user, at, |mem|);
    return None;
  }

  lemma NotCovered(f: FileMeta, t: seq<Entry>, user: bytes, at: u64)
    requires Describes(f, t) && !Covers(f, user)
    ensures Newest(Entries(t), user, at) == None
  {
    NewestNone(Entries(t), user, at);
    forall e | e in t ensures e.user != user {
      DescribedRange(f, t, e);
    }
  }

  /** What the read finds in one file: nothing is looked up in a file that does not cover the key. */
  method FileGet(f: FileMeta, ghost disk: Disk, blocks: Blocking, user: bytes, at: u64) returns (r: Option<Entry>)
    requires WrittenIn(f, disk, blocks)
    ensures !(Covers(f, user) && Skipped(blocks(f.number), user, at)) ==> r == Newest(Entries(Table(disk, f)), user, at)
    ensures r.Some? ==> Leads(blocks, f, user, at, r)
  {
    if !Covers(f, user) {
      NotCovered(f, disk[f.number], user, at);
      return None;
    }
    r := TableGet(blocks(f.number), user, at);
  }

  ghost predicate NoneSkipped(blocks: Blocking, files: Level, user: bytes, at: u64) {
    forall f | f in files && Covers(f, user) :: !Skipped(blocks(f.number), user, at)
  }

  lemma NoLayerHits(layers: seq<set<Entry>>, user: bytes, at: u64)
    requires forall j | 0 <= j < |layers| :: Newest(layers[j], user, at) == None
    ensures FirstHit(layers, user, at) == None
  {
    FirstHitAt(layers, user, at, |layers|);
  }

  /** Level zero: every overlapping file, newest first. */
  method ReadLevelZero(ghost disk: Disk, blocks: Blocking, files: Level, user: bytes, at: u64)
      returns (r: Option<Entry>)
    requires forall f | f in files :: WrittenIn(f, disk, blocks)
    ensures NoneSkipped(blocks, files, user, at) ==> r == FirstHit(FileLayers(disk, files), user, at)
    ensures r.Some? ==> exists f :: f in files && Leads(blocks, f, user, at, r)
  {
    ghost var layers := FileLayers(disk, files);
    ghost var exact := NoneSkipped(blocks, files, user, at);
    for i := 0 to |files|
      invariant exact ==> forall j | 0 <= j < i :: Newest(layers[j], user, at) == None
    {
      r := FileGet(files[i], disk, blocks, user, at);
      if r.Some? {
        if exact {
          FirstHitAt(layers, user, at, i);
        }
        return;
      }
    }
    if exact {
      NoLayerHits(layers, user, at);
    }
    return None;
  }

  predicate EndsBefore(f: FileMeta, user: bytes) {
    Less(f.largest.user, user)
  }

  /** Binary search for the first file that does not end before the key. */
  method PartitionPoint(files: Level, user: bytes) returns (k: nat)
    requires RangesDisjoint(files) && forall f | f in files :: ValidFile(f)
    ensures k <= |files|
    ensures forall i | 0 <= i < k :: EndsBefore(files[i], user)
    ensures forall i | k <= i < |files| :: !EndsBefore(files[i], user)
  {
    var lo, hi := 0, |files|;
    while lo < hi
      invariant 0 <= lo <= hi <= |files|
      invariant forall i | 0 <= i < lo :: EndsBefore(files[i], user)
      invariant forall i | hi <= i < |files| :: !EndsBefore(files[i], user)
    {
      var mid := (lo + hi) / 2;
      if EndsBefore(files[mid], user) {
        forall i | 0 <= i < mid ensures EndsBefore(files[i], user) {
          EndsMonotone(files, i, mid, user);
        }
        lo := mid + 1;
      } else {
        forall i | mid < i < |files| ensures !EndsBefore(files[i], user) {
          if EndsBefore(files[i], user) {
            EndsMonotone(files, mid, i, user);
          }
        }
        hi := mid;
      }
    }
    k := lo;
  }

  lemma EndsMonotone(files: Level, i: nat, j: nat, user: bytes)
    requires RangesDisjoint(files) && i < j < |files| && ValidFile(files[j])
    requires EndsBefore(files[j], user)
    ensures EndsBefore(files[i], user)
  {
    assert RangeBefore(files[i], files[j]);
    RangeLessEq(files[j]);
    var a, b, c := files[i].largest.user, files[j].smallest.user, files[j].largest.user;
    if b != c {
      LessTransitive(a, b, c);
    }
    LessTransitive(a, c, user);
  }

  /** In a disjoint level only the file at the partition point can hold the key. */
  lemma OneCandidate(v: Version, disk: Disk, l: nat, user: bytes, at: u64, k: nat)
    requires 1 <= l < NUM_LEVELS && WellFormed(v) && AllStored(v, disk) && k <= |v[l]|
    requires forall i | 0 <= i < k :: EndsBefore(v[l][i], user)
    requires forall i | k <= i < |v[l]| :: !EndsBefore(v[l][i], user)
    ensures k < |v[l]| ==> HasFile(v, l, v[l][k])
    ensures Newest(LevelEntries(v, disk, l), user, at) ==
            if k < |v[l]| && Covers(v[l][k], user) then Newest(Entries(disk[v[l][k].number]), user, at) else None
  {
    var files := v[l];
    var s := LevelEntries(v, disk, l);
    var own := if k < |files| then Entries(Table(disk, files[k])) else {};
    forall e | e in s && e.user == user ensures e in own && k < |files| && Covers(files[k], user) {
      var f :| f in files && e in Table(disk, f);
      assert HasFile(v, l, f);
      DescribedRange(f, disk[f.number], e);
      var i :| 0 <= i < |files| && files[i] == f;
      OnlyCandidate(files, i, k, user);
    }
    if k < |files| {
      assert HasFile(v, l, files[k]);
      SortedFunctional(disk[files[k].number]);
      if Covers(files[k], user) {
        assert VersionsOf(s, user) == VersionsOf(own, user);
        NewestOfKey(s, user, at);
        NewestOfKey(own, user, at);
      } else {
        NewestNone(s, user, at);
      }
    } else {
      NewestNone(s, user, at);
    }
  }

  lemma OnlyCandidate(files: Level, i: nat, k: nat, user: bytes)
    requires RangesDisjoint(files) && i < |files| && k <= |files|
    requires Covers(files[i], user)
    requires forall j | 0 <= j < k :: EndsBefore(files[j], user)
    requires forall j | k <= j < |files| :: !EndsBefore(files[j], user)
    ensures i == k
  {
    LessTotal(files[i].largest.user, user);
    assert !EndsBefore(files[i], user);
    if k < i {
      assert RangeBefore(files[k], files[i]);
      var a, b := files[k].largest.user, files[i].smallest.user;
      if b != user {
        LessTransitive(a, b, user);
      }
    }
  }

  /** A deeper level: at most one candidate file. */
  method ReadLevel(v: Version, ghost disk: Disk, blocks: Blocking, l: nat, user: bytes, at: u64)
      returns (r: Option<Entry>)
    requires 1 <= l < NUM_LEVELS && WellFormed(v) && AllStored(v, disk) && BlocksHold(v, disk, blocks)
    ensures Unskipped(v, blocks, user, at) ==> r == Newest(LevelEntries(v, disk, l), user, at)
    ensures r.Some? ==> exists f :: HasFile(v, l, f) && Leads(blocks, f, user, at, r)
  {
    forall f | f in v[l] ensures ValidFile(f) {
      assert HasFile(v, l, f);
    }
    var k := PartitionPoint(v[l], user);
    OneCandidate(v, disk, l, user, at, k);
    if k == |v[l]| || !Covers(v[l][k], user) {
      return None;
    }
    assert HasFile(v, l, v[l][k]);
    assert WrittenIn(v[l][k], disk, blocks);
    r := TableGet(blocks(v[l][k].number), user, at);
    assert Leads(blocks, v[l][k], user, at, r);
  }

  method ReadDeeper(v: Version, ghost disk: Disk, blocks: Blocking, user: bytes, at: u64) returns (r: Option<Entry>)
    requires WellFormed(v) && AllStored(v, disk) && BlocksHold(v, disk, blocks)
    ensures Unskipped(v, blocks, user, at) ==> r == FirstHit(DeepLayers(v, disk), user, at)
    ensures r.Some? ==> exists l: nat, f :: HasFile(v, l, f) && Leads(blocks, f, user, at, r)
  {
    ghost var layers := DeepLayers(v, disk);
    ghost var exact := Unskipped(v, blocks, user, at);
    for l := 1 to NUM_LEVELS
      invariant exact ==> forall j | 0 <= j < l - 1 :: Newest(layers[j], user, at) == None
    {
      r := ReadLevel(v, disk, blocks, l, user, at);
      if r.Some? {
        if exact {
          FirstHitAt(layers, user, at, l - 1);
        }
        return;
      }
    }
    if exact {
      NoLayerHits(layers, user, at);
    }
    return None;
  }

  // ----- The whole read -----

  lemma MemoryUnion(mem: seq<seq<Entry>>)
    ensures Union(MemoryLayers(mem)) == MemoryEntries(mem)
  {
    var layers := MemoryLayers(mem);
    forall e ensures e in Union(layers) <==> e in MemoryEntries(mem) {
      if i :| 0 <= i < |mem| && e in mem[i] {
        assert e in layers[i];
      }
      if i :| 0 <= i < |layers| && e in layers[i] {
        assert e in mem[i];
      }
    }
  }

  lemma MemoryLayersOrdered(mem: seq<seq<Entry>>, below: set<Entry>)
    requires MemoryOrdered(mem, below)
    ensures LayersOrdered(MemoryLayers(mem)) && NewerThan(MemoryEntries(mem), below)
  {
    forall i | 0 <= i < |mem| ensures Functional(Entries(mem[i])) {
      SortedFunctional(mem[i]);
    }
    forall e, f | e in MemoryEntries(mem) && f in below && e.user == f.user ensures e.seqno > f.seqno {
      var i :| 0 <= i < |mem| && e in mem[i];
      assert e in Entries(mem[i]);
    }
  }

  lemma FileLayersOrdered(v: Version, disk: Disk)
    requires WellFormed(v) && AllStored(v, disk) && DiskOrdered(v, disk)
    ensures LayersOrdered(FileLayers(disk, v[0])) && Union(FileLayers(disk, v[0])) == LevelEntries(v, disk, 0)
  {
    var files := v[0];
    var layers := FileLayers(disk, files);
    forall i | 0 <= i < |files| ensures Functional(layers[i]) {
      assert HasFile(v, 0, files[i]);
      SortedFunctional(disk[files[i].number]);
    }
    forall i, j | 0 <= i < j < |files| ensures NewerThan(layers[i], layers[j]) {
      assert !Ahead(0, files[j], files[i]);
      assert HasFile(v, 0, files[i]) && HasFile(v, 0, files[j]);
    }
    forall e ensures e in Union(layers) <==> e in LevelEntries(v, disk, 0) {
      if i :| 0 <= i < |layers| && e in layers[i] {
        assert files[i] in files && e in Table(disk, files[i]);
      }
      if f :| f in files && e in Table(disk, f) {
        var i :| 0 <= i < |files| && files[i] == f;
        assert e in layers[i];
      }
    }
  }

  lemma DeepLayersOrdered(v: Version, disk: Disk)
    requires WellFormed(v) && AllStored(v, disk) && DiskOrdered(v, disk)
    ensures LayersOrdered(DeepLayers(v, disk))
    ensures LevelEntries(v, disk, 0) + Union(DeepLayers(v, disk)) == DiskEntries(v, disk)
    ensures NewerThan(LevelEntries(v, disk, 0), Union(DeepLayers(v, disk)))
  {
    var layers := DeepLayers(v, disk);
    DiskFunctional(v, disk);
    forall i | 0 <= i < |layers| ensures Functional(layers[i]) {
      assert layers[i] <= DiskEntries(v, disk);
    }
    forall i, j | 0 <= i < j < |layers| ensures NewerThan(layers[i], layers[j]) {
      assert NewerThan(LevelEntries(v, disk, i + 1), LevelEntries(v, disk, j + 1));
    }
    forall e ensures e in LevelEntries(v, disk, 0) + Union(layers) <==> e in DiskEntries(v, disk) {
      if i :| 0 <= i < |layers| && e in layers[i] {
        assert e in LevelEntries(v, disk, i + 1);
      }
      if l :| 0 <= l < NUM_LEVELS && e in LevelEntries(v, disk, l) {
        assert l > 0 ==> e in layers[l - 1];
      }
    }
    forall e, f | e in LevelEntries(v, disk, 0) && f in Union(layers) && e.user == f.user ensures e.seqno > f.seqno {
      var i :| 0 <= i < |layers| && f in layers[i];
      assert NewerThan(LevelEntries(v, disk, 0), LevelEntries(v, disk, i + 1));
    }
  }

  function Value(hit: Option<Entry>, now: u64): Option<bytes> {
    if hit == None then None else Live(hit.value.record, now)
  }

  /** A read that stops at the first answering layer finds the newest visible version of the whole version set if
      and only if no file that may hold the key skips the read. */
  method Get(mem: seq<seq<Entry>>, v: Version, ghost disk: Disk, blocks: Blocking, user: bytes, at: u64, now: u64)
      returns (r: Option<bytes>, ghost hit: Option<Entry>)
    requires WellFormed(v) && AllStored(v, disk) && DiskOrdered(v, disk) && BlocksHold(v, disk, blocks)
    requires MemoryOrdered(mem, DiskEntries(v, disk))
    ensures hit == Newest(MemoryEntries(mem) + DiskEntries(v, disk), user, at) <==> Unskipped(v, blocks, user, at)
    ensures r == Value(hit, now)
    ensures Unskipped(v, blocks, user, at)
            ==> r == Read(MemoryEntries(mem) + DiskEntries(v, disk), user, at, now)
    ensures !Unskipped(v, blocks, user, at) ==>
              Outdated(hit, Newest(MemoryEntries(mem) + DiskEntries(v, disk), user, at))
  {
    LayeredNewest(mem, v, disk, user, at);
    var found := ReadMemory(mem, user, at);
    if found.Some? {
      MemoryHit(mem, user, at, found.value);
    } else {
      found := ReadFiles(v, disk, blocks, user, at);
    }
    hit := found;
    if !Unskipped(v, blocks, user, at) {
      FunctionalUnion(MemoryEntries(mem), DiskEntries(v, disk));
      SkippedOutdated(MemoryEntries(mem), Files(v, disk, blocks), user, at, hit);
    }
    return Value(found, now), found;
  }

  method ReadFiles(v: Version, ghost disk: Disk, blocks: Blocking, user: bytes, at: u64) returns (r: Option<Entry>)
    requires WellFormed(v) && AllStored(v, disk) && BlocksHold(v, disk, blocks)
    ensures Unskipped(v, blocks, user, at) ==>
              var b := FirstHit(FileLayers(disk, v[0]), user, at);
              r == if b.Some? then b else FirstHit(DeepLayers(v, disk), user, at)
    ensures r.Some? ==> exists l: nat, f :: HasFile(v, l, f) && Leads(blocks, f, user, at, r)
  {
    forall f | f in v[0] ensures WrittenIn(f, disk, blocks) && HasFile(v, 0, f) {
      assert HasFile(v, 0, f);
    }
    r := ReadLevelZero(disk, blocks, v[0], user, at);
    if r == None {
      r := ReadDeeper(v, disk, blocks, user, at);
    }
  }

  // ----- A skipped read -----

  /** Nothing, or an older version than the newest. */
  predicate Outdated(hit: Option<Entry>, newest: Option<Entry>) {
    newest.Some? && (hit.Some? ==> hit.value.user == newest.value.user && hit.value.seqno < newest.value.seqno)
  }

  lemma MemoryHit(mem: seq<seq<Entry>>, user: bytes, at: u64, e: Entry)
    requires FirstHit(MemoryLayers(mem), user, at) == Some(e)
    ensures e in MemoryEntries(mem) && Visible(e, user, at)
  {
    FirstHitMember(MemoryLayers(mem), user, at);
    MemoryUnion(mem);
  }

  lemma {:induction false} FirstHitMember(layers: seq<set<Entry>>, user: bytes, at: u64)
    requires FirstHit(layers, user, at).Some?
    ensures var e := FirstHit(layers, user, at).value; e in Union(layers) && Visible(e, user, at)
  {
    UnionCons(layers);
    if Newest(layers[0], user, at).None? {
      FirstHitMember(layers[1..], user, at);
    }
  }

  lemma LookupMember(blocks: seq<Block>, user: bytes, at: u64)
    requires Lookup(blocks, user, at).Some?
    ensures var e := Lookup(blocks, user, at).value; e in Join(blocks) && Visible(e, user, at)
  {
    var i := Route(Separators(blocks), Seek(user, at), 0);
    var j := LowerIn(blocks[i], Seek(user, at), 0);
    EntryAt(blocks, i, j);
  }

  /** The files of a version, their contents and the blocks they were written in. */
  datatype Files = Files(v: Version, disk: Disk, blocks: Blocking)

  ghost const FILES: iset<Files> :=
    iset i: Files | && WellFormed(i.v) && AllStored(i.v, i.disk) && DiskOrdered(i.v, i.disk)
                    && BlocksHold(i.v, i.disk, i.blocks)

  predicate NewerOf(user: bytes, a: seq<Entry>, b: seq<Entry>) {
    forall e, x | e in a && x in b && e.user == user && x.user == user :: e.seqno > x.seqno
  }

  /** Of two files that hold versions of a key, one holds the newer ones. */
  lemma FilesOrdered(i: Files, l: nat, f: FileMeta, m: nat, g: FileMeta, user: bytes)
    requires i in FILES && HasFile(i.v, l, f) && HasFile(i.v, m, g) && (l != m || f != g)
    ensures NewerOf(user, Table(i.disk, f), Table(i.disk, g)) || NewerOf(user, Table(i.disk, g), Table(i.disk, f))
  {
    var a, b := Table(i.disk, f), Table(i.disk, g);
    assert forall e | e in a :: e in LevelEntries(i.v, i.disk, l);
    assert forall e | e in b :: e in LevelEntries(i.v, i.disk, m);
    if l < m {
      assert NewerThan(LevelEntries(i.v, i.disk, l), LevelEntries(i.v, i.disk, m));
    } else if m < l {
      assert NewerThan(LevelEntries(i.v, i.disk, m), LevelEntries(i.v, i.disk, l));
    } else if l == 0 {
      assert NewerThan(Entries(a), Entries(b)) || NewerThan(Entries(b), Entries(a));
      assert forall e | e in a :: e in Entries(a);
      assert forall e | e in b :: e in Entries(b);
    } else {
      if e, x :| e in a && x in b && e.user == user && x.user == user {
        DescribedRange(f, a, e);
        DescribedRange(g, b, x);
        SameFile(i.v[l], f, g, user);
        assert false;
      }
    }
  }

  lemma WrittenTable(i: Files, l: nat, f: FileMeta)
    requires i in FILES && HasFile(i.v, l, f)
    ensures Table(i.disk, f) == Join(i.blocks(f.number)) && Cut(i.blocks(f.number))
  {
    assert WrittenIn(f, i.disk, i.blocks);
  }

  /** Versions on both sides of a skipped boundary. */
  lemma BoundaryMembers(blocks: seq<Block>, user: bytes, at: u64, k: nat)
    requires k + 1 < |blocks| && SkippedAt(blocks, user, at, k)
    ensures Last(blocks[k]) in Join(blocks) && blocks[k + 1][0] in Join(blocks)
  {
    EntryAt(blocks, k, |blocks[k]| - 1);
    EntryAt(blocks, k + 1, 0);
  }

  lemma SkippedInFile(blocks: seq<Block>, user: bytes, at: u64, k: nat, x: Entry)
    requires Cut(blocks) && k + 1 < |blocks| && SkippedAt(blocks, user, at, k)
    requires x in Join(blocks) && Visible(x, user, at)
    ensures x.seqno < blocks[k + 1][0].seqno || x == blocks[k + 1][0]
  {
    SkippedMisses(blocks, user, at, k);
    BoundaryMembers(blocks, user, at, k);
    SortedFunctional(Join(blocks));
  }

  lemma DiskHolds(i: Files, l: nat, f: FileMeta, e: Entry)
    requires HasFile(i.v, l, f) && e in Table(i.disk, f)
    ensures e in DiskEntries(i.v, i.disk)
  {
    assert OnDisk(i.v, i.disk, l, f, e);
    DiskMember(i.v, i.disk, e);
  }

  /** The file that is skipped holds the newest visible version: every newer file lies above the read. */
  lemma SkippedOnDisk(i: Files, user: bytes, at: u64, l: nat, f: FileMeta, k: nat, m: nat, g: FileMeta, x: Entry)
    requires i in FILES && HasFile(i.v, l, f) && HasFile(i.v, m, g)
    requires k + 1 < |i.blocks(f.number)| && SkippedAt(i.blocks(f.number), user, at, k)
    requires x in Table(i.disk, g) && Visible(x, user, at)
    ensures var e := i.blocks(f.number)[k + 1][0]; x.seqno < e.seqno || (x == e && l == m && f == g)
  {
    WrittenTable(i, l, f);
    BoundaryMembers(i.blocks(f.number), user, at, k);
    if l != m || f != g {
      FilesOrdered(i, l, f, m, g, user);
    } else {
      SkippedInFile(i.blocks(f.number), user, at, k, x);
    }
  }

  /** ... and so does every memory table. */
  lemma SkippedInMemory(mem: set<Entry>, i: Files, user: bytes, at: u64, l: nat, f: FileMeta, k: nat, x: Entry)
    requires i in FILES && HasFile(i.v, l, f) && NewerThan(mem, DiskEntries(i.v, i.disk))
    requires k + 1 < |i.blocks(f.number)| && SkippedAt(i.blocks(f.number), user, at, k)
    requires x in mem && x.user == user
    ensures x.seqno > at
  {
    WrittenTable(i, l, f);
    BoundaryMembers(i.blocks(f.number), user, at, k);
    DiskHolds(i, l, f, Last(i.blocks(f.number)[k]));
  }

  lemma SkippedNewest(mem: set<Entry>, i: Files, user: bytes, at: u64, l: nat, f: FileMeta, k: nat)
    requires i in FILES && HasFile(i.v, l, f) && NewerThan(mem, DiskEntries(i.v, i.disk))
    requires k + 1 < |i.blocks(f.number)| && SkippedAt(i.blocks(f.number), user, at, k)
    requires Functional(mem + DiskEntries(i.v, i.disk))
    ensures Newest(mem + DiskEntries(i.v, i.disk), user, at) == Some(i.blocks(f.number)[k + 1][0])
  {
    var e, all := i.blocks(f.number)[k + 1][0], mem + DiskEntries(i.v, i.disk);
    WrittenTable(i, l, f);
    BoundaryMembers(i.blocks(f.number), user, at, k);
    DiskHolds(i, l, f, e);
    forall x | x in all && Visible(x, user, at) ensures x.seqno <= e.seqno {
      if x in mem {
        SkippedInMemory(mem, i, user, at, l, f, k, x);
      }
      DiskMember(i.v, i.disk, x);
      var m: nat, g :| OnDisk(i.v, i.disk, m, g, x);
      SkippedOnDisk(i, user, at, l, f, k, m, g, x);
    }
    NewestIs(all, user, at, e);
  }

  /** What a read can find at all. */
  ghost predicate Findable(mem: set<Entry>, i: Files, user: bytes, at: u64, hit: Option<Entry>) {
    hit.Some? ==>
      || (hit.value in mem && Visible(hit.value, user, at))
      || exists l: nat, f :: HasFile(i.v, l, f) && Leads(i.blocks, f, user, at, hit)
  }

  lemma HitOlder(mem: set<Entry>, i: Files, user: bytes, at: u64, l: nat, f: FileMeta, k: nat, x: Entry)
    requires i in FILES && HasFile(i.v, l, f) && NewerThan(mem, DiskEntries(i.v, i.disk))
    requires k + 1 < |i.blocks(f.number)| && SkippedAt(i.blocks(f.number), user, at, k)
    requires Findable(mem, i, user, at, Some(x))
    ensures x.user == user && x.seqno < i.blocks(f.number)[k + 1][0].seqno
  {
    if x in mem && Visible(x, user, at) {
      SkippedInMemory(mem, i, user, at, l, f, k, x);
    } else {
      var m: nat, g :| HasFile(i.v, m, g) && Leads(i.blocks, g, user, at, Some(x));
      WrittenTable(i, m, g);
      WrittenTable(i, l, f);
      LookupMember(i.blocks(g.number), user, at);
      SkippedOnDisk(i, user, at, l, f, k, m, g, x);
      SkippedMisses(i.blocks(f.number), user, at, k);
    }
  }

  /** A skipped read misses the newest visible version and finds nothing or an older one. */
  lemma SkippedOutdated(mem: set<Entry>, i: Files, user: bytes, at: u64, hit: Option<Entry>)
    requires i in FILES && Functional(mem + DiskEntries(i.v, i.disk)) && NewerThan(mem, DiskEntries(i.v, i.disk))
    requires !Unskipped(i.v, i.blocks, user, at) && Findable(mem, i, user, at, hit)
    ensures Outdated(hit, Newest(mem + DiskEntries(i.v, i.disk), user, at))
  {
    var l: nat, f :| HasFile(i.v, l, f) && Covers(f, user) && Skipped(i.blocks(f.number), user, at);
    var k :| 0 <= k < |i.blocks(f.number)| - 1 && SkippedAt(i.blocks(f.number), user, at, k);
    SkippedNewest(mem, i, user, at, l, f, k);
    if hit.Some? {
      HitOlder(mem, i, user, at, l, f, k, hit.value);
    }
  }

  lemma LayeredNewest(mem: seq<seq<Entry>>, v: Version, disk: Disk, user: bytes, at: u64)
    requires WellFormed(v) && AllStored(v, disk) && DiskOrdered(v, disk)
    requires MemoryOrdered(mem, DiskEntries(v, disk))
    ensures Newest(MemoryEntries(mem) + DiskEntries(v, disk), user, at) ==
            var a := FirstHit(MemoryLayers(mem), user, at);
            var b := FirstHit(FileLayers(disk, v[0]), user, at);
            var c := FirstHit(DeepLayers(v, disk), user, at);
            if a.Some? then a else if b.Some? then b else c
    ensures Functional(MemoryEntries(mem)) && Functional(DiskEntries(v, disk))
    ensures NewerThan(MemoryEntries(mem), DiskEntries(v, disk))
  {
    MemoryLayersOrdered(mem, DiskEntries(v, disk));
    MemoryUnion(mem);
    FirstHitIsNewest(MemoryLayers(mem), user, at);
    FileLayersOrdered(v, disk);
    FirstHitIsNewest(FileLayers(disk, v[0]), user, at);
    DeepLayersOrdered(v, disk);
    FirstHitIsNewest(DeepLayers(v, disk), user, at);
    NewestOfLayers(LevelEntries(v, disk, 0), Union(DeepLayers(v, disk)), user, at);
    FunctionalUnion(LevelEntries(v, disk, 0), Union(DeepLayers(v, disk)));
    NewestOfLayers(MemoryEntries(mem), DiskEntries(v, disk), user, at);
  }
}
