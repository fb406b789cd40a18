/** The range scan over memory tables and the files that may meet the bounds. */
module StoreScans {
  import opened Bytes
  import opened Mvcc
  import opened Iterators
  import opened Scans
  import opened Versions
  import opened Layouts
  import opened PointReads
  import opened Plans
  import opened Install

  // ----- Children -----

  /** The file's user-key range may hold an in-bounds key. */
  predicate OverlapsBounds(f: FileMeta, b: ScanBounds) {
    && (match b.start
        case Included(start) => LessEq(start, f.largest.user)
        case Excluded(start) => Less(start, f.largest.user)
        case Unbounded => true)
    && (match b.end
        case Included(end) => LessEq(f.smallest.user, end)
        case Excluded(end) => Less(f.smallest.user, end)
        case Unbounded => true)
  }

  /** A file left out holds no in-bounds key. */
  lemma LeftOutOfBounds(f: FileMeta, b: ScanBounds, user: bytes)
    requires Covers(f, user) && InBounds(b, user)
    ensures OverlapsBounds(f, b)
  {
    match b.start {
      case Included(start) => LessEqTransitive(start, user, f.largest.user);
      case Excluded(start) => if user != f.largest.user { LessTransitive(start, user, f.largest.user); }
      case Unbounded =>
    }
    match b.end {
      case Included(end) => LessEqTransitive(f.smallest.user, user, end);
      case Excluded(end) => if user != f.smallest.user { LessTransitive(f.smallest.user, user, end); }
      case Unbounded =>
    }
  }

  /** The in-bounds entries of a memory table. */
  function Filter(t: seq<Entry>, b: ScanBounds): seq<Entry> {
    if t == [] then []
    else if InBounds(b, t[0].user) then [t[0]] + Filter(t[1..], b)
    else Filter(t[1..], b)
  }

  lemma {:induction false} FilterMembers(t: seq<Entry>, b: ScanBounds, e: Entry)
    ensures e in Filter(t, b) <==> e in t && InBounds(b, e.user)
  {
    if t != [] {
      FilterMembers(t[1..], b, e);
      assert t == [t[0]] + t[1..];
    }
  }

  lemma {:induction false} FilterSorted(t: seq<Entry>, b: ScanBounds)
    requires Sorted(t)
    ensures Sorted(Filter(t, b))
  {
    if t != [] {
      SortedSuffix(t, 1);
      FilterSorted(t[1..], b);
      forall e | e in Filter(t[1..], b) ensures Before(t[0], e) {
        FilterMembers(t[1..], b, e);
        var i :| 0 <= i < |t[1..]| && t[1..][i] == e;
        assert t[i + 1] == e;
      }
      SortedCons(t[0], Filter(t[1..], b));
    }
  }

  /** The selected files of one level, in level order. */
  function Overlapping(level: nat, files: Level, b: ScanBounds): seq<(nat, FileMeta)> {
    if files == [] then []
    else if OverlapsBounds(files[0], b) then [(level, files[0])] + Overlapping(level, files[1..], b)
    else Overlapping(level, files[1..], b)
  }

  lemma {:induction false} OverlappingMembers(level: nat, files: Level, b: ScanBounds, p: (nat, FileMeta))
    ensures p in Overlapping(level, files, b) <==> p.0 == level && p.1 in files && OverlapsBounds(p.1, b)
  {
    if files != [] {
      OverlappingMembers(level, files[1..], b, p);
      assert files == [files[0]] + files[1..] && p == (p.0, p.1);
    }
  }

  lemma {:induction false} OverlappingDistinct(level: nat, files: Level, b: ScanBounds)
    requires Distinct(files)
    ensures Distinct(Overlapping(level, files, b))
  {
    if files != [] {
      OverlappingDistinct(level, files[1..], b);
      OverlappingMembers(level, files[1..], b, (level, files[0]));
    }
  }

  /** The selected files of the first `n` levels. */
  function Selected(v: Version, b: ScanBounds, n: nat): seq<(nat, FileMeta)>
    requires n <= NUM_LEVELS
  {
    if n == 0 then [] else Selected(v, b, n - 1) + Overlapping(n - 1, v[n - 1], b)
  }

  lemma {:induction false} SelectedMembers(v: Version, b: ScanBounds, n: nat, p: (nat, FileMeta))
    requires n <= NUM_LEVELS
    ensures p in Selected(v, b, n) <==> p.0 < n && p.1 in v[p.0] && OverlapsBounds(p.1, b)
  {
    if n > 0 {
      SelectedMembers(v, b, n - 1, p);
      OverlappingMembers(n - 1, v[n - 1], b, p);
    }
  }

  lemma {:induction false} SelectedDistinct(v: Version, b: ScanBounds, n: nat)
    requires n <= NUM_LEVELS && UniqueNumbers(v)
    ensures Distinct(Selected(v, b, n))
  {
    if n > 0 {
      SelectedDistinct(v, b, n - 1);
      OverlappingDistinct(n - 1, v[n - 1], b);
      var p, q := Selected(v, b, n - 1), Overlapping(n - 1, v[n - 1], b);
      forall i, j | 0 <= i < |p| && 0 <= j < |q| ensures p[i] != q[j] {
        SelectedMembers(v, b, n - 1, p[i]);
        OverlappingMembers(n - 1, v[n - 1], b, q[j]);
      }
    }
  }

  function MemChildren(mem: seq<seq<Entry>>, b: ScanBounds): seq<Run> {
    seq(|mem|, i requires 0 <= i < |mem| => Filter(mem[i], b))
  }

  function DiskChildren(disk: Disk, chosen: seq<(nat, FileMeta)>): seq<Run> {
    seq(|chosen|, i requires 0 <= i < |chosen| => Table(disk, chosen[i].1))
  }

  function Children(mem: seq<seq<Entry>>, v: Version, disk: Disk, b: ScanBounds): seq<Run> {
    MemChildren(mem, b) + DiskChildren(disk, Selected(v, b, NUM_LEVELS))
  }

  /** One child per memory table, newest first, then one per file that may meet the bounds. */
  method BuildChildren(mem: seq<seq<Entry>>, v: Version, disk: Disk, b: ScanBounds) returns (children: seq<Child>)
    ensures |children| == |Children(mem, v, disk, b)|
    ensures forall i | 0 <= i < |children| :: children[i] == Child(Children(mem, v, disk, b)[i], false)
  {
    children := [];
    for i := 0 to |mem|
      invariant |children| == i && forall j | 0 <= j < i :: children[j] == Child(Filter(mem[j], b), false)
    {
      children := children + [Child(Filter(mem[i], b), false)];
    }
    var chosen := Selected(v, b, NUM_LEVELS);
    for i := 0 to |chosen|
      invariant |children| == |mem| + i
      invariant forall j | 0 <= j < |mem| :: children[j] == Child(Filter(mem[j], b), false)
      invariant forall j | 0 <= j < i :: children[|mem| + j] == Child(Table(disk, chosen[j].1), false)
    {
      children := children + [Child(Table(disk, chosen[i].1), false)];
    }
    forall i | 0 <= i < |children| ensures children[i] == Child(Children(mem, v, disk, b)[i], false) {
      if i >= |mem| {
        assert children[|mem| + (i - |mem|)] == Child(Table(disk, chosen[i - |mem|].1), false);
      }
    }
  }

  // ----- The merged stream -----

  ghost predicate Consistent(mem: seq<seq<Entry>>, v: Version, disk: Disk) {
    Layered(v, disk) && MemoryOrdered(mem, DiskEntries(v, disk))
  }

  /** The file behind a disk child. */
  lemma SelectedAt(v: Version, disk: Disk, b: ScanBounds, i: nat)
    requires AllStored(v, disk) && i < |Selected(v, b, NUM_LEVELS)|
    ensures var p := Selected(v, b, NUM_LEVELS)[i];
            HasFile(v, p.0, p.1) && p.1.number in disk && Sorted(Table(disk, p.1))
  {
    var p := Selected(v, b, NUM_LEVELS)[i];
    SelectedMembers(v, b, NUM_LEVELS, p);
    assert HasFile(v, p.0, p.1);
  }

  lemma OnDiskMember(v: Version, disk: Disk, l: nat, f: FileMeta, e: Entry)
    requires OnDisk(v, disk, l, f, e)
    ensures e in DiskEntries(v, disk)
  {
    DiskMember(v, disk, e);
  }

  lemma MemoryDisjoint(mem: seq<seq<Entry>>, below: set<Entry>, b: ScanBounds, i: nat, e: Entry, x: Entry)
    requires MemoryOrdered(mem, below) && i < |mem| && e in Filter(mem[i], b)
    requires x in below || exists j :: i < j < |mem| && x in Filter(mem[j], b)
    ensures !(e.user == x.user && e.seqno == x.seqno)
  {
    FilterMembers(mem[i], b, e);
    assert e in Entries(mem[i]);
    if x !in below {
      var j :| i < j < |mem| && x in Filter(mem[j], b);
      FilterMembers(mem[j], b, x);
      assert x in Entries(mem[j]);
    }
  }

  lemma ChildrenDisjoint(mem: seq<seq<Entry>>, v: Version, disk: Disk, b: ScanBounds, i: nat, j: nat, e: Entry,
                         x: Entry)
    requires Consistent(mem, v, disk) && i < j < |Children(mem, v, disk, b)|
    requires e in Children(mem, v, disk, b)[i] && x in Children(mem, v, disk, b)[j]
    ensures !(e.user == x.user && e.seqno == x.seqno)
  {
    if j < |mem| {
      MemoryDisjoint(mem, DiskEntries(v, disk), b, i, e, x);
    } else {
      SelectedAt(v, disk, b, j - |mem|);
      var q := Selected(v, b, NUM_LEVELS)[j - |mem|];
      OnDiskMember(v, disk, q.0, q.1, x);
      if i < |mem| {
        MemoryDisjoint(mem, DiskEntries(v, disk), b, i, e, x);
      } else {
        SelectedAt(v, disk, b, i - |mem|);
        SelectedDistinct(v, b, NUM_LEVELS);
        var p := Selected(v, b, NUM_LEVELS)[i - |mem|];
        assert p != q;
        FilesDisjoint(v, disk, p.0, p.1, e, q.0, q.1, x);
      }
    }
  }

  lemma StreamSorted(mem: seq<seq<Entry>>, v: Version, disk: Disk, b: ScanBounds)
    requires Consistent(mem, v, disk)
    ensures Sorted(Merge(Children(mem, v, disk, b)))
  {
    var cs := Children(mem, v, disk, b);
    forall i | 0 <= i < |cs| ensures Sorted(cs[i]) {
      if i < |mem| {
        FilterSorted(mem[i], b);
      } else {
        SelectedAt(v, disk, b, i - |mem|);
      }
    }
    forall i, j, e: Entry, x: Entry | 0 <= i < j < |cs| && e in cs[i] && x in cs[j]
      ensures !(e.user == x.user && e.seqno == x.seqno)
    {
      ChildrenDisjoint(mem, v, disk, b, i, j, e, x);
    }
    MergeSorted(cs);
  }

  /** The stream holds exactly the stored versions of each in-bounds key. */
  lemma StreamMembers(mem: seq<seq<Entry>>, v: Version, disk: Disk, b: ScanBounds, e: Entry)
    requires Consistent(mem, v, disk) && InBounds(b, e.user)
    ensures e in Merge(Children(mem, v, disk, b)) <==> e in MemoryEntries(mem) + DiskEntries(v, disk)
  {
    var cs := Children(mem, v, disk, b);
    MergeMembers(cs, e);
    if i :| 0 <= i < |cs| && e in cs[i] {
      ChildInStore(mem, v, disk, b, i, e);
    }
    if i :| 0 <= i < |mem| && e in mem[i] {
      FilterMembers(mem[i], b, e);
      assert e in cs[i];
    }
    if e in DiskEntries(v, disk) {
      DiskInStream(mem, v, disk, b, e);
    }
  }

  lemma ChildInStore(mem: seq<seq<Entry>>, v: Version, disk: Disk, b: ScanBounds, i: nat, e: Entry)
    requires Consistent(mem, v, disk) && i < |Children(mem, v, disk, b)| && e in Children(mem, v, disk, b)[i]
    ensures e in MemoryEntries(mem) + DiskEntries(v, disk)
  {
    if i < |mem| {
      FilterMembers(mem[i], b, e);
    } else {
      SelectedAt(v, disk, b, i - |mem|);
      var p := Selected(v, b, NUM_LEVELS)[i - |mem|];
      OnDiskMember(v, disk, p.0, p.1, e);
    }
  }

  lemma DiskInStream(mem: seq<seq<Entry>>, v: Version, disk: Disk, b: ScanBounds, e: Entry)
    requires Consistent(mem, v, disk) && InBounds(b, e.user) && e in DiskEntries(v, disk)
    ensures exists i :: 0 <= i < |Children(mem, v, disk, b)| && e in Children(mem, v, disk, b)[i]
  {
    DiskMember(v, disk, e);
    var l: nat, f :| OnDisk(v, disk, l, f, e);
    DescribedRange(f, disk[f.number], e);
    LeftOutOfBounds(f, b, e.user);
    var chosen := Selected(v, b, NUM_LEVELS);
    SelectedMembers(v, b, NUM_LEVELS, (l, f));
    var i :| 0 <= i < |chosen| && chosen[i] == (l, f);
    assert Children(mem, v, disk, b)[|mem| + i] == Table(disk, f);
  }

  lemma StreamReads(mem: seq<seq<Entry>>, v: Version, disk: Disk, b: ScanBounds, user: bytes, at: u64, now: u64)
    requires Consistent(mem, v, disk) && InBounds(b, user)
    ensures Read(Entries(Merge(Children(mem, v, disk, b))), user, at, now)
         == Read(MemoryEntries(mem) + DiskEntries(v, disk), user, at, now)
  {
    var t := Merge(Children(mem, v, disk, b));
    var all := MemoryEntries(mem) + DiskEntries(v, disk);
    StreamSorted(mem, v, disk, b);
    SortedFunctional(t);
    LayeredNewest(mem, v, disk, user, at);
    FunctionalUnion(MemoryEntries(mem), DiskEntries(v, disk));
    forall e | Visible(e, user, at) ensures e in Entries(t) <==> e in all {
      StreamMembers(mem, v, disk, b, e);
    }
    NewestLocal(Entries(t), all, user, at);
  }

  // ----- The scan -----

  /** Exactly the first `limit` live in-bounds keys, ascending, with the values point reads return. */
  ghost predicate ScanOf(rows: seq<(bytes, bytes)>, s: set<Entry>, b: ScanBounds, at: u64, now: u64, limit: nat) {
    |rows| <= limit && RowsAreReads(rows, s, b, at, now) && NothingSkipped(rows, s, b, at, now, limit)
  }

  /** Scans depend on point reads only. */
  lemma ScanOfSameReads(rows: seq<(bytes, bytes)>, s: set<Entry>, t: set<Entry>, b: ScanBounds, at: u64, now: u64,
                        limit: nat)
    requires ScanOf(rows, s, b, at, now, limit)
    requires forall user | InBounds(b, user) :: Read(s, user, at, now) == Read(t, user, at, now)
    ensures ScanOf(rows, t, b, at, now, limit)
  {
  }

  lemma ScanCorrect(mem: seq<seq<Entry>>, v: Version, disk: Disk, b: ScanBounds, at: u64, now: u64, limit: nat)
    requires Consistent(mem, v, disk)
    ensures ScanOf(Scan(Merge(Children(mem, v, disk, b)), b, at, now, limit),
                   MemoryEntries(mem) + DiskEntries(v, disk), b, at, now, limit)
  {
    var t := Merge(Children(mem, v, disk, b));
    StreamSorted(mem, v, disk, b);
    ScanMeaning(t, b, at, now, limit);
    forall user | InBounds(b, user)
      ensures Read(Entries(t), user, at, now) == Read(MemoryEntries(mem) + DiskEntries(v, disk), user, at, now)
    {
      StreamReads(mem, v, disk, b, user, at, now);
    }
    var all := MemoryEntries(mem) + DiskEntries(v, disk);
    ScanOfSameReads(Scan(t, b, at, now, limit), Entries(t), all, b, at, now, limit);
  }

  /** Runs a healthy iterator to its end. */
  method Collect(it: KvIterator) returns (rows: seq<(bytes, bytes)>)
    requires it.Valid() && it.merged.healthy && !it.failed
    modifies it, it.merged
    ensures rows == old(it.Output())
  {
    rows := [];
    while true
      invariant it.Valid() && !it.failed
      invariant rows + it.Output() == old(it.Output())
      decreases |it.Output()|
    {
      ghost var before := it.Output();
      var row := it.Next();
      if row == None {
        return;
      }
      ConcatAssociative(rows, [row.value.value], it.Output());
      assert before == [before[0]] + before[1..];
      rows := rows + [row.value.value];
    }
  }

  /** The range scan of one state: its rows are the specification's rows. */
  method ScanStore(mem: seq<seq<Entry>>, v: Version, disk: Disk, b: ScanBounds, at: u64, now: u64, limit: nat)
      returns (rows: seq<(bytes, bytes)>)
    requires Consistent(mem, v, disk)
    ensures ScanOf(rows, MemoryEntries(mem) + DiskEntries(v, disk), b, at, now, limit)
  {
    var children := BuildChildren(mem, v, disk, b);
    var merged := new MergingIterator(children);
    var it := new KvIterator(merged, b, at, now, limit);
    ghost var cs := Children(mem, v, disk, b);
    assert seq(|children|, i requires 0 <= i < |children| => children[i].rest) == cs;
    assert [] + merged.stream == merged.stream;
    rows := Collect(it);
    ScanCorrect(mem, v, disk, b, at, now, limit);
  }
}
