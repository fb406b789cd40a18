/** The files a compaction adds and the version that results from publishing them. */
module Outputs {
  import opened Bytes
  import opened InternalKeys
  import opened Mvcc
  import opened Compactions
  import opened Versions
  import opened Acceptance
  import opened Plans
  import opened Layouts
  import opened Install

  // ----- Output tables -----

  lemma {:induction false} FlattenMember(outputs: seq<seq<Entry>>, e: Entry)
    ensures e in Flatten(outputs) <==> exists i :: 0 <= i < |outputs| && e in outputs[i]
  {
    if outputs != [] {
      var n := |outputs| - 1;
      FlattenMember(outputs[..n], e);
      if i :| 0 <= i < |outputs| && e in outputs[i] {
        assert i < n ==> e in outputs[..n][i];
      }
    }
  }

  lemma {:induction false} FlattenSorted(outputs: seq<seq<Entry>>, i: nat)
    requires Sorted(Flatten(outputs)) && i < |outputs|
    ensures Sorted(outputs[i])
  {
    var n := |outputs| - 1;
    var front := Flatten(outputs[..n]);
    SortedParts(front, outputs[n]);
    if i < n {
      FlattenSorted(outputs[..n], i);
    }
  }

  lemma SortedParts(a: seq<Entry>, b: seq<Entry>)
    requires Sorted(a + b)
    ensures Sorted(a) && Sorted(b)
  {
    var s := a + b;
    forall i, j | 0 <= i < j < |a| ensures Before(a[i], a[j]) {
      assert Before(s[i], s[j]);
    }
    forall i, j | 0 <= i < j < |b| ensures Before(b[i], b[j]) {
      assert Before(s[|a| + i], s[|a| + j]);
    }
  }

  /** Same user key and sequence as some version of the merged input. */
  predicate Descends(disk: Disk, p: Plan, e: Entry) {
    exists o :: o in Merged(disk, p) && o.user == e.user && o.seqno == e.seqno
  }

  /** Nonempty sorted tables over ascending disjoint keys, holding only versions of the merged input. */
  ghost predicate GoodOutputs(disk: Disk, p: Plan, outputs: seq<seq<Entry>>) {
    && SplitByKey(outputs)
    && (forall i | 0 <= i < |outputs| :: Sorted(outputs[i]))
    && (forall i, e | 0 <= i < |outputs| && e in outputs[i] :: Descends(disk, p, e))
  }

  lemma RunOutputs(v: Version, disk: Disk, p: Plan, oldest: Option<u64>, below: bytes -> bool, ran: u64,
                   outputs: seq<seq<Entry>>)
    requires Closed(v, p) && Layered(v, disk) && SplitByKey(outputs)
    requires Flatten(outputs) == RetainAll(Merged(disk, p), oldest, below, ran)
    ensures GoodOutputs(disk, p, outputs)
  {
    var run := Merged(disk, p);
    MergedSorted(v, disk, p);
    RetainAllSorted(run, oldest, below, ran);
    forall i | 0 <= i < |outputs| ensures Sorted(outputs[i]) {
      FlattenSorted(outputs, i);
    }
    forall i, e | 0 <= i < |outputs| && e in outputs[i] ensures Descends(disk, p, e) {
      FlattenMember(outputs, e);
      RetainAllOrigin(run, oldest, below, ran, e);
    }
  }

  lemma DescendsInRange(v: Version, disk: Disk, p: Plan, e: Entry)
    requires Closed(v, p) && AllStored(v, disk) && Descends(disk, p, e)
    ensures InRange(PlanRange(p), e.user)
  {
    var o :| o in Merged(disk, p) && o.user == e.user && o.seqno == e.seqno;
    MergedMember(v, disk, p, o);
    var l: nat, f :| FromPlan(disk, p, l, f, o);
    ChosenInRange(v, disk, p, l, f, o);
  }

  // ----- Output metadata -----

  function TableMeta(number: u64, size: u64, t: seq<Entry>): (f: FileMeta)
    requires t != []
    ensures Sorted(t) ==> Describes(f, t)
  {
    FileMeta(number, size, Key(t[0]), Key(t[|t| - 1]))
  }

  lemma MetaValid(number: u64, size: u64, t: seq<Entry>)
    requires t != [] && Sorted(t) && number != 0 && size != 0
    ensures ValidFile(TableMeta(number, size, t))
  {
    var a, b := t[0], t[|t| - 1];
    LessIrreflexive(a.user);
    if |t| > 1 {
      assert Before(t[0], t[|t| - 1]);
      KeyLessTotal(Key(a), Key(b));
    }
  }

  /** Output `i` gets number `first + i`. */
  function OutputFiles(outputs: seq<seq<Entry>>, first: u64, sizes: seq<u64>): (files: Level)
    requires |sizes| == |outputs| && first + |outputs| <= U64_MAX
    requires forall i | 0 <= i < |outputs| :: outputs[i] != []
  {
    seq(|outputs|, i requires 0 <= i < |outputs| => TableMeta(first + i, sizes[i], outputs[i]))
  }

  function WithOutputs(disk: Disk, outputs: seq<seq<Entry>>, first: u64): Disk
    requires first + |outputs| <= U64_MAX
  {
    if outputs == [] then disk else
      var n := |outputs| - 1;
      WithOutputs(disk, outputs[..n], first)[first + n := outputs[n]]
  }

  lemma {:induction false} WithOutputsAt(disk: Disk, outputs: seq<seq<Entry>>, first: u64, number: u64)
    requires first + |outputs| <= U64_MAX
    ensures number in WithOutputs(disk, outputs, first) <==> number in disk || first <= number < first + |outputs|
    ensures first <= number < first + |outputs| ==> WithOutputs(disk, outputs, first)[number] == outputs[number - first]
    ensures number < first && number in disk ==> WithOutputs(disk, outputs, first)[number] == disk[number]
  {
    if outputs != [] {
      WithOutputsAt(disk, outputs[..|outputs| - 1], first, number);
    }
  }

  function CompactionEdit(p: Plan, files: Level, next: u64): VersionEdit {
    var output: nat := p.inputLevel + 1;
    VersionEdit(
      seq(|files|, i requires 0 <= i < |files| => (output, files[i])),
      seq(|PlanFiles(p)|, i requires 0 <= i < |PlanFiles(p)| => (LevelOf(p, i), PlanFiles(p)[i].number)),
      Some(next), None, None, None, None)
  }

  lemma EditDeletes(v: Version, p: Plan, files: Level, next: u64, l: nat, f: FileMeta)
    requires Closed(v, p) && UniqueNumbers(v) && HasFile(v, l, f)
    ensures (l, f.number) in CompactionEdit(p, files, next).deleted <==> Chosen(p, l, f)
  {
    var deleted := CompactionEdit(p, files, next).deleted;
    if (l, f.number) in deleted {
      var i :| 0 <= i < |deleted| && deleted[i] == (l, f.number);
      PlanFileAt(v, p, i);
      assert HasFile(v, l, PlanFiles(p)[i]);
    }
    if Chosen(p, l, f) {
      var i: nat;
      if l == p.inputLevel {
        i :| 0 <= i < |p.inputs| && p.inputs[i] == f;
      } else {
        var j :| 0 <= j < |p.overlaps| && p.overlaps[j] == f;
        i := |p.inputs| + j;
      }
      assert deleted[i] == (l, f.number);
    }
  }

  lemma EditAdds(p: Plan, files: Level, next: u64, l: nat, f: FileMeta)
    ensures (l, f) in CompactionEdit(p, files, next).added <==> l == p.inputLevel + 1 && f in files
  {
    var added := CompactionEdit(p, files, next).added;
    if l == p.inputLevel + 1 && f in files {
      var i :| 0 <= i < |files| && files[i] == f;
      assert added[i] == (l, f);
    }
  }

  lemma DeletesLiveFiles(v: Version, p: Plan, files: Level, next: u64)
    requires Closed(v, p) && UniqueNumbers(v)
    ensures DeletesLive(v, CompactionEdit(p, files, next).deleted)
  {
    var deleted := CompactionEdit(p, files, next).deleted;
    forall i | 0 <= i < |deleted| ensures NamesLive(v, deleted[i]) {
      PlanFileAt(v, p, i);
      assert Names(PlanFiles(p)[i], deleted[i].1);
    }
    forall i, j | 0 <= i < j < |deleted| ensures deleted[i] != deleted[j] {
      PlanFileAt(v, p, i);
      PlanFileAt(v, p, j);
      PlanFilesDistinct(v, p, i, j);
    }
  }

  /** Every live file has a number below the counter. */
  ghost predicate NumbersBelow(v: Version, next: u64) {
    next >= 1 && forall l: nat, f | HasFile(v, l, f) :: f.number < next
  }

  /** The version before, the plan and the outputs of one compaction. */
  ghost predicate Ready(v: Version, disk: Disk, p: Plan, outputs: seq<seq<Entry>>, first: u64, sizes: seq<u64>) {
    && Closed(v, p) && Layered(v, disk) && GoodOutputs(disk, p, outputs)
    && NumbersBelow(v, first) && first + |outputs| <= U64_MAX
    && |sizes| == |outputs| && (forall i | 0 <= i < |sizes| :: sizes[i] != 0)
  }

  lemma OutputsApart(v: Version, disk: Disk, p: Plan, outputs: seq<seq<Entry>>, first: u64, sizes: seq<u64>, i: nat,
                     j: nat)
    requires Ready(v, disk, p, outputs, first, sizes) && i < j < |outputs|
    ensures var files := OutputFiles(outputs, first, sizes); RangeBefore(files[i], files[j])
  {
    var a, b := outputs[i], outputs[j];
    assert KeysPrecede(a, b);
    assert UserBefore(a[|a| - 1], b[0]);
  }

  lemma OutputAwayFrom(v: Version, disk: Disk, p: Plan, outputs: seq<seq<Entry>>, first: u64, sizes: seq<u64>,
                       i: nat, g: FileMeta)
    requires Ready(v, disk, p, outputs, first, sizes) && i < |outputs|
    requires HasFile(v, p.inputLevel + 1, g) && !Chosen(p, p.inputLevel + 1, g)
    ensures Apart(OutputFiles(outputs, first, sizes)[i], g)
  {
    var f := OutputFiles(outputs, first, sizes)[i];
    var r := PlanRange(p);
    var t := outputs[i];
    DescendsInRange(v, disk, p, t[0]);
    DescendsInRange(v, disk, p, t[|t| - 1]);
    assert !Meets(g, r);
    LessTotal(g.smallest.user, r.hi);
    LessTotal(r.lo, g.largest.user);
    if Less(r.hi, g.smallest.user) {
      LessEqLess(f.largest.user, r.hi, g.smallest.user);
    } else {
      LessLessEq(g.largest.user, r.lo, f.smallest.user);
    }
  }

  lemma LessEqLess(a: bytes, b: bytes, c: bytes)
    requires LessEq(a, b) && Less(b, c)
    ensures Less(a, c)
  {
    if a != b {
      LessTransitive(a, b, c);
    }
  }

  lemma LessLessEq(a: bytes, b: bytes, c: bytes)
    requires Less(a, b) && LessEq(b, c)
    ensures Less(a, c)
  {
    if b != c {
      LessTransitive(a, b, c);
    }
  }

  /** The edit of every compaction run is accepted, so levels one and deeper stay disjoint. */
  lemma InstallAccepted(v: Version, disk: Disk, p: Plan, outputs: seq<seq<Entry>>, first: u64, sizes: seq<u64>)
    requires Ready(v, disk, p, outputs, first, sizes)
    ensures Applied(v, CompactionEdit(p, OutputFiles(outputs, first, sizes), first + |outputs|)).Ok?
  {
    var files := OutputFiles(outputs, first, sizes);
    var edit := CompactionEdit(p, files, first + |outputs|);
    OutputsValid(v, disk, p, outputs, first, sizes);
    DeletesLiveFiles(v, p, files, first + |outputs|);
    forall a, l: nat, f | a in edit.added && HasFile(v, l, f) ensures f.number != a.1.number {
      var i :| 0 <= i < |files| && edit.added[i] == a;
    }
    InstallKeepsApart(v, disk, p, outputs, first, sizes);
    EditAccepted(v, edit);
  }

  lemma OutputsValid(v: Version, disk: Disk, p: Plan, outputs: seq<seq<Entry>>, first: u64, sizes: seq<u64>)
    requires Ready(v, disk, p, outputs, first, sizes)
    ensures forall f | f in OutputFiles(outputs, first, sizes) :: ValidFile(f)
    ensures var edit := CompactionEdit(p, OutputFiles(outputs, first, sizes), first + |outputs|);
            forall l: nat, f :: (l, f) in edit.added ==> ValidFile(f)
  {
    var files := OutputFiles(outputs, first, sizes);
    forall f | f in files ensures ValidFile(f) {
      var i :| 0 <= i < |files| && files[i] == f;
      MetaValid(first + i, sizes[i], outputs[i]);
    }
    forall l: nat, f | (l, f) in CompactionEdit(p, files, first + |outputs|).added ensures ValidFile(f) {
      EditAdds(p, files, first + |outputs|, l, f);
    }
  }

  lemma InstallKeepsApart(v: Version, disk: Disk, p: Plan, outputs: seq<seq<Entry>>, first: u64, sizes: seq<u64>)
    requires Ready(v, disk, p, outputs, first, sizes)
    ensures KeepsApart(v, CompactionEdit(p, OutputFiles(outputs, first, sizes), first + |outputs|))
  {
    var files := OutputFiles(outputs, first, sizes);
    var next := first + |outputs|;
    var edit := CompactionEdit(p, files, next);
    forall l: nat, f, g | l >= 1 && Survives(v, edit, l, f) && Survives(v, edit, l, g) && f != g
      ensures Apart(f, g)
    {
      EditAdds(p, files, next, l, f);
      EditAdds(p, files, next, l, g);
      if l == p.inputLevel + 1 && f in files {
        NewAgainst(v, disk, p, outputs, first, sizes, f, g);
      } else if l == p.inputLevel + 1 && g in files {
        NewAgainst(v, disk, p, outputs, first, sizes, g, f);
      } else {
        ApartMembers(v[l]);
      }
    }
  }

  lemma NewAgainst(v: Version, disk: Disk, p: Plan, outputs: seq<seq<Entry>>, first: u64, sizes: seq<u64>,
                   f: FileMeta, g: FileMeta)
    requires Ready(v, disk, p, outputs, first, sizes)
    requires f in OutputFiles(outputs, first, sizes) && f != g
    requires Survives(v, CompactionEdit(p, OutputFiles(outputs, first, sizes), first + |outputs|), p.inputLevel + 1, g)
    ensures Apart(f, g)
  {
    var files := OutputFiles(outputs, first, sizes);
    var next := first + |outputs|;
    EditAdds(p, files, next, p.inputLevel + 1, g);
    var i :| 0 <= i < |files| && files[i] == f;
    if g in files {
      var j :| 0 <= j < |files| && files[j] == g;
      if i < j {
        OutputsApart(v, disk, p, outputs, first, sizes, i, j);
      } else {
        OutputsApart(v, disk, p, outputs, first, sizes, j, i);
      }
    } else {
      EditDeletes(v, p, files, next, p.inputLevel + 1, g);
      OutputAwayFrom(v, disk, p, outputs, first, sizes, i, g);
    }
  }

  // ----- After the edit -----

  /** The plan's files left, the outputs arrived and nothing else changed. */
  ghost predicate Installed(v: Version, p: Plan, files: Level, w: Version) {
    forall l: nat, f :: HasFile(w, l, f) <==>
      (HasFile(v, l, f) && !Chosen(p, l, f)) || (l == p.inputLevel + 1 && f in files)
  }

  lemma InstallMeaning(v: Version, disk: Disk, p: Plan, outputs: seq<seq<Entry>>, first: u64, sizes: seq<u64>)
    requires Ready(v, disk, p, outputs, first, sizes)
    ensures var files := OutputFiles(outputs, first, sizes);
            var r := Applied(v, CompactionEdit(p, files, first + |outputs|));
            r.Ok? && WellFormed(r.value) && Installed(v, p, files, r.value)
  {
    var files := OutputFiles(outputs, first, sizes);
    var edit := CompactionEdit(p, files, first + |outputs|);
    InstallAccepted(v, disk, p, outputs, first, sizes);
    OutputsValid(v, disk, p, outputs, first, sizes);
    AppliedMeaning(v, edit);
    var w := Applied(v, edit).value;
    forall l: nat, f ensures HasFile(w, l, f) <==>
      (HasFile(v, l, f) && !Chosen(p, l, f)) || (l == p.inputLevel + 1 && f in files)
    {
      EditAdds(p, files, first + |outputs|, l, f);
      if HasFile(v, l, f) {
        EditDeletes(v, p, files, first + |outputs|, l, f);
      }
    }
  }

  lemma OldTable(v: Version, disk: Disk, outputs: seq<seq<Entry>>, first: u64, l: nat, f: FileMeta)
    requires NumbersBelow(v, first) && first + |outputs| <= U64_MAX && HasFile(v, l, f)
    ensures Table(WithOutputs(disk, outputs, first), f) == Table(disk, f)
  {
    WithOutputsAt(disk, outputs, first, f.number);
  }

  /** Where a version found after the edit was before it. */
  lemma Came(v: Version, disk: Disk, p: Plan, outputs: seq<seq<Entry>>, first: u64, sizes: seq<u64>, w: Version,
             l: nat, f: FileMeta, e: Entry)
    requires Ready(v, disk, p, outputs, first, sizes) && Installed(v, p, OutputFiles(outputs, first, sizes), w)
    requires OnDisk(w, WithOutputs(disk, outputs, first), l, f, e)
    ensures LeftAlone(v, disk, p, l, f, e) ||
            (l == p.inputLevel + 1 && Descends(disk, p, e) && exists i :: 0 <= i < |outputs| && e in outputs[i])
  {
    var files := OutputFiles(outputs, first, sizes);
    if f in files {
      var i :| 0 <= i < |files| && files[i] == f;
      WithOutputsAt(disk, outputs, first, f.number);
    } else {
      OldTable(v, disk, outputs, first, l, f);
    }
  }

  lemma InstallStored(v: Version, disk: Disk, p: Plan, outputs: seq<seq<Entry>>, first: u64, sizes: seq<u64>,
                      w: Version)
    requires Ready(v, disk, p, outputs, first, sizes) && Installed(v, p, OutputFiles(outputs, first, sizes), w)
    ensures AllStored(w, WithOutputs(disk, outputs, first))
    ensures NumbersBelow(w, first + |outputs|)
  {
    var files := OutputFiles(outputs, first, sizes);
    var disk' := WithOutputs(disk, outputs, first);
    forall l: nat, f | HasFile(w, l, f)
      ensures f.number in disk' && Describes(f, disk'[f.number]) && f.number < first + |outputs|
    {
      WithOutputsAt(disk, outputs, first, f.number);
      if f in files {
        var i :| 0 <= i < |files| && files[i] == f;
      }
    }
  }

  /** Pairs of versions at different levels after the edit. */
  lemma InstallNewer(v: Version, disk: Disk, p: Plan, outputs: seq<seq<Entry>>, first: u64, sizes: seq<u64>, w: Version,
                     l: nat, f: FileMeta, e: Entry, m: nat, g: FileMeta, x: Entry)
    requires Ready(v, disk, p, outputs, first, sizes) && Installed(v, p, OutputFiles(outputs, first, sizes), w)
    requires OnDisk(w, WithOutputs(disk, outputs, first), l, f, e)
    requires OnDisk(w, WithOutputs(disk, outputs, first), m, g, x)
    requires l < m && e.user == x.user
    ensures e.seqno > x.seqno
  {
    Came(v, disk, p, outputs, first, sizes, w, l, f, e);
    Came(v, disk, p, outputs, first, sizes, w, m, g, x);
    if LeftAlone(v, disk, p, l, f, e) && LeftAlone(v, disk, p, m, g, x) {
      assert e in LevelEntries(v, disk, l) && x in LevelEntries(v, disk, m);
      assert NewerThan(LevelEntries(v, disk, l), LevelEntries(v, disk, m));
    } else if LeftAlone(v, disk, p, l, f, e) {
      var o, h, k := Ancestor(v, disk, p, x);
      OutsideAgainst(v, disk, p, l, f, e, k, h, o);
    } else {
      assert LeftAlone(v, disk, p, m, g, x);
      var o, h, k := Ancestor(v, disk, p, e);
      OutsideAgainst(v, disk, p, m, g, x, k, h, o);
    }
  }

  lemma Ancestor(v: Version, disk: Disk, p: Plan, e: Entry) returns (o: Entry, f: FileMeta, l: nat)
    requires Closed(v, p) && Descends(disk, p, e)
    ensures FromPlan(disk, p, l, f, o) && o.user == e.user && o.seqno == e.seqno
  {
    o :| o in Merged(disk, p) && o.user == e.user && o.seqno == e.seqno;
    MergedMember(v, disk, p, o);
    l, f :| FromPlan(disk, p, l, f, o);
  }

  lemma InstallOrdered(v: Version, disk: Disk, p: Plan, outputs: seq<seq<Entry>>, first: u64, sizes: seq<u64>,
                       w: Version)
    requires Ready(v, disk, p, outputs, first, sizes) && Installed(v, p, OutputFiles(outputs, first, sizes), w)
    ensures DiskOrdered(w, WithOutputs(disk, outputs, first))
  {
    var disk' := WithOutputs(disk, outputs, first);
    forall f, g | f in w[0] && g in w[0] && f.number > g.number
      ensures NewerThan(Entries(Table(disk', f)), Entries(Table(disk', g)))
    {
      assert HasFile(w, 0, f) && HasFile(w, 0, g);
      OldTable(v, disk, outputs, first, 0, f);
      OldTable(v, disk, outputs, first, 0, g);
    }
    forall l, m | 0 <= l < m < NUM_LEVELS ensures NewerThan(LevelEntries(w, disk', l), LevelEntries(w, disk', m)) {
      forall e, x | e in LevelEntries(w, disk', l) && x in LevelEntries(w, disk', m) && e.user == x.user
        ensures e.seqno > x.seqno
      {
        var f :| f in w[l] && e in Table(disk', f);
        var g :| g in w[m] && x in Table(disk', g);
        InstallNewer(v, disk, p, outputs, first, sizes, w, l, f, e, m, g, x);
      }
    }
  }

  /** After the edit the disk holds the untouched versions and the outputs. */
  lemma InstallEntries(v: Version, disk: Disk, p: Plan, outputs: seq<seq<Entry>>, first: u64, sizes: seq<u64>,
                       w: Version)
    requires Ready(v, disk, p, outputs, first, sizes) && Installed(v, p, OutputFiles(outputs, first, sizes), w)
    ensures DiskEntries(w, WithOutputs(disk, outputs, first)) == Outside(v, disk, p) + Entries(Flatten(outputs))
  {
    var disk' := WithOutputs(disk, outputs, first);
    forall e ensures e in DiskEntries(w, disk') <==> e in Outside(v, disk, p) || e in Flatten(outputs) {
      InstallEntry(v, disk, p, outputs, first, sizes, w, e);
    }
  }

  lemma InstallEntry(v: Version, disk: Disk, p: Plan, outputs: seq<seq<Entry>>, first: u64, sizes: seq<u64>, w: Version,
                     e: Entry)
    requires Ready(v, disk, p, outputs, first, sizes) && Installed(v, p, OutputFiles(outputs, first, sizes), w)
    ensures e in DiskEntries(w, WithOutputs(disk, outputs, first)) <==>
              e in Outside(v, disk, p) || e in Flatten(outputs)
  {
    var disk' := WithOutputs(disk, outputs, first);
    DiskMember(w, disk', e);
    OutsideMember(v, disk, p, e);
    FlattenMember(outputs, e);
    if l: nat, f :| OnDisk(w, disk', l, f, e) {
      Came(v, disk, p, outputs, first, sizes, w, l, f, e);
    }
    if l: nat, f :| LeftAlone(v, disk, p, l, f, e) {
      OldTable(v, disk, outputs, first, l, f);
      assert OnDisk(w, disk', l, f, e);
    }
    if i :| 0 <= i < |outputs| && e in outputs[i] {
      OutputOnDisk(v, disk, p, outputs, first, sizes, w, e, i);
    }
  }

  lemma OutputOnDisk(v: Version, disk: Disk, p: Plan, outputs: seq<seq<Entry>>, first: u64, sizes: seq<u64>, w: Version,
                     e: Entry, i: nat)
    requires Ready(v, disk, p, outputs, first, sizes) && Installed(v, p, OutputFiles(outputs, first, sizes), w)
    requires i < |outputs| && e in outputs[i]
    ensures exists l: nat, f :: OnDisk(w, WithOutputs(disk, outputs, first), l, f, e)
  {
    var f := OutputFiles(outputs, first, sizes)[i];
    WithOutputsAt(disk, outputs, first, f.number);
    assert HasFile(w, p.inputLevel + 1, f);
    assert OnDisk(w, WithOutputs(disk, outputs, first), p.inputLevel + 1, f, e);
  }
}
