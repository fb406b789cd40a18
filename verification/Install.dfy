/** Installing a compaction: the edit is accepted, the layers stay ordered and no served read changes. */
module Install {
  import opened Bytes
  import opened Mvcc
  import opened Iterators
  import opened Compactions
  import opened Versions
  import opened Plans
  import opened Layouts

  /** Live files are stored as described and the layers are ordered. */
  ghost predicate Layered(v: Version, disk: Disk) {
    WellFormed(v) && AllStored(v, disk) && DiskOrdered(v, disk)
  }

  predicate Chosen(p: Plan, l: nat, f: FileMeta) {
    (l == p.inputLevel && f in p.inputs) || (l == p.inputLevel + 1 && f in p.overlaps)
  }

  predicate InRange(r: Range, user: bytes) {
    LessEq(r.lo, user) && LessEq(user, r.hi)
  }

  ghost function PlanRange(p: Plan): Range
    requires p.inputs != []
  {
    UserRange(p.inputs + p.overlaps)
  }

  lemma ChosenLive(v: Version, p: Plan, l: nat, f: FileMeta)
    requires Closed(v, p) && Chosen(p, l, f)
    ensures HasFile(v, l, f)
  {
  }

  /** Every version the plan rewrites lies in the plan's range. */
  lemma ChosenInRange(v: Version, disk: Disk, p: Plan, l: nat, f: FileMeta, e: Entry)
    requires Closed(v, p) && AllStored(v, disk) && Chosen(p, l, f) && e in Table(disk, f)
    ensures InRange(PlanRange(p), e.user)
  {
    ChosenLive(v, p, l, f);
    var r := PlanRange(p);
    assert f in p.inputs + p.overlaps;
    UserRangeMeaning(p.inputs + p.overlaps, r);
    DescribedRange(f, disk[f.number], e);
    LessEqTransitive(r.lo, f.smallest.user, e.user);
    LessEqTransitive(e.user, f.largest.user, r.hi);
  }

  /** A file of the two levels left out of the plan holds no key in the plan's range. */
  lemma UnchosenAway(v: Version, disk: Disk, p: Plan, l: nat, g: FileMeta, x: Entry)
    requires Closed(v, p) && AllStored(v, disk) && HasFile(v, l, g) && !Chosen(p, l, g) && x in Table(disk, g)
    requires p.inputLevel <= l <= p.inputLevel + 1
    ensures !InRange(PlanRange(p), x.user)
  {
    var r := PlanRange(p);
    DescribedRange(g, disk[g.number], x);
    if InRange(r, x.user) {
      LessEqTransitive(g.smallest.user, x.user, r.hi);
      LessEqTransitive(r.lo, x.user, g.largest.user);
      assert Meets(g, r);
    }
  }

  // ----- The merged input -----

  function Tables(disk: Disk, files: Level): seq<Run> {
    seq(|files|, i requires 0 <= i < |files| => Table(disk, files[i]))
  }

  function PlanFiles(p: Plan): Level {
    p.inputs + p.overlaps
  }

  function LevelOf(p: Plan, i: nat): nat {
    if i < |p.inputs| then p.inputLevel else p.inputLevel + 1
  }

  function Merged(disk: Disk, p: Plan): seq<Entry> {
    Merge(Tables(disk, PlanFiles(p)))
  }

  lemma PlanFileAt(v: Version, p: Plan, i: nat)
    requires Closed(v, p) && i < |PlanFiles(p)|
    ensures Chosen(p, LevelOf(p, i), PlanFiles(p)[i]) && HasFile(v, LevelOf(p, i), PlanFiles(p)[i])
  {
    ChosenLive(v, p, LevelOf(p, i), PlanFiles(p)[i]);
  }

  lemma PlanFilesDistinct(v: Version, p: Plan, i: nat, j: nat)
    requires Closed(v, p) && i < j < |PlanFiles(p)|
    ensures LevelOf(p, i) != LevelOf(p, j) || PlanFiles(p)[i] != PlanFiles(p)[j]
  {
    if j < |p.inputs| {
      assert PlanFiles(p)[i] == p.inputs[i] && PlanFiles(p)[j] == p.inputs[j];
    } else if i >= |p.inputs| {
      assert PlanFiles(p)[i] == p.overlaps[i - |p.inputs|] && PlanFiles(p)[j] == p.overlaps[j - |p.inputs|];
    }
  }

  lemma MergedSorted(v: Version, disk: Disk, p: Plan)
    requires Closed(v, p) && Layered(v, disk)
    ensures Sorted(Merged(disk, p))
  {
    var cs := Tables(disk, PlanFiles(p));
    forall i | 0 <= i < |cs| ensures Sorted(cs[i]) {
      PlanFileAt(v, p, i);
    }
    forall i, j, e: Entry, x: Entry | 0 <= i < j < |cs| && e in cs[i] && x in cs[j]
      ensures !(e.user == x.user && e.seqno == x.seqno)
    {
      PlanFileAt(v, p, i);
      PlanFileAt(v, p, j);
      PlanFilesDistinct(v, p, i, j);
      FilesDisjoint(v, disk, LevelOf(p, i), PlanFiles(p)[i], e, LevelOf(p, j), PlanFiles(p)[j], x);
    }
    MergeSorted(cs);
  }

  predicate FromPlan(disk: Disk, p: Plan, l: nat, f: FileMeta, e: Entry) {
    Chosen(p, l, f) && e in Table(disk, f)
  }

  lemma MergedMember(v: Version, disk: Disk, p: Plan, e: Entry)
    requires Closed(v, p)
    ensures e in Merged(disk, p) <==> exists l: nat, f :: FromPlan(disk, p, l, f, e)
  {
    var cs := Tables(disk, PlanFiles(p));
    MergeMembers(cs, e);
    if i :| 0 <= i < |cs| && e in cs[i] {
      PlanFileAt(v, p, i);
      assert FromPlan(disk, p, LevelOf(p, i), PlanFiles(p)[i], e);
    }
    if l: nat, f :| FromPlan(disk, p, l, f, e) {
      assert f in PlanFiles(p);
      var i :| 0 <= i < |PlanFiles(p)| && PlanFiles(p)[i] == f;
      assert e in cs[i];
    }
  }

  // ----- Around the run -----

  predicate LeftAlone(v: Version, disk: Disk, p: Plan, l: nat, f: FileMeta, e: Entry) {
    OnDisk(v, disk, l, f, e) && !Chosen(p, l, f)
  }

  /** Versions on disk that the plan does not touch. */
  ghost function Outside(v: Version, disk: Disk, p: Plan): set<Entry> {
    set e | e in DiskEntries(v, disk) && exists l: nat, f :: LeftAlone(v, disk, p, l, f, e)
  }

  lemma OutsideMember(v: Version, disk: Disk, p: Plan, e: Entry)
    ensures e in Outside(v, disk, p) <==> exists l: nat, f :: LeftAlone(v, disk, p, l, f, e)
  {
    DiskMember(v, disk, e);
  }

  lemma DiskSplit(v: Version, disk: Disk, p: Plan)
    requires Closed(v, p)
    ensures DiskEntries(v, disk) == Outside(v, disk, p) + Entries(Merged(disk, p))
  {
    forall e ensures e in DiskEntries(v, disk) <==> e in Outside(v, disk, p) || e in Merged(disk, p) {
      DiskMember(v, disk, e);
      OutsideMember(v, disk, p, e);
      MergedMember(v, disk, p, e);
      PlanOrNot(v, disk, p, e);
    }
  }

  lemma PlanOrNot(v: Version, disk: Disk, p: Plan, e: Entry)
    requires Closed(v, p)
    ensures (exists l: nat, f :: OnDisk(v, disk, l, f, e)) <==>
              || (exists l: nat, f :: LeftAlone(v, disk, p, l, f, e))
              || (exists l: nat, f :: FromPlan(disk, p, l, f, e))
  {
    if l: nat, f :| OnDisk(v, disk, l, f, e) {
      assert LeftAlone(v, disk, p, l, f, e) || FromPlan(disk, p, l, f, e);
    }
    if l: nat, f :| LeftAlone(v, disk, p, l, f, e) {
      assert OnDisk(v, disk, l, f, e);
    }
    if l: nat, f :| FromPlan(disk, p, l, f, e) {
      ChosenLive(v, p, l, f);
      assert OnDisk(v, disk, l, f, e);
    }
  }

  /** The key lies in the range of some file below the output level. */
  predicate MayExistBelow(v: Version, output: nat, user: bytes) {
    exists l, i | output < l < NUM_LEVELS && 0 <= i < |v[l]| :: Covers(v[l][i], user)
  }

  /** One version outside the plan against one inside it. */
  lemma OutsideAgainst(v: Version, disk: Disk, p: Plan, l: nat, f: FileMeta, x: Entry, m: nat, g: FileMeta, e: Entry)
    requires Closed(v, p) && Layered(v, disk)
    requires LeftAlone(v, disk, p, l, f, x) && FromPlan(disk, p, m, g, e) && x.user == e.user
    ensures l <= p.inputLevel + 1 ==> l < p.inputLevel && x.seqno > e.seqno
    ensures l > p.inputLevel + 1 ==> x.seqno < e.seqno
  {
    ChosenLive(v, p, m, g);
    assert x in LevelEntries(v, disk, l) && e in LevelEntries(v, disk, m);
    if p.inputLevel <= l <= p.inputLevel + 1 {
      UnchosenAway(v, disk, p, l, f, x);
      ChosenInRange(v, disk, p, m, g, e);
    } else if l < p.inputLevel {
      assert NewerThan(LevelEntries(v, disk, l), LevelEntries(v, disk, m));
    } else {
      assert NewerThan(LevelEntries(v, disk, m), LevelEntries(v, disk, l));
    }
  }

  lemma OutsideSandwiches(v: Version, disk: Disk, p: Plan, x: Entry)
    requires Closed(v, p) && Layered(v, disk) && x in Outside(v, disk, p)
    ensures var run := Entries(Merged(disk, p));
            Above(x, run) || (MayExistBelow(v, p.inputLevel + 1, x.user) && Beneath(x, run))
  {
    OutsideMember(v, disk, p, x);
    var l: nat, f :| LeftAlone(v, disk, p, l, f, x);
    forall e | e in Merged(disk, p) && e.user == x.user
      ensures if l <= p.inputLevel + 1 then x.seqno > e.seqno else x.seqno < e.seqno
    {
      MergedMember(v, disk, p, e);
      var m: nat, g :| FromPlan(disk, p, m, g, e);
      OutsideAgainst(v, disk, p, l, f, x, m, g, e);
    }
    if l > p.inputLevel + 1 {
      DescribedRange(f, disk[f.number], x);
      var i :| 0 <= i < |v[l]| && v[l][i] == f;
      assert Covers(v[l][i], x.user);
    }
  }

  /** No served read changes when the merged input is replaced by what retention keeps. */
  lemma CompactionPreservesReads(mem: set<Entry>, v: Version, disk: Disk, p: Plan, oldest: Option<u64>,
                                 below: bytes -> bool, ran: u64, user: bytes, at: u64, now: u64)
    requires Closed(v, p) && Layered(v, disk)
    requires Functional(mem) && NewerThan(mem, DiskEntries(v, disk))
    requires forall k :: below(k) == MayExistBelow(v, p.inputLevel + 1, k)
    requires ServedBy(at, oldest, Entries(Merged(disk, p))) && now >= ran
    ensures Read(mem + DiskEntries(v, disk), user, at, now) ==
            Read(mem + Outside(v, disk, p) + Entries(RetainAll(Merged(disk, p), oldest, below, ran)), user, at, now)
  {
    var run := Merged(disk, p);
    var outside := mem + Outside(v, disk, p);
    MergedSorted(v, disk, p);
    DiskSplit(v, disk, p);
    DiskFunctional(v, disk);
    assert Functional(outside);
    forall x | x in outside ensures Above(x, Entries(run)) || (below(x.user) && Beneath(x, Entries(run))) {
      if x in Outside(v, disk, p) {
        OutsideSandwiches(v, disk, p, x);
      }
    }
    assert mem + DiskEntries(v, disk) == outside + Entries(run);
    RunPreservesReads(outside, run, oldest, below, ran, user, at, now);
  }
}
