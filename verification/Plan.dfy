/** Choosing the files of a leveled compaction. */
module Plans {
  import opened Bytes
  import opened Versions

  datatype Plan = Plan(inputLevel: nat, inputs: Level, overlaps: Level)

  datatype Range = Range(lo: bytes, hi: bytes)

  /** The file meets the user-key range. */
  predicate Meets(f: FileMeta, r: Range) {
    LessEq(f.smallest.user, r.hi) && LessEq(r.lo, f.largest.user)
  }

  predicate Within(f: FileMeta, r: Range) {
    LessEq(r.lo, f.smallest.user) && LessEq(f.largest.user, r.hi)
  }

  predicate Inside(inner: Range, outer: Range) {
    LessEq(outer.lo, inner.lo) && LessEq(inner.hi, outer.hi)
  }

  // ----- The smallest range holding a list of files -----

  function Min(a: bytes, b: bytes): bytes { if Less(a, b) then a else b }
  function Max(a: bytes, b: bytes): bytes { if Less(b, a) then a else b }

  function UserRange(files: Level): Range
    requires files != []
  {
    var f := files[|files| - 1];
    if |files| == 1 then Range(f.smallest.user, f.largest.user) else
      var r := UserRange(files[..|files| - 1]);
      Range(Min(f.smallest.user, r.lo), Max(f.largest.user, r.hi))
  }

  method ComputeUserRange(files: Level) returns (r: Range)
    requires files != []
    ensures r == UserRange(files)
  {
    r := Range(files[0].smallest.user, files[0].largest.user);
    for i := 1 to |files|
      invariant r == UserRange(files[..i])
    {
      var f := files[i];
      DropDrop(files, i, i + 1);
      if Less(f.smallest.user, r.lo) {
        r := r.(lo := f.smallest.user);
      }
      if Less(r.hi, f.largest.user) {
        r := r.(hi := f.largest.user);
      }
    }
    TakeDrop(files, |files|);
  }

  lemma MinMax(a: bytes, b: bytes)
    ensures LessEq(Min(a, b), a) && LessEq(Min(a, b), b)
    ensures LessEq(a, Max(a, b)) && LessEq(b, Max(a, b))
  {
    LessTotal(a, b);
  }

  /** The range holds every file and is the smallest such range. */
  lemma {:induction false} UserRangeMeaning(files: Level, r: Range)
    requires files != []
    ensures forall f | f in files :: Within(f, UserRange(files))
    ensures (forall f | f in files :: Within(f, r)) ==> Inside(UserRange(files), r)
  {
    var n := |files| - 1;
    var f := files[n];
    assert f in files;
    if n > 0 {
      var init := files[..n];
      var s := UserRange(init);
      UserRangeMeaning(init, r);
      MinMax(f.smallest.user, s.lo);
      MinMax(f.largest.user, s.hi);
      assert forall g | g in init :: g in files;
      forall g | g in files ensures Within(g, UserRange(files)) {
        if g != f {
          assert g in init;
          LessEqTransitive(UserRange(files).lo, s.lo, g.smallest.user);
          LessEqTransitive(g.largest.user, s.hi, UserRange(files).hi);
        }
      }
    } else {
      assert files == [f];
    }
  }

  lemma LessEqTransitive(a: bytes, b: bytes, c: bytes)
    requires LessEq(a, b) && LessEq(b, c)
    ensures LessEq(a, c)
  {
    if a != b && b != c {
      LessTransitive(a, b, c);
    }
  }

  // ----- Files meeting a range -----

  function Meeting(files: Level, r: Range): Level {
    if files == [] then [] else
      (if Meets(files[0], r) then [files[0]] else []) + Meeting(files[1..], r)
  }

  lemma {:induction false} MeetingMembers(files: Level, r: Range, f: FileMeta)
    ensures f in Meeting(files, r) <==> f in files && Meets(f, r)
  {
    if files != [] {
      MeetingMembers(files[1..], r, f);
      assert files == [files[0]] + files[1..];
    }
  }

  /** A wider range selects more files, or the same ones. */
  lemma {:induction false} MeetingGrows(files: Level, r: Range, s: Range)
    requires Inside(r, s)
    ensures |Meeting(files, r)| <= |Meeting(files, s)| <= |files|
    ensures |Meeting(files, r)| == |Meeting(files, s)| ==> Meeting(files, r) == Meeting(files, s)
  {
    if files != [] {
      MeetingGrows(files[1..], r, s);
      if Meets(files[0], r) {
        LessEqTransitive(files[0].smallest.user, r.hi, s.hi);
        LessEqTransitive(s.lo, r.lo, files[0].largest.user);
      }
    }
  }

  lemma {:induction false} MeetingBound(files: Level, r: Range)
    ensures |Meeting(files, r)| <= |files|
  {
    if files != [] {
      MeetingBound(files[1..], r);
    }
  }

  lemma {:induction false} MeetingDistinct(files: Level, r: Range)
    requires Distinct(files)
    ensures Distinct(Meeting(files, r))
  {
    if files != [] {
      MeetingDistinct(files[1..], r);
      MeetingMembers(files[1..], r, files[0]);
    }
  }

  lemma WithinMeets(f: FileMeta, r: Range)
    requires ValidFile(f) && Within(f, r)
    ensures Meets(f, r)
  {
    RangeLessEq(f);
    LessEqTransitive(f.smallest.user, f.largest.user, r.hi);
    LessEqTransitive(r.lo, f.smallest.user, f.largest.user);
  }

  // ----- The plan -----

  /** The initial input files: all of level zero, or the first file of a deeper level. */
  function Seed(v: Version, level: nat): Level
    requires level < NUM_LEVELS - 1
  {
    if level == 0 then v[0] else if v[level] == [] then [] else [v[level][0]]
  }

  /** No file left out of the plan meets the plan's range in the output level, nor in a deeper input level. */
  ghost predicate Closed(v: Version, p: Plan) {
    && p.inputLevel < NUM_LEVELS - 1 && p.inputs != []
    && Distinct(p.inputs) && Distinct(p.overlaps)
    && var r := UserRange(p.inputs + p.overlaps);
       && (forall f :: f in p.overlaps <==> f in v[p.inputLevel + 1] && Meets(f, r))
       && (p.inputLevel == 0 ==> p.inputs == v[0])
       && (p.inputLevel > 0 ==> forall f :: f in p.inputs <==> f in v[p.inputLevel] && Meets(f, r))
  }

  /** The next overlaps and inputs of the widening loop. */
  function NextOverlaps(v: Version, level: nat, inputs: Level, overlaps: Level): Level
    requires level < NUM_LEVELS - 1 && inputs != []
  {
    Meeting(v[level + 1], UserRange(inputs + overlaps))
  }

  function NextInputs(v: Version, level: nat, inputs: Level, overlaps: Level): Level
    requires level < NUM_LEVELS - 1 && inputs != []
  {
    if level == 0 then inputs
    else Meeting(v[level], UserRange(inputs + NextOverlaps(v, level, inputs, overlaps)))
  }

  /** Widens inputs and overlaps in turn until neither changes. */
  method MakePlan(v: Version, level: nat) returns (r: Option<Plan>)
    requires level < NUM_LEVELS - 1 && WellFormed(v)
    ensures r == None <==> v[level] == []
    ensures r.Some? ==> r.value.inputLevel == level && Closed(v, r.value)
    ensures r.Some? ==> forall f | f in Seed(v, level) :: f in r.value.inputs
  {
    var inputs := Seed(v, level);
    if inputs == [] {
      return None;
    }
    var overlaps: Level := [];
    UserRangeMeaning(inputs + overlaps, UserRange(inputs + overlaps));
    while true
      invariant Growing(v, level, inputs, overlaps)
      decreases |v[level]| + |v[level + 1]| - |inputs| - |overlaps|
    {
      var r := ComputeUserRange(inputs + overlaps);
      var nextOverlaps := Meeting(v[level + 1], r);
      var s := ComputeUserRange(inputs + nextOverlaps);
      var nextInputs := if level == 0 then inputs else Meeting(v[level], s);
      PlanStep(v, level, inputs, overlaps);
      if nextOverlaps == overlaps && nextInputs == inputs {
        break;
      }
      overlaps, inputs := nextOverlaps, nextInputs;
    }
    PlanClosed(v, level, inputs, overlaps);
    return Some(Plan(level, inputs, overlaps));
  }

  /** A selection that is still `initial`, or holds exactly the files meeting a range inside `r`. */
  ghost predicate Selected(files: Level, initial: Level, chosen: Level, r: Range) {
    && |chosen| <= |files|
    && (forall f | f in chosen :: f in files && Within(f, r))
    && (chosen == initial || exists s :: chosen == Meeting(files, s) && Inside(s, r))
  }

  /** What the loop keeps. */
  ghost predicate Growing(v: Version, level: nat, inputs: Level, overlaps: Level)
    requires level < NUM_LEVELS - 1
  {
    && inputs != []
    && (level == 0 ==> inputs == v[0])
    && (forall f | f in Seed(v, level) :: f in inputs)
    && Selected(v[level], Seed(v, level), inputs, UserRange(inputs + overlaps))
    && Selected(v[level + 1], [], overlaps, UserRange(inputs + overlaps))
  }

  /** Selecting by a wider range keeps the chosen files and strictly grows unless nothing changes. */
  lemma Reselect(files: Level, initial: Level, chosen: Level, r: Range, s: Range)
    requires Selected(files, initial, chosen, r) && Inside(r, s) && |initial| <= 1
    requires forall f | f in files :: ValidFile(f)
    ensures |chosen| <= |Meeting(files, s)| <= |files|
    ensures |chosen| == |Meeting(files, s)| ==> chosen == Meeting(files, s)
    ensures forall f | f in chosen :: f in Meeting(files, s)
  {
    MeetingBound(files, s);
    forall f | f in chosen ensures f in Meeting(files, s) {
      LessEqTransitive(s.lo, r.lo, f.smallest.user);
      LessEqTransitive(f.largest.user, r.hi, s.hi);
      WithinMeets(f, s);
      MeetingMembers(files, s, f);
    }
    if chosen == initial {
      if |chosen| == 1 {
        assert chosen[0] in Meeting(files, s);
      }
    } else {
      var q :| chosen == Meeting(files, q) && Inside(q, r);
      LessEqTransitive(s.lo, r.lo, q.lo);
      LessEqTransitive(q.hi, r.hi, s.hi);
      MeetingGrows(files, q, s);
    }
  }

  /** A list with more files spans a wider range. */
  lemma WiderRange(files: Level, more: Level)
    requires files != [] && more != [] && forall f | f in files :: f in more
    ensures Inside(UserRange(files), UserRange(more))
  {
    UserRangeMeaning(more, UserRange(more));
    UserRangeMeaning(files, UserRange(more));
  }

  lemma {:induction false} PlanStep(v: Version, level: nat, inputs: Level, overlaps: Level)
    requires level < NUM_LEVELS - 1 && Growing(v, level, inputs, overlaps)
    requires forall l: nat, f :: HasFile(v, l, f) ==> ValidFile(f)
    ensures var i, o := NextInputs(v, level, inputs, overlaps), NextOverlaps(v, level, inputs, overlaps);
            && Growing(v, level, i, o)
            && |inputs| <= |i| && |overlaps| <= |o|
            && (|inputs| == |i| ==> inputs == i)
            && (|overlaps| == |o| ==> overlaps == o)
  {
    var r := UserRange(inputs + overlaps);
    var o := NextOverlaps(v, level, inputs, overlaps);
    var s := UserRange(inputs + o);
    var i := NextInputs(v, level, inputs, overlaps);
    forall f | f in v[level] ensures ValidFile(f) {
      assert HasFile(v, level, f);
    }
    forall f | f in v[level + 1] ensures ValidFile(f) {
      assert HasFile(v, level + 1, f);
    }
    LessEqReflexive(r);
    Reselect(v[level + 1], [], overlaps, r, r);
    WiderRange(inputs + overlaps, inputs + o);
    if level > 0 {
      assert |Seed(v, level)| == 1;
      Reselect(v[level], Seed(v, level), inputs, r, s);
    }
    assert forall f | f in inputs :: f in i;
    WiderRange(inputs + o, i + o);
    WiderRange(inputs + overlaps, i + o);
    Reselected(v[level + 1], [], o, r, i + o);
    if level > 0 {
      Reselected(v[level], Seed(v, level), i, s, i + o);
    } else {
      UserRangeMeaning(i + o, r);
    }
  }

  lemma LessEqReflexive(r: Range)
    ensures Inside(r, r)
  {
  }

  lemma Reselected(files: Level, initial: Level, chosen: Level, r: Range, all: Level)
    requires chosen == Meeting(files, r) && all != [] && Inside(r, UserRange(all))
    requires forall f | f in chosen :: f in all
    ensures Selected(files, initial, chosen, UserRange(all))
  {
    MeetingBound(files, r);
    UserRangeMeaning(all, r);
    forall f | f in chosen ensures f in files {
      MeetingMembers(files, r, f);
    }
  }

  lemma PlanClosed(v: Version, level: nat, inputs: Level, overlaps: Level)
    requires WellFormed(v) && level < NUM_LEVELS - 1 && Growing(v, level, inputs, overlaps)
    requires NextInputs(v, level, inputs, overlaps) == inputs
    requires NextOverlaps(v, level, inputs, overlaps) == overlaps
    ensures Closed(v, Plan(level, inputs, overlaps))
  {
    var r := UserRange(inputs + overlaps);
    MeetingDistinct(v[level], r);
    MeetingDistinct(v[level + 1], r);
    forall f ensures f in overlaps <==> f in v[level + 1] && Meets(f, r) {
      MeetingMembers(v[level + 1], r, f);
    }
    if level > 0 {
      forall f ensures f in inputs <==> f in v[level] && Meets(f, r) {
        MeetingMembers(v[level], r, f);
      }
    }
  }

  // ----- Picking the level -----

  function TotalBytes(files: Level): nat {
    if files == [] then 0 else TotalBytes(files[..|files| - 1]) + files[|files| - 1].fileSize
  }

  /** A level's fullness as an exact ratio `load / target`. */
  function Load(v: Version, level: nat): nat
    requires level < NUM_LEVELS
  {
    if level == 0 then |v[0]| else TotalBytes(v[level])
  }

  function Target(level: nat, trigger: nat, base: nat): (t: nat)
    ensures t >= 1
  {
    if level == 0 then (if trigger < 1 then 1 else trigger) else (if base < 1 then 1 else base)
  }

  /** Level `a` is strictly fuller than level `b`. */
  predicate Fuller(v: Version, a: nat, b: nat, trigger: nat, base: nat)
    requires a < NUM_LEVELS && b < NUM_LEVELS
  {
    Load(v, a) * Target(b, trigger, base) > Load(v, b) * Target(a, trigger, base)
  }

  predicate Overfull(v: Version, level: nat, trigger: nat, base: nat)
    requires level < NUM_LEVELS
  {
    Load(v, level) > Target(level, trigger, base)
  }

  /** Returns a closed plan for a fullest overfull level, if any level is overfull. */
  method Pick(v: Version, trigger: nat, base: nat) returns (r: Option<Plan>)
    requires WellFormed(v)
    ensures r == None <==> forall l | 0 <= l < NUM_LEVELS - 1 :: !Overfull(v, l, trigger, base)
    ensures r.Some? ==> r.value.inputLevel < NUM_LEVELS - 1 && Closed(v, r.value)
    ensures r.Some? ==> Overfull(v, r.value.inputLevel, trigger, base)
    ensures r.Some? ==> forall l | 0 <= l < NUM_LEVELS - 1 :: !Fuller(v, l, r.value.inputLevel, trigger, base)
  {
    r := None;
    for level := 0 to NUM_LEVELS - 1
      invariant r == None <==> forall l | 0 <= l < level :: !Overfull(v, l, trigger, base)
      invariant r.Some? ==> r.value.inputLevel < level && Closed(v, r.value)
      invariant r.Some? ==> Overfull(v, r.value.inputLevel, trigger, base)
      invariant r.Some? ==> forall l | 0 <= l < level :: !Fuller(v, l, r.value.inputLevel, trigger, base)
    {
      if Overfull(v, level, trigger, base) {
        if r == None {
          forall l | 0 <= l < level ensures !Fuller(v, l, level, trigger, base) {
            assert !Overfull(v, l, trigger, base);
            NotFuller(Load(v, l), Target(l, trigger, base), Load(v, level), Target(level, trigger, base));
          }
          r := MakePlan(v, level);
        } else if Fuller(v, level, r.value.inputLevel, trigger, base) {
          var best := r.value.inputLevel;
          forall l | 0 <= l < level ensures !Fuller(v, l, level, trigger, base) {
            assert !Fuller(v, l, best, trigger, base);
            RatioTransitive(Load(v, l), Target(l, trigger, base), Load(v, best), Target(best, trigger, base),
                            Load(v, level), Target(level, trigger, base));
          }
          r := MakePlan(v, level);
        }
      } else if r.Some? {
        var best := r.value.inputLevel;
        NotFuller(Load(v, level), Target(level, trigger, base), Load(v, best), Target(best, trigger, base));
      }
    }
  }

  lemma NotFuller(a: nat, b: nat, c: nat, d: nat)
    requires a <= b && c > d >= 1 && b >= 1
    ensures a * d <= c * b
  {
    assert a * d <= b * d <= b * c;
  }

  lemma CancelLess(x: nat, y: nat, d: nat)
    requires d >= 1 && x * d <= y * d
    ensures x <= y
  {
  }

  lemma RatioTransitive(a: nat, b: nat, c: nat, d: nat, e: nat, f: nat)
    requires b >= 1 && d >= 1 && f >= 1
    requires a * d <= c * b && c * f <= e * d
    ensures a * f <= e * b
  {
    assert (a * f) * d == (a * d) * f <= (c * b) * f == (c * f) * b <= (e * d) * b == (e * b) * d;
    CancelLess(a * f, e * b, d);
  }
}
