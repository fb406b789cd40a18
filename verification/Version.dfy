/** Live table metadata grouped in levels, and the atomic edits that change it. */
module Versions {
  import opened Bytes
  import opened InternalKeys

  const NUM_LEVELS := 7

  datatype FileMeta = FileMeta(number: u64, fileSize: u64, smallest: InternalKey, largest: InternalKey)

  /** The checks of the metadata constructor. */
  predicate ValidFile(f: FileMeta) {
    f.number != 0 && f.fileSize != 0 && !KeyLess(f.largest, f.smallest)
  }

  type Level = seq<FileMeta>

  type Version = v: seq<Level> | |v| == NUM_LEVELS witness [[], [], [], [], [], [], []]

  const EMPTY_VERSION: Version := [[], [], [], [], [], [], []]

  datatype VersionEdit = VersionEdit(
    added: seq<(nat, FileMeta)>,
    deleted: seq<(nat, u64)>,
    nextFile: Option<u64>,
    lastSequence: Option<u64>,
    logNumber: Option<u64>,
    activeLog: Option<u64>,
    walSequence: Option<u64>)

  // ----- Ordering inside a level -----

  /** Level zero runs from the newest file to the oldest, deeper levels by smallest user key. */
  predicate Ahead(level: nat, f: FileMeta, g: FileMeta) {
    if level == 0 then f.number > g.number else Less(f.smallest.user, g.smallest.user)
  }

  predicate InOrder(level: nat, files: Level) {
    forall i, j {:trigger Ahead(level, files[j], files[i])} | 0 <= i < j < |files| :: !Ahead(level, files[j], files[i])
  }

  function Insert(level: nat, f: FileMeta, files: Level): Level {
    if files == [] || Ahead(level, f, files[0]) then [f] + files
    else [files[0]] + Insert(level, f, files[1..])
  }

  /** The stable sort of one level. */
  function Sort(level: nat, files: Level): Level {
    if files == [] then [] else Insert(level, files[|files| - 1], Sort(level, files[..|files| - 1]))
  }

  lemma {:induction false} InsertFiles(level: nat, f: FileMeta, files: Level)
    ensures multiset(Insert(level, f, files)) == multiset(files) + multiset{f}
  {
    if files != [] && !Ahead(level, f, files[0]) {
      InsertFiles(level, f, files[1..]);
      assert files == [files[0]] + files[1..];
    }
  }

  lemma {:induction false} SortFiles(level: nat, files: Level)
    ensures multiset(Sort(level, files)) == multiset(files)
  {
    if files != [] {
      var n := |files| - 1;
      SortFiles(level, files[..n]);
      InsertFiles(level, files[n], Sort(level, files[..n]));
      assert files == files[..n] + [files[n]];
    }
  }

  lemma SortMembers(level: nat, files: Level, f: FileMeta)
    ensures f in Sort(level, files) <==> f in files
  {
    SortFiles(level, files);
    assert f in Sort(level, files) <==> f in multiset(Sort(level, files));
    assert f in files <==> f in multiset(files);
  }

  lemma AheadTransitive(level: nat, f: FileMeta, g: FileMeta, h: FileMeta)
    requires !Ahead(level, g, f) && !Ahead(level, h, g)
    ensures !Ahead(level, h, f)
  {
    var a, b, c := f.smallest.user, g.smallest.user, h.smallest.user;
    LessTotal(a, b);
    LessTotal(b, c);
    LessTotal(a, c);
    if Less(a, b) && Less(b, c) {
      LessTransitive(a, b, c);
    }
  }

  lemma {:induction false} InsertInOrder(level: nat, f: FileMeta, files: Level)
    requires InOrder(level, files)
    ensures InOrder(level, Insert(level, f, files))
  {
    if files == [] {
    } else if Ahead(level, f, files[0]) {
      LessTotal(f.smallest.user, files[0].smallest.user);
      forall k | 0 <= k < |files| ensures !Ahead(level, files[k], f) {
        if k > 0 {
          assert !Ahead(level, files[k], files[0]);
          AheadTransitive(level, f, files[0], files[k]);
        }
      }
      ConsInOrder(level, f, files);
    } else {
      var rest := Insert(level, f, files[1..]);
      forall i, j | 0 <= i < j < |files[1..]| ensures !Ahead(level, files[1..][j], files[1..][i]) {
        assert !Ahead(level, files[j + 1], files[i + 1]);
      }
      InsertInOrder(level, f, files[1..]);
      InsertFiles(level, f, files[1..]);
      forall k | 0 <= k < |rest| ensures !Ahead(level, rest[k], files[0]) {
        assert rest[k] in multiset(rest);
        if rest[k] != f {
          assert rest[k] in files[1..];
          var m :| 0 < m < |files| && files[m] == rest[k];
          assert !Ahead(level, files[m], files[0]);
        }
      }
      ConsInOrder(level, files[0], rest);
    }
  }

  lemma ConsInOrder(level: nat, f: FileMeta, files: Level)
    requires InOrder(level, files) && forall k | 0 <= k < |files| :: !Ahead(level, files[k], f)
    ensures InOrder(level, [f] + files)
  {
    var r := [f] + files;
    forall i, j | 0 <= i < j < |r| ensures !Ahead(level, r[j], r[i]) {
      if i > 0 {
        assert !Ahead(level, files[j - 1], files[i - 1]);
      }
    }
  }

  lemma {:induction false} SortInOrder(level: nat, files: Level)
    ensures InOrder(level, Sort(level, files))
  {
    if files != [] {
      SortInOrder(level, files[..|files| - 1]);
      InsertInOrder(level, files[|files| - 1], Sort(level, files[..|files| - 1]));
    }
  }

  /** Adjacent files do not share user keys. */
  predicate AdjacentDisjoint(files: Level) {
    forall i | 0 <= i < |files| - 1 :: Less(files[i].largest.user, files[i + 1].smallest.user)
  }

  /** No two files of the level share a user key. */
  predicate RangesDisjoint(files: Level) {
    forall i, j {:trigger RangeBefore(files[i], files[j])} | 0 <= i < j < |files| :: RangeBefore(files[i], files[j])
  }

  predicate RangeBefore(f: FileMeta, g: FileMeta) {
    Less(f.largest.user, g.smallest.user)
  }

  lemma {:induction false} AdjacentIsDisjoint(files: Level)
    requires AdjacentDisjoint(files) && forall f | f in files :: ValidFile(f)
    ensures RangesDisjoint(files)
  {
    if |files| > 1 {
      var rest := files[1..];
      AdjacentIsDisjoint(rest);
      assert AdjacentDisjoint(rest);
      forall j | 0 < j < |files| ensures RangeBefore(files[0], files[j]) {
        if j > 1 {
          assert RangeBefore(rest[0], rest[j - 1]);
          assert files[1] in files;
          RangeLessEq(files[1]);
          var a, b, c := files[0].largest.user, files[1].smallest.user, files[1].largest.user;
          if b != c { LessTransitive(a, b, c); }
          LessTransitive(a, c, files[j].smallest.user);
        }
      }
      forall i, j | 0 <= i < j < |files| ensures RangeBefore(files[i], files[j]) {
        if i > 0 {
          assert RangeBefore(rest[i - 1], rest[j - 1]);
        }
      }
    }
  }

  lemma RangeLessEq(f: FileMeta)
    requires ValidFile(f)
    ensures LessEq(f.smallest.user, f.largest.user)
  {
    LessTotal(f.smallest.user, f.largest.user);
  }

  // ----- Applying an edit -----

  function Position(files: Level, number: u64): (k: nat)
    ensures k <= |files|
    ensures k < |files| ==> files[k].number == number
    ensures forall i | 0 <= i < k :: files[i].number != number
  {
    if files == [] || files[0].number == number then 0 else
      var k := 1 + Position(files[1..], number);
      assert forall i | 0 < i < |files| :: files[i] == files[1..][i - 1];
      k
  }

  function DeleteAll(v: Version, deleted: seq<(nat, u64)>): Result<Version> {
    if deleted == [] then Ok(v) else
      var n := |deleted| - 1;
      match DeleteAll(v, deleted[..n])
      case Err => Err
      case Ok(w) => DeleteOne(w, deleted[n].0, deleted[n].1)
  }

  function DeleteOne(v: Version, level: nat, number: u64): Result<Version> {
    if level >= NUM_LEVELS then Err else
      var k := Position(v[level], number);
      if k == |v[level]| then Err else Ok(v[level := v[level][..k] + v[level][k + 1..]])
  }

  predicate IsLive(v: Version, number: u64) {
    exists l, i | 0 <= l < NUM_LEVELS && 0 <= i < |v[l]| :: v[l][i].number == number
  }

  function AddAll(v: Version, added: seq<(nat, FileMeta)>): Result<Version> {
    if added == [] then Ok(v) else
      var n := |added| - 1;
      match AddAll(v, added[..n])
      case Err => Err
      case Ok(w) => AddOne(w, added[n].0, added[n].1)
  }

  function AddOne(v: Version, level: nat, file: FileMeta): Result<Version> {
    if IsLive(v, file.number) || level >= NUM_LEVELS then Err
    else Ok(v[level := v[level] + [file]])
  }

  function SortLevels(v: Version): Version {
    seq(NUM_LEVELS, l requires 0 <= l < NUM_LEVELS => Sort(l, v[l]))
  }

  predicate DeeperLevelsDisjoint(v: Version) {
    forall l | 1 <= l < NUM_LEVELS :: AdjacentDisjoint(v[l])
  }

  /** The version after an edit, or an error that leaves the old version in place. */
  function Applied(v: Version, edit: VersionEdit): Result<Version> {
    match DeleteAll(v, edit.deleted)
    case Err => Err
    case Ok(w) =>
      match AddAll(w, edit.added)
      case Err => Err
      case Ok(x) => if DeeperLevelsDisjoint(SortLevels(x)) then Ok(SortLevels(x)) else Err
  }

  method ValidateNonOverlapping(files: Level) returns (ok: bool)
    ensures ok <==> AdjacentDisjoint(files)
  {
    var i := 0;
    while i + 1 < |files|
      invariant 0 <= i
      invariant forall k | 0 <= k < i && k < |files| - 1 :: Less(files[k].largest.user, files[k + 1].smallest.user)
    {
      if !Less(files[i].largest.user, files[i + 1].smallest.user) {
        return false;
      }
      i := i + 1;
    }
    return true;
  }

  /** Removes the deleted files from a copy of the version, one by one. */
  method DeleteFiles(v: Version, deleted: seq<(nat, u64)>) returns (r: Result<Version>)
    ensures r == DeleteAll(v, deleted)
  {
    var candidate := v;
    for i := 0 to |deleted|
      invariant DeleteAll(v, deleted[..i]) == Ok(candidate)
    {
      DropDrop(deleted, i, i + 1);
      var (level, number) := deleted[i];
      if level >= NUM_LEVELS {
        DeleteFails(v, deleted, i + 1);
        return Err;
      }
      var position := Position(candidate[level], number);
      if position == |candidate[level]| {
        DeleteFails(v, deleted, i + 1);
        return Err;
      }
      candidate := candidate[level := candidate[level][..position] + candidate[level][position + 1..]];
    }
    TakeDrop(deleted, |deleted|);
    return Ok(candidate);
  }

  /** Appends the added files to their levels, one by one. */
  method AddFiles(v: Version, added: seq<(nat, FileMeta)>) returns (r: Result<Version>)
    ensures r == AddAll(v, added)
  {
    var candidate := v;
    for i := 0 to |added|
      invariant AddAll(v, added[..i]) == Ok(candidate)
    {
      DropDrop(added, i, i + 1);
      var (level, file) := added[i];
      if IsLive(candidate, file.number) || level >= NUM_LEVELS {
        AddFails(v, added, i + 1);
        return Err;
      }
      candidate := candidate[level := candidate[level] + [file]];
    }
    TakeDrop(added, |added|);
    return Ok(candidate);
  }

  method Apply(v: Version, edit: VersionEdit) returns (r: Result<Version>)
    ensures r == Applied(v, edit)
  {
    var emptied := DeleteFiles(v, edit.deleted);
    if emptied.Err? {
      return Err;
    }
    var filled := AddFiles(emptied.value, edit.added);
    if filled.Err? {
      return Err;
    }
    var candidate := filled.value[0 := Sort(0, filled.value[0])];
    for level := 1 to NUM_LEVELS
      invariant forall l | 0 <= l < NUM_LEVELS ::
          candidate[l] == if l < level then SortLevels(filled.value)[l] else filled.value[l]
      invariant forall l | 1 <= l < level :: AdjacentDisjoint(candidate[l])
    {
      candidate := candidate[level := Sort(level, candidate[level])];
      var disjoint := ValidateNonOverlapping(candidate[level]);
      if !disjoint {
        assert !AdjacentDisjoint(SortLevels(filled.value)[level]);
        return Err;
      }
    }
    assert candidate == SortLevels(filled.value);
    return Ok(candidate);
  }

  lemma {:induction false} DeleteFails(v: Version, deleted: seq<(nat, u64)>, n: nat)
    requires n <= |deleted| && DeleteAll(v, deleted[..n]).Err?
    ensures DeleteAll(v, deleted).Err?
    decreases |deleted|
  {
    TakeDrop(deleted, |deleted|);
    if n < |deleted| {
      DropDrop(deleted, n, |deleted| - 1);
      DeleteFails(v, deleted[..|deleted| - 1], n);
    }
  }

  lemma {:induction false} AddFails(v: Version, added: seq<(nat, FileMeta)>, n: nat)
    requires n <= |added| && AddAll(v, added[..n]).Err?
    ensures AddAll(v, added).Err?
    decreases |added|
  {
    TakeDrop(added, |added|);
    if n < |added| {
      DropDrop(added, n, |added| - 1);
      AddFails(v, added[..|added| - 1], n);
    }
  }

  // ----- What an edit does to the live files -----

  predicate HasFile(v: Version, level: nat, f: FileMeta) {
    level < NUM_LEVELS && f in v[level]
  }

  /** A file number names one file at one level. */
  ghost predicate UniqueNumbers(v: Version) {
    && (forall l: nat, m: nat, f, g {:trigger HasFile(v, l, f), HasFile(v, m, g)} |
          HasFile(v, l, f) && HasFile(v, m, g) && f.number == g.number :: l == m && f == g)
    && (forall l, i, j | 0 <= l < NUM_LEVELS && 0 <= i < j < |v[l]| :: v[l][i] != v[l][j])
  }

  lemma LiveFile(v: Version, number: u64)
    ensures IsLive(v, number) <==> exists l: nat, f :: HasFile(v, l, f) && f.number == number
  {
    if IsLive(v, number) {
      var l, i :| 0 <= l < NUM_LEVELS && 0 <= i < |v[l]| && v[l][i].number == number;
      assert HasFile(v, l, v[l][i]);
    }
  }

  lemma DeleteOneFiles(v: Version, level: nat, number: u64)
    requires UniqueNumbers(v) && DeleteOne(v, level, number).Ok?
    ensures var w := DeleteOne(v, level, number).value;
            && UniqueNumbers(w)
            && forall l: nat, f :: HasFile(w, l, f) <==> HasFile(v, l, f) && !(l == level && f.number == number)
  {
    var w := DeleteOne(v, level, number).value;
    var k := Position(v[level], number);
    var gone := v[level][k];
    assert HasFile(v, level, gone);
    forall l: nat, f ensures HasFile(w, l, f) <==> HasFile(v, l, f) && !(l == level && f.number == number) {
      if l == level {
        RemoveAt(v[level], k, f);
        assert w[level] == v[level][..k] + v[level][k + 1..];
        assert HasFile(v, level, f) && f.number == number ==> f == gone;
      }
    }
  }

  lemma RemoveAt(files: Level, k: nat, f: FileMeta)
    requires k < |files| && forall i, j | 0 <= i < j < |files| :: files[i] != files[j]
    ensures f in files[..k] + files[k + 1..] <==> f in files && f != files[k]
  {
    if f in files && f != files[k] {
      var i :| 0 <= i < |files| && files[i] == f;
      assert f in files[..k] || f in files[k + 1..];
    }
  }

  lemma {:induction false} DeleteAllFiles(v: Version, deleted: seq<(nat, u64)>)
    requires UniqueNumbers(v) && DeleteAll(v, deleted).Ok?
    ensures var w := DeleteAll(v, deleted).value;
            && UniqueNumbers(w)
            && forall l: nat, f :: HasFile(w, l, f) <==> HasFile(v, l, f) && (l, f.number) !in deleted
  {
    if deleted != [] {
      var n := |deleted| - 1;
      DeleteAllFiles(v, deleted[..n]);
      DeleteOneFiles(DeleteAll(v, deleted[..n]).value, deleted[n].0, deleted[n].1);
      assert deleted == deleted[..n] + [deleted[n]];
    }
  }

  lemma AddOneFiles(v: Version, level: nat, file: FileMeta)
    requires UniqueNumbers(v) && AddOne(v, level, file).Ok?
    ensures var w := AddOne(v, level, file).value;
            && UniqueNumbers(w)
            && forall l: nat, f :: HasFile(w, l, f) <==> HasFile(v, l, f) || (l == level && f == file)
  {
    LiveFile(v, file.number);
    var w := AddOne(v, level, file).value;
    forall l: nat, f ensures HasFile(w, l, f) <==> HasFile(v, l, f) || (l == level && f == file) {
    }
    forall i | 0 <= i < |v[level]| ensures v[level][i] != file {
      assert HasFile(v, level, v[level][i]);
    }
  }

  lemma {:induction false} AddAllFiles(v: Version, added: seq<(nat, FileMeta)>)
    requires UniqueNumbers(v) && AddAll(v, added).Ok?
    ensures var w := AddAll(v, added).value;
            && UniqueNumbers(w)
            && forall l: nat, f :: HasFile(w, l, f) <==> HasFile(v, l, f) || (l, f) in added
  {
    if added != [] {
      var n := |added| - 1;
      AddAllFiles(v, added[..n]);
      AddOneFiles(AddAll(v, added[..n]).value, added[n].0, added[n].1);
      assert added == added[..n] + [added[n]];
    }
  }

  /** Levels one and deeper have disjoint user-key ranges; level zero runs newest first. */
  ghost predicate WellFormed(v: Version) {
    && UniqueNumbers(v)
    && InOrder(0, v[0])
    && (forall l: nat, f :: HasFile(v, l, f) ==> ValidFile(f))
    && (forall l | 1 <= l < NUM_LEVELS :: RangesDisjoint(v[l]))
  }

  /** An accepted edit removes exactly the deleted files, adds exactly the added ones and keeps the shape. */
  lemma AppliedMeaning(v: Version, edit: VersionEdit)
    requires WellFormed(v) && Applied(v, edit).Ok?
    requires forall l: nat, f :: (l, f) in edit.added ==> ValidFile(f)
    ensures var w := Applied(v, edit).value;
            && WellFormed(w)
            && forall l: nat, f ::
                 HasFile(w, l, f) <==> (HasFile(v, l, f) && (l, f.number) !in edit.deleted) || (l, f) in edit.added
  {
    var x := DeleteAll(v, edit.deleted).value;
    var y := AddAll(x, edit.added).value;
    var w := SortLevels(y);
    DeleteAllFiles(v, edit.deleted);
    AddAllFiles(x, edit.added);
    forall l: nat, f ensures HasFile(w, l, f) <==> HasFile(y, l, f) {
      if l < NUM_LEVELS {
        SortMembers(l, y[l], f);
      }
    }
    SortInOrder(0, y[0]);
    forall l | 1 <= l < NUM_LEVELS ensures RangesDisjoint(w[l]) {
      forall f | f in w[l] ensures ValidFile(f) {
        assert HasFile(w, l, f) && HasFile(y, l, f);
      }
      AdjacentIsDisjoint(w[l]);
    }
    forall l, i, j | 0 <= l < NUM_LEVELS && 0 <= i < j < |w[l]| ensures w[l][i] != w[l][j] {
      SortFiles(l, y[l]);
      NoDuplicates(y[l], w[l], i, j);
    }
  }

  lemma NoDuplicates(a: Level, b: Level, i: nat, j: nat)
    requires multiset(a) == multiset(b) && i < j < |b|
    requires forall x, y | 0 <= x < y < |a| :: a[x] != a[y]
    ensures b[i] != b[j]
  {
    CountTwice(b, i, j);
    CountOnce(a, b[i]);
  }

  lemma CountTwice(b: Level, i: nat, j: nat)
    requires i < j < |b|
    ensures b[i] == b[j] ==> multiset(b)[b[i]] >= 2
  {
    assert b == b[..j] + [b[j]] + b[j + 1..];
    assert b[..j][i] == b[i] && b[i] in multiset(b[..j]);
  }

  lemma {:induction false} CountOnce(a: Level, f: FileMeta)
    requires forall x, y | 0 <= x < y < |a| :: a[x] != a[y]
    ensures multiset(a)[f] <= 1
  {
    if a != [] {
      CountOnce(a[1..], f);
      assert a == [a[0]] + a[1..];
      assert forall i | 0 <= i < |a[1..]| :: a[1..][i] != a[0];
      assert a[0] !in multiset(a[1..]);
    }
  }
}
