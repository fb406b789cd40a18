/** Exactly which edits a version accepts. */
module Acceptance {
  import opened Bytes
  import opened Versions

  predicate Names(f: FileMeta, number: u64) {
    f.number == number
  }

  /** Each deletion names a different live file. */
  ghost predicate DeletesLive(v: Version, deleted: seq<(nat, u64)>) {
    && Distinct(deleted)
    && forall d | d in deleted :: NamesLive(v, d)
  }

  ghost predicate NamesLive(v: Version, d: (nat, u64)) {
    exists f :: HasFile(v, d.0, f) && Names(f, d.1)
  }

  /** Each addition goes to a real level under a number that no other file left by the deletions has. */
  ghost predicate AddsFresh(v: Version, deleted: seq<(nat, u64)>, added: seq<(nat, FileMeta)>) {
    && (forall a | a in added :: a.0 < NUM_LEVELS)
    && (forall i, j | 0 <= i < j < |added| :: added[i].1.number != added[j].1.number)
    && (forall a, l: nat, f | a in added && HasFile(v, l, f) && (l, f.number) !in deleted :: f.number != a.1.number)
  }

  predicate Apart(f: FileMeta, g: FileMeta) {
    RangeBefore(f, g) || RangeBefore(g, f)
  }

  /** The file is live after the edit. */
  predicate Survives(v: Version, edit: VersionEdit, l: nat, f: FileMeta) {
    (HasFile(v, l, f) && (l, f.number) !in edit.deleted) || (l, f) in edit.added
  }

  /** Deeper levels keep pairwise disjoint user-key ranges. */
  ghost predicate KeepsApart(v: Version, edit: VersionEdit) {
    forall l: nat, f, g | l >= 1 && Survives(v, edit, l, f) && Survives(v, edit, l, g) && f != g :: Apart(f, g)
  }

  lemma {:induction false} DeletesAccepted(v: Version, deleted: seq<(nat, u64)>)
    requires UniqueNumbers(v)
    ensures DeleteAll(v, deleted).Ok? <==> DeletesLive(v, deleted)
  {
    if deleted != [] {
      var n := |deleted| - 1;
      var init, d := deleted[..n], deleted[n];
      assert deleted == init + [d];
      DeletesAccepted(v, init);
      assert DeletesLive(v, deleted) ==> DeletesLive(v, init);
      if DeleteAll(v, init).Ok? {
        DeleteAllFiles(v, init);
        var w := DeleteAll(v, init).value;
        DeleteOneAccepted(w, d);
        NamesLeft(v, init, w, d);
        assert DeleteOne(w, d.0, d.1).Ok? <==> d !in init && NamesLive(v, d);
        assert Distinct(deleted) <==> Distinct(init) && d !in init;
      }
    }
  }

  lemma NamesLeft(v: Version, init: seq<(nat, u64)>, w: Version, d: (nat, u64))
    requires forall l: nat, f :: HasFile(w, l, f) <==> HasFile(v, l, f) && (l, f.number) !in init
    ensures NamesLive(w, d) <==> d !in init && NamesLive(v, d)
  {
    assert d == (d.0, d.1);
    if f :| HasFile(w, d.0, f) && Names(f, d.1) {
      assert HasFile(v, d.0, f);
    }
    if f :| d !in init && HasFile(v, d.0, f) && Names(f, d.1) {
      assert HasFile(w, d.0, f);
    }
  }

  lemma DeleteOneAccepted(w: Version, d: (nat, u64))
    ensures DeleteOne(w, d.0, d.1).Ok? <==> NamesLive(w, d)
  {
    if d.0 < NUM_LEVELS {
      var k := Position(w[d.0], d.1);
      if k < |w[d.0]| {
        assert HasFile(w, d.0, w[d.0][k]) && Names(w[d.0][k], d.1);
      }
    }
  }

  lemma {:induction false} AddsAccepted(v: Version, added: seq<(nat, FileMeta)>)
    requires UniqueNumbers(v)
    ensures AddAll(v, added).Ok? <==> AddsFresh(v, [], added)
  {
    if added != [] {
      var n := |added| - 1;
      var init, a := added[..n], added[n];
      assert added == init + [a];
      AddsAccepted(v, init);
      AddsFreshSnoc(v, init, a);
      if AddAll(v, init).Ok? {
        AddAllFiles(v, init);
        var w := AddAll(v, init).value;
        LiveFile(w, a.1.number);
        LiveAfterAdds(v, init, w, a.1.number);
      }
    }
  }

  ghost predicate Free(v: Version, added: seq<(nat, FileMeta)>, number: u64) {
    && (forall l: nat, f | HasFile(v, l, f) :: f.number != number)
    && (forall b | b in added :: b.1.number != number)
  }

  lemma AddsFreshSnoc(v: Version, init: seq<(nat, FileMeta)>, a: (nat, FileMeta))
    ensures AddsFresh(v, [], init + [a]) <==> AddsFresh(v, [], init) && a.0 < NUM_LEVELS && Free(v, init, a.1.number)
  {
    var added := init + [a];
    assert forall b | b in init :: b in added;
    assert a in added;
    if AddsFresh(v, [], added) {
      forall b | b in init ensures b.1.number != a.1.number {
        var i :| 0 <= i < |init| && init[i] == b;
        assert added[i] == b && added[|init|] == a;
      }
      forall i, j | 0 <= i < j < |init| ensures init[i].1.number != init[j].1.number {
        assert added[i] == init[i] && added[j] == init[j];
      }
    }
  }

  lemma LiveAfterAdds(v: Version, init: seq<(nat, FileMeta)>, w: Version, number: u64)
    requires AddsFresh(v, [], init)
    requires forall l: nat, f :: HasFile(w, l, f) <==> HasFile(v, l, f) || (l, f) in init
    ensures (exists l: nat, f :: HasFile(w, l, f) && f.number == number) <==> !Free(v, init, number)
  {
    if !Free(v, init, number) {
      if l: nat, f :| HasFile(v, l, f) && f.number == number {
        assert HasFile(w, l, f);
      } else {
        var b :| b in init && b.1.number == number;
        assert b == (b.0, b.1) && HasFile(w, b.0, b.1);
      }
    }
  }

  /** Sorting pairwise separate files by their smallest key leaves neighbours disjoint. */
  lemma ApartIsDisjoint(level: nat, files: Level)
    requires level >= 1 && InOrder(level, files) && forall f | f in files :: ValidFile(f)
    ensures RangesDisjoint(files) <==> forall i, j | 0 <= i < j < |files| :: Apart(files[i], files[j])
  {
    forall i, j | 0 <= i < j < |files| && Apart(files[i], files[j]) ensures RangeBefore(files[i], files[j]) {
      var f, g := files[i], files[j];
      assert !Ahead(level, g, f);
      if RangeBefore(g, f) {
        RangeLessEq(g);
        if g.smallest.user != g.largest.user {
          LessTransitive(g.smallest.user, g.largest.user, f.smallest.user);
        }
      }
    }
  }

  /** An edit is accepted exactly when its deletions are live, its additions fresh and the deeper levels stay apart. */
  lemma EditAccepted(v: Version, edit: VersionEdit)
    requires WellFormed(v)
    requires forall l: nat, f :: (l, f) in edit.added ==> ValidFile(f)
    ensures Applied(v, edit).Ok? <==>
              && DeletesLive(v, edit.deleted)
              && AddsFresh(v, edit.deleted, edit.added)
              && KeepsApart(v, edit)
  {
    DeletesAccepted(v, edit.deleted);
    if DeletesLive(v, edit.deleted) {
      DeleteAllFiles(v, edit.deleted);
      var x := DeleteAll(v, edit.deleted).value;
      AddsAccepted(x, edit.added);
      assert AddsFresh(x, [], edit.added) <==> AddsFresh(v, edit.deleted, edit.added);
      if AddsFresh(v, edit.deleted, edit.added) {
        AddAllFiles(x, edit.added);
        var y := AddAll(x, edit.added).value;
        assert forall l: nat, f :: HasFile(y, l, f) <==> Survives(v, edit, l, f);
        forall l: nat, f | HasFile(y, l, f) ensures ValidFile(f) {
          assert Survives(v, edit, l, f);
        }
        SortedApart(y);
        KeepsApartIn(v, edit, y);
      }
    }
  }

  ghost predicate AllApart(y: Version) {
    forall l: nat, f, g | l >= 1 && HasFile(y, l, f) && HasFile(y, l, g) && f != g :: Apart(f, g)
  }

  lemma KeepsApartIn(v: Version, edit: VersionEdit, y: Version)
    requires forall l: nat, f :: HasFile(y, l, f) <==> Survives(v, edit, l, f)
    ensures KeepsApart(v, edit) <==> AllApart(y)
  {
    if AllApart(y) {
      forall l: nat, f, g | l >= 1 && Survives(v, edit, l, f) && Survives(v, edit, l, g) && f != g ensures Apart(f, g) {
        assert HasFile(y, l, f) && HasFile(y, l, g);
      }
    }
    if KeepsApart(v, edit) {
      forall l: nat, f, g | l >= 1 && HasFile(y, l, f) && HasFile(y, l, g) && f != g ensures Apart(f, g) {
        assert Survives(v, edit, l, f) && Survives(v, edit, l, g);
      }
    }
  }

  lemma SortedApart(y: Version)
    requires UniqueNumbers(y) && forall l: nat, f :: HasFile(y, l, f) ==> ValidFile(f)
    ensures DeeperLevelsDisjoint(SortLevels(y)) <==> AllApart(y)
  {
    var w := SortLevels(y);
    forall l | 1 <= l < NUM_LEVELS
      ensures AdjacentDisjoint(w[l]) <==> forall f, g | f in y[l] && g in y[l] && f != g :: Apart(f, g)
    {
      LevelApart(y, l);
    }
    if DeeperLevelsDisjoint(w) {
      forall l: nat, f, g | l >= 1 && HasFile(y, l, f) && HasFile(y, l, g) && f != g ensures Apart(f, g) {
        assert AdjacentDisjoint(w[l]);
      }
    }
    if AllApart(y) {
      forall l | 1 <= l < NUM_LEVELS ensures AdjacentDisjoint(w[l]) {
        forall f, g | f in y[l] && g in y[l] && f != g ensures Apart(f, g) {
          assert HasFile(y, l, f) && HasFile(y, l, g);
        }
      }
    }
  }

  lemma LevelApart(y: Version, l: nat)
    requires 1 <= l < NUM_LEVELS && UniqueNumbers(y) && forall l: nat, f :: HasFile(y, l, f) ==> ValidFile(f)
    ensures AdjacentDisjoint(Sort(l, y[l])) <==> forall f, g | f in y[l] && g in y[l] && f != g :: Apart(f, g)
  {
    var files := Sort(l, y[l]);
    SortInOrder(l, y[l]);
    forall f ensures f in files <==> f in y[l] {
      SortMembers(l, y[l], f);
    }
    forall f | f in files ensures ValidFile(f) {
      assert HasFile(y, l, f);
    }
    forall i, j | 0 <= i < j < |files| ensures files[i] != files[j] {
      SortFiles(l, y[l]);
      NoDuplicates(y[l], files, i, j);
    }
    SortedLevelApart(l, files);
  }

  lemma SortedLevelApart(level: nat, files: Level)
    requires level >= 1 && InOrder(level, files) && forall f | f in files :: ValidFile(f)
    requires Distinct(files)
    ensures AdjacentDisjoint(files) <==> forall f, g | f in files && g in files && f != g :: Apart(f, g)
  {
    ApartIsDisjoint(level, files);
    if AdjacentDisjoint(files) {
      AdjacentIsDisjoint(files);
      ApartMembers(files);
    }
    if forall f, g | f in files && g in files && f != g :: Apart(f, g) {
      assert RangesDisjoint(files);
      forall i | 0 <= i < |files| - 1 ensures Less(files[i].largest.user, files[i + 1].smallest.user) {
        assert RangeBefore(files[i], files[i + 1]);
      }
    }
  }

  lemma ApartMembers(files: Level)
    requires RangesDisjoint(files)
    ensures forall f, g | f in files && g in files && f != g :: Apart(f, g)
  {
    forall f, g | f in files && g in files && f != g ensures Apart(f, g) {
      var i :| 0 <= i < |files| && files[i] == f;
      var j :| 0 <= j < |files| && files[j] == g;
      assert RangeBefore(files[i], files[j]) || RangeBefore(files[j], files[i]);
    }
  }
}
