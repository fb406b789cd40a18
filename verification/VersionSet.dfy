/** The version set: durable counters and live files as the replay of a log of edits. */
module VersionSets {
  import opened Bytes
  import opened Versions

  /** Everything replay reconstructs from a manifest. */
  datatype Meta = Meta(
    version: Version,
    used: set<u64>,
    next: u64,
    last: u64,
    log: u64,
    active: u64,
    walSequence: u64)

  const MANIFEST_NUMBER: u64 := 1

  const BLANK := Meta(EMPTY_VERSION, {MANIFEST_NUMBER}, 0, 0, 0, 0, 0)

  const INITIAL_EDIT := VersionEdit([], [], Some(2), Some(0), Some(0), Some(0), Some(0))

  /** Files reach an edit only through the metadata constructor. */
  predicate ValidEdit(e: VersionEdit) {
    forall a | a in e.added :: ValidFile(a.1)
  }

  function Raised(counter: u64, change: Option<u64>): Result<u64> {
    match change
    case None => Ok(counter)
    case Some(n) => if n < counter then Err else Ok(n)
  }

  /** The counters after an edit, or an error when one falls or they disagree. */
  function UpdateCounters(m: Meta, e: VersionEdit): Result<Meta> {
    match (Raised(m.next, e.nextFile), Raised(m.last, e.lastSequence), Raised(m.log, e.logNumber),
           Raised(m.active, e.activeLog), Raised(m.walSequence, e.walSequence))
    case (Ok(next), Ok(last), Ok(log), Ok(active), Ok(wal)) =>
      if e.nextFile == Some(0) || (log == 0) != (active == 0) || log > active || (active >= next && active != 0)
      then Err
      else Ok(m.(next := next, last := last, log := log, active := active, walSequence := wal))
    case _ => Err
  }

  function AddedNumbers(added: seq<(nat, FileMeta)>): (s: set<u64>)
    ensures forall a | a in added :: a.1.number in s
  {
    set i | 0 <= i < |added| :: added[i].1.number
  }

  /** Added numbers are below `next`, new and different from each other and from the deleted ones. */
  predicate NumbersValid(e: VersionEdit, next: u64, used: set<u64>) {
    && (forall n | n in used :: n < next)
    && (forall i | 0 <= i < |e.added| ::
          e.added[i].1.number < next && e.added[i].1.number !in used && !Deletes(e, e.added[i].1.number))
    && (forall i, j | 0 <= i < j < |e.added| :: e.added[i].1.number != e.added[j].1.number)
  }

  predicate Deletes(e: VersionEdit, number: u64) {
    exists i | 0 <= i < |e.deleted| :: e.deleted[i].1 == number
  }

  /** The published state after one edit, or an error that leaves it alone. */
  function ApplyEdit(m: Meta, e: VersionEdit): Result<Meta> {
    match UpdateCounters(m, e)
    case Err => Err
    case Ok(c) =>
      if !NumbersValid(e, c.next, m.used) then Err else
        match Applied(m.version, e)
        case Err => Err
        case Ok(v) => Ok(c.(version := v, used := m.used + AddedNumbers(e.added)))
  }

  type EditStep = (Meta, VersionEdit) -> Result<Meta>

  function Fold(step: EditStep, m: Meta, edits: seq<VersionEdit>): Result<Meta> {
    if edits == [] then Ok(m) else
      match Fold(step, m, edits[..|edits| - 1])
      case Err => Err
      case Ok(r) => step(r, edits[|edits| - 1])
  }

  /** Folds edits from the blank state. */
  function Replay(edits: seq<VersionEdit>): Result<Meta> {
    Fold(ApplyEdit, BLANK, edits)
  }

  /** Recovery refuses a log without an initial edit or without a next file number. */
  function Recover(edits: seq<VersionEdit>): Result<Meta> {
    if edits == [] then Err else
      match Replay(edits)
      case Err => Err
      case Ok(m) => if m.next == 0 then Err else Ok(m)
  }

  lemma ReplaySnoc(edits: seq<VersionEdit>, e: VersionEdit)
    ensures Replay(edits + [e]) == match Replay(edits) case Err => Err case Ok(m) => ApplyEdit(m, e)
  {
    assert (edits + [e])[..|edits|] == edits;
  }

  /** Counters never fall and used numbers are never forgotten. */
  predicate Grows(m: Meta, r: Meta) {
    && m.next <= r.next && m.last <= r.last && m.log <= r.log && m.active <= r.active
    && m.walSequence <= r.walSequence && m.used <= r.used
  }

  lemma {:induction false} FoldPrefix(step: EditStep, m: Meta, edits: seq<VersionEdit>, k: nat)
    requires k <= |edits| && Fold(step, m, edits).Ok?
    requires forall r, e | step(r, e).Ok? :: Grows(r, step(r, e).value)
    ensures Fold(step, m, edits[..k]).Ok? && Grows(Fold(step, m, edits[..k]).value, Fold(step, m, edits).value)
    ensures k < |edits| ==> Fold(step, m, edits[..k + 1]) == step(Fold(step, m, edits[..k]).value, edits[k])
  {
    TakeDrop(edits, |edits|);
    if k < |edits| {
      var n := |edits| - 1;
      FoldPrefix(step, m, edits[..n], k);
      DropDrop(edits, k, n);
      assert edits[..k + 1][..k] == edits[..k];
      assert k < n ==> edits[..n][..k + 1] == edits[..k + 1];
    }
  }

  // ----- What every accepted log keeps -----

  /** The relation between counters, used numbers and live files. */
  ghost predicate Coherent(m: Meta) {
    && WellFormed(m.version)
    && ((m.log == 0) <==> (m.active == 0)) && m.log <= m.active
    && (m.active != 0 ==> m.active < m.next)
    && (forall n | n in m.used :: n < m.next)
    && (forall l: nat, f | HasFile(m.version, l, f) :: f.number in m.used)
    && MANIFEST_NUMBER in m.used
  }

  lemma BlankWellFormed()
    ensures WellFormed(BLANK.version) && forall l: nat, f :: !HasFile(BLANK.version, l, f)
  {
    assert forall l: nat, f :: !HasFile(BLANK.version, l, f);
  }

  /** Counters never fall and every added number is new. */
  lemma ApplyEditMonotone(m: Meta, e: VersionEdit)
    requires ApplyEdit(m, e).Ok?
    ensures var r := ApplyEdit(m, e).value;
            Grows(m, r) && (forall a | a in e.added :: a.1.number !in m.used && a.1.number in r.used)
  {
    forall a | a in e.added ensures a.1.number !in m.used {
      var i :| 0 <= i < |e.added| && e.added[i] == a;
    }
  }

  lemma ApplyEditCoherent(m: Meta, e: VersionEdit)
    requires WellFormed(m.version) && MANIFEST_NUMBER in m.used && ValidEdit(e) && ApplyEdit(m, e).Ok?
    requires forall l: nat, f | HasFile(m.version, l, f) :: f.number in m.used
    ensures Coherent(ApplyEdit(m, e).value)
  {
    var r := ApplyEdit(m, e).value;
    forall l: nat, f | (l, f) in e.added ensures ValidFile(f) {
    }
    AppliedMeaning(m.version, e);
    forall l: nat, f | HasFile(r.version, l, f) ensures f.number in r.used {
      if (l, f) in e.added {
        var i :| 0 <= i < |e.added| && e.added[i] == (l, f);
      }
    }
    forall n | n in r.used ensures n < r.next {
      if n !in m.used {
        var i :| 0 <= i < |e.added| && e.added[i].1.number == n;
      }
    }
  }

  /** Every state that replay reaches is coherent. */
  lemma {:induction false} ReplayCoherent(edits: seq<VersionEdit>)
    requires forall e | e in edits :: ValidEdit(e)
    requires Replay(edits).Ok?
    ensures WellFormed(Replay(edits).value.version) && MANIFEST_NUMBER in Replay(edits).value.used
    ensures forall l: nat, f | HasFile(Replay(edits).value.version, l, f) :: f.number in Replay(edits).value.used
    ensures edits != [] ==> Coherent(Replay(edits).value)
  {
    if edits == [] {
      BlankWellFormed();
    } else {
      var n := |edits| - 1;
      assert edits[n] in edits && forall e | e in edits[..n] :: e in edits;
      ReplayCoherent(edits[..n]);
      ApplyEditCoherent(Replay(edits[..n]).value, edits[n]);
    }
  }

  /** Along one log counters never fall, and used numbers are never forgotten. */
  lemma ReplayGrows(edits: seq<VersionEdit>, k: nat)
    requires k <= |edits| && Replay(edits).Ok?
    ensures Replay(edits[..k]).Ok? && Grows(Replay(edits[..k]).value, Replay(edits).value)
    ensures k < |edits| ==> Replay(edits[..k + 1]) == ApplyEdit(Replay(edits[..k]).value, edits[k])
  {
    forall r, e | ApplyEdit(r, e).Ok? ensures Grows(r, ApplyEdit(r, e).value) {
      ApplyEditMonotone(r, e);
    }
    FoldPrefix(ApplyEdit, BLANK, edits, k);
  }

  lemma AddedOnce(m: Meta, e: VersionEdit, number: u64)
    requires ApplyEdit(m, e).Ok? && number in AddedNumbers(e.added)
    ensures number !in m.used && number in ApplyEdit(m, e).value.used
  {
    var k :| 0 <= k < |e.added| && e.added[k].1.number == number;
  }

  lemma UsedFromThere(edits: seq<VersionEdit>, i: nat, number: u64)
    requires i < |edits| && Replay(edits).Ok? && number in AddedNumbers(edits[i].added)
    ensures number in Replay(edits).value.used
  {
    ReplayGrows(edits, i);
    ReplayGrows(edits, i + 1);
    AddedOnce(Replay(edits[..i]).value, edits[i], number);
  }

  lemma UnusedBefore(edits: seq<VersionEdit>, j: nat, number: u64)
    requires j < |edits| && Replay(edits).Ok? && number in AddedNumbers(edits[j].added)
    ensures Replay(edits[..j]).Ok? && number !in Replay(edits[..j]).value.used
  {
    ReplayGrows(edits, j);
    ReplayGrows(edits, j + 1);
    AddedOnce(Replay(edits[..j]).value, edits[j], number);
  }

  /** No file number is added by two edits of one log. */
  lemma NumbersNeverReused(edits: seq<VersionEdit>, i: nat, j: nat, number: u64)
    requires i < j < |edits| && Replay(edits).Ok?
    requires number in AddedNumbers(edits[i].added)
    ensures number !in AddedNumbers(edits[j].added)
  {
    if number in AddedNumbers(edits[j].added) {
      UnusedBefore(edits, j, number);
      UsedFromThere(edits[..j], i, number);
    }
  }

  // ----- The class -----

  /** How a durable append ends: complete, or failed with all or none of the edit in the file. */
  datatype Write = Synced | Failed(visible: bool)

  class VersionSet {
    ghost var file: seq<VersionEdit>   // whole edits a replay of the manifest returns
    var current: Meta
    var usable: bool

    /** While usable, the published state is the replay of the manifest. */
    ghost predicate Valid()
      reads this
    {
      && (forall e | e in file :: ValidEdit(e))
      && file != [] && Coherent(current)
      && (if usable then Replay(file) == Ok(current)
          else || Replay(file) == Ok(current)
               || (|file| > 1 && Replay(file[..|file| - 1]) == Ok(current) && Replay(file).Ok?))
    }

    constructor ()
      ensures Valid() && usable && current == BLANK.(next := 2) && file == [INITIAL_EDIT]
    {
      file, usable := [INITIAL_EDIT], true;
      current := BLANK.(next := 2);
      InitialReplay();
    }

    /** Reopens the set from its manifest, before or after the edit whose write failed. */
    constructor Reopen(ghost edits: seq<VersionEdit>, m: Meta)
      requires (forall e | e in edits :: ValidEdit(e)) && Recover(edits) == Ok(m)
      ensures Valid() && usable && current == m && file == edits
    {
      file, usable, current := edits, true, m;
      ReplayCoherent(edits);
    }

    /** Publishes an edit once its manifest record is durable. */
    method Apply(e: VersionEdit, outcome: Write) returns (r: Result<()>)
      requires Valid() && ValidEdit(e)
      modifies this
      ensures Valid()
      ensures r.Ok? <==> old(usable) && ApplyEdit(old(current), e).Ok? && outcome == Synced
      ensures r.Ok? ==> ApplyEdit(old(current), e) == Ok(current) && file == old(file) + [e] && usable
      ensures r.Err? ==> current == old(current)
      ensures !old(usable) || ApplyEdit(old(current), e).Err? ==> file == old(file) && usable == old(usable)
      ensures old(usable) && ApplyEdit(old(current), e).Ok? && outcome.Failed? ==>
                !usable && file == if outcome.visible then old(file) + [e] else old(file)
    {
      if !usable {
        return Err;
      }
      var next := ApplyEdit(current, e);
      if next.Err? {
        return Err;
      }
      ReplaySnoc(file, e);
      ApplyEditCoherent(current, e);
      assert (file + [e])[..|file|] == file;
      match outcome {
        case Failed(visible) =>
          file := if visible then file + [e] else file;
          usable := false;
          return Err;
        case Synced =>
          file, current := file + [e], next.value;
          return Ok(());
      }
    }
  }

  lemma InitialReplay()
    ensures Replay([INITIAL_EDIT]) == Ok(BLANK.(next := 2)) && Coherent(BLANK.(next := 2)) && ValidEdit(INITIAL_EDIT)
    ensures Recover([INITIAL_EDIT]).Ok?
  {
    assert Replay([INITIAL_EDIT][..0]) == Ok(BLANK);
    var v := BLANK.version;
    assert SortLevels(v) == v by {
      forall l | 0 <= l < NUM_LEVELS ensures Sort(l, v[l]) == v[l] {
        assert v[l] == [];
      }
    }
    forall l | 1 <= l < NUM_LEVELS ensures AdjacentDisjoint(v[l]) {
      assert v[l] == [];
    }
    BlankWellFormed();
    assert DeleteAll(v, []) == Ok(v) && AddAll(v, []) == Ok(v);
    assert Applied(v, INITIAL_EDIT) == Ok(v);
    assert AddedNumbers([]) == {};
    assert BLANK.used + {} == BLANK.used;
    assert NumbersValid(INITIAL_EDIT, 2, BLANK.used);
    assert UpdateCounters(BLANK, INITIAL_EDIT) == Ok(BLANK.(next := 2));
  }
}
