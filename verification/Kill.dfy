/** A killed process, unlike a power failure, leaves an unsynced manifest edit visible to recovery. */
module Kills {
  import opened Bytes
  import opened Versions
  import opened Fs
  import opened Protocols
  import opened Durability
  import opened Steps

  /** Recovery after a kill has removed a table that only the state before the edit names, and synced the directory. */
  function Cleaned(s: Sys, n: u64): Disc {
    DirectorySynced(Removed(s.disc, Sst(n)))
  }

  /** Every manifest that may survive a later power failure still finds its tables. */
  ghost predicate SurvivesPowerLoss(s: Sys, n: u64) {
    forall files | Survives(Cleaned(s, n), files) :: TablesOn(files, LayoutAfter(s, files))
  }

  lemma EditRecsLength(a: seq<VersionEdit>, b: seq<VersionEdit>)
    requires |a| != |b|
    ensures EditRecs(a) != EditRecs(b)
  {
    assert |EditRecs(a)| == |a| && |EditRecs(b)| == |b|;
  }

  /** The durable manifest still replays to the state that needs the removed table. */
  lemma LostTable(s: Sys, n: u64, k: nat, f: FileMeta)
    requires s in SAFE && s.pend.Some? && HasFile(s.cur.meta.version, k, f) && f.number == n
    requires s.disc.durable[Manifest] != s.disc.volatile[Manifest]
    ensures !SurvivesPowerLoss(s, n)
  {
    SafeParts(s);
    var disc := Cleaned(s, n);
    var files := disc.durable;
    RestoredSurvives(disc);
    assert files[Manifest] == EditRecs(s.cur.edits);
    assert Sst(n) !in files;
    assert !TableOn(files, s.cur.tables, f.number);
    assert !TablesOn(files, LayoutAfter(s, files));
  }

  /** With the edit durable, the state after it is the published one. */
  lemma EditDurable(s: Sys) returns (t: Sys)
    requires s in SAFE && s.pend.Some? && s.disc.durable[Manifest] == s.disc.volatile[Manifest]
    ensures t in SAFE && t.disc == s.disc && t.cur == s.pend.value && t.pend == None && t.mode == Ready
  {
    SafeParts(s);
    SafeKept(s);
    t := s.(cur := s.pend.value, pend := None, mode := Ready, spare := None);
    SafeJoin(t);
  }

  lemma KeptTables(s: Sys, n: u64, files: FileMap)
    requires s in SAFE && s.pend.Some? && s.disc.durable[Manifest] == s.disc.volatile[Manifest]
    requires !Needs(s.pend.value, Sst(n)) && Survives(Cleaned(s, n), files)
    ensures TablesOn(files, LayoutAfter(s, files))
  {
    SafeParts(s);
    var t := EditDurable(s);
    var u := t.(disc := Removed(t.disc, Sst(n)));
    RemoveKeeps(t, u, Sst(n));
    var v := u.(disc := DirectorySynced(u.disc));
    SyncDirectoryKeeps(u, v);
    CrashStands(v, files, v.cur);
    SafeParts(v);
    ManifestSurvives(v, files);
    EditRecsLength(s.cur.edits, s.pend.value.edits);
  }

  /** A table may be removed after a kill exactly when the edit that dropped it is already durable. */
  lemma KillSafety(s: Sys, n: u64)
    requires s in SAFE && s.pend.Some? && Needs(s.cur, Sst(n)) && !Needs(s.pend.value, Sst(n))
    ensures Manifest in s.disc.durable && Manifest in s.disc.volatile
    ensures SurvivesPowerLoss(s, n) <==> s.disc.durable[Manifest] == s.disc.volatile[Manifest]
  {
    SafeParts(s);
    if s.disc.durable[Manifest] == s.disc.volatile[Manifest] {
      forall files | Survives(Cleaned(s, n), files) ensures TablesOn(files, LayoutAfter(s, files)) {
        KeptTables(s, n, files);
      }
    } else {
      var k: nat, f :| HasFile(s.cur.meta.version, k, f) && f.number == n;
      LostTable(s, n, k, f);
    }
  }
}
