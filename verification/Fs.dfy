/** Crash semantics of a directory: what is visible, what is synced and what survives power loss. */
module Fs {
  /** Files are append-only lists of records. */
  type Files<!P(==), R> = map<P, seq<R>>

  datatype Image<!P(==), R> = Image(volatile: Files<P, R>, synced: Files<P, R>, durable: Files<P, R>)

  function Created<P, R>(i: Image<P, R>, p: P): Image<P, R> {
    i.(volatile := i.volatile[p := []], synced := i.synced - {p})
  }

  function Content<P, R>(f: Files<P, R>, p: P): seq<R> {
    if p in f then f[p] else []
  }

  function Appended<P, R>(i: Image<P, R>, p: P, rs: seq<R>): Image<P, R> {
    i.(volatile := i.volatile[p := Content(i.volatile, p) + rs])
  }

  /** Synced content becomes durable at once only for a file whose name already is. */
  function FileSynced<P, R>(i: Image<P, R>, p: P): Image<P, R> {
    if p !in i.volatile then i else
      i.(synced := i.synced[p := i.volatile[p]],
         durable := if p in i.durable then i.durable[p := i.volatile[p]] else i.durable)
  }

  function Moved<P, R>(f: Files<P, R>, a: P, b: P): Files<P, R> {
    if a in f then (f - {a})[b := f[a]] else f
  }

  function Renamed<P, R>(i: Image<P, R>, a: P, b: P): Image<P, R> {
    i.(volatile := Moved(i.volatile, a, b), synced := Moved(i.synced, a, b))
  }

  /** What a directory sync makes durable under one name. */
  function DirectoryEntry<P, R>(i: Image<P, R>, p: P): seq<R> {
    if p in i.synced then i.synced[p] else Content(i.durable, p)
  }

  function DirectorySynced<P, R>(i: Image<P, R>): Image<P, R> {
    i.(durable := map p | p in i.volatile :: DirectoryEntry(i, p))
  }

  function Removed<P, R>(i: Image<P, R>, p: P): Image<P, R> {
    i.(volatile := i.volatile - {p}, synced := i.synced - {p})
  }

  function Restored<P, R>(i: Image<P, R>): Image<P, R> {
    i.(volatile := i.durable, synced := i.durable)
  }

  /** Unsynced appends may survive a crash in part: any prefix of them, file by file. */
  predicate MaySurvive<P, R(==)>(i: Image<P, R>, p: P, content: seq<R>)
    requires p in i.durable
  {
    i.durable[p] <= content && (content == i.durable[p] || content <= Content(i.volatile, p))
  }

  predicate Survives<P, R(==)>(i: Image<P, R>, files: Files<P, R>) {
    files.Keys == i.durable.Keys && forall p | p in files :: MaySurvive(i, p, files[p])
  }

  /** The image that keeps exactly the durable state is one of the possible ones. */
  lemma RestoredSurvives<P, R>(i: Image<P, R>)
    ensures Survives(i, Restored(i).volatile)
  {
  }

  /** The maps as an object that each filesystem call updates in place. */
  class CrashImage<P(==), R> {
    var volatile: Files<P, R>
    var synced: Files<P, R>
    var durable: Files<P, R>
    var tracked: set<P>

    ghost function Maps(): Image<P, R>
      reads this
    {
      Image(volatile, synced, durable)
    }

    /** Every name in any map is tracked. */
    ghost predicate Valid()
      reads this
    {
      volatile.Keys + synced.Keys + durable.Keys <= tracked
    }

    constructor ()
      ensures Valid() && Maps() == Image(map[], map[], map[])
    {
      volatile, synced, durable, tracked := map[], map[], map[], {};
    }

    method TrackNewFile(p: P)
      requires Valid()
      modifies this
      ensures Valid() && Maps() == Created(old(Maps()), p)
    {
      tracked := tracked + {p};
      volatile, synced := volatile[p := []], synced - {p};
    }

    method RecordWrite(p: P, rs: seq<R>)
      requires Valid()
      modifies this
      ensures Valid() && Maps() == Appended(old(Maps()), p, rs)
    {
      tracked := tracked + {p};
      volatile := volatile[p := (if p in volatile then volatile[p] else []) + rs];
    }

    method RecordFileSync(p: P)
      requires Valid()
      modifies this
      ensures Valid() && Maps() == FileSynced(old(Maps()), p)
    {
      if p in volatile {
        synced := synced[p := volatile[p]];
        if p in durable {
          durable := durable[p := volatile[p]];
        }
      }
    }

    method RecordRename(a: P, b: P)
      requires Valid()
      modifies this
      ensures Valid() && Maps() == Renamed(old(Maps()), a, b)
    {
      tracked := tracked + {a, b};
      if a in volatile {
        volatile := (volatile - {a})[b := volatile[a]];
      }
      if a in synced {
        synced := (synced - {a})[b := synced[a]];
      }
    }

    /** Visits every tracked name: a visible one becomes durable, any other is forgotten. */
    method RecordDirectorySync()
      requires Valid()
      modifies this`durable
      ensures Valid() && Maps() == DirectorySynced(old(Maps()))
    {
      var paths := tracked;
      ghost var before := Maps();
      while paths != {}
        invariant paths <= tracked
        invariant forall p | p in paths ::
                    (p in durable <==> p in before.durable) && (p in durable ==> durable[p] == before.durable[p])
        invariant forall p | p in tracked && p !in paths :: (p in durable <==> p in volatile)
        invariant forall p | p in durable && p !in paths :: p in tracked && durable[p] == DirectoryEntry(before, p)
        invariant durable.Keys <= tracked
        decreases |paths|
      {
        var p :| p in paths;
        paths := paths - {p};
        if p in volatile {
          var bytes := if p in synced then synced[p] else if p in durable then durable[p] else [];
          durable := durable[p := bytes];
        } else {
          durable := durable - {p};
        }
      }
      assert durable == DirectorySynced(before).durable;
    }

    method RecordRemove(p: P)
      requires Valid()
      modifies this
      ensures Valid() && Maps() == Removed(old(Maps()), p)
    {
      tracked := tracked + {p};
      volatile, synced := volatile - {p}, synced - {p};
    }

    method RestoreDurableState()
      requires Valid()
      modifies this
      ensures Valid() && Maps() == Restored(old(Maps()))
    {
      volatile, synced := durable, durable;
    }
  }
}
