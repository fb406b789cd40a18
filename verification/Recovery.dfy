/** What a database finds when it is opened again, after any life of its directory. */
module Recovered {
  import opened Bytes
  import opened Mvcc
  import opened VersionSets
  import opened Stores
  import opened Ledgers
  import opened Protocols
  import opened Durability
  import opened Worlds
  import opened Reopening

  /** Crashes cut the issued batches; nothing else takes one back. */
  lemma CrashCuts(w: World, files: FileMap, w': World)
    requires w in SANE && w.Running? && w' in Next(w, Crash(files))
    ensures w'.Running? && w'.sys.h <= w.sys.h && w'.sys.mode == Down
  {
    assert Lives(w, Crash(files), w');
    CrashSafe(w.sys, files);
  }

  lemma LifeHolds(ws: seq<World>, acts: seq<Act>, i: nat, j: nat)
    requires IsLife(ws, acts) && i <= j < |ws| && ws[j].Running?
    ensures ws[j].sys in SAFE && Acknowledged(ws[i]) <= ws[j].sys.h
  {
    NothingAcknowledgedIsLost(ws, acts, i, j);
    assert Sane(ws[j]);
    assert Acknowledged(ws[j]) <= ws[j].sys.h;
  }

  lemma LifeCuts(ws: seq<World>, acts: seq<Act>, j: nat)
    requires IsLife(ws, acts) && 0 < j < |ws| && acts[j - 1].Crash? && ws[j - 1].Running? && ws[j].Running?
    ensures ws[j].sys.h <= ws[j - 1].sys.h
  {
    NothingAcknowledgedIsLost(ws, acts, j - 1, j - 1);
    assert Lived(ws, acts, j - 1);
    CrashCuts(ws[j - 1], acts[j - 1].files, ws[j]);
  }

  /** A kill takes back nothing that was issued. */
  lemma LifeEnds(ws: seq<World>, acts: seq<Act>, j: nat)
    requires IsLife(ws, acts) && 0 < j < |ws| && acts[j - 1].Kill? && ws[j - 1].Running? && ws[j].Running?
    ensures ws[j].sys.h == ws[j - 1].sys.h
  {
    assert Lived(ws, acts, j - 1);
    assert ws[j].sys in Moved(ws[j - 1].sys, Kill);
    assert Dies(ws[j - 1].sys, ws[j].sys);
  }

  /** Opening the directory again, at any point of any life at which no process runs, rebuilds a store that answers
      every read exactly as the batches `h` it still holds. Those contain every batch ever acknowledged before, in
      order; right after a power failure they are a prefix of the batches issued until then, and right after a kill
      they are all of those. */
  method OpenAfter(ghost ws: seq<World>, ghost acts: seq<Act>, ghost j: nat, files: FileMap, numbers: seq<u64>,
                   meta: Meta, next: u64)
      returns (mem: seq<seq<Entry>>, sequence: u64)
    requires IsLife(ws, acts) && j < |ws| && ws[j].Running? && ws[j].sys.mode.Down?
    requires files == ws[j].sys.disc.volatile && meta == ws[j].sys.cur.meta && meta.next <= next
    requires Listing(files, numbers) && (forall n: u64 | Wal(n) in files :: n in numbers)
    ensures sequence == |ws[j].sys.h|
    ensures Inv(Store([[]] + mem, None, meta.version, ws[j].sys.cur.tables, next, sequence, multiset{},
                      ws[j].sys.cur.clock),
                Slice(ws[j].sys.h, 0, |ws[j].sys.h|))
    ensures forall i | 0 <= i <= j :: Acknowledged(ws[i]) <= ws[j].sys.h
    ensures j > 0 && acts[j - 1].Crash? && ws[j - 1].Running? ==> ws[j].sys.h <= ws[j - 1].sys.h
    ensures j > 0 && acts[j - 1].Kill? && ws[j - 1].Running? ==> ws[j].sys.h == ws[j - 1].sys.h
  {
    LifeHolds(ws, acts, j, j);
    mem, sequence := Reopen(files, numbers, meta, next, ws[j].sys);
    forall i | 0 <= i <= j ensures Acknowledged(ws[i]) <= ws[j].sys.h {
      LifeHolds(ws, acts, i, j);
    }
    if j > 0 && acts[j - 1].Crash? && ws[j - 1].Running? {
      LifeCuts(ws, acts, j);
    }
    if j > 0 && acts[j - 1].Kill? && ws[j - 1].Running? {
      LifeEnds(ws, acts, j);
    }
  }
}
