/** Which table files stay on disk: versions that readers still hold, and the queue of files to remove. */
module Leases {
  import opened Bytes

  type VersionId = nat
  type Lease = nat

  /** Files that left with a version, and the version they left. */
  datatype Obsolete = Obsolete(version: VersionId, files: seq<u64>)

  /** A reader's weak entry in the engine's list. */
  datatype ReaderVersion = ReaderVersion(version: VersionId, lease: Lease)

  const PRUNE_INTERVAL := 64

  function Members(files: seq<u64>): set<u64> {
    set n | n in files
  }

  function Queued(queue: seq<Obsolete>): set<u64> {
    set i, n | 0 <= i < |queue| && n in queue[i].files :: n
  }

  ghost predicate Apart(queue: seq<Obsolete>) {
    forall i, j | 0 <= i < j < |queue| :: queue[i].version != queue[j].version
  }

  lemma ApartConcat(a: seq<Obsolete>, b: seq<Obsolete>)
    requires Apart(a) && Apart(b) && VersionsOf(a) !! VersionsOf(b)
    ensures Apart(a + b) && VersionsOf(a + b) == VersionsOf(a) + VersionsOf(b)
  {
    forall i, j | 0 <= i < j < |a + b| ensures (a + b)[i].version != (a + b)[j].version {
      assert i < |a| ==> a[i].version in VersionsOf(a);
      assert j >= |a| ==> b[j - |a|].version in VersionsOf(b);
    }
    assert forall o | o in b :: o in a + b;
    assert forall o | o in a :: o in a + b;
  }

  lemma Joined(a: seq<Obsolete>, b: seq<Obsolete>)
    requires Apart(a) && Apart(b) && VersionsOf(a) !! VersionsOf(b)
    ensures Apart(a + b) && VersionsOf(a + b) == VersionsOf(a) + VersionsOf(b)
    ensures Queued(a + b) == Queued(a) + Queued(b)
  {
    ApartConcat(a, b);
    QueuedConcat(a, b);
  }

  lemma ApartSplit(queue: seq<Obsolete>)
    requires queue != [] && Apart(queue)
    ensures Apart(queue[1..]) && queue[0].version !in VersionsOf(queue[1..])
    ensures VersionsOf(queue) == {queue[0].version} + VersionsOf(queue[1..])
  {
    assert queue == [queue[0]] + queue[1..];
    forall o | o in queue[1..] ensures o.version != queue[0].version {
      var i :| 0 <= i < |queue| - 1 && queue[1..][i] == o;
      assert queue[1 + i] == o;
    }
  }

  lemma MembersSplit(files: seq<u64>)
    requires files != []
    ensures Members(files) == {files[0]} + Members(files[1..])
  {
    assert files == [files[0]] + files[1..];
  }

  lemma QueuedConcat(a: seq<Obsolete>, b: seq<Obsolete>)
    ensures Queued(a + b) == Queued(a) + Queued(b)
  {
    forall n ensures n in Queued(a + b) <==> n in Queued(a) || n in Queued(b) {
      if i :| 0 <= i < |a + b| && n in (a + b)[i].files {
        assert if i < |a| then n in a[i].files else n in b[i - |a|].files;
      }
      if i :| 0 <= i < |a| && n in a[i].files {
        assert (a + b)[i] == a[i];
      }
      if i :| 0 <= i < |b| && n in b[i].files {
        assert (a + b)[|a| + i] == b[i];
      }
    }
  }

  lemma QueuedOne(o: Obsolete)
    ensures Queued([o]) == Members(o.files)
  {
    assert [o][0] == o;
  }

  lemma QueuedSplit(queue: seq<Obsolete>)
    requires queue != []
    ensures Queued(queue) == Members(queue[0].files) + Queued(queue[1..])
  {
    QueuedConcat([queue[0]], queue[1..]);
    QueuedOne(queue[0]);
    assert queue == [queue[0]] + queue[1..];
  }

  /** Entries whose reader is still alive. */
  function Alive(registry: seq<ReaderVersion>, leases: map<Lease, VersionId>): (r: seq<ReaderVersion>)
    ensures forall e :: e in r <==> e in registry && e.lease in leases
  {
    if registry == [] then [] else
      var rest := Alive(registry[1..], leases);
      if registry[0].lease in leases then [registry[0]] + rest else rest
  }

  /** Files of a version that something beside the queue still holds. */
  function Files(versions: seq<set<u64>>, ids: set<VersionId>): (r: set<u64>)
    ensures forall v | v in ids && v < |versions| :: versions[v] <= r
  {
    set v, n | v in ids && v < |versions| && n in versions[v] :: n
  }

  function Holding(leases: map<Lease, VersionId>, v: VersionId): set<Lease> {
    set l | l in leases && leases[l] == v
  }

  function VersionsOf(queue: seq<Obsolete>): set<VersionId> {
    set o | o in queue :: o.version
  }

  ghost predicate Readers(versions: seq<set<u64>>, leases: map<Lease, VersionId>, nextLease: Lease, disk: set<u64>) {
    forall l | l in leases :: l < nextLease && leases[l] < |versions| && versions[leases[l]] <= disk
  }

  ghost predicate Registered(versions: seq<set<u64>>, leases: map<Lease, VersionId>, nextLease: Lease,
                             registry: seq<ReaderVersion>)
  {
    && (forall l | l in leases :: ReaderVersion(leases[l], l) in registry)
    && (forall e | e in registry :: e.lease < nextLease && e.version < |versions|)
  }

  ghost predicate Numbered(versions: seq<set<u64>>, queue: seq<Obsolete>, next: u64) {
    && (forall v, n | 0 <= v < |versions| && n in versions[v] :: n < next)
    && (forall n | n in Queued(queue) :: n < next)
    && (forall v | v in VersionsOf(queue) :: v < |versions| - 1) && Apart(queue)
  }

  /** Numbers handed out for new tables name nothing yet. */
  ghost predicate Reserved(versions: seq<set<u64>>, queue: seq<Obsolete>, next: u64, pending: set<u64>) {
    && (forall n | n in pending :: n < next && n !in Queued(queue))
    && (forall v, n | 0 <= v < |versions| && n in versions[v] :: n !in pending)
  }

  /** Numbers a table may still be written under. */
  predicate Fresh(s: Shelf, added: set<u64>) {
    forall n | n in added :: n in s.pending || s.next <= n
  }

  /** The shared state behind the engine's lock, with the table files on disk. */
  datatype Shelf = Shelf(
    versions: seq<set<u64>>,             // the files of every version published, in order
    registry: seq<ReaderVersion>,
    leases: map<Lease, VersionId>,       // live readers and the versions they hold
    obsolete: seq<Obsolete>,
    disk: set<u64>,
    next: u64,
    pending: set<u64>,                   // numbers handed out for tables that are not published yet
    nextLease: Lease)
  {
    function Current(): set<u64>
      requires versions != []
    {
      versions[|versions| - 1]
    }

    /** How many owners a version has. */
    function StrongCount(v: VersionId): nat {
      (if v == |versions| - 1 then 1 else 0) + |set i | 0 <= i < |obsolete| && obsolete[i].version == v|
      + |Holding(leases, v)|
    }

    /** The versions whose files a reclaim leaves alone. */
    function Held(): set<VersionId> {
      (set o | o in obsolete && StrongCount(o.version) != 1 :: o.version)
      + (set e | e in registry && e.lease in leases :: e.version)
    }

    function Protected(): set<u64> {
      Files(versions, Held())
    }
  }

  /** Every file of the current version and of every live reader's version is on disk; no queued file is in the
      current version; every live reader is registered; numbers from `next` on name no file yet. */
  ghost predicate Safe(s: Shelf) {
    && s.versions != [] && s.Current() <= s.disk && Queued(s.obsolete) !! s.Current()
    && Readers(s.versions, s.leases, s.nextLease, s.disk) && Registered(s.versions, s.leases, s.nextLease, s.registry)
    && Numbered(s.versions, s.obsolete, s.next) && Reserved(s.versions, s.obsolete, s.next, s.pending)
  }

  ghost const SAFE: iset<Shelf> := iset s | Safe(s)

  /** A live reader, and the current version, find every file they name. */
  lemma FilesPresent(s: Shelf, lease: Lease)
    requires s in SAFE
    ensures s.versions != [] && s.Current() <= s.disk
    ensures lease in s.leases ==> s.leases[lease] < |s.versions| && s.versions[s.leases[lease]] <= s.disk
  {
  }

  lemma RegisterKeeps(s: Shelf, registry: seq<ReaderVersion>)
    requires s in SAFE && (registry == s.registry || registry == Alive(s.registry, s.leases))
    ensures s.versions != [] && s.nextLease !in s.leases
    ensures s.(registry := registry + [ReaderVersion(|s.versions| - 1, s.nextLease)],
               leases := s.leases[s.nextLease := |s.versions| - 1], nextLease := s.nextLease + 1) in SAFE
  {
  }

  lemma ReleaseKeeps(s: Shelf, lease: Lease)
    requires s in SAFE
    ensures s.(leases := s.leases - {lease}) in SAFE
  {
  }

  lemma WriteKeeps(s: Shelf, added: set<u64>)
    requires s in SAFE
    ensures s.(disk := s.disk + added) in SAFE
  {
  }

  /** Logs take numbers too; only those for tables are remembered. */
  lemma AllocateKeeps(s: Shelf, table: bool)
    requires s in SAFE && s.next < U64_MAX
    ensures Allocated(s, table) in SAFE
  {
  }

  function Allocated(s: Shelf, table: bool): Shelf
    requires s.next < U64_MAX
  {
    s.(next := s.next + 1, pending := s.pending + if table then {s.next} else {})
  }

  /** Tables that were never published can go: no version names them. */
  lemma CleanupKeeps(s: Shelf, gone: set<u64>)
    requires s in SAFE && Fresh(s, gone)
    ensures s.(disk := s.disk - gone) in SAFE
  {
  }

  function Published(s: Shelf, added: set<u64>, next: u64, dropped: seq<u64>): Shelf
    requires s.versions != []
  {
    s.(versions := s.versions + [s.Current() - Members(dropped) + added], next := next, pending := s.pending - added,
       obsolete := if dropped == [] then s.obsolete else s.obsolete + [Obsolete(|s.versions| - 1, dropped)])
  }

  predicate Publishable(s: Shelf, added: set<u64>, next: u64, dropped: seq<u64>) {
    && s.versions != [] && Members(dropped) <= s.Current()
    && Fresh(s, added) && s.next <= next && forall n | n in added :: n < next
  }

  lemma PublishQueue(s: Shelf, dropped: seq<u64>)
    requires s in SAFE && s.versions != []
    ensures var queue := s.obsolete + [Obsolete(|s.versions| - 1, dropped)];
      && Queued(queue) == Queued(s.obsolete) + Members(dropped) && Apart(queue)
      && VersionsOf(queue) == VersionsOf(s.obsolete) + {|s.versions| - 1}
  {
    var retired := Obsolete(|s.versions| - 1, dropped);
    QueuedConcat(s.obsolete, [retired]);
    QueuedOne(retired);
    assert VersionsOf([retired]) == {retired.version};
    ApartConcat(s.obsolete, [retired]);
  }

  /** New numbers are named by no version and no queued entry, so a version never takes back a file. */
  lemma PublishKeeps(s: Shelf, added: set<u64>, next: u64, dropped: seq<u64>)
    requires s in SAFE && Publishable(s, added, next, dropped) && added <= s.disk
    ensures Published(s, added, next, dropped) in SAFE
    ensures Queued(Published(s, added, next, dropped).obsolete) == Queued(s.obsolete) + Members(dropped)
  {
    var t := Published(s, added, next, dropped);
    PublishQueue(s, dropped);
    assert Queued(t.obsolete) == Queued(s.obsolete) + Members(dropped);
    PublishNumbered(s, added, next, dropped, t);
  }

  lemma PublishNumbered(s: Shelf, added: set<u64>, next: u64, dropped: seq<u64>, t: Shelf)
    requires s in SAFE && Publishable(s, added, next, dropped) && t == Published(s, added, next, dropped)
    requires Queued(t.obsolete) == Queued(s.obsolete) + Members(dropped)
    requires Apart(t.obsolete) && VersionsOf(t.obsolete) <= VersionsOf(s.obsolete) + {|s.versions| - 1}
    ensures Numbered(t.versions, t.obsolete, t.next) && Reserved(t.versions, t.obsolete, t.next, t.pending)
    ensures Queued(t.obsolete) !! t.Current()
  {
  }

  lemma HeldByReaders(s: Shelf, lease: Lease)
    requires s in SAFE && lease in s.leases
    ensures s.leases[lease] < |s.versions| && s.versions[s.leases[lease]] <= s.Protected()
  {
    assert ReaderVersion(s.leases[lease], lease) in s.registry;
    assert s.leases[lease] in s.Held();
  }

  lemma ReclaimKeeps(s: Shelf, queue: seq<Obsolete>, gone: set<u64>)
    requires s in SAFE && gone !! s.Protected() && Queued(queue) + gone == Queued(s.obsolete)
    requires Apart(queue) && VersionsOf(queue) <= VersionsOf(s.obsolete)
    ensures s.(registry := Alive(s.registry, s.leases), obsolete := queue, disk := s.disk - gone) in SAFE
  {
    ReadersKeepFiles(s, gone);
    FewerQueued(s, queue);
  }

  lemma ReadersKeepFiles(s: Shelf, gone: set<u64>)
    requires s in SAFE && gone !! s.Protected()
    ensures Readers(s.versions, s.leases, s.nextLease, s.disk - gone)
  {
    forall l | l in s.leases ensures s.versions[s.leases[l]] <= s.disk - gone {
      HeldByReaders(s, l);
    }
  }

  lemma FewerQueued(s: Shelf, queue: seq<Obsolete>)
    requires s in SAFE && Queued(queue) <= Queued(s.obsolete)
    requires Apart(queue) && VersionsOf(queue) <= VersionsOf(s.obsolete)
    ensures Numbered(s.versions, queue, s.next) && Reserved(s.versions, queue, s.next, s.pending)
  {
  }

  /** Without readers nothing is protected, so a reclaim that meets no error empties the queue. */
  lemma NoReaderNoneHeld(s: Shelf)
    requires s in SAFE && s.leases == map[]
    ensures s.Held() == {} && s.Protected() == {}
  {
    forall o | o in s.obsolete ensures s.StrongCount(o.version) == 1 {
      var k :| 0 <= k < |s.obsolete| && s.obsolete[k] == o;
      assert o.version in VersionsOf(s.obsolete);
      assert (set i | 0 <= i < |s.obsolete| && s.obsolete[i].version == o.version) == {k};
      assert Holding(s.leases, o.version) <= s.leases.Keys;
    }
  }

  /** What can happen under the lock, or, for the end of a read, beside it. */
  datatype Move =
    | Begin(pruned: bool)
    | End(lease: Lease)
    | Write(added: set<u64>)
    | Allocate(table: bool)
    | Commit(added: set<u64>, next: u64, dropped: seq<u64>)
    | Cleanup(removed: set<u64>)
    | Reclaim(queue: seq<Obsolete>, gone: set<u64>)

  ghost predicate Moves(s: Shelf, m: Move, t: Shelf) {
    s.versions != [] &&
    match m
    case Begin(pruned) =>
      var registry := if pruned then Alive(s.registry, s.leases) else s.registry;
      t == s.(registry := registry + [ReaderVersion(|s.versions| - 1, s.nextLease)],
      leases := s.leases[s.nextLease := |s.versions| - 1], nextLease := s.nextLease + 1)
    case End(lease) => t == s.(leases := s.leases - {lease})
    case Write(added) => Fresh(s, added) && t == s.(disk := s.disk + added)
    case Allocate(table) => s.next < U64_MAX && t == Allocated(s, table)
    case Commit(added, next, dropped) =>
      Publishable(s, added, next, dropped) && added <= s.disk && t == Published(s, added, next, dropped)
    case Cleanup(removed) => Fresh(s, removed) && t == s.(disk := s.disk - removed)
    case Reclaim(queue, gone) =>
      && gone !! s.Protected() && Queued(queue) + gone == Queued(s.obsolete)
      && Apart(queue) && VersionsOf(queue) <= VersionsOf(s.obsolete)
      && t == s.(registry := Alive(s.registry, s.leases), obsolete := queue, disk := s.disk - gone)
  }

  lemma MoveKeeps(s: Shelf, m: Move, t: Shelf)
    requires s in SAFE && Moves(s, m, t)
    ensures t in SAFE
  {
    match m
    case Begin(pruned) => RegisterKeeps(s, if pruned then Alive(s.registry, s.leases) else s.registry);
    case End(lease) => ReleaseKeeps(s, lease);
    case Write(added) => WriteKeeps(s, added);
    case Allocate(table) => AllocateKeeps(s, table);
    case Commit(added, next, dropped) => PublishKeeps(s, added, next, dropped);
    case Cleanup(removed) => CleanupKeeps(s, removed);
    case Reclaim(queue, gone) => ReclaimKeeps(s, queue, gone);
  }

  lemma MoveHistory(s: Shelf, m: Move, t: Shelf, lease: Lease)
    requires s in SAFE && Moves(s, m, t) && lease in s.leases && lease in t.leases
    ensures s.versions <= t.versions && t.leases[lease] == s.leases[lease]
  {
    if m.Begin? {
      RegisterKeeps(s, if m.pruned then Alive(s.registry, s.leases) else s.registry);
    }
  }

  /** In every run a reader that has not ended still holds the version it began with, and finds every file of it. */
  lemma {:induction false} ReaderNeverMisses(run: seq<Shelf>, moves: seq<Move>, lease: Lease)
    requires |run| == |moves| + 1 && run[0] in SAFE
    requires forall i | 0 <= i < |moves| :: Moves(run[i], moves[i], run[i + 1])
    requires forall s | s in run :: lease in s.leases
    ensures run[0].leases[lease] < |run[0].versions|
    ensures var last := run[|moves|];
      && last in SAFE && run[0].versions <= last.versions && last.leases[lease] == run[0].leases[lease]
      && run[0].versions[run[0].leases[lease]] <= last.disk
  {
    FilesPresent(run[0], lease);
    if moves != [] {
      var k := |moves| - 1;
      assert forall s | s in run[..k + 1] :: s in run;
      ReaderNeverMisses(run[..k + 1], moves[..k], lease);
      assert Moves(run[k], moves[k], run[k + 1]);
      MoveKeeps(run[k], moves[k], run[k + 1]);
      MoveHistory(run[k], moves[k], run[k + 1], lease);
      FilesPresent(run[k + 1], lease);
    }
  }

  /** How the manifest took an edit. */
  datatype Outcome = Accepted | Refused | Unclear

  class TableFiles {
    var shelf: Shelf

    constructor (next: u64)
      ensures shelf in SAFE && shelf == Shelf([{}], [], map[], [], {}, next, {}, 0)
    {
      shelf := Shelf([{}], [], map[], [], {}, next, {}, 0);
    }

    /** A read takes a lease on the current version; dead entries are pruned now and then. */
    method Register() returns (lease: Lease)
      requires shelf in SAFE
      modifies this
      ensures shelf in SAFE && lease !in old(shelf).leases
      ensures shelf.leases == old(shelf).leases[lease := |shelf.versions| - 1]
      ensures shelf == old(shelf).(registry := shelf.registry, leases := shelf.leases, nextLease := shelf.nextLease)
    {
      var registry := shelf.registry;
      if |registry| >= PRUNE_INTERVAL {
        registry := Alive(registry, shelf.leases);
      }
      RegisterKeeps(shelf, registry);
      lease := shelf.nextLease;
      var current := |shelf.versions| - 1;
      shelf := shelf.(registry := registry + [ReaderVersion(current, lease)],
      leases := shelf.leases[lease := current], nextLease := lease + 1);
    }

    /** A read ends at any time, without the lock. */
    method Release(lease: Lease)
      requires shelf in SAFE
      modifies this
      ensures shelf in SAFE && shelf == old(shelf).(leases := old(shelf).leases - {lease})
    {
      ReleaseKeeps(shelf, lease);
      shelf := shelf.(leases := shelf.leases - {lease});
    }

    /** Hands out a number, for a log or for a table that a flush will write. */
    method Allocate(table: bool) returns (n: Option<u64>)
      requires shelf in SAFE
      modifies this
      ensures shelf in SAFE && (n.Some? <==> old(shelf).next < U64_MAX)
      ensures n.Some? ==> n.value == old(shelf).next && shelf == Allocated(old(shelf), table)
      ensures n == None ==> shelf == old(shelf)
    {
      if shelf.next == U64_MAX {
        return None;
      }
      AllocateKeeps(shelf, table);
      n := Some(shelf.next);
      shelf := Allocated(shelf, table);
    }

    /** Writes new tables and publishes a version with them and without `dropped`. A flush adds the table it took a
        number for, a compaction adds numbers from `next` on and queues what it dropped. A refused compaction
        removes its tables; they stay when its edit may be visible. */
    method Publish(added: set<u64>, next: u64, dropped: seq<u64>, outcome: Outcome)
      requires shelf in SAFE && Publishable(shelf, added, next, dropped)
      modifies this
      ensures shelf in SAFE
      ensures outcome == Refused ==> shelf == old(shelf).(disk := old(shelf).disk - added)
      ensures outcome == Unclear ==> shelf == old(shelf).(disk := old(shelf).disk + added)
      ensures outcome == Accepted ==>
                && shelf.Current() == old(shelf.Current()) - Members(dropped) + added
                && shelf.leases == old(shelf).leases
                && Queued(shelf.obsolete) == Queued(old(shelf).obsolete) + Members(dropped)
                && shelf.disk == old(shelf).disk + added && shelf.next == next
    {
      WriteKeeps(shelf, added);
      shelf := shelf.(disk := shelf.disk + added);
      if outcome == Refused {
        CleanupKeeps(shelf, added);
        shelf := shelf.(disk := shelf.disk - added);
        assert shelf.disk == old(shelf).disk - added;
      } else if outcome == Accepted {
        PublishKeeps(shelf, added, next, dropped);
        shelf := Published(shelf, added, next, dropped);
      }
    }

    /** Removes every queued file that is not protected, unless a removal fails; what is not removed stays queued. */
    method Reclaim(removable: u64 -> bool) returns (ok: bool, ghost gone: set<u64>)
      requires shelf in SAFE
      modifies this
      ensures shelf in SAFE && shelf.leases == old(shelf).leases && shelf.versions == old(shelf).versions
      ensures shelf.disk == old(shelf).disk - gone && gone <= Queued(old(shelf).obsolete) - old(shelf).Protected()
      ensures Queued(shelf.obsolete) + gone == Queued(old(shelf).obsolete)
      ensures ok ==> gone == Queued(old(shelf).obsolete) - old(shelf).Protected()
      ensures !ok ==> exists n :: n in Queued(shelf.obsolete) && !removable(n)
    {
      var queue, disk;
      var protected := shelf.Protected();
      ok, queue, disk, gone := RemoveFiles(shelf.obsolete, shelf.disk, protected, removable);
      ReclaimKeeps(shelf, queue, gone);
      shelf := shelf.(registry := Alive(shelf.registry, shelf.leases), obsolete := queue, disk := disk);
    }
  }

  /** A reclaim under way: the entries passed over, those to come, and the files removed. */
  datatype Sweep = Sweep(retained: seq<Obsolete>, rest: seq<Obsolete>, gone: set<u64>)

  ghost predicate Sweeping(queue: seq<Obsolete>, protected: set<u64>, w: Sweep) {
    && w.gone !! protected && Queued(w.retained) + w.gone + Queued(w.rest) == Queued(queue)
    && Apart(w.retained) && Apart(w.rest) && VersionsOf(w.retained) !! VersionsOf(w.rest)
    && VersionsOf(w.retained) + VersionsOf(w.rest) <= VersionsOf(queue)
  }

  ghost function SWEEPS(queue: seq<Obsolete>, protected: set<u64>): iset<Sweep> {
    iset w | Sweeping(queue, protected, w)
  }

  lemma Accounted(kept: set<u64>, gone: set<u64>, entry: set<u64>, rest: set<u64>, stays: set<u64>, removed: set<u64>)
    requires stays + removed == entry
    ensures kept + stays + (gone + removed) + rest == kept + gone + (entry + rest)
  {
  }

  /** The sweep moves past its first entry, of which `stays` is kept, wherever that goes. */
  lemma SweepTo(queue: seq<Obsolete>, protected: set<u64>, w: Sweep, stays: seq<u64>, removed: set<u64>,
                retained: seq<Obsolete>)
    requires w in SWEEPS(queue, protected) && w.rest != []
    requires removed !! protected && Members(stays) + removed == Members(w.rest[0].files)
    requires Apart(retained) && VersionsOf(retained) <= VersionsOf(w.retained) + {w.rest[0].version}
    requires Queued(retained) == Queued(w.retained) + Members(stays)
    ensures Sweep(retained, w.rest[1..], w.gone + removed) in SWEEPS(queue, protected)
  {
    QueuedSplit(w.rest);
    ApartSplit(w.rest);
    Accounted(Queued(w.retained), w.gone, Members(w.rest[0].files), Queued(w.rest[1..]), Members(stays), removed);
  }

  lemma EntryJoins(w: Sweep, stays: seq<u64>, entry: Obsolete)
    requires w.rest != [] && Apart(w.retained) && VersionsOf(w.retained) !! VersionsOf(w.rest)
    requires entry == Obsolete(w.rest[0].version, stays)
    ensures forall r | r == w.retained + [entry] || r == [entry] + w.retained ::
      && Apart(r) && VersionsOf(r) == VersionsOf(w.retained) + {entry.version}
      && Queued(r) == Queued(w.retained) + Members(stays)
  {
    QueuedOne(entry);
    assert VersionsOf([entry]) == {entry.version};
    assert w.rest[0].version in VersionsOf(w.rest);
    Joined(w.retained, [entry]);
    Joined([entry], w.retained);
  }

  lemma SweepNext(queue: seq<Obsolete>, protected: set<u64>, w: Sweep, stays: seq<u64>, removed: set<u64>)
    requires w in SWEEPS(queue, protected) && w.rest != []
    requires removed !! protected && Members(stays) + removed == Members(w.rest[0].files)
    ensures var entry := w.rest[0].(files := stays);
      forall r | r == w.retained + [entry] || r == [entry] + w.retained || (stays == [] && r == w.retained) ::
        && Sweep(r, w.rest[1..], w.gone + removed) in SWEEPS(queue, protected)
        && Queued(r) == Queued(w.retained) + Members(stays)
  {
    var entry := w.rest[0].(files := stays);
    forall r | r == w.retained + [entry] || r == [entry] + w.retained || (stays == [] && r == w.retained)
      ensures Sweep(r, w.rest[1..], w.gone + removed) in SWEEPS(queue, protected)
      ensures Queued(r) == Queued(w.retained) + Members(stays)
    {
      EntryJoins(w, stays, entry);
      SweepTo(queue, protected, w, stays, removed, r);
    }
  }

  lemma SweepStops(queue: seq<Obsolete>, protected: set<u64>, w: Sweep)
    requires w in SWEEPS(queue, protected)
    ensures Apart(w.retained + w.rest) && VersionsOf(w.retained + w.rest) <= VersionsOf(queue)
    ensures w.gone !! protected && Queued(w.retained + w.rest) + w.gone == Queued(queue)
    ensures Queued(w.retained) <= Queued(w.retained + w.rest)
  {
    Joined(w.retained, w.rest);
  }

  /** The two loops of a reclaim over the queue and over each entry's files. */
  method RemoveFiles(queue: seq<Obsolete>, disk: set<u64>, protected: set<u64>, removable: u64 -> bool)
    returns (ok: bool, retained: seq<Obsolete>, left: set<u64>, ghost gone: set<u64>)
    requires Apart(queue)
    ensures left == disk - gone && gone !! protected && Queued(retained) + gone == Queued(queue)
    ensures ok ==> Queued(retained) <= protected
    ensures !ok ==> exists n :: n in Queued(retained) && !removable(n)
    ensures VersionsOf(retained) <= VersionsOf(queue) && Apart(retained)
  {
    var rest := queue;
    retained, left, gone := [], disk, {};
    while rest != []
      invariant left == disk - gone && Sweep(retained, rest, gone) in SWEEPS(queue, protected)
      invariant Queued(retained) <= protected
      decreases |rest|
    {
      var o := rest[0];
      var stays: seq<u64>;
      ghost var removed: set<u64>;
      ok, stays, left, removed := RemoveEntry(o.files, left, protected, removable);
      SweepNext(queue, protected, Sweep(retained, rest, gone), stays, removed);
      rest, gone := rest[1..], gone + removed;
      if !ok {
        retained := [o.(files := stays)] + retained;
        SweepStops(queue, protected, Sweep(retained, rest, gone));
        retained := retained + rest;
        return;
      }
      if stays != [] {
        retained := retained + [o.(files := stays)];
      }
    }
    SweepStops(queue, protected, Sweep(retained, rest, gone));
    assert retained + rest == retained;
    ok := true;
  }

  method RemoveEntry(files: seq<u64>, disk: set<u64>, protected: set<u64>, removable: u64 -> bool)
    returns (ok: bool, stays: seq<u64>, left: set<u64>, ghost gone: set<u64>)
    ensures left == disk - gone && gone !! protected && Members(stays) + gone == Members(files)
    ensures ok ==> Members(stays) <= protected
    ensures !ok ==> exists n :: n in Members(stays) && !removable(n)
  {
    var rest := files;
    stays, left, gone := [], disk, {};
    while rest != []
      invariant left == disk - gone && gone !! protected && Members(stays) + gone + Members(rest) == Members(files)
      invariant Members(stays) <= protected
      decreases |rest|
    {
      var number := rest[0];
      MembersSplit(rest);
      rest := rest[1..];
      if number in protected {
        stays := stays + [number];
      } else if !removable(number) {
        stays := [number] + stays + rest;
        assert number in Members(stays);
        return false, stays, left, gone;
      } else {
        left := left - {number};
        gone := gone + {number};
      }
    }
    ok := true;
  }
}
