/** Whole runs of the store and what a reader sees in every state of a run. */
module Runs {
  import opened Bytes
  import opened Mvcc
  import opened MemTables
  import opened Versions
  import opened Plans
  import opened Layouts
  import opened PointReads
  import opened Install
  import opened Stores

  datatype Action =
    | Write(batch: Batch)
    | Rotate
    | BeginFlush
    | CommitFlush(size: u64)
    | Compact(plan: Plan, oldest: Option<u64>, below: bytes -> bool, ran: u64,
              outputs: seq<seq<Entry>>, sizes: seq<u64>)
    | Acquire(q: u64)
    | Release(q: u64)

  ghost predicate Step(s: Store, a: Action, t: Store) {
    match a
    case Write(batch) => Writes(s, t, batch)
    case Rotate => Rotates(s, t)
    case BeginFlush => BeginsFlush(s, t)
    case CommitFlush(size) => CommitsFlush(s, t, size)
    case Compact(plan, oldest, below, ran, outputs, sizes) => Compacts(s, t, plan, oldest, below, ran, outputs, sizes)
    case Acquire(q) => Acquires(s, t, q)
    case Release(q) => Releases(s, t, q)
  }

  /** Every version ever written: only writes add to it and nothing is dropped from it. */
  ghost function Grown(history: set<Entry>, s: Store, a: Action): set<Entry> {
    if a.Write? && s.committed < U64_MAX then history + Effects(a.batch, s.committed + 1) else history
  }

  /** The histories a store answers for. */
  ghost function Histories(s: Store): iset<set<Entry>> {
    iset history: set<Entry> | Inv(s, history)
  }

  lemma StepKeeps(s: Store, history: set<Entry>, a: Action, t: Store)
    requires history in Histories(s) && Step(s, a, t)
    ensures Grown(history, s, a) in Histories(t)
  {
    if a.Write? {
      WriteStepKeeps(s, history, a.batch, t);
    } else if a.Compact? {
      CompactStepKeeps(s, history, a, t);
    } else {
      OtherStepKeeps(s, history, a, t);
    }
  }

  lemma WriteStepKeeps(s: Store, history: set<Entry>, batch: Batch, t: Store)
    requires history in Histories(s) && Writes(s, t, batch)
    ensures history + Effects(batch, s.committed + 1) in Histories(t)
  {
    WriteKeeps(s, t, history, batch);
  }

  lemma CompactStepKeeps(s: Store, history: set<Entry>, a: Action, t: Store)
    requires history in Histories(s) && a.Compact?
    requires Compacts(s, t, a.plan, a.oldest, a.below, a.ran, a.outputs, a.sizes)
    ensures history in Histories(t)
  {
    CompactKeeps(s, t, history, a.plan, a.oldest, a.below, a.ran, a.outputs, a.sizes);
  }

  lemma OtherStepKeeps(s: Store, history: set<Entry>, a: Action, t: Store)
    requires history in Histories(s) && Step(s, a, t) && !a.Write? && !a.Compact?
    ensures history in Histories(t)
  {
    match a
    case Rotate => RotateKeeps(s, t, history);
    case BeginFlush => BeginFlushKeeps(s, t, history);
    case CommitFlush(size) => CommitFlushKeeps(s, t, history, size);
    case Acquire(q) => AcquireKeeps(s, t, history, q);
    case Release(q) => ReleaseKeeps(s, t, history, q);
  }

  ghost predicate IsRun(states: seq<Store>, actions: seq<Action>) {
    |states| == |actions| + 1 && forall i | 0 <= i < |actions| :: Step(states[i], actions[i], states[i + 1])
  }

  ghost predicate IsFresh(s: Store) {
    && s.mem == [[]] && s.flushing == None && s.version == EMPTY_VERSION
    && s.nextFile >= 1 && s.committed == 0 && s.snapshots == multiset{}
  }

  /** The history after the first `n` actions of a run. */
  ghost function History(states: seq<Store>, actions: seq<Action>, n: nat): set<Entry>
    requires n <= |actions| <= |states|
  {
    if n == 0 then {} else Grown(History(states, actions, n - 1), states[n - 1], actions[n - 1])
  }

  lemma EmptyLayered(disk: Disk)
    ensures Layered(EMPTY_VERSION, disk) && DiskEntries(EMPTY_VERSION, disk) == {}
  {
    var v := EMPTY_VERSION;
    forall l: nat, f ensures !HasFile(v, l, f) {
      assert l < NUM_LEVELS ==> v[l] == [];
    }
    forall l | 0 <= l < NUM_LEVELS ensures v[l] == [] && LevelEntries(v, disk, l) == {} {
    }
  }

  lemma FreshInv(s: Store)
    requires IsFresh(s)
    ensures Inv(s, {})
  {
    EmptyLayered(s.disk);
    assert MemoryEntries(s.mem) == {} && All(s) == {};
    FreshShaped(s);
  }

  lemma FreshShaped(s: Store)
    requires IsFresh(s) && Layered(s.version, s.disk) && All(s) == {}
    ensures Shaped(s)
  {
    forall l: nat, f ensures !HasFile(s.version, l, f) {
      assert l < NUM_LEVELS ==> s.version[l] == [];
    }
  }

  /** Every reachable state keeps the invariant. */
  lemma {:induction false} RunKeeps(states: seq<Store>, actions: seq<Action>, n: nat)
    requires IsRun(states, actions) && IsFresh(states[0]) && n <= |actions|
    ensures History(states, actions, n) in Histories(states[n])
  {
    if n == 0 {
      FreshInv(states[0]);
    } else {
      RunKeeps(states, actions, n - 1);
      assert Step(states[n - 1], actions[n - 1], states[n]);
      StepKeeps(states[n - 1], History(states, actions, n - 1), actions[n - 1], states[n]);
    }
  }

  /** In every reachable state the early-stopping read finds the newest visible version of all that is stored if and
      only if no block boundary skips it, and then returns what the whole history says; reads at the committed
      sequence are never skipped. */
  method GetInRun(ghost states: seq<Store>, ghost actions: seq<Action>, ghost n: nat, s: Store, blocks: Blocking,
                  user: bytes, at: u64, now: u64) returns (r: Option<bytes>, ghost hit: Option<Entry>)
    requires IsRun(states, actions) && IsFresh(states[0]) && n <= |actions| && s == states[n]
    requires BlocksHold(s.version, s.disk, blocks) && Readable(s, at) && now >= s.clock
    ensures r == Value(hit, now)
    ensures hit == Newest(All(s), user, at) <==> Unskipped(s.version, blocks, user, at)
    ensures !Unskipped(s.version, blocks, user, at) ==> at < s.committed && Outdated(hit, Newest(All(s), user, at))
    ensures Unskipped(s.version, blocks, user, at) ==> r == Read(History(states, actions, n), user, at, now)
  {
    RunKeeps(states, actions, n);
    if at >= s.committed {
      CommittedUnskipped(s, History(states, actions, n), blocks, user, at);
    }
    r, hit := Get(s.mem, s.version, s.disk, blocks, user, at, now);
  }

  lemma CommittedUnskipped(s: Store, history: set<Entry>, blocks: Blocking, user: bytes, at: u64)
    requires history in Histories(s) && BlocksHold(s.version, s.disk, blocks) && at >= s.committed
    ensures Unskipped(s.version, blocks, user, at)
  {
    LatestUnskipped(s.version, s.disk, blocks, user, at);
  }
}
