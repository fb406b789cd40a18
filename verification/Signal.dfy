/** The flush worker, the writers that hand it memory tables, and the callers that wait for it. */
module Signals {
  import opened Bytes

  const WRAP := 0x1_0000_0000_0000_0000

  type Caller = nat

  /** Where the worker stands; `observed` is the generation it last read. */
  datatype Worker =
    | Starting
    | Looking(observed: u64)
    | Building(observed: u64)
    | Leaving(observed: u64)     // saw an empty queue, released the lock, has not yet read the generation
    | Parked(observed: u64)
    | Exited

  /** `held` is set while a caller that changed the state holds the lock and has yet to wake everyone; `since` counts
      wakes after the worker's last observation; `silent` is set by a failure recorded without a wake. */
  datatype State = State(
    queue: nat,
    running: bool,
    failed: bool,
    closed: bool,
    held: bool,
    generation: u64,
    worker: Worker,
    waiters: set<Caller>,
    since: nat,
    silent: bool)

  datatype Move =
    | Observe                // the worker starts and reads the generation
    | Look                   // the worker takes the lock and looks at the queue
    | NumbersExhausted       // ... but no file number is left
    | Wait                   // the worker reads the generation again and sleeps if it has not changed
    | Resume                 // a sleeping worker sees another generation
    | Finish(ok: bool)       // the worker publishes its table, or fails to
    | Rotate                 // a caller queues a memory table
    | Close
    | BreakLoud              // a compaction fails
    | BreakSilent            // a write or a sync fails
    | Wake                   // the caller that holds the lock wakes everyone and releases it
    | Park(caller: Caller)   // a flush waits for progress
    | Stir(caller: Caller)   // ... and is woken for no reason

  /** All sleepers on the state are woken; the generation wraps. */
  function Woken(s: State): State {
    s.(generation := (s.generation + 1) % WRAP, waiters := {}, since := s.since + 1, silent := false)
  }

  function Settled(s: State, w: Worker): State {
    s.(worker := w, since := 0)
  }

  predicate Enabled(s: State, m: Move) {
    match m
    case Observe => s.worker.Starting?
    case Look => s.worker.Looking? && !s.held
    case NumbersExhausted => s.worker.Looking? && !s.held && !s.failed && !s.closed && s.queue > 0
    case Wait => s.worker.Leaving?
    case Resume => s.worker.Parked? && s.generation != s.worker.observed
    case Finish(_) => s.worker.Building? && !s.held && s.queue > 0
    case Rotate => !s.held && !s.failed && !s.closed
    case Close => !s.held && (s.failed || !s.closed)
    case BreakLoud => !s.held
    case BreakSilent => !s.held && !s.failed && !s.closed
    case Wake => s.held
    case Park(_) => !s.held && !s.failed && !s.closed && (s.queue > 0 || s.running)
    case Stir(_) => !s.held
  }

  function Next(s: State, m: Move): State
    requires Enabled(s, m)
  {
    match m
    case Observe => Settled(s, Looking(s.generation))
    case Look =>
      if s.failed || s.closed then s.(worker := Exited)
      else if s.queue == 0 then s.(worker := Leaving(s.worker.observed))
      else s.(worker := Building(s.worker.observed), running := true)
    case NumbersExhausted => Woken(s.(failed := true, running := false, worker := Exited))
    case Wait =>
      if s.generation == s.worker.observed then s.(worker := Parked(s.worker.observed))
      else Settled(s, Looking(s.generation))
    case Resume => Settled(s, Looking(s.generation))
    case Finish(ok) =>
      if ok then Woken(s.(queue := s.queue - 1, running := false, worker := Looking(s.worker.observed)))
      else Woken(s.(failed := true, running := false, worker := Exited))
    case Rotate => s.(queue := s.queue + 1, held := true)
    case Close => s.(closed := true, held := true)
    case BreakLoud => s.(failed := true, held := true)
    case BreakSilent => s.(failed := true, silent := true)
    case Wake => Woken(s).(held := false)
    case Park(caller) => s.(waiters := s.waiters + {caller})
    case Stir(caller) => s.(waiters := s.waiters - {caller})
  }

  /** An opened engine: recovered memory tables are queued, the worker has not begun. */
  function Opened(recovered: nat, generation: u64): State {
    State(recovered, false, false, false, false, generation, Starting, {}, 0, false)
  }

  predicate Reads(w: Worker) {
    w.Looking? || w.Building? || w.Leaving? || w.Parked?
  }

  /** What every move keeps. */
  predicate Good(s: State) {
    && (Reads(s.worker) ==> s.generation == (s.worker.observed + s.since) % WRAP)
    && ((s.worker.Leaving? || s.worker.Parked?) && s.since == 0 && !s.held ==> s.queue == 0 && !s.closed)
    && s.running == s.worker.Building? && (s.running ==> s.queue > 0)
    && (s.worker.Exited? ==> s.failed || s.closed)
    && (s.silent ==> s.failed)
    && (s.waiters != {} && !s.held ==> !s.closed && (s.queue > 0 || s.running) && (s.failed ==> s.silent))
  }

  lemma WrapStep(observed: u64, since: nat)
    ensures ((observed + since) % WRAP + 1) % WRAP == (observed + (since + 1)) % WRAP
  {
  }

  lemma MoveKeeps(s: State, m: Move)
    requires Good(s) && Enabled(s, m)
    ensures Good(Next(s, m))
  {
    if Reads(s.worker) {
      WrapStep(s.worker.observed, s.since);
    }
  }

  predicate Steps(states: seq<State>, moves: seq<Move>, i: nat)
    requires |states| == |moves| + 1 && i < |moves|
  {
    Enabled(states[i], moves[i]) && states[i + 1] == Next(states[i], moves[i])
  }

  /** A run from an opened engine. */
  ghost predicate Run(states: seq<State>, moves: seq<Move>) {
    && |states| == |moves| + 1
    && states[0] == Opened(states[0].queue, states[0].generation)
    && forall i | 0 <= i < |moves| :: Steps(states, moves, i)
  }

  lemma {:induction false} RunGood(states: seq<State>, moves: seq<Move>, i: nat)
    requires Run(states, moves) && i < |states|
    ensures Good(states[i])
  {
    if i > 0 {
      RunGood(states, moves, i - 1);
      assert Steps(states, moves, i - 1);
      MoveKeeps(states[i - 1], moves[i - 1]);
    }
  }

  predicate Asleep(s: State) {
    s.worker.Parked? && !Enabled(s, Resume)
  }

  lemma SameModulo(observed: u64, since: nat)
    ensures (observed + since) % WRAP == observed <==> since % WRAP == 0
  {
  }

  /** In every run the worker sleeps on exactly when a multiple of 2^64 wakes followed its last observation; so, with
      fewer, it never sleeps while a memory table is queued or the engine is closed. */
  lemma WorkerSleepsIff(states: seq<State>, moves: seq<Move>, i: nat)
    requires Run(states, moves) && i < |states| && states[i].worker.Parked?
    ensures var s := states[i];
      && (Asleep(s) <==> s.since % WRAP == 0)
      && (Asleep(s) && !s.held && s.since < WRAP ==> s.queue == 0 && !s.closed)
  {
    RunGood(states, moves, i);
    SameModulo(states[i].worker.observed, states[i].since);
  }

  /** Some move of the worker's own is possible. */
  predicate WorkerMoves(s: State) {
    || Enabled(s, Observe) || Enabled(s, Look) || Enabled(s, Wait) || Enabled(s, Resume) || Enabled(s, Finish(true))
  }

  /** In every run a caller that waits for a flush is left without a worker to wake it exactly when the worker has
      exited, and that takes a failure that was recorded without a wake. */
  lemma StrandedIff(states: seq<State>, moves: seq<Move>, i: nat)
    requires Run(states, moves) && i < |states|
    requires states[i].waiters != {} && !states[i].held && states[i].since < WRAP
    ensures !WorkerMoves(states[i]) <==> states[i].worker.Exited?
    ensures states[i].worker.Exited? ==> states[i].failed && states[i].silent
  {
    RunGood(states, moves, i);
    if states[i].worker.Parked? {
      SameModulo(states[i].worker.observed, states[i].since);
    }
  }

  /** After such a failure the worker's next moves wake the callers if it was building a table, and otherwise take it
      to its exit with the callers still waiting. */
  lemma SilentFailureFate(s: State, ok: bool)
    requires Good(s) && s.waiters != {} && s.silent && !s.held && s.since < WRAP && !s.worker.Exited?
    ensures s.worker.Building? ==> Enabled(s, Finish(ok)) && Next(s, Finish(ok)).waiters == {}
    ensures s.worker.Looking? ==> Next(s, Look) == s.(worker := Exited)
    ensures var m := if s.worker.Starting? then Observe else if s.worker.Leaving? then Wait else Resume;
      !s.worker.Building? && !s.worker.Looking? ==> Enabled(s, m) && Next(s, m) == Settled(s, Looking(s.generation))
  {
    if s.worker.Parked? || s.worker.Leaving? {
      SameModulo(s.worker.observed, s.since);
    }
  }

  predicate IsWorkerMove(m: Move) {
    m.Observe? || m.Look? || m.NumbersExhausted? || m.Wait? || m.Resume? || m.Finish?
  }

  /** A stretch in which only the worker moves, to the point where it has no move left. */
  ghost predicate WorkedOut(states: seq<State>, moves: seq<Move>) {
    && |states| == |moves| + 1 && !WorkerMoves(states[|moves|])
    && (forall i | 0 <= i < |moves| :: Steps(states, moves, i) && IsWorkerMove(moves[i]))
  }

  /** How many moves are left to a worker that will find a failure. */
  function MovesLeft(w: Worker): nat {
    match w
    case Exited => 0
    case Looking(_) => 1
    case _ => 2
  }

  /** Callers wait, a failure was recorded without a wake, and no one holds the lock. */
  predicate Deserted(s: State) {
    Good(s) && s.waiters != {} && s.silent && !s.held && s.since < WRAP
  }

  lemma DesertedStep(s: State, m: Move)
    requires Deserted(s) && IsWorkerMove(m) && Enabled(s, m)
    ensures var t := Next(s, m);
      && Good(t) && t.failed && !t.held && MovesLeft(t.worker) < MovesLeft(s.worker) && !t.worker.Building?
      && (s.worker.Building? ==> t.waiters == {})
      && (!s.worker.Building? ==> Deserted(t) && t.waiters == s.waiters)
  {
    MoveKeeps(s, m);
    SilentFailureFate(s, true);
  }

  lemma WokenStep(s: State, m: Move)
    requires Good(s) && s.failed && s.waiters == {} && !s.held && MovesLeft(s.worker) <= 1
    requires IsWorkerMove(m) && Enabled(s, m)
    ensures var t := Next(s, m); Good(t) && t.failed && t.waiters == {} && !t.held && t.worker.Exited?
  {
    MoveKeeps(s, m);
  }

  lemma {:induction false} WokenStays(states: seq<State>, moves: seq<Move>)
    requires WorkedOut(states, moves)
    requires var s := states[0]; Good(s) && s.failed && s.waiters == {} && !s.held && MovesLeft(s.worker) <= 1
    ensures states[|moves|].waiters == {} && |moves| <= MovesLeft(states[0].worker)
  {
    if moves != [] {
      assert Steps(states, moves, 0);
      WokenStep(states[0], moves[0]);
      WorkedOutRest(states, moves);
      WokenStays(states[1..], moves[1..]);
    }
  }

  lemma WorkedOutRest(states: seq<State>, moves: seq<Move>)
    requires WorkedOut(states, moves) && moves != []
    ensures WorkedOut(states[1..], moves[1..]) && states[1..][|moves| - 1] == states[|moves|]
  {
    forall i | 0 <= i < |moves| - 1 ensures Steps(states[1..], moves[1..], i) && IsWorkerMove(moves[1..][i]) {
      assert Steps(states, moves, i + 1);
    }
  }

  lemma {:induction false} DesertedRun(states: seq<State>, moves: seq<Move>)
    requires WorkedOut(states, moves) && Deserted(states[0])
    ensures |moves| <= MovesLeft(states[0].worker)
    ensures states[|moves|].waiters == if states[0].worker.Building? then {} else states[0].waiters
  {
    if moves == [] {
      assert !Enabled(states[0], Finish(true));
    } else {
      assert Steps(states, moves, 0);
      DesertedStep(states[0], moves[0]);
      WorkedOutRest(states, moves);
      if states[0].worker.Building? {
        WokenStays(states[1..], moves[1..]);
      } else {
        DesertedRun(states[1..], moves[1..]);
      }
    }
  }

  /** In every run, once a failure was recorded without a wake while callers wait, the worker makes at most two more
      moves, and they wake the callers if and only if it was building a table; otherwise all of them wait on. */
  lemma SilentFailureWakesIff(run: seq<State>, past: seq<Move>, states: seq<State>, moves: seq<Move>)
    requires Run(run, past) && WorkedOut(states, moves) && states[0] == run[|past|]
    requires var s := states[0]; s.waiters != {} && s.silent && !s.held && s.since < WRAP
    ensures |moves| <= 2
    ensures states[|moves|].waiters == {} <==> states[0].worker.Building?
    ensures states[|moves|].waiters != {} ==> states[|moves|].waiters == states[0].waiters
  {
    RunGood(run, past, |past|);
    DesertedRun(states, moves);
  }

  /** A caller queues a table and waits; a write fails; the worker looks, sees the failure and leaves. */
  lemma StrandedExample() returns (states: seq<State>, moves: seq<Move>)
    ensures Run(states, moves)
    ensures var s := states[|moves|]; s.waiters == {7} && s.queue == 1 && s.worker.Exited? && !WorkerMoves(s)
  {
    var s0 := Opened(0, 0);
    moves := [Observe, Rotate, Wake, Park(7), BreakSilent, Look];
    var s1 := Next(s0, Observe);
    var s2 := Next(s1, Rotate);
    var s3 := Next(s2, Wake);
    var s4 := Next(s3, Park(7));
    var s5 := Next(s4, BreakSilent);
    var s6 := Next(s5, Look);
    states := [s0, s1, s2, s3, s4, s5, s6];
    forall i | 0 <= i < |moves| ensures Steps(states, moves, i) {
      assert i == 0 || i == 1 || i == 2 || i == 3 || i == 4 || i == 5;
    }
  }
}
