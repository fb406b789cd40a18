/** The inference cache's singleflight table: concurrent misses of one key share one computation. */
module Singleflight {
  import opened Bytes

  type Thread = nat
  type Call = nat
  type Flight = nat

  datatype Outcome = Entry(bytes: bytes) | Failure(code: nat)

  /** How a call ends for its own caller. */
  datatype Ended = Finished(o: Outcome) | Panicked | Reentrant

  const PANIC_CODE := 0

  /** What followers of a leader that ended so receive. */
  function Shared(r: Ended): Outcome {
    match r
    case Finished(o) => o
    case _ => Failure(PANIC_CODE)
  }

  /** Where a call stands between two steps. */
  datatype Phase =
    | Arriving                            // before the first lookup
    | AtTable                             // missed, about to lock the table
    | Leading(f: Flight)                  // its flight is in the table
    | Computing(f: Flight)                // missed again, runs the computation
    | Writing(f: Flight, entry: bytes)    // computed, writes the entry
    | Ending(f: Flight, r: Ended)         // the result is known
    | Stored(f: Flight, r: Ended)         // followers can read the outcome
    | Unlisted(f: Flight, r: Ended)       // out of the table, about to notify
    | Waiting(f: Flight)                  // a follower about to check the outcome
    | Sleeping(f: Flight)                 // a follower that found none
    | Returned(r: Ended, via: Option<Flight>)

  datatype Activation = Activation(thread: Thread, key: bytes, phase: Phase)

  datatype State = State(
    calls: map<Call, Activation>,
    flights: map<bytes, Flight>,
    outcomes: map<Flight, Option<Outcome>>,
    leader: map<Flight, Call>,
    notified: set<Flight>,
    store: map<bytes, bytes>)

  const INITIAL := State(map[], map[], map[], map[], {}, map[])

  /** The flight a call leads until it has notified. */
  function Leads(p: Phase): Option<Flight> {
    match p
    case Leading(f) => Some(f)
    case Computing(f) => Some(f)
    case Writing(f, _) => Some(f)
    case Ending(f, _) => Some(f)
    case Stored(f, _) => Some(f)
    case Unlisted(f, _) => Some(f)
    case _ => None
  }

  /** The outcome is still open. */
  predicate Undecided(p: Phase) {
    p.Leading? || p.Computing? || p.Writing? || p.Ending?
  }

  function Follows(p: Phase): Option<Flight> {
    match p
    case Waiting(f) => Some(f)
    case Sleeping(f) => Some(f)
    case _ => None
  }

  function At(s: State, c: Call, p: Phase): State
    requires c in s.calls
  {
    s.(calls := s.calls[c := s.calls[c].(phase := p)])
  }

  function Woken(a: Activation, f: Flight): Activation {
    if a.phase == Sleeping(f) then a.(phase := Waiting(f)) else a
  }

  datatype Act =
    | Begin(c: Call, thread: Thread, key: bytes)
    | Lookup(c: Call, failure: Option<nat>)
    | Join(c: Call)
    | Lead(c: Call, f: Flight)
    | Recheck(c: Call, failure: Option<nat>)
    | Compute(c: Call, r: Ended)
    | Write(c: Call, failure: Option<nat>)
    | Store(c: Call)
    | Unlist(c: Call)
    | Notify(c: Call)
    | Check(c: Call)
    | Spurious(c: Call)
    | Outside(store: map<bytes, bytes>)

  /** One lock-protected action of one call, or a change of the store by anyone else. */
  ghost predicate Step(s: State, a: Act, t: State) {
    match a
    case Begin(c, thread, key) => c !in s.calls && t == s.(calls := s.calls[c := Activation(thread, key, Arriving)])
    case Lookup(c, failure) =>
      c in s.calls && s.calls[c].phase == Arriving && t == At(s, c,
        if failure.Some? then Returned(Finished(Failure(failure.value)), None)
        else if s.calls[c].key in s.store then Returned(Finished(Entry(s.store[s.calls[c].key])), None)
        else AtTable)
    case Join(c) =>
      c in s.calls && s.calls[c].phase == AtTable && s.calls[c].key in s.flights
      && var f := s.flights[s.calls[c].key];
         f in s.leader && s.leader[f] in s.calls
         && var own := s.calls[s.leader[f]].thread == s.calls[c].thread;
            t == At(s, c, if own then Returned(Reentrant, None) else Waiting(f))
    case Lead(c, f) =>
      c in s.calls && s.calls[c].phase == AtTable && s.calls[c].key !in s.flights && f !in s.leader
      && t == At(s, c, Leading(f)).(flights := s.flights[s.calls[c].key := f], outcomes := s.outcomes[f := None],
                                    leader := s.leader[f := c])
    case Recheck(c, failure) =>
      c in s.calls && s.calls[c].phase.Leading? && t == At(s, c,
        var f := s.calls[c].phase.f;
        if failure.Some? then Ending(f, Finished(Failure(failure.value)))
        else if s.calls[c].key in s.store then Ending(f, Finished(Entry(s.store[s.calls[c].key])))
        else Computing(f))
    case Compute(c, r) =>
      c in s.calls && s.calls[c].phase.Computing? && !r.Reentrant? && t == At(s, c,
        var f := s.calls[c].phase.f;
        if r.Finished? && r.o.Entry? then Writing(f, r.o.bytes) else Ending(f, r))
    case Write(c, failure) =>
      c in s.calls && s.calls[c].phase.Writing?
      && var p := s.calls[c].phase;
         t == if failure.Some? then At(s, c, Ending(p.f, Finished(Failure(failure.value))))
              else At(s, c, Ending(p.f, Finished(Entry(p.entry)))).(store := s.store[s.calls[c].key := p.entry])
    case Store(c) =>
      c in s.calls && s.calls[c].phase.Ending?
      && var p := s.calls[c].phase;
         t == At(s, c, Stored(p.f, p.r)).(outcomes := s.outcomes[p.f := Some(Shared(p.r))])
    case Unlist(c) =>
      c in s.calls && s.calls[c].phase.Stored?
      && var p, k := s.calls[c].phase, s.calls[c].key;
         t == At(s, c, Unlisted(p.f, p.r)).(
                flights := if k in s.flights && s.flights[k] == p.f then s.flights - {k} else s.flights)
    case Notify(c) =>
      c in s.calls && s.calls[c].phase.Unlisted?
      && var p := s.calls[c].phase;
         var woken := s.(calls := map d | d in s.calls :: Woken(s.calls[d], p.f), notified := s.notified + {p.f});
         t == At(woken, c, Returned(p.r, None))
    case Check(c) =>
      c in s.calls && s.calls[c].phase.Waiting? && s.calls[c].phase.f in s.outcomes
      && var f := s.calls[c].phase.f;
         t == At(s, c, if s.outcomes[f].Some? then Returned(Finished(s.outcomes[f].value), Some(f)) else Sleeping(f))
    case Spurious(c) =>
      c in s.calls && s.calls[c].phase.Sleeping? && t == At(s, c, Waiting(s.calls[c].phase.f))
    case Outside(store) => t == s.(store := store)
  }

  // ----- What every reachable state keeps -----

  /** A call that leads is the leader of its flight, and the table and the outcome agree with its phase. */
  predicate LeaderOk(s: State, c: Call)
    requires c in s.calls
  {
    var a := s.calls[c];
    Leads(a.phase).Some? ==>
      var f := Leads(a.phase).value;
      && f in s.leader && s.leader[f] == c && f in s.outcomes && f !in s.notified
      && (!a.phase.Unlisted? ==> a.key in s.flights && s.flights[a.key] == f)
      && (Undecided(a.phase) ==> s.outcomes[f] == None)
      && (!Undecided(a.phase) ==> s.outcomes[f] == Some(Shared(a.phase.r)))
  }

  /** A listed flight has a leader of that key that has not yet unlisted it. */
  predicate ListedOk(s: State, k: bytes)
    requires k in s.flights
  {
    var f := s.flights[k];
    && f in s.leader && s.leader[f] in s.calls
    && s.calls[s.leader[f]].key == k && Leads(s.calls[s.leader[f]].phase) == Some(f)
    && !s.calls[s.leader[f]].phase.Unlisted?
  }

  /** A flight's leader still leads it, or returned what the outcome says. */
  predicate FlightOk(s: State, f: Flight)
    requires f in s.leader
  {
    && f in s.outcomes && s.leader[f] in s.calls
    && var p := s.calls[s.leader[f]].phase;
       Leads(p) == Some(f) || (p.Returned? && p.via == None && s.outcomes[f] == Some(Shared(p.r)))
  }

  /** A follower has another thread's flight of its own key; a sleeping one will still be notified. */
  predicate FollowerOk(s: State, c: Call)
    requires c in s.calls
  {
    var a := s.calls[c];
    && (Follows(a.phase).Some? ==>
          var f := Follows(a.phase).value;
          && f in s.leader && s.leader[f] in s.calls
          && s.calls[s.leader[f]].key == a.key && s.calls[s.leader[f]].thread != a.thread)
    && (a.phase.Sleeping? ==>
          var f := a.phase.f;
          f in s.leader && s.leader[f] in s.calls && Leads(s.calls[s.leader[f]].phase) == Some(f))
    && (a.phase.Returned? && a.phase.via.Some? ==>
          a.phase.via.value in s.outcomes && a.phase.r.Finished? && s.outcomes[a.phase.via.value] == Some(a.phase.r.o))
  }

  ghost predicate Inv(s: State) {
    && (forall c | c in s.calls :: LeaderOk(s, c) && FollowerOk(s, c))
    && (forall k | k in s.flights :: ListedOk(s, k))
    && (forall f | f in s.leader :: FlightOk(s, f))
    && (forall f | f in s.outcomes || f in s.notified :: f in s.leader)
  }

  ghost const GOOD: iset<State> := iset s: State | Inv(s)

  /** Computations of one key never overlap. */
  lemma NoOverlap(s: State, c: Call, d: Call)
    requires s in GOOD && c in s.calls && d in s.calls && s.calls[c].key == s.calls[d].key
    requires s.calls[c].phase.Computing? && s.calls[d].phase.Computing?
    ensures c == d
  {
    assert LeaderOk(s, c) && LeaderOk(s, d);
  }

  /** A follower returns exactly what its leader returned to its own caller, a panic included. */
  lemma FollowerReturnsOutcome(s: State, c: Call, f: Flight)
    requires s in GOOD && c in s.calls && s.calls[c].phase.Returned? && s.calls[c].phase.via == Some(f)
    ensures f in s.leader && s.leader[f] in s.calls && s.calls[c].phase.r.Finished?
    ensures var p := s.calls[s.leader[f]].phase;
            p.Returned? ==> s.calls[c].phase.r.o == Shared(p.r)
  {
    assert FollowerOk(s, c);
    assert FlightOk(s, f);
  }

  /** No follower sleeps past a notified outcome, and the leader of a sleeping one is still to notify. */
  lemma NoLostWakeup(s: State, c: Call)
    requires s in GOOD && c in s.calls && s.calls[c].phase.Sleeping?
    ensures var f := s.calls[c].phase.f;
            f !in s.notified && f in s.leader && s.leader[f] in s.calls && Leads(s.calls[s.leader[f]].phase) == Some(f)
  {
    assert FollowerOk(s, c);
    var f := s.calls[c].phase.f;
    assert LeaderOk(s, s.leader[f]);
  }

  // ----- Steps -----

  /** A call that never led anything moves among the phases that lead nothing. */
  lemma BystanderKeeps(s: State, c: Call, p: Phase)
    requires Inv(s) && c in s.calls && Leads(s.calls[c].phase) == None && Leads(p) == None
    requires !s.calls[c].phase.Returned? && FollowerOk(At(s, c, p), c)
    ensures Inv(At(s, c, p))
  {
    var t := At(s, c, p);
    forall f | f in t.leader ensures FlightOk(t, f) {
      assert FlightOk(s, f);
    }
    forall k | k in t.flights ensures ListedOk(t, k) {
      assert ListedOk(s, k);
    }
    forall d | d in t.calls ensures LeaderOk(t, d) && FollowerOk(t, d) {
      assert LeaderOk(s, d) && FollowerOk(s, d);
    }
  }

  /** A leader moves on with its flight still undecided. */
  lemma LeaderMovesCall(s: State, c: Call, p: Phase, d: Call)
    requires Inv(s) && c in s.calls && Undecided(s.calls[c].phase) && Undecided(p)
    requires Leads(p) == Leads(s.calls[c].phase) && d in s.calls
    ensures LeaderOk(At(s, c, p), d) && FollowerOk(At(s, c, p), d)
  {
    assert LeaderOk(s, d) && FollowerOk(s, d);
  }

  lemma LeaderMoves(s: State, c: Call, p: Phase)
    requires Inv(s) && c in s.calls && Undecided(s.calls[c].phase) && Undecided(p)
    requires Leads(p) == Leads(s.calls[c].phase)
    ensures Inv(At(s, c, p))
  {
    var t := At(s, c, p);
    forall f | f in t.leader ensures FlightOk(t, f) {
      assert FlightOk(s, f);
    }
    forall k | k in t.flights ensures ListedOk(t, k) {
      assert ListedOk(s, k);
    }
    forall d | d in t.calls ensures LeaderOk(t, d) && FollowerOk(t, d) {
      LeaderMovesCall(s, c, p, d);
    }
  }

  lemma BeginKeeps(s: State, c: Call, thread: Thread, key: bytes)
    requires Inv(s) && c !in s.calls
    ensures Inv(s.(calls := s.calls[c := Activation(thread, key, Arriving)]))
  {
    var t := s.(calls := s.calls[c := Activation(thread, key, Arriving)]);
    forall f | f in t.leader ensures FlightOk(t, f) {
      assert FlightOk(s, f);
    }
    forall k | k in t.flights ensures ListedOk(t, k) {
      assert ListedOk(s, k);
    }
    forall d | d in t.calls ensures LeaderOk(t, d) && FollowerOk(t, d) {
      if d != c {
        assert LeaderOk(s, d) && FollowerOk(s, d);
      }
    }
  }

  lemma LeadKeepsCall(s: State, c: Call, f: Flight, t: State, d: Call)
    requires Inv(s) && Step(s, Lead(c, f), t) && d in t.calls
    ensures LeaderOk(t, d) && FollowerOk(t, d)
  {
    assert f !in s.outcomes && f !in s.notified;
    assert LeaderOk(s, d) && FollowerOk(s, d);
  }

  lemma LeadKeeps(s: State, c: Call, f: Flight, t: State)
    requires Inv(s) && Step(s, Lead(c, f), t)
    ensures Inv(t)
  {
    assert f !in s.outcomes;
    forall g | g in t.leader ensures FlightOk(t, g) {
      if g != f {
        assert FlightOk(s, g);
      }
    }
    forall k | k in t.flights ensures ListedOk(t, k) {
      if k != s.calls[c].key {
        assert ListedOk(s, k);
      }
    }
    forall d | d in t.calls ensures LeaderOk(t, d) && FollowerOk(t, d) {
      LeadKeepsCall(s, c, f, t, d);
    }
  }

  lemma StoreKeepsCall(s: State, c: Call, t: State, d: Call)
    requires Inv(s) && Step(s, Store(c), t) && d in t.calls
    ensures LeaderOk(t, d) && FollowerOk(t, d)
  {
    assert LeaderOk(s, c);
    assert LeaderOk(s, d) && FollowerOk(s, d);
  }

  lemma StoreKeeps(s: State, c: Call, t: State)
    requires Inv(s) && Step(s, Store(c), t)
    ensures Inv(t)
  {
    assert LeaderOk(s, c);
    forall g | g in t.leader ensures FlightOk(t, g) {
      assert FlightOk(s, g);
    }
    forall k | k in t.flights ensures ListedOk(t, k) {
      assert ListedOk(s, k);
    }
    forall d | d in t.calls ensures LeaderOk(t, d) && FollowerOk(t, d) {
      StoreKeepsCall(s, c, t, d);
    }
  }

  lemma UnlistKeepsCall(s: State, c: Call, t: State, d: Call)
    requires Inv(s) && Step(s, Unlist(c), t) && d in t.calls
    ensures LeaderOk(t, d) && FollowerOk(t, d)
  {
    assert LeaderOk(s, c);
    assert LeaderOk(s, d) && FollowerOk(s, d);
    if d != c && Leads(s.calls[d].phase).Some? && !s.calls[d].phase.Unlisted? {
      assert s.calls[d].key != s.calls[c].key;
    }
  }

  lemma UnlistKeeps(s: State, c: Call, t: State)
    requires Inv(s) && Step(s, Unlist(c), t)
    ensures Inv(t)
  {
    assert LeaderOk(s, c);
    forall g | g in t.leader ensures FlightOk(t, g) {
      assert FlightOk(s, g);
    }
    forall k | k in t.flights ensures ListedOk(t, k) {
      assert ListedOk(s, k);
    }
    forall d | d in t.calls ensures LeaderOk(t, d) && FollowerOk(t, d) {
      UnlistKeepsCall(s, c, t, d);
    }
  }

  /** The calls after leader `c` of flight `f` has notified. */
  ghost predicate AllWoken(s: State, c: Call, f: Flight, r: Ended, t: State) {
    && t.flights == s.flights && t.outcomes == s.outcomes && t.leader == s.leader && t.notified == s.notified + {f}
    && t.calls.Keys == s.calls.Keys && c in s.calls
    && t.calls[c] == s.calls[c].(phase := Returned(r, None))
    && forall d | d in s.calls && d != c :: t.calls[d] == Woken(s.calls[d], f)
  }

  lemma NotifyShape(s: State, c: Call, t: State)
    requires Step(s, Notify(c), t)
    ensures AllWoken(s, c, s.calls[c].phase.f, s.calls[c].phase.r, t)
  {
  }

  lemma NotifyLeader(s: State, c: Call, f: Flight, r: Ended, t: State, d: Call)
    requires Inv(s) && c in s.calls && s.calls[c].phase == Unlisted(f, r) && AllWoken(s, c, f, r, t) && d in s.calls
    ensures LeaderOk(t, d)
  {
    assert LeaderOk(s, c) && LeaderOk(s, d);
  }

  lemma NotifyFollower(s: State, c: Call, f: Flight, r: Ended, t: State, d: Call)
    requires Inv(s) && c in s.calls && s.calls[c].phase == Unlisted(f, r) && AllWoken(s, c, f, r, t) && d in s.calls
    ensures FollowerOk(t, d)
  {
    assert LeaderOk(s, c) && FollowerOk(s, d);
    var g := Follows(s.calls[d].phase);
    if g.Some? && s.leader[g.value] != c {
      assert t.calls[s.leader[g.value]] == Woken(s.calls[s.leader[g.value]], f);
    }
  }

  lemma NotifyFlight(s: State, c: Call, f: Flight, r: Ended, t: State, g: Flight)
    requires Inv(s) && c in s.calls && s.calls[c].phase == Unlisted(f, r) && AllWoken(s, c, f, r, t) && g in s.leader
    ensures FlightOk(t, g)
  {
    assert LeaderOk(s, c) && FlightOk(s, g);
  }

  lemma NotifyListed(s: State, c: Call, f: Flight, r: Ended, t: State, k: bytes)
    requires Inv(s) && c in s.calls && s.calls[c].phase == Unlisted(f, r) && AllWoken(s, c, f, r, t) && k in s.flights
    ensures ListedOk(t, k)
  {
    assert ListedOk(s, k);
  }

  lemma NotifyKeeps(s: State, c: Call, t: State)
    requires Inv(s) && Step(s, Notify(c), t)
    ensures Inv(t)
  {
    var f, r := s.calls[c].phase.f, s.calls[c].phase.r;
    NotifyShape(s, c, t);
    assert LeaderOk(s, c);
    forall g | g in t.leader ensures FlightOk(t, g) {
      NotifyFlight(s, c, f, r, t, g);
    }
    forall k | k in t.flights ensures ListedOk(t, k) {
      NotifyListed(s, c, f, r, t, k);
    }
    forall d | d in t.calls ensures LeaderOk(t, d) && FollowerOk(t, d) {
      NotifyLeader(s, c, f, r, t, d);
      NotifyFollower(s, c, f, r, t, d);
    }
  }

  lemma TableStep(s: State, a: Act, t: State)
    requires Inv(s) && Step(s, a, t) && (a.Begin? || a.Lead? || a.Store? || a.Unlist? || a.Notify?)
    ensures Inv(t)
  {
    match a
    case Begin(c, thread, key) => BeginKeeps(s, c, thread, key);
    case Lead(c, f) => LeadKeeps(s, c, f, t);
    case Store(c) => StoreKeeps(s, c, t);
    case Unlist(c) => UnlistKeeps(s, c, t);
    case Notify(c) => NotifyKeeps(s, c, t);
  }

  lemma LeaderStep(s: State, a: Act, t: State)
    requires Inv(s) && Step(s, a, t) && (a.Recheck? || a.Compute? || a.Write?)
    ensures Inv(t)
  {
    var u := At(s, a.c, t.calls[a.c].phase);
    LeaderMoves(s, a.c, t.calls[a.c].phase);
    SameButStore(u, t);
  }

  lemma SameButStore(u: State, t: State)
    requires Inv(u) && t == u.(store := t.store)
    ensures Inv(t)
  {
    forall f | f in t.leader ensures FlightOk(t, f) {
      assert FlightOk(u, f);
    }
    forall k | k in t.flights ensures ListedOk(t, k) {
      assert ListedOk(u, k);
    }
    forall d | d in t.calls ensures LeaderOk(t, d) && FollowerOk(t, d) {
      assert LeaderOk(u, d) && FollowerOk(u, d);
    }
  }

  lemma JoinStep(s: State, c: Call, t: State)
    requires Inv(s) && Step(s, Join(c), t)
    ensures Inv(t)
  {
    assert ListedOk(s, s.calls[c].key);
    BystanderKeeps(s, c, t.calls[c].phase);
  }

  lemma CheckStep(s: State, c: Call, t: State)
    requires Inv(s) && Step(s, Check(c), t)
    ensures Inv(t)
  {
    assert FollowerOk(s, c);
    assert FlightOk(s, s.calls[c].phase.f);
    BystanderKeeps(s, c, t.calls[c].phase);
  }

  lemma WakeStep(s: State, c: Call, t: State)
    requires Inv(s) && Step(s, Spurious(c), t)
    ensures Inv(t)
  {
    assert FollowerOk(s, c);
    BystanderKeeps(s, c, t.calls[c].phase);
  }

  lemma StepKeeps(s: State, a: Act, t: State)
    requires s in GOOD && Step(s, a, t)
    ensures t in GOOD
  {
    match a
    case Lookup(c, failure) => BystanderKeeps(s, c, t.calls[c].phase);
    case Join(c) => JoinStep(s, c, t);
    case Check(c) => CheckStep(s, c, t);
    case Spurious(c) => WakeStep(s, c, t);
    case Outside(store) => SameButStore(s, t);
    case Recheck(_, _) => LeaderStep(s, a, t);
    case Compute(_, _) => LeaderStep(s, a, t);
    case Write(_, _) => LeaderStep(s, a, t);
    case _ => TableStep(s, a, t);
  }

  ghost predicate IsRun(states: seq<State>, acts: seq<Act>) {
    && |states| == |acts| + 1 && states[0] == INITIAL
    && forall i | 0 <= i < |acts| :: Stepped(states, acts, i)
  }

  ghost predicate Stepped(states: seq<State>, acts: seq<Act>, i: nat)
    requires |states| == |acts| + 1 && i < |acts|
  {
    Step(states[i], acts[i], states[i + 1])
  }

  /** Every state of every interleaving is good. */
  lemma {:induction false} RunKeeps(states: seq<State>, acts: seq<Act>, n: nat)
    requires IsRun(states, acts) && n < |states|
    ensures states[n] in GOOD
  {
    if n > 0 {
      RunKeeps(states, acts, n - 1);
      assert Stepped(states, acts, n - 1);
      StepKeeps(states[n - 1], acts[n - 1], states[n]);
    }
  }

  /** A computation starts only while its key is absent, as seen by the call that leads the key's only flight. */
  lemma ComputesOnlyAfterMiss(s: State, a: Act, t: State, c: Call)
    requires s in GOOD && Step(s, a, t) && c in t.calls && t.calls[c].phase.Computing?
    requires c !in s.calls || !s.calls[c].phase.Computing?
    ensures a == Recheck(c, None) && s.calls[c].key !in s.store
    ensures s.calls[c].key in s.flights && Leads(s.calls[c].phase) == Some(s.flights[s.calls[c].key])
  {
    match a
    case Recheck(d, _) => assert LeaderOk(s, d);
    case Notify(d) => NotifyShape(s, d, t);
    case _ =>
  }
}
