/**
 In-process single flight: calls for one key share the first caller's future. A step is what a call
 does between two awaits; steps of different calls interleave freely. No call is cancelled.
 */
module SingleFlight {
  import opened Common

  datatype Outcome = Value(value: string) | Error(error: string)

  /** What a poll for the leader's result gives. */
  datatype Polled = Hit(value: string) | Miss | Raises(error: string)

  datatype Role = Leader | RemoteWaiter | LocalWaiter

  datatype Look = Sleep | Got(outcome: Outcome) | RunFactory

  /** The last poll, after which the factory runs. */
  function LastLook(last: Polled): Look {
    match last
    case Hit(v) => Got(Value(v))
    case Raises(e) => Got(Error(e))
    case Miss => RunFactory
  }

  /** One turn of waiting for a remote leader: in time or not, a poll, whether its lock is held, a last poll. */
  function LookOnce(inTime: bool, first: Polled, held: bool, last: Polled): Look {
    if !inTime then LastLook(last)
    else
      match first
      case Hit(v) => Got(Value(v))
      case Raises(e) => Got(Error(e))
      case Miss => if held then Sleep else LastLook(last)
  }

  /**
   A turn sleeps exactly when it is in time, missed, and the lock is held; otherwise the first poll
   decides if it did not miss and came in time, else the last one; the factory runs if that missed too.
   */
  lemma LookMeans(inTime: bool, first: Polled, held: bool, last: Polled)
    ensures var look := LookOnce(inTime, first, held, last);
            var seen := if inTime && !first.Miss? then first else last;
            if inTime && first.Miss? && held then look == Sleep
            else
              && (seen.Miss? <==> look == RunFactory)
              && (seen.Hit? ==> look == Got(Value(seen.value)))
              && (seen.Raises? ==> look == Got(Error(seen.error)))
  {
  }

  // ----- the flights table as an object -----

  class Future {
    var result: Option<Outcome>

    constructor ()
      ensures result == None
    {
      result := None;
    }
  }

  class InProcessFlights {
    var inflight: map<string, Future>

    constructor ()
      ensures inflight == map[]
    {
      inflight := map[];
    }

    function Existing(key: string): Option<Future>
      reads this
    {
      if key in inflight then Some(inflight[key]) else None
    }

    method Begin(key: string) returns (fut: Future)
      modifies this
      ensures fresh(fut) && fut.result == None && inflight == old(inflight)[key := fut]
    {
      fut := new Future();
      inflight := inflight[key := fut];
    }

    /** Settles a future once, and drops its entry unless another flight has taken the key over. */
    method Finish(key: string, fut: Future, outcome: Outcome)
      modifies this, fut
      ensures fut.result == Some(if old(fut.result).Some? then old(fut.result).value else outcome)
      ensures inflight == if old(Existing(key)) == Some(fut) then old(inflight) - {key} else old(inflight)
      ensures Existing(key) != Some(fut)
    {
      if fut.result.None? {
        fut.result := Some(outcome);
      }
      if key in inflight && inflight[key] == fut {
        inflight := inflight - {key};
      }
    }
  }

  /** The environment of a wait: clock readings, polls and lock checks, turn by turn. */
  datatype Waits = Waits(clock: nat -> real, first: nat -> Polled, held: nat -> bool, last: nat -> Polled)

  /**
   Waits until the deadline, a hit, or the lock's end; the clock passes the deadline at some turn.
   Without a poll function there is nothing to wait for.
   */
  method WaitForLeader(polls: bool, w: Waits, deadline: real, ghost bound: nat) returns (look: Look, turns: nat)
    requires deadline <= w.clock(bound)
    ensures !polls ==> look == RunFactory && turns == 0
    ensures polls ==>
              && (forall k :: 0 <= k < turns ==> w.clock(k) < deadline && w.first(k).Miss? && w.held(k))
              && !(w.clock(turns) < deadline && w.first(turns).Miss? && w.held(turns))
              && var seen := if w.clock(turns) < deadline && !w.first(turns).Miss? then w.first(turns)
                             else w.last(turns);
              && (seen.Miss? <==> look == RunFactory)
              && (seen.Hit? ==> look == Got(Value(seen.value))) && (seen.Raises? ==> look == Got(Error(seen.error)))
    ensures turns <= bound
  {
    turns := 0;
    if !polls { return RunFactory, 0; }
    while w.clock(turns) < deadline
      invariant turns <= bound
      invariant forall k :: 0 <= k < turns ==> w.clock(k) < deadline && w.first(k).Miss? && w.held(k)
      decreases bound - turns
    {
      var found := w.first(turns);
      match found {
        case Hit(v) => return Got(Value(v)), turns;
        case Raises(e) => return Got(Error(e)), turns;
        case Miss =>
          if !w.held(turns) { break; }
          turns := turns + 1;
      }
    }
    look := LastLook(w.last(turns));
  }

  // ----- the protocol -----

  /** One flight: its key, the call that leads it, how often a factory was started for it, how it settled. */
  datatype Flight = Flight(key: string, leader: nat, runs: nat, result: Option<Outcome>)

  datatype Stage =
    | Acquiring
    | Polling
    | InFactory(locked: bool)
    | Releasing(outcome: Outcome)

  datatype Call =
    | Waiting(flight: nat)
    | Leading(flight: nat, role: Role, stage: Stage)
    | Done(flight: nat, outcome: Outcome, role: Role)

  datatype State = State(inflight: map<string, nat>, flights: seq<Flight>, calls: map<nat, Call>)

  datatype Step =
    | Begin(call: nat, key: string, redis: bool)
    | Acquired(call: nat, granted: bool, polls: bool)
    | Turn(call: nat, inTime: bool, first: Polled, held: bool, last: Polled)
    | FactoryEnds(call: nat, outcome: Outcome)
    | Released(call: nat)
    | Resume(call: nat)

  predicate LeadingAt(s: State, c: nat) {
    c in s.calls && s.calls[c].Leading? && s.calls[c].flight < |s.flights|
  }

  predicate Enabled(s: State, step: Step) {
    match step
    case Begin(c, key, _) => c !in s.calls
    case Acquired(c, _, _) => LeadingAt(s, c) && s.calls[c].stage.Acquiring?
    case Turn(c, _, _, _, _) => LeadingAt(s, c) && s.calls[c].stage.Polling?
    case FactoryEnds(c, _) => LeadingAt(s, c) && s.calls[c].stage.InFactory?
    case Released(c) => LeadingAt(s, c) && s.calls[c].stage.Releasing?
    case Resume(c) =>
      && c in s.calls && s.calls[c].Waiting? && s.calls[c].flight < |s.flights|
      && s.flights[s.calls[c].flight].result.Some?
  }

  /** The leader starts its factory. */
  function Started(s: State, c: nat, role: Role, locked: bool): State
    requires LeadingAt(s, c)
  {
    var f := s.calls[c].flight;
    s.(flights := s.flights[f := s.flights[f].(runs := s.flights[f].runs + 1)],
       calls := s.calls[c := Leading(f, role, InFactory(locked))])
  }

  /** The leader settles its flight and returns. */
  function Finished(s: State, c: nat, outcome: Outcome): State
    requires LeadingAt(s, c)
  {
    var f, role := s.calls[c].flight, s.calls[c].role;
    var flight := s.flights[f];
    State(if flight.key in s.inflight && s.inflight[flight.key] == f then s.inflight - {flight.key} else s.inflight,
          if flight.result.Some? then s.flights else s.flights[f := flight.(result := Some(outcome))],
          s.calls[c := Done(f, outcome, role)])
  }

  function Apply(s: State, step: Step): State
    requires Enabled(s, step)
  {
    match step
    case Begin(c, key, redis) =>
      if key in s.inflight then s.(calls := s.calls[c := Waiting(s.inflight[key])])
      else
        var f := |s.flights|;
        var begun := State(s.inflight[key := f], s.flights + [Flight(key, c, 0, None)],
                           s.calls[c := Leading(f, Leader, Acquiring)]);
        if redis then begun else Started(begun, c, Leader, false)
    case Acquired(c, granted, polls) =>
      if granted then Started(s, c, Leader, true)
      else if polls then s.(calls := s.calls[c := Leading(s.calls[c].flight, RemoteWaiter, Polling)])
      else Started(s, c, RemoteWaiter, false)
    case Turn(c, inTime, first, held, last) => (
      match LookOnce(inTime, first, held, last)
      case Sleep => s
      case Got(outcome) => Finished(s, c, outcome)
      case RunFactory => Started(s, c, RemoteWaiter, false))
    case FactoryEnds(c, outcome) =>
      if s.calls[c].stage.locked
      then s.(calls := s.calls[c := Leading(s.calls[c].flight, s.calls[c].role, Releasing(outcome))])
      else Finished(s, c, outcome)
    case Released(c) => Finished(s, c, s.calls[c].stage.outcome)
    case Resume(c) =>
      var f := s.calls[c].flight;
      s.(calls := s.calls[c := Done(f, s.flights[f].result.value, LocalWaiter)])
  }

  ghost predicate Legal(s: State, steps: seq<Step>)
    decreases |steps|
  {
    steps == [] || (Enabled(s, steps[0]) && Legal(Apply(s, steps[0]), steps[1..]))
  }

  function Exec(s: State, steps: seq<Step>): State
    requires Legal(s, steps)
    decreases |steps|
  {
    if steps == [] then s else Exec(Apply(s, steps[0]), steps[1..])
  }

  const IDLE := State(map[], [], map[])

  // ----- invariant -----

  /** A call is where its flight says it is. */
  ghost predicate CallFits(s: State, c: nat)
    requires c in s.calls
  {
    s.calls[c].flight < |s.flights| &&
    var flight := s.flights[s.calls[c].flight];
    match s.calls[c]
    case Waiting(_) => flight.leader != c
    case Leading(f, role, stage) =>
      && flight.leader == c && flight.result == None && role != LocalWaiter
      && flight.key in s.inflight && s.inflight[flight.key] == f
      && flight.runs == (if stage.InFactory? || stage.Releasing? then 1 else 0)
      && (stage.Polling? ==> role == RemoteWaiter)
    case Done(f, outcome, role) =>
      flight.result == Some(outcome) && (flight.leader == c <==> role != LocalWaiter)
  }

  /** A flight has its leader among the calls: on the way while it is open, returned with its outcome after. */
  ghost predicate FlightFits(s: State, f: nat)
    requires f < |s.flights|
  {
    var flight := s.flights[f];
    && flight.leader in s.calls && s.calls[flight.leader].flight == f && !s.calls[flight.leader].Waiting?
    && (flight.result == None <==> s.calls[flight.leader].Leading?)
    && flight.runs <= 1
    && (s.calls[flight.leader].Done? && flight.runs == 0 ==> s.calls[flight.leader].role == RemoteWaiter)
  }

  /** An entry of the table is an open flight for its key. */
  ghost predicate EntryFits(s: State, key: string)
    requires key in s.inflight
  {
    var f := s.inflight[key];
    f < |s.flights| && s.flights[f].key == key && s.flights[f].result == None
  }

  ghost predicate Inv(s: State) {
    && (forall c :: c in s.calls ==> CallFits(s, c))
    && (forall f :: 0 <= f < |s.flights| ==> FlightFits(s, f))
    && (forall key :: key in s.inflight ==> EntryFits(s, key))
  }

  lemma StepperFits(s: State, step: Step)
    requires Inv(s) && Enabled(s, step)
    ensures CallFits(Apply(s, step), step.call)
  {
    if step.Begin? && step.key in s.inflight {
      assert EntryFits(s, step.key) && FlightFits(s, s.inflight[step.key]);
    } else if !step.Begin? {
      assert CallFits(s, step.call) && FlightFits(s, s.calls[step.call].flight);
    }
  }

  lemma CallsKept(s: State, step: Step)
    requires Inv(s) && Enabled(s, step)
    ensures forall c :: c in Apply(s, step).calls ==> CallFits(Apply(s, step), c)
  {
    var next := Apply(s, step);
    assert step.Begin? || CallFits(s, step.call);
    forall c | c in next.calls ensures CallFits(next, c) {
      if c != step.call {
        assert CallFits(s, c);
      } else {
        StepperFits(s, step);
      }
    }
  }

  lemma FlightsKept(s: State, step: Step)
    requires Inv(s) && Enabled(s, step)
    ensures forall f :: 0 <= f < |Apply(s, step).flights| ==> FlightFits(Apply(s, step), f)
  {
    var next := Apply(s, step);
    assert step.Begin? || CallFits(s, step.call);
    forall f | 0 <= f < |next.flights| ensures FlightFits(next, f) {
      assert f < |s.flights| ==> FlightFits(s, f);
    }
  }

  lemma EntriesKept(s: State, step: Step)
    requires Inv(s) && Enabled(s, step)
    ensures forall key :: key in Apply(s, step).inflight ==> EntryFits(Apply(s, step), key)
  {
    var next := Apply(s, step);
    assert step.Begin? || CallFits(s, step.call);
    forall key | key in next.inflight ensures EntryFits(next, key) {
      assert key in s.inflight ==> EntryFits(s, key);
    }
  }

  lemma StepKeepsInv(s: State, step: Step)
    requires Inv(s) && Enabled(s, step)
    ensures Inv(Apply(s, step))
  {
    hide Apply, CallFits, FlightFits, EntryFits;
    CallsKept(s, step);
    FlightsKept(s, step);
    EntriesKept(s, step);
  }

  lemma {:induction false} ExecKeepsInv(s: State, steps: seq<Step>)
    requires Inv(s) && Legal(s, steps)
    ensures Inv(Exec(s, steps))
    decreases |steps|
  {
    if steps != [] {
      StepKeepsInv(s, steps[0]);
      ExecKeepsInv(Apply(s, steps[0]), steps[1..]);
    }
  }

  // ----- guarantees -----

  function KeyOf(s: State, c: nat): string
    requires LeadingAt(s, c)
  {
    s.flights[s.calls[c].flight].key
  }

  /** Between its begin and its finish a key has one leader, and so at most one factory running. */
  lemma OneLeaderPerKey(steps: seq<Step>, c: nat, d: nat)
    requires Legal(IDLE, steps)
    requires var s := Exec(IDLE, steps); LeadingAt(s, c) && LeadingAt(s, d) && KeyOf(s, c) == KeyOf(s, d)
    ensures c == d
  {
    ExecKeepsInv(IDLE, steps);
    var s := Exec(IDLE, steps);
    assert CallFits(s, c) && CallFits(s, d);
  }

  /** A flight starts its factory at most once, and settles without it only on a remote leader's result or error. */
  lemma OneFactoryPerFlight(steps: seq<Step>, f: nat)
    requires Legal(IDLE, steps) && f < |Exec(IDLE, steps).flights|
    ensures var s := Exec(IDLE, steps);
            && s.flights[f].runs <= 1
            && (s.flights[f].result.Some? && s.flights[f].runs == 0 ==>
                  s.flights[f].leader in s.calls && s.calls[s.flights[f].leader].Done?
                  && s.calls[s.flights[f].leader].role == RemoteWaiter)
  {
    ExecKeepsInv(IDLE, steps);
    assert FlightFits(Exec(IDLE, steps), f);
  }

  /** Every call that shared a flight returned the outcome of its one leader. */
  lemma WaitersGetTheLeadersOutcome(steps: seq<Step>, c: nat)
    requires Legal(IDLE, steps) && c in Exec(IDLE, steps).calls && Exec(IDLE, steps).calls[c].Done?
    ensures var s := Exec(IDLE, steps);
            var f := s.calls[c].flight;
            && f < |s.flights| && s.flights[f].leader in s.calls
            && s.calls[s.flights[f].leader].Done? && s.calls[s.flights[f].leader].flight == f
            && s.calls[s.flights[f].leader].outcome == s.calls[c].outcome
            && (s.calls[c].role != LocalWaiter <==> c == s.flights[f].leader)
  {
    ExecKeepsInv(IDLE, steps);
    var s := Exec(IDLE, steps);
    assert CallFits(s, c) && FlightFits(s, s.calls[c].flight);
    assert CallFits(s, s.flights[s.calls[c].flight].leader);
  }

  /** The table holds exactly the flights under way: an entry has its leader on the way, and a leader its entry. */
  lemma EntriesAreTheLeaders(steps: seq<Step>, key: string)
    requires Legal(IDLE, steps)
    ensures var s := Exec(IDLE, steps);
            key in s.inflight <==> exists c :: LeadingAt(s, c) && KeyOf(s, c) == key
  {
    ExecKeepsInv(IDLE, steps);
    var s := Exec(IDLE, steps);
    if key in s.inflight {
      assert EntryFits(s, key) && FlightFits(s, s.inflight[key]);
      assert LeadingAt(s, s.flights[s.inflight[key]].leader);
    }
    forall c | LeadingAt(s, c) && KeyOf(s, c) == key ensures key in s.inflight {
      assert CallFits(s, c);
    }
  }

  /** A waiter is never orphaned: it can resume, or its leader is still on the way to settle its flight. */
  lemma WaitersAreServed(steps: seq<Step>, c: nat)
    requires Legal(IDLE, steps) && c in Exec(IDLE, steps).calls && Exec(IDLE, steps).calls[c].Waiting?
    ensures var s := Exec(IDLE, steps);
            Enabled(s, Resume(c))
            || exists d :: LeadingAt(s, d) && s.calls[d].flight == s.calls[c].flight
  {
    ExecKeepsInv(IDLE, steps);
    var s := Exec(IDLE, steps);
    var f := s.calls[c].flight;
    assert CallFits(s, c) && FlightFits(s, f);
    assert s.flights[f].result == None ==> LeadingAt(s, s.flights[f].leader);
  }

  /** The flight is settled with the outcome, or its leader is on the way to settle it so. */
  ghost predicate Bound(s: State, c: nat, f: nat, outcome: Outcome) {
    && f < |s.flights| && c in s.calls && s.calls[c].flight == f
    && (s.flights[f].result == Some(outcome)
        || (s.flights[f].result == None && s.calls[c].Leading? && s.calls[c].stage == Releasing(outcome)))
  }

  lemma StepKeepsBound(s: State, step: Step, c: nat, f: nat, outcome: Outcome)
    requires Inv(s) && Enabled(s, step) && Bound(s, c, f, outcome)
    ensures Bound(Apply(s, step), c, f, outcome)
  {
    assert CallFits(s, c);
    assert step.Begin? || CallFits(s, step.call);
  }

  lemma {:induction false} ExecKeepsBound(s: State, steps: seq<Step>, c: nat, f: nat, outcome: Outcome)
    requires Inv(s) && Legal(s, steps) && Bound(s, c, f, outcome)
    ensures Bound(Exec(s, steps), c, f, outcome)
    decreases |steps|
  {
    if steps != [] {
      StepKeepsInv(s, steps[0]);
      StepKeepsBound(s, steps[0], c, f, outcome);
      ExecKeepsBound(Apply(s, steps[0]), steps[1..], c, f, outcome);
    }
  }

  /** Whatever happens after, a flight settles with what its factory ended with. */
  lemma FactoryOutcomeSettles(steps: seq<Step>, c: nat, outcome: Outcome, rest: seq<Step>)
    requires Legal(IDLE, steps) && Enabled(Exec(IDLE, steps), FactoryEnds(c, outcome))
    requires Legal(Apply(Exec(IDLE, steps), FactoryEnds(c, outcome)), rest)
    ensures var f := Exec(IDLE, steps).calls[c].flight;
            var end := Exec(Apply(Exec(IDLE, steps), FactoryEnds(c, outcome)), rest);
            f < |end.flights| && (end.flights[f].result.Some? ==> end.flights[f].result.value == outcome)
  {
    var s := Exec(IDLE, steps);
    ExecKeepsInv(IDLE, steps);
    assert CallFits(s, c);
    StepKeepsInv(s, FactoryEnds(c, outcome));
    ExecKeepsBound(Apply(s, FactoryEnds(c, outcome)), rest, c, s.calls[c].flight, outcome);
  }

  /** A turn that got something settles the flight with it at once. */
  lemma PolledOutcomeSettles(steps: seq<Step>, c: nat, inTime: bool, first: Polled, held: bool, last: Polled)
    requires Legal(IDLE, steps) && Enabled(Exec(IDLE, steps), Turn(c, inTime, first, held, last))
    ensures var s := Exec(IDLE, steps);
            var after := Apply(s, Turn(c, inTime, first, held, last));
            var f, seen := s.calls[c].flight, if inTime && !first.Miss? then first else last;
            && f < |after.flights|
            && (inTime && first.Miss? && held ==> after == s)
            && (!(inTime && first.Miss? && held) ==>
                  && (seen.Miss? <==> after.calls[c].Leading? && after.calls[c].stage == InFactory(false))
                  && (seen.Hit? ==> after.flights[f].result == Some(Value(seen.value)))
                  && (seen.Raises? ==> after.flights[f].result == Some(Error(seen.error))))
  {
    ExecKeepsInv(IDLE, steps);
    assert CallFits(Exec(IDLE, steps), c);
    LookMeans(inTime, first, held, last);
  }

  // ----- who does what -----

  /**
   A call for a key under way waits for that flight; otherwise it leads a new one, and asks for the
   lock first if there is a lock server, or runs its factory at once without a lock.
   */
  lemma BeginMeans(s: State, c: nat, key: string, redis: bool)
    requires Enabled(s, Begin(c, key, redis))
    ensures var after, f := Apply(s, Begin(c, key, redis)), |s.flights|;
            if key in s.inflight then after == s.(calls := s.calls[c := Waiting(s.inflight[key])])
            else
              && after.inflight == s.inflight[key := f] && |after.flights| == f + 1
              && after.flights[f] == Flight(key, c, if redis then 0 else 1, None)
              && after.calls == s.calls[c := Leading(f, Leader, if redis then Acquiring else InFactory(false))]
              && forall g :: 0 <= g < f ==> after.flights[g] == s.flights[g]
  {
  }

  /**
   A leader granted the lock runs its factory holding it, and gives it back before it settles; one
   refused waits for the other process if it can poll, or runs its factory without the lock.
   */
  lemma AcquiredMeans(s: State, c: nat, granted: bool, polls: bool)
    requires Enabled(s, Acquired(c, granted, polls))
    ensures var after, f := Apply(s, Acquired(c, granted, polls)), s.calls[c].flight;
            && after.calls[c] == (if granted then Leading(f, Leader, InFactory(true))
                                  else Leading(f, RemoteWaiter, if polls then Polling else InFactory(false)))
            && after.flights[f].runs == s.flights[f].runs + (if granted || !polls then 1 else 0)
            && after.inflight == s.inflight
  {
  }

  /** A factory under the lock is followed by the lock's release, one without it by the flight's end. */
  lemma FactoryEndsMeans(s: State, c: nat, outcome: Outcome)
    requires Enabled(s, FactoryEnds(c, outcome))
    ensures var after, call := Apply(s, FactoryEnds(c, outcome)), s.calls[c];
            after.calls[c] == if call.stage.locked then Leading(call.flight, call.role, Releasing(outcome))
                              else Done(call.flight, outcome, call.role)
  {
  }
}
