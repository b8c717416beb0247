/**
 Durable batch admission: any number of clients deliver one batch, coordinated only by a shared
 record that expires. Each step is one atomic command on the record or one local move; steps of
 different clients interleave freely. Times in milliseconds; a record is there up to and including
 the millisecond it expires.
 */
module Idempotency {
  /** How long a processing claim holds. */
  const PROCESSING_TTL := 900_000

  datatype Record = Processing(digest: string) | Completed(digest: string, result: string)

  datatype Cell = Missing | Held(record: Record, expiresAt: int)

  datatype Outcome =
    | TooEarly
    | Conflict
    | Unavailable
    | Raised
    | Returned(result: string)
    | Duplicate(result: string)

  /** Where a client is in its delivery. */
  datatype Client =
    | Arriving(digest: string)
    | Refused(digest: string)
    | Running(digest: string, claimedAt: int)
    | Storing(digest: string, claimedAt: int, result: string)
    | Releasing(digest: string, claimedAt: int)
    | Done(outcome: Outcome)

  datatype Ending = Pending | Failed | Succeeded(result: string, heldUntil: int, stored: bool)

  /** One handler run, from its claim; a success remembers how long its record is held. */
  datatype HandlerRun = HandlerRun(digest: string, claimedAt: int, ending: Ending)

  datatype State = State(now: int, cell: Cell, clients: map<nat, Client>, runs: seq<HandlerRun>)

  datatype Step =
    | Tick(to: int)
    | Arrive(who: nat, digest: string)
    | Claim(who: nat)
    | Read(who: nat)
    | HandlerReturns(who: nat, result: string)
    | HandlerRaises(who: nat)
    | Store(who: nat, ttl: int, ok: bool)
    | Release(who: nat, ok: bool)

  predicate Live(s: State) {
    s.cell.Held? && s.now <= s.cell.expiresAt
  }

  /** A client between its claim and its store or delete. */
  predicate Busy(c: Client) {
    c.Running? || c.Storing? || c.Releasing?
  }

  /** The commands a client may issue next, and the timing assumption: no claim outlives its handler. */
  predicate Enabled(s: State, step: Step) {
    match step
    case Tick(to) =>
      s.now <= to && forall c :: c in s.clients && Busy(s.clients[c]) ==> to <= s.clients[c].claimedAt + PROCESSING_TTL
    case Arrive(c, _) => c !in s.clients
    case Claim(c) => c in s.clients && s.clients[c].Arriving?
    case Read(c) => c in s.clients && s.clients[c].Refused?
    case HandlerReturns(c, _) => c in s.clients && s.clients[c].Running?
    case HandlerRaises(c) => c in s.clients && s.clients[c].Running?
    case Store(c, ttl, ok) => c in s.clients && s.clients[c].Storing? && (ok ==> ttl > 0)
    case Release(c, _) => c in s.clients && s.clients[c].Releasing?
  }

  /** What a client whose claim was refused makes of the record. */
  function Answer(s: State, digest: string): Outcome {
    if !Live(s) then TooEarly
    else if digest != "" && s.cell.record.digest != "" && digest != s.cell.record.digest then Conflict
    else
      match s.cell.record
      case Processing(_) => TooEarly
      case Completed(_, result) => Duplicate(result)
  }

  /** The last run, ended. */
  function Ended(runs: seq<HandlerRun>, ending: Ending): seq<HandlerRun> {
    if runs == [] then [] else runs[|runs| - 1 := runs[|runs| - 1].(ending := ending)]
  }

  function Moved(s: State, who: nat, c: Client): State {
    s.(clients := s.clients[who := c])
  }

  function Apply(s: State, step: Step): State
    requires Enabled(s, step)
  {
    match step
    case Tick(to) => s.(now := to)
    case Arrive(c, digest) => Moved(s, c, Arriving(digest))
    case Claim(c) =>
      var digest := s.clients[c].digest;
      if Live(s) then Moved(s, c, Refused(digest))
      else
        Moved(s, c, Running(digest, s.now)).(
          cell := Held(Processing(digest), s.now + PROCESSING_TTL),
          runs := s.runs + [HandlerRun(digest, s.now, Pending)])
    case Read(c) => Moved(s, c, Done(Answer(s, s.clients[c].digest)))
    case HandlerReturns(c, result) =>
      var client := s.clients[c];
      Moved(s, c, Storing(client.digest, client.claimedAt, result)).(
        runs := Ended(s.runs, Succeeded(result, client.claimedAt + PROCESSING_TTL, false)))
    case HandlerRaises(c) =>
      Moved(s, c, Releasing(s.clients[c].digest, s.clients[c].claimedAt)).(runs := Ended(s.runs, Failed))
    case Store(c, ttl, ok) =>
      var client := s.clients[c];
      if !ok then Moved(s, c, Done(Unavailable))
      else
        Moved(s, c, Done(Returned(client.result))).(
          cell := Held(Completed(client.digest, client.result), s.now + ttl),
          runs := Ended(s.runs, Succeeded(client.result, s.now + ttl, true)))
    case Release(c, ok) =>
      var released := Moved(s, c, Done(Raised));
      if ok then released.(cell := Missing) else released
  }

  // ----- invariant -----

  /** A busy client owns the last run and the live record. */
  ghost predicate Owns(s: State, c: Client)
    requires Busy(c)
  {
    && s.runs != []
    && var run := s.runs[|s.runs| - 1];
    && run.digest == c.digest && run.claimedAt == c.claimedAt
    && s.cell == Held(Processing(c.digest), c.claimedAt + PROCESSING_TTL)
    && s.now <= c.claimedAt + PROCESSING_TTL
    && match c {
      case Running(_, _) => run.ending == Pending
      case Storing(_, _, result) => run.ending == Succeeded(result, c.claimedAt + PROCESSING_TTL, false)
      case Releasing(_, _) => run.ending == Failed
      case _ => true
    }
  }

  ghost predicate AtMostOneBusy(s: State) {
    forall c, d :: c in s.clients && d in s.clients && Busy(s.clients[c]) && Busy(s.clients[d]) ==> c == d
  }

  /** A completed record is the one the last run stored. */
  ghost predicate RecordIsLastRun(s: State) {
    s.cell.Held? && s.cell.record.Completed? ==>
      && s.runs != []
      && s.runs[|s.runs| - 1].digest == s.cell.record.digest
      && s.runs[|s.runs| - 1].ending == Succeeded(s.cell.record.result, s.cell.expiresAt, true)
  }

  /** Until it expires, the record of a successful run bars the next claim. */
  ghost predicate SuccessHolds(s: State) {
    s.runs != [] && s.runs[|s.runs| - 1].ending.Succeeded? && s.now <= s.runs[|s.runs| - 1].ending.heldUntil ==>
      && s.cell.Held? && s.cell.expiresAt == s.runs[|s.runs| - 1].ending.heldUntil
      && (s.runs[|s.runs| - 1].ending.stored ==> s.cell.record.Completed?)
  }

  ghost predicate Separated(runs: seq<HandlerRun>, i: int, j: int)
    requires 0 <= i < j < |runs|
  {
    runs[i].claimedAt <= runs[j].claimedAt &&
    (runs[i].ending.Succeeded? ==> runs[i].ending.heldUntil < runs[j].claimedAt)
  }

  ghost predicate RunsSeparated(s: State) {
    && (forall i, j :: 0 <= i < j < |s.runs| ==> Separated(s.runs, i, j))
    && (forall i :: 0 <= i < |s.runs| ==> s.runs[i].claimedAt <= s.now)
  }

  ghost predicate Inv(s: State) {
    && AtMostOneBusy(s)
    && (forall c :: c in s.clients && Busy(s.clients[c]) ==> Owns(s, s.clients[c]))
    && RecordIsLastRun(s) && SuccessHolds(s) && RunsSeparated(s)
  }

  lemma ClaimSeparates(s: State, who: nat)
    requires Inv(s) && Enabled(s, Claim(who))
    ensures RunsSeparated(Apply(s, Claim(who)))
  {
    var s' := Apply(s, Claim(who));
    forall i, j | 0 <= i < j < |s'.runs| ensures Separated(s'.runs, i, j) {
      if j < |s.runs| {
        assert Separated(s.runs, i, j);
      } else if i < |s.runs| - 1 {
        assert Separated(s.runs, i, |s.runs| - 1);
      }
    }
  }

  lemma EndedSeparates(s: State, ending: Ending)
    requires RunsSeparated(s)
    ensures RunsSeparated(s.(runs := Ended(s.runs, ending)))
  {
    var runs := Ended(s.runs, ending);
    forall i, j | 0 <= i < j < |runs| ensures Separated(runs, i, j) {
      assert Separated(s.runs, i, j);
    }
  }

  lemma StepSeparates(s: State, step: Step)
    requires Inv(s) && Enabled(s, step)
    ensures RunsSeparated(Apply(s, step))
  {
    hide Separated, Owns;
    match step
    case Claim(who) => ClaimSeparates(s, who);
    case HandlerReturns(c, result) =>
      EndedSeparates(s, Succeeded(result, s.clients[c].claimedAt + PROCESSING_TTL, false));
    case HandlerRaises(_) => EndedSeparates(s, Failed);
    case Store(c, ttl, _) => EndedSeparates(s, Succeeded(s.clients[c].result, s.now + ttl, true));
    case _ =>
  }

  lemma StepKeepsInv(s: State, step: Step)
    requires Inv(s) && Enabled(s, step)
    ensures Inv(Apply(s, step))
  {
    StepSeparates(s, step);
    StepKeepsOwnership(s, step);
  }

  lemma StepKeepsOwnership(s: State, step: Step)
    requires Inv(s) && Enabled(s, step)
    ensures var s' := Apply(s, step);
            && AtMostOneBusy(s') && RecordIsLastRun(s') && SuccessHolds(s')
            && forall c :: c in s'.clients && Busy(s'.clients[c]) ==> Owns(s', s'.clients[c])
  {
    hide RunsSeparated;
  }

  // ----- runs of the protocol -----

  ghost predicate Legal(s: State, steps: seq<Step>)
    decreases |steps|
  {
    steps == [] || (Enabled(s, steps[0]) && Legal(Apply(s, steps[0]), steps[1..]))
  }

  function Exec(s: State, steps: seq<Step>): State
    requires Legal(s, steps)
    decreases |steps|
  {
    if steps == [] then s else Exec(Apply(s, steps[0]), steps[1..])
  }

  function Start(now: int): State {
    State(now, Missing, map[], [])
  }

  lemma {:induction false} ExecKeepsInv(s: State, steps: seq<Step>)
    requires Inv(s) && Legal(s, steps)
    ensures Inv(Exec(s, steps))
    decreases |steps|
  {
    if steps != [] {
      StepKeepsInv(s, steps[0]);
      ExecKeepsInv(Apply(s, steps[0]), steps[1..]);
    }
  }

  /** At most one client is ever between its claim and its store or delete, so at most one handler runs. */
  lemma OneHandlerAtATime(now: int, steps: seq<Step>, c: nat, d: nat)
    requires Legal(Start(now), steps)
    requires var s := Exec(Start(now), steps);
             c in s.clients && d in s.clients && Busy(s.clients[c]) && Busy(s.clients[d])
    ensures c == d
  {
    ExecKeepsInv(Start(now), steps);
  }

  /** After a successful handler run no other run begins until the record it left has expired. */
  lemma SuccessesSeparatedByExpiry(now: int, steps: seq<Step>, i: nat, j: nat)
    requires Legal(Start(now), steps)
    requires var s := Exec(Start(now), steps); i < j < |s.runs| && s.runs[i].ending.Succeeded?
    ensures var s := Exec(Start(now), steps); s.runs[i].ending.heldUntil < s.runs[j].claimedAt
  {
    ExecKeepsInv(Start(now), steps);
    assert Separated(Exec(Start(now), steps).runs, i, j);
  }

  lemma ExpiredBefore(s: State, i: int, j: int)
    requires RunsSeparated(s) && 0 <= i < j < |s.runs|
    ensures s.runs[i].ending.Succeeded? ==> s.runs[i].ending.heldUntil < s.now
  {
    assert Separated(s.runs, i, j);
  }

  /** The run whose stored record is still held. */
  ghost predicate Current(s: State, i: int)
    requires 0 <= i < |s.runs|
  {
    s.runs[i].ending.Succeeded? && s.runs[i].ending.stored && s.now <= s.runs[i].ending.heldUntil
  }

  /**
   A client is answered with a duplicate exactly when one stored run is still held and its digest
   does not contradict the client's; the answer is that run's result, and that run is unique.
   */
  lemma DuplicatesReplayTheStoredResult(now: int, steps: seq<Step>, who: nat)
    requires Legal(Start(now), steps) && Enabled(Exec(Start(now), steps), Read(who))
    ensures var s := Exec(Start(now), steps);
            var asked := s.clients[who].digest;
            var after := Apply(s, Read(who)).clients[who];
            && (after.outcome.Duplicate? <==>
                exists i :: 0 <= i < |s.runs| && Current(s, i)
                            && (asked == "" || s.runs[i].digest == "" || asked == s.runs[i].digest))
            && (forall i :: 0 <= i < |s.runs| && Current(s, i) && after.outcome.Duplicate? ==>
                  after.outcome.result == s.runs[i].ending.result)
            && (forall i, j :: 0 <= i < |s.runs| && 0 <= j < |s.runs| && Current(s, i) && Current(s, j) ==> i == j)
  {
    var s := Exec(Start(now), steps);
    ExecKeepsInv(Start(now), steps);
    forall i | 0 <= i < |s.runs| ensures Current(s, i) ==> i == |s.runs| - 1 {
      if i < |s.runs| - 1 {
        ExpiredBefore(s, i, |s.runs| - 1);
      }
    }
    if Live(s) && s.cell.record.Completed? {
      assert Current(s, |s.runs| - 1);
    }
  }

  /**
   Why the timing assumption: were the clock let past a busy client's claim, the next client to
   claim would start a second handler, and only then.
   */
  lemma SecondHandlerExactlyAfterOverrun(now: int, steps: seq<Step>, c: nat, d: nat, later: int)
    requires Legal(Start(now), steps)
    requires var s := Exec(Start(now), steps);
             c in s.clients && s.clients[c].Running? && Enabled(s, Claim(d)) && s.now <= later
    ensures var s := Exec(Start(now), steps);
            Apply(s.(now := later), Claim(d)).clients[d].Running?
            <==> later > s.clients[c].claimedAt + 15 * 60 * 1000
  {
    ExecKeepsInv(Start(now), steps);
    var s := Exec(Start(now), steps);
    assert Owns(s, s.clients[c]);
  }

  // ----- what a client's end leaves behind -----

  /** The next claim of an arriving client gets through. */
  predicate Admits(s: State, d: nat)
    requires Enabled(s, Claim(d))
  {
    Apply(s, Claim(d)).clients[d].Running?
  }

  /**
   A handler that raised frees its batch: once its delete went through, the next claim gets through at
   any time; had the delete failed, only after the first claim has expired.
   */
  lemma RaisingFreesTheBatch(now: int, steps: seq<Step>, c: nat, ok: bool, d: nat, later: int)
    requires Legal(Start(now), steps)
    requires var s := Exec(Start(now), steps);
             Enabled(s, Release(c, ok)) && Enabled(Apply(s, Release(c, ok)), Claim(d)) && s.now <= later
    ensures var s := Exec(Start(now), steps);
            var after := Apply(s, Release(c, ok)).(now := later);
            && after.clients[c] == Done(Raised)
            && (Admits(after, d) <==> ok || later > s.clients[c].claimedAt + 15 * 60 * 1000)
  {
    ExecKeepsInv(Start(now), steps);
    var s := Exec(Start(now), steps);
    assert Owns(s, s.clients[c]);
  }

  /**
   A result that was stored bars the next claim until it expires; one that could not be stored leaves
   the first claim in force. The client is told its own result, or that the store failed.
   */
  lemma StoringHoldsTheBatch(now: int, steps: seq<Step>, c: nat, ttl: int, ok: bool, d: nat, later: int)
    requires Legal(Start(now), steps)
    requires var s := Exec(Start(now), steps);
             Enabled(s, Store(c, ttl, ok)) && Enabled(Apply(s, Store(c, ttl, ok)), Claim(d)) && s.now <= later
    ensures var s := Exec(Start(now), steps);
            var after := Apply(s, Store(c, ttl, ok)).(now := later);
            && after.clients[c] == Done(if ok then Returned(s.clients[c].result) else Unavailable)
            && (Admits(after, d) <==>
                later > if ok then s.now + ttl else s.clients[c].claimedAt + PROCESSING_TTL)
  {
    ExecKeepsInv(Start(now), steps);
    var s := Exec(Start(now), steps);
    assert Owns(s, s.clients[c]);
  }

  /** What a handler returns is what its client stores. */
  lemma HandlerResultIsStored(now: int, steps: seq<Step>, c: nat, result: string)
    requires Legal(Start(now), steps) && Enabled(Exec(Start(now), steps), HandlerReturns(c, result))
    ensures var s := Exec(Start(now), steps);
            Apply(s, HandlerReturns(c, result)).clients[c]
            == Storing(s.clients[c].digest, s.clients[c].claimedAt, result)
  {
  }

  /**
   A refused client is told of a conflict exactly when the live record and the client both name their
   content and name it differently, and is otherwise put off exactly when no result is stored.
   */
  lemma RefusalsSpelledOut(s: State, who: nat)
    requires Enabled(s, Read(who))
    ensures var asked, answer := s.clients[who].digest, Apply(s, Read(who)).clients[who];
            var held := s.cell.Held? && s.now <= s.cell.expiresAt;
            var differ := held && asked != "" && s.cell.record.digest != "" && asked != s.cell.record.digest;
            && (answer == Done(Conflict) <==> differ)
            && (answer == Done(TooEarly) <==> !held || (!differ && s.cell.record.Processing?))
            && (answer.outcome.Duplicate? <==> held && !differ && s.cell.record.Completed?)
  {
  }

  /** The digest a client compares, claims with and stores under is the one it arrived with. */
  lemma {:induction false} DigestIsTheArrivals(s: State, steps: seq<Step>, c: nat)
    requires Legal(s, steps) && c !in s.clients
    requires c in Exec(s, steps).clients && !Exec(s, steps).clients[c].Done?
    ensures Arrive(c, Exec(s, steps).clients[c].digest) in steps
    decreases |steps|
  {
    if steps != [] {
      var next := Apply(s, steps[0]);
      if c in next.clients {
        DigestNeverChanges(next, steps[1..], c);
      } else {
        DigestIsTheArrivals(next, steps[1..], c);
      }
    }
  }

  lemma {:induction false} DigestNeverChanges(s: State, steps: seq<Step>, c: nat)
    requires Legal(s, steps) && c in s.clients
    ensures var after := Exec(s, steps);
            c in after.clients && (!after.clients[c].Done? ==>
              !s.clients[c].Done? && after.clients[c].digest == s.clients[c].digest)
    decreases |steps|
  {
    if steps != [] {
      DigestNeverChanges(Apply(s, steps[0]), steps[1..], c);
    }
  }
}

/** The shared record as one delivery changes it when no other delivery comes in between. */
module IdempotencyRecord {
  import opened Common
  import opened Idempotency

  /**
   One undisturbed delivery as steps of the protocol; the handler result is `None` when it raises.
   The handler may end after its claim has run out. A store with a time to live that is not positive fails.
   */
  function Delivery(cell: Cell, digest: string, now: int, handler: Option<string>, endedAt: int, ttl: int, ok: bool)
    : State
    requires now <= endedAt && (ok ==> ttl > 0)
  {
    var arrived := State(now, cell, map[0 := Arriving(digest)], []);
    var claimed := Apply(arrived, Claim(0));
    if claimed.clients[0].Refused? then Apply(claimed, Read(0))
    else
      match handler
      case None => Apply(Apply(claimed, HandlerRaises(0)).(now := endedAt), Release(0, ok))
      case Some(result) => Apply(Apply(claimed, HandlerReturns(0, result)).(now := endedAt), Store(0, ttl, ok))
  }

  class BatchRecord {
    var cell: Cell

    constructor ()
      ensures cell == Missing
    {
      cell := Missing;
    }

    /** Set if absent. */
    method TrySet(record: Record, now: int, ttl: int) returns (claimed: bool)
      modifies this
      ensures claimed <==> !(old(cell).Held? && now <= old(cell).expiresAt)
      ensures cell == if claimed then Held(record, now + ttl) else old(cell)
    {
      claimed := cell.Missing? || now > cell.expiresAt;
      if claimed {
        cell := Held(record, now + ttl);
      }
    }

    method Load(now: int) returns (record: Option<Record>)
      ensures record == if cell.Held? && now <= cell.expiresAt then Some(cell.record) else None
    {
      record := if cell.Held? && now <= cell.expiresAt then Some(cell.record) else None;
    }

    /** A delivery from claim to answer, as the protocol has it. */
    method RunOnce(digest: string, now: int, handler: Option<string>, endedAt: int, ttl: int, ok: bool)
      returns (outcome: Outcome)
      requires now <= endedAt && (ok ==> ttl > 0)
      modifies this
      ensures var end := Delivery(old(cell), digest, now, handler, endedAt, ttl, ok);
              cell == end.cell && end.clients[0] == Done(outcome)
    {
      var claimed := TrySet(Processing(digest), now, PROCESSING_TTL);
      if !claimed {
        var record := Load(now);
        match record {
          case None => outcome := TooEarly;
          case Some(r) =>
            if digest != "" && r.digest != "" && digest != r.digest {
              outcome := Conflict;
            } else if r.Processing? {
              outcome := TooEarly;
            } else {
              outcome := Duplicate(r.result);
            }
        }
        return;
      }
      match handler {
        case None =>
          if ok {
            cell := Missing;
          }
          outcome := Raised;
        case Some(result) =>
          if ok {
            cell := Held(Completed(digest, result), endedAt + ttl);
            outcome := Returned(result);
          } else {
            outcome := Unavailable;
          }
      }
    }
  }

  /** Delivered again with the same content, a batch is answered from the record exactly until the result expires. */
  lemma RedeliveryIsDuplicate(
    cell: Cell, digest: string, now: int, result: string, endedAt: int, ttl: int,
    later: int, handler: Option<string>, laterEnd: int, laterTtl: int, ok: bool)
    requires (cell.Held? ==> cell.expiresAt < now) && now <= endedAt <= later <= laterEnd
    requires ttl > 0 && (ok ==> laterTtl > 0)
    ensures var first := Delivery(cell, digest, now, Some(result), endedAt, ttl, true);
            var again := Delivery(first.cell, digest, later, handler, laterEnd, laterTtl, ok);
            && first.clients[0] == Done(Returned(result))
            && (later <= endedAt + ttl <==> again.clients[0] == Done(Duplicate(result)))
  {
    var first := Delivery(cell, digest, now, Some(result), endedAt, ttl, true);
    assert first.cell == Held(Completed(digest, result), endedAt + ttl);
  }

  /**
   Delivered again after its handler raised, a batch runs and returns its result if the delete went
   through or the first claim has expired; otherwise it is put off, or refused if its content changed.
   */
  lemma RedeliveryAfterRaising(
    cell: Cell, digest: string, now: int, endedAt: int, ok: bool,
    later: int, again: string, result: string, laterEnd: int, ttl: int)
    requires (cell.Held? ==> cell.expiresAt < now) && now <= endedAt <= later <= laterEnd && ttl > 0
    ensures var first := Delivery(cell, digest, now, None, endedAt, ttl, ok);
            var second := Delivery(first.cell, again, later, Some(result), laterEnd, ttl, true);
            && first.clients[0] == Done(Raised)
            && second.clients[0] == Done(
                 if ok || later > now + PROCESSING_TTL then Returned(result)
                 else if digest != "" && again != "" && digest != again then Conflict
                 else TooEarly)
  {
  }
}
