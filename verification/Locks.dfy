/**
 The token lock: a key set only when absent, with an expiry, and deleted only by whoever presents
 the token it holds. Times in milliseconds; a key is there up to and including the millisecond it
 expires.
 */
module TokenLock {
  import opened Common

  datatype Cell = Free | Held(token: string, expiresAt: int)

  predicate Live(cell: Cell, now: int) {
    cell.Held? && now <= cell.expiresAt
  }

  /** Lease length for a time in seconds: at least one second, whole milliseconds. */
  function LeaseMs(ttlSeconds: real): int {
    (if ttlSeconds > 1.0 then ttlSeconds * 1000.0 else 1000.0).Floor
  }

  function SetIfAbsent(cell: Cell, now: int, token: string, ttlSeconds: real): Cell {
    if Live(cell, now) then cell else Held(token, now + LeaseMs(ttlSeconds))
  }

  function DeleteIfEqual(cell: Cell, now: int, token: string): Cell {
    if Live(cell, now) && cell.token == token then Free else cell
  }

  /** How a command fares: it arrives and is answered, it never arrives, or only its answer is lost. */
  datatype Link = Answered | NotSent | AnswerLost

  // ----- the lock server as an object -----

  class LockServer {
    var cells: map<string, Cell>

    constructor ()
      ensures cells == map[]
    {
      cells := map[];
    }

    function CellOf(key: string): Cell
      reads this
    {
      if key in cells then cells[key] else Free
    }

    method AcquireLock(key: string, now: int, ttlSeconds: real, token: string, link: Link) returns (got: Option<string>)
      modifies this
      ensures got == if link == Answered && !Live(old(CellOf(key)), now) then Some(token) else None
      ensures CellOf(key) == if link == NotSent then old(CellOf(key))
                             else SetIfAbsent(old(CellOf(key)), now, token, ttlSeconds)
      ensures forall other :: other != key ==> CellOf(other) == old(CellOf(other))
    {
      if link == NotSent { return None; }
      var free := !Live(CellOf(key), now);
      if free {
        cells := cells[key := Held(token, now + LeaseMs(ttlSeconds))];
      }
      got := if free && link == Answered then Some(token) else None;
    }

    method ReleaseLock(key: string, now: int, token: string, link: Link)
      modifies this
      ensures CellOf(key) == if link == NotSent || token == "" then old(CellOf(key))
                             else DeleteIfEqual(old(CellOf(key)), now, token)
      ensures forall other :: other != key ==> CellOf(other) == old(CellOf(other))
    {
      if link == NotSent || token == "" { return; }
      if Live(CellOf(key), now) && CellOf(key).token == token {
        cells := cells[key := Free];
      }
    }
  }

  // ----- runs on one key -----

  /** `leases` are the granted leases not released yet, known to their holder or not; tokens are drawn fresh. */
  datatype State = State(now: int, cell: Cell, leases: map<string, int>, drawn: set<string>)

  datatype Step =
    | Tick(to: int)
    | Acquire(token: string, ttlSeconds: real, link: Link)
    | Release(token: string, link: Link)

  predicate Enabled(s: State, step: Step) {
    match step
    case Tick(to) => s.now <= to
    case Acquire(token, _, _) => token != "" && token !in s.drawn
    case Release(token, link) => token != ""
  }

  function Apply(s: State, step: Step): State
    requires Enabled(s, step)
  {
    match step
    case Tick(to) => s.(now := to)
    case Acquire(token, ttl, link) =>
      var tried := s.(drawn := s.drawn + {token});
      if link == NotSent || Live(s.cell, s.now) then tried
      else tried.(cell := SetIfAbsent(s.cell, s.now, token, ttl), leases := s.leases[token := s.now + LeaseMs(ttl)])
    case Release(token, link) =>
      if link == NotSent then s
      else s.(cell := DeleteIfEqual(s.cell, s.now, token), leases := s.leases - {token})
  }

  ghost predicate Legal(s: State, steps: seq<Step>)
    decreases |steps|
  {
    steps == [] || (Enabled(s, steps[0]) && Legal(Apply(s, steps[0]), steps[1..]))
  }

  function Exec(s: State, steps: seq<Step>): State
    requires Legal(s, steps)
    decreases |steps|
  {
    if steps == [] then s else Exec(Apply(s, steps[0]), steps[1..])
  }

  function Start(now: int): State {
    State(now, Free, map[], {})
  }

  /** An unreleased lease that has not run out. */
  predicate Holding(s: State, token: string) {
    token in s.leases && s.now <= s.leases[token]
  }

  ghost predicate Inv(s: State) {
    && (forall t :: t in s.leases ==> t in s.drawn)
    && (forall t :: Holding(s, t) ==> s.cell == Held(t, s.leases[t]))
    && (Live(s.cell, s.now) ==> s.cell.token in s.leases && s.leases[s.cell.token] == s.cell.expiresAt)
  }

  lemma StepKeepsInv(s: State, step: Step)
    requires Inv(s) && Enabled(s, step)
    ensures Inv(Apply(s, step))
  {
  }

  lemma {:induction false} ExecKeepsInv(s: State, steps: seq<Step>)
    requires Inv(s) && Legal(s, steps)
    ensures Inv(Exec(s, steps))
    decreases |steps|
  {
    if steps != [] {
      StepKeepsInv(s, steps[0]);
      ExecKeepsInv(Apply(s, steps[0]), steps[1..]);
    }
  }

  /** At most one lease is held and unexpired, whatever acquires, releases and lapses came before. */
  lemma OneUnexpiredHolder(now: int, steps: seq<Step>, t: string, u: string)
    requires Legal(Start(now), steps)
    requires Holding(Exec(Start(now), steps), t) && Holding(Exec(Start(now), steps), u)
    ensures t == u
  {
    ExecKeepsInv(Start(now), steps);
  }

  /** An acquire that reaches the server is granted exactly when nobody holds an unexpired lease. */
  lemma GrantedExactlyWhenUnheld(now: int, steps: seq<Step>, token: string, ttl: real, link: Link)
    requires Legal(Start(now), steps) && link != NotSent
    requires Enabled(Exec(Start(now), steps), Acquire(token, ttl, link))
    ensures var s := Exec(Start(now), steps);
            Holding(Apply(s, Acquire(token, ttl, link)), token) <==> !exists t :: Holding(s, t)
  {
    ExecKeepsInv(Start(now), steps);
    var s := Exec(Start(now), steps);
    if Live(s.cell, s.now) {
      assert Holding(s, s.cell.token);
    }
    assert LeaseMs(ttl) >= 1000;
  }

  /**
   A release ends the lease of the token it presents and no other: after any run, whoever else holds
   an unexpired lease still has the key, so a holder whose own lease lapsed takes nothing away.
   */
  lemma ReleaseEndsOnlyItsOwn(now: int, steps: seq<Step>, token: string, link: Link, other: string)
    requires Legal(Start(now), steps) && token != "" && other != token
    ensures var s := Exec(Start(now), steps);
            var after := Apply(s, Release(token, link));
            && (Holding(after, other) <==> Holding(s, other))
            && (Holding(s, other) ==> after.cell == s.cell == Held(other, s.leases[other]))
            && (link != NotSent ==> !Holding(after, token))
            && (Live(s.cell, s.now) && !Live(after.cell, after.now) <==> link != NotSent && Holding(s, token))
  {
    ExecKeepsInv(Start(now), steps);
    var s := Exec(Start(now), steps);
    StepKeepsInv(s, Release(token, link));
  }

  /** A lease is the whole milliseconds of its length, and never shorter than a second. */
  lemma LeaseLength(ttl: real)
    ensures LeaseMs(ttl) >= 1000 && (ttl <= 1.0 ==> LeaseMs(ttl) == 1000)
    ensures ttl >= 1.0 ==> LeaseMs(ttl) as real <= ttl * 1000.0 < (LeaseMs(ttl) + 1) as real
  {
  }

  /** A granted lease that is left alone is held exactly until its length has passed. */
  lemma GrantedHoldsForItsLength(now: int, steps: seq<Step>, token: string, ttl: real, link: Link, later: int)
    requires Legal(Start(now), steps) && link != NotSent
    requires Enabled(Exec(Start(now), steps), Acquire(token, ttl, link)) && Exec(Start(now), steps).now <= later
    requires !exists t :: Holding(Exec(Start(now), steps), t)
    ensures var s := Exec(Start(now), steps);
            var after := Apply(Apply(s, Acquire(token, ttl, link)), Tick(later));
            && (Holding(after, token) <==> later <= s.now + LeaseMs(ttl))
            && (Live(after.cell, after.now) <==> Holding(after, token))
  {
    ExecKeepsInv(Start(now), steps);
    var s := Exec(Start(now), steps);
    if Live(s.cell, s.now) {
      assert Holding(s, s.cell.token);
    }
    assert !Live(s.cell, s.now);
  }
}
