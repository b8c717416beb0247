/**
 The lease-based limit on one user's live connections: a sorted set of renewal times, trimmed at
 every admission. Times in seconds, on one clock.
 */
module Admission {
  import opened Common

  /** Limits in force, and the longest gap a held connection lets pass between two renew calls. */
  datatype Config = Config(maxConnections: int, ttl: real, gap: real)

  function RenewInterval(cfg: Config): real {
    if cfg.ttl / 3.0 > 1.0 then cfg.ttl / 3.0 else 1.0
  }

  /** What the ledger makes of any settings it is given. */
  predicate Sane(cfg: Config) {
    cfg.maxConnections >= 1 && cfg.ttl >= 1.0 && cfg.gap >= 0.0
  }

  /** The timing assumption: the longest gap and the renewal interval together fit the lease. */
  predicate Timely(cfg: Config) {
    Sane(cfg) && cfg.gap + RenewInterval(cfg) <= cfg.ttl
  }

  /** The sorted set, which vanishes as a whole after `goneAfter`. */
  datatype Scores = Scores(members: map<string, real>, goneAfter: real)

  function Seen(z: Scores, now: real): map<string, real> {
    if now > z.goneAfter then map[] else z.members
  }

  /** The set as an admission sees it: without the members whose lease has run out. */
  function Trimmed(z: Scores, now: real, ttl: real): map<string, real> {
    map m | m in Seen(z, now) && Seen(z, now)[m] > now - ttl :: Seen(z, now)[m]
  }

  function Admitted(z: Scores, cfg: Config, now: real, member: string): (Scores, bool) {
    var active := Trimmed(z, now, cfg.ttl);
    if |active| >= cfg.maxConnections then (Scores(active, z.goneAfter), false)
    else (Scores(active[member := now], now + cfg.ttl * 2.0), true)
  }

  function Touched(z: Scores, cfg: Config, now: real, member: string): Scores {
    Scores(Seen(z, now)[member := now], now + cfg.ttl * 2.0)
  }

  function Removed(z: Scores, now: real, member: string): Scores {
    Scores(Seen(z, now) - {member}, z.goneAfter)
  }

  // ----- the ledger and its admissions as objects -----

  class Ledger {
    const config: Config
    var scores: Scores

    constructor (maxConnections: int, ttl: real, gap: real)
      ensures config.maxConnections == Max(1, maxConnections) && config.ttl == (if ttl > 1.0 then ttl else 1.0)
      ensures config.gap == gap && scores == Scores(map[], 0.0)
    {
      config := Config(Max(1, maxConnections), if ttl > 1.0 then ttl else 1.0, gap);
      scores := Scores(map[], 0.0);
    }

    /** The admission script, run as one step. */
    method Admit(now: real, connectionId: string) returns (admission: ConnectionAdmission, active: nat)
      modifies this
      ensures fresh(admission) && !admission.released && admission.lastRenew == now
      ensures (scores, admission.admitted) == Admitted(old(scores), config, now, connectionId)
      ensures admission.ledger == (if admission.admitted then this else null)
      ensures admission.connectionId == if admission.admitted then connectionId else ""
      ensures active == |Trimmed(old(scores), now, config.ttl)| + if admission.admitted then 1 else 0
    {
      var members := Trimmed(scores, now, config.ttl);
      if |members| >= config.maxConnections {
        scores := Scores(members, scores.goneAfter);
        admission := new ConnectionAdmission(false, null, "", now);
        active := |members|;
      } else {
        active := |members| + 1;
        scores := Scores(members[connectionId := now], now + config.ttl * 2.0);
        admission := new ConnectionAdmission(true, this, connectionId, now);
      }
    }

    method Touch(now: real, connectionId: string)
      modifies this
      ensures scores == if connectionId == "" then old(scores) else Touched(old(scores), config, now, connectionId)
      ensures connectionId != "" ==>
                && scores.members == (if now > old(scores).goneAfter then map[connectionId := now]
                                      else old(scores).members[connectionId := now])
                && scores.goneAfter == now + 2.0 * config.ttl
    {
      if connectionId != "" {
        scores := Scores(Seen(scores, now)[connectionId := now], now + config.ttl * 2.0);
      }
    }

    method Remove(now: real, connectionId: string)
      modifies this
      ensures scores == if connectionId == "" then old(scores) else Removed(old(scores), now, connectionId)
    {
      if connectionId != "" {
        scores := Scores(Seen(scores, now) - {connectionId}, scores.goneAfter);
      }
    }
  }

  class ConnectionAdmission {
    const admitted: bool
    const ledger: Ledger?
    const connectionId: string
    var released: bool
    var lastRenew: real

    constructor (admitted: bool, ledger: Ledger?, connectionId: string, now: real)
      ensures this.admitted == admitted && this.ledger == ledger && this.connectionId == connectionId
      ensures !released && lastRenew == now
    {
      this.admitted, this.ledger, this.connectionId := admitted, ledger, connectionId;
      released, lastRenew := false, now;
    }

    method Renew(now: real)
      modifies this`lastRenew, ledger
      ensures ledger != null ==>
                var due := !released && connectionId != "" && now - old(lastRenew) >= RenewInterval(ledger.config);
                && lastRenew == (if due then now else old(lastRenew))
                && ledger.scores == if due then Touched(old(ledger.scores), ledger.config, now, connectionId)
                                    else old(ledger.scores)
    {
      if ledger == null || released || connectionId == "" {
        return;
      }
      if now - lastRenew < RenewInterval(ledger.config) {
        return;
      }
      lastRenew := now;
      ledger.Touch(now, connectionId);
    }

    method Release(now: real)
      modifies this`released, ledger
      ensures released
      ensures ledger != null ==>
                ledger.scores == if old(released) || connectionId == "" then old(ledger.scores)
                                 else Removed(old(ledger.scores), now, connectionId)
    {
      var already := released;
      released := true;
      if ledger == null || already || connectionId == "" {
        return;
      }
      ledger.Remove(now, connectionId);
    }
  }

  // ----- many connections of one user -----

  datatype Status = Held | Released | Abandoned

  datatype Connection = Connection(status: Status, lastRenew: real, lastCall: real)

  datatype State = State(now: real, scores: Scores, connections: map<string, Connection>)

  datatype Step =
    | Tick(to: real)
    | Connect(id: string)
    | Renew(id: string)
    | Release(id: string)
    | Crash(id: string)

  /** Connection ids are never reused, and a held connection calls renew in time. */
  predicate Enabled(cfg: Config, s: State, step: Step) {
    match step
    case Tick(to) =>
      s.now <= to && forall id :: id in s.connections && s.connections[id].status == Held ==>
        to <= s.connections[id].lastCall + cfg.gap
    case Connect(id) => id !in s.connections
    case Renew(id) => id in s.connections && s.connections[id].status != Abandoned
    case Release(id) => id in s.connections && s.connections[id].status != Abandoned
    case Crash(id) => id in s.connections && s.connections[id].status == Held
  }

  function Apply(cfg: Config, s: State, step: Step): State
    requires Enabled(cfg, s, step)
  {
    match step
    case Tick(to) => s.(now := to)
    case Connect(id) =>
      var (scores, admitted) := Admitted(s.scores, cfg, s.now, id);
      State(s.now, scores,
            if admitted then s.connections[id := Connection(Held, s.now, s.now)] else s.connections)
    case Renew(id) =>
      var c := s.connections[id];
      if c.status == Released then s
      else if s.now - c.lastRenew < RenewInterval(cfg) then
        s.(connections := s.connections[id := c.(lastCall := s.now)])
      else
        State(s.now, Touched(s.scores, cfg, s.now, id),
              s.connections[id := Connection(Held, s.now, s.now)])
    case Release(id) =>
      var c := s.connections[id];
      if c.status == Released then s
      else State(s.now, Removed(s.scores, s.now, id), s.connections[id := c.(status := Released)])
    case Crash(id) => s.(connections := s.connections[id := s.connections[id].(status := Abandoned)])
  }

  // ----- invariant -----

  /** A held connection is in the set with its renewal time, and its lease is not near its end. */
  ghost predicate Leased(cfg: Config, s: State, id: string)
    requires id in s.connections
  {
    var c := s.connections[id];
    && id in s.scores.members
    && c.lastRenew <= c.lastCall <= s.now <= c.lastCall + cfg.gap
    && c.lastCall - c.lastRenew < RenewInterval(cfg)
  }

  /** A member of the set is a connection that was admitted and not released. */
  ghost predicate Accounted(cfg: Config, s: State, id: string)
    requires id in s.scores.members
  {
    && id in s.connections && s.connections[id].status != Released
    && s.scores.members[id] == s.connections[id].lastRenew <= s.now
    && s.scores.members[id] + cfg.ttl * 2.0 <= s.scores.goneAfter
  }

  /** An unreleased connection stays in the set while its lease runs, even if it was abandoned. */
  ghost predicate CountedWhileRunning(cfg: Config, s: State, id: string)
    requires id in s.connections
  {
    s.connections[id].status != Released && s.now - s.connections[id].lastRenew < cfg.ttl ==> id in s.scores.members
  }

  /** The set keeps its books, timely renewals or not. */
  ghost predicate Books(cfg: Config, s: State) {
    && (forall id :: id in s.connections ==> CountedWhileRunning(cfg, s, id) && s.connections[id].lastRenew <= s.now)
    && (forall id :: id in s.scores.members ==> Accounted(cfg, s, id))
  }

  ghost predicate Inv(cfg: Config, s: State) {
    && Books(cfg, s)
    && (forall id :: id in s.connections && s.connections[id].status == Held ==> Leased(cfg, s, id))
    && |s.scores.members| <= cfg.maxConnections
  }

  lemma MembersShrink(small: map<string, real>, large: map<string, real>)
    requires small.Keys <= large.Keys
    ensures |small| <= |large|
  {
    SubsetSize(small.Keys, large.Keys);
    assert |small| == |small.Keys| && |large| == |large.Keys|;
  }

  lemma RunningIsSeen(cfg: Config, s: State, id: string)
    requires Sane(cfg) && Books(cfg, s) && id in s.connections && s.connections[id].status != Released
    ensures s.now - s.connections[id].lastRenew < cfg.ttl <==> id in Trimmed(s.scores, s.now, cfg.ttl)
    ensures s.now - s.connections[id].lastRenew < cfg.ttl ==> id in Seen(s.scores, s.now)
  {
    assert CountedWhileRunning(cfg, s, id);
    if id in s.scores.members {
      assert Accounted(cfg, s, id);
    }
  }

  lemma ConnectKeepsBooks(cfg: Config, s: State, id: string)
    requires Sane(cfg) && Books(cfg, s) && Enabled(cfg, s, Connect(id))
    ensures Books(cfg, Apply(cfg, s, Connect(id)))
  {
    var s' := Apply(cfg, s, Connect(id));
    var active := Trimmed(s.scores, s.now, cfg.ttl);
    forall other | other in s'.scores.members ensures Accounted(cfg, s', other) {
      if other in active {
        assert Accounted(cfg, s, other);
      }
    }
    forall other | other in s'.connections ensures CountedWhileRunning(cfg, s', other) {
      if other != id && s.connections[other].status != Released {
        RunningIsSeen(cfg, s, other);
      }
    }
  }

  lemma RenewKeepsBooks(cfg: Config, s: State, id: string)
    requires Sane(cfg) && Books(cfg, s) && Enabled(cfg, s, Renew(id))
    ensures Books(cfg, Apply(cfg, s, Renew(id)))
  {
    var s' := Apply(cfg, s, Renew(id));
    forall other | other in s'.scores.members ensures Accounted(cfg, s', other) {
      assert other in s.scores.members ==> Accounted(cfg, s, other);
    }
    forall other | other in s'.connections ensures CountedWhileRunning(cfg, s', other) {
      if s.connections[other].status != Released {
        RunningIsSeen(cfg, s, other);
      }
    }
  }

  lemma ReleaseKeepsBooks(cfg: Config, s: State, id: string)
    requires Sane(cfg) && Books(cfg, s) && Enabled(cfg, s, Release(id))
    ensures Books(cfg, Apply(cfg, s, Release(id)))
  {
    var s' := Apply(cfg, s, Release(id));
    forall other | other in s'.scores.members ensures Accounted(cfg, s', other) {
      assert Accounted(cfg, s, other);
    }
    forall other | other in s'.connections ensures CountedWhileRunning(cfg, s', other) {
      if s.connections[other].status != Released {
        RunningIsSeen(cfg, s, other);
      }
    }
  }

  lemma StepKeepsBooks(cfg: Config, s: State, step: Step)
    requires Sane(cfg) && Books(cfg, s) && Enabled(cfg, s, step)
    ensures Books(cfg, Apply(cfg, s, step))
  {
    match step
    case Connect(id) => ConnectKeepsBooks(cfg, s, id);
    case Renew(id) => RenewKeepsBooks(cfg, s, id);
    case Release(id) => ReleaseKeepsBooks(cfg, s, id);
    case _ =>
      var s' := Apply(cfg, s, step);
      forall id | id in s'.scores.members ensures Accounted(cfg, s', id) {
        assert Accounted(cfg, s, id);
      }
      forall id | id in s'.connections ensures CountedWhileRunning(cfg, s', id) {
        assert CountedWhileRunning(cfg, s, id);
      }
  }

  // ----- timely renewals -----

  /** A held connection survives the trim of any admission and the expiry of the whole set. */
  lemma HeldSurvivesTrim(cfg: Config, s: State, id: string)
    requires Timely(cfg) && Inv(cfg, s) && id in s.connections && s.connections[id].status == Held
    ensures id in Trimmed(s.scores, s.now, cfg.ttl) && id in Seen(s.scores, s.now)
  {
    assert Leased(cfg, s, id) && Accounted(cfg, s, id);
  }

  lemma ConnectKeepsSize(cfg: Config, s: State, id: string)
    requires Timely(cfg) && Inv(cfg, s) && Enabled(cfg, s, Connect(id))
    ensures |Apply(cfg, s, Connect(id)).scores.members| <= cfg.maxConnections
  {
    hide Leased, Accounted, CountedWhileRunning;
    var active := Trimmed(s.scores, s.now, cfg.ttl);
    MembersShrink(active, s.scores.members);
    assert active[id := s.now].Keys == active.Keys + {id};
  }

  /** What a step does to one held connection's lease. */
  lemma StepKeepsLease(cfg: Config, s: State, step: Step, id: string)
    requires Timely(cfg) && Inv(cfg, s) && Enabled(cfg, s, step)
    requires id in Apply(cfg, s, step).connections && Apply(cfg, s, step).connections[id].status == Held
    ensures Leased(cfg, Apply(cfg, s, step), id)
  {
    hide Books;
    if id in s.connections {
      assert Leased(cfg, s, id);
      assert s.connections[id].status == Held;
      HeldSurvivesTrim(cfg, s, id);
    }
  }

  lemma StepKeepsSize(cfg: Config, s: State, step: Step)
    requires Timely(cfg) && Inv(cfg, s) && Enabled(cfg, s, step)
    ensures |Apply(cfg, s, step).scores.members| <= cfg.maxConnections
  {
    hide Books, Leased;
    match step
    case Connect(id) => ConnectKeepsSize(cfg, s, id);
    case Renew(id) =>
      if s.connections[id].status == Held {
        HeldSurvivesTrim(cfg, s, id);
        MembersShrink(Apply(cfg, s, step).scores.members, s.scores.members);
      }
    case Release(id) => MembersShrink(Apply(cfg, s, step).scores.members, s.scores.members);
    case _ =>
  }

  lemma StepKeepsInv(cfg: Config, s: State, step: Step)
    requires Timely(cfg) && Inv(cfg, s) && Enabled(cfg, s, step)
    ensures Inv(cfg, Apply(cfg, s, step))
  {
    StepKeepsBooks(cfg, s, step);
    StepKeepsSize(cfg, s, step);
    hide Books, Leased, Apply;
    var s' := Apply(cfg, s, step);
    forall id | id in s'.connections && s'.connections[id].status == Held ensures Leased(cfg, s', id) {
      StepKeepsLease(cfg, s, step, id);
    }
  }

  // ----- runs -----

  ghost predicate Legal(cfg: Config, s: State, steps: seq<Step>)
    decreases |steps|
  {
    steps == [] || (Enabled(cfg, s, steps[0]) && Legal(cfg, Apply(cfg, s, steps[0]), steps[1..]))
  }

  function Exec(cfg: Config, s: State, steps: seq<Step>): State
    requires Legal(cfg, s, steps)
    decreases |steps|
  {
    if steps == [] then s else Exec(cfg, Apply(cfg, s, steps[0]), steps[1..])
  }

  function Start(now: real): State {
    State(now, Scores(map[], now), map[])
  }

  lemma {:induction false} ExecKeepsInv(cfg: Config, s: State, steps: seq<Step>)
    requires Timely(cfg) && Inv(cfg, s) && Legal(cfg, s, steps)
    ensures Inv(cfg, Exec(cfg, s, steps))
    decreases |steps|
  {
    if steps != [] {
      StepKeepsInv(cfg, s, steps[0]);
      ExecKeepsInv(cfg, Apply(cfg, s, steps[0]), steps[1..]);
    }
  }

  lemma {:induction false} ExecKeepsBooks(cfg: Config, s: State, steps: seq<Step>)
    requires Sane(cfg) && Books(cfg, s) && Legal(cfg, s, steps)
    ensures Books(cfg, Exec(cfg, s, steps))
    decreases |steps|
  {
    if steps != [] {
      StepKeepsBooks(cfg, s, steps[0]);
      ExecKeepsBooks(cfg, Apply(cfg, s, steps[0]), steps[1..]);
    }
  }

  function HeldIds(s: State): set<string> {
    set id | id in s.connections && s.connections[id].status == Held
  }

  /**
   Over every run: never more held connections than the limit, each of them still counted, and no
   released one ever counted again.
   */
  lemma LimitIsNeverExceeded(cfg: Config, now: real, steps: seq<Step>)
    requires Timely(cfg) && Legal(cfg, Start(now), steps)
    ensures var s := Exec(cfg, Start(now), steps);
            && |HeldIds(s)| <= cfg.maxConnections
            && HeldIds(s) <= Seen(s.scores, s.now).Keys
            && forall id :: id in s.connections && s.connections[id].status == Released ==> id !in s.scores.members
  {
    var s := Exec(cfg, Start(now), steps);
    ExecKeepsInv(cfg, Start(now), steps);
    forall id | id in HeldIds(s) ensures id in Seen(s.scores, s.now) {
      HeldSurvivesTrim(cfg, s, id);
    }
    assert HeldIds(s) <= s.scores.members.Keys;
    SubsetSize(HeldIds(s), s.scores.members.Keys);
    assert |s.scores.members| == |s.scores.members.Keys|;
    forall id | id in s.scores.members ensures s.connections[id].status != Released {
      assert Accounted(cfg, s, id);
    }
  }

  /** Connections with a running lease: held ones, and abandoned ones less than a lease after their last renewal. */
  function RunningLeases(cfg: Config, s: State): set<string> {
    set id | id in s.connections && s.connections[id].status != Released
             && s.now - s.connections[id].lastRenew < cfg.ttl
  }

  /**
   Whatever the settings, a new connection is admitted exactly when fewer leases than the limit are
   running, so an abandoned connection costs its slot for one lease after its last renewal and no longer.
   */
  lemma AdmittedExactlyWhenLeasesFree(cfg: Config, now: real, steps: seq<Step>, id: string)
    requires Sane(cfg) && Legal(cfg, Start(now), steps) && Enabled(cfg, Exec(cfg, Start(now), steps), Connect(id))
    ensures var s := Exec(cfg, Start(now), steps);
            var after := Apply(cfg, s, Connect(id));
            && (id in after.connections <==> |RunningLeases(cfg, s)| < cfg.maxConnections)
            && after.scores.members.Keys - {id} == RunningLeases(cfg, s)
  {
    var s := Exec(cfg, Start(now), steps);
    ExecKeepsBooks(cfg, Start(now), steps);
    var active := Trimmed(s.scores, s.now, cfg.ttl);
    forall other ensures other in active <==> other in RunningLeases(cfg, s) {
      if other in s.scores.members {
        assert Accounted(cfg, s, other);
      }
      if other in s.connections && s.connections[other].status != Released {
        RunningIsSeen(cfg, s, other);
      }
    }
    assert active.Keys == RunningLeases(cfg, s);
    assert |active| == |active.Keys|;
  }

  // ----- the timing assumption is exact -----

  /** Some run, from an empty ledger, leads to the state. */
  ghost predicate Reached(cfg: Config, s: State) {
    exists now, steps :: Legal(cfg, Start(now), steps) && Exec(cfg, Start(now), steps) == s
  }

  lemma {:induction false} ExecAppend(cfg: Config, s: State, steps: seq<Step>, step: Step)
    requires Legal(cfg, s, steps) && Enabled(cfg, Exec(cfg, s, steps), step)
    ensures Legal(cfg, s, steps + [step]) && Exec(cfg, s, steps + [step]) == Apply(cfg, Exec(cfg, s, steps), step)
    decreases |steps|
  {
    if steps == [] {
      assert [] + [step] == [step] && [step][1..] == [];
    } else {
      assert (steps + [step])[1..] == steps[1..] + [step];
      ExecAppend(cfg, Apply(cfg, s, steps[0]), steps[1..], step);
    }
  }

  lemma ReachedNext(cfg: Config, s: State, step: Step)
    requires Reached(cfg, s) && Enabled(cfg, s, step)
    ensures Reached(cfg, Apply(cfg, s, step))
  {
    var now, steps :| Legal(cfg, Start(now), steps) && Exec(cfg, Start(now), steps) == s;
    ExecAppend(cfg, Start(now), steps, step);
  }

  function Name(i: nat): string {
    seq(i, _ => 'c')
  }

  function Names(n: nat): (names: set<string>)
    ensures |names| == n
    ensures forall name :: name in names ==> |name| < n
  {
    if n == 0 then {} else Names(n - 1) + {Name(n - 1)}
  }

  /** The first connection at time `t`, having called in time and never been due for renewal. */
  function Lingering(cfg: Config, t: real): State {
    State(t, Scores(map[Name(0) := 0.0], cfg.ttl * 2.0), map[Name(0) := Connection(Held, 0.0, t)])
  }

  lemma LingersFromStart(cfg: Config)
    requires Sane(cfg)
    ensures Reached(cfg, Lingering(cfg, 0.0))
  {
    assert Legal(cfg, Start(0.0), []) && Exec(cfg, Start(0.0), []) == Start(0.0);
    assert Trimmed(Start(0.0).scores, 0.0, cfg.ttl) == map[];
    ReachedNext(cfg, Start(0.0), Connect(Name(0)));
  }

  /** A call before the renewal is due leaves the set as it is. */
  lemma LingersOn(cfg: Config, t: real, pause: real)
    requires Sane(cfg) && 0.0 <= pause <= cfg.gap && 0.0 <= t && t + pause < RenewInterval(cfg)
    requires Reached(cfg, Lingering(cfg, t))
    ensures Reached(cfg, Lingering(cfg, t + pause))
  {
    hide Reached;
    var s := Lingering(cfg, t);
    var later := Apply(cfg, s, Tick(t + pause));
    ReachedNext(cfg, s, Tick(t + pause));
    ReachedNext(cfg, later, Renew(Name(0)));
    assert Apply(cfg, later, Renew(Name(0))).connections == Lingering(cfg, t + pause).connections;
  }

  /** Any moment before the first renewal is due can be reached by calls close enough together. */
  lemma {:induction false} LingersUntil(cfg: Config, t: real, calls: nat)
    requires Sane(cfg) && 0.0 <= t < RenewInterval(cfg) && t <= calls as real * cfg.gap
    ensures Reached(cfg, Lingering(cfg, t))
    decreases calls
  {
    hide Reached;
    if calls == 0 || t <= cfg.gap {
      LingersFromStart(cfg);
      LingersOn(cfg, 0.0, t);
    } else {
      assert calls as real * cfg.gap == (calls - 1) as real * cfg.gap + cfg.gap;
      LingersUntil(cfg, t - cfg.gap, calls - 1);
      LingersOn(cfg, t - cfg.gap, cfg.gap);
    }
  }

  lemma EnoughCalls(t: real, gap: real) returns (calls: nat)
    requires t >= 0.0 && gap > 0.0
    ensures t <= calls as real * gap
  {
    calls := (t / gap).Floor + 1;
    var ratio := t / gap;
    assert ratio * gap == t;
    NotNegative(calls as real - ratio, gap);
    assert (calls as real - ratio) * gap == calls as real * gap - ratio * gap;
  }

  lemma NotNegative(a: real, b: real)
    requires a >= 0.0 && b >= 0.0
    ensures a * b >= 0.0
  {
  }

  /** The first `n` connections are held and called at `t`; the first has not been renewed since time zero. */
  ghost predicate Crowd(cfg: Config, s: State, t: real, n: nat) {
    && s.now == t && n >= 1 && s.connections.Keys == Names(n)
    && (forall id :: id in s.connections ==> s.connections[id].status == Held && s.connections[id].lastCall == t)
    && s.scores.members.Keys <= Names(n)
    && (Name(0) in s.scores.members ==> s.scores.members[Name(0)] == 0.0)
  }

  lemma FewActive(cfg: Config, s: State, now: real, names: set<string>)
    requires s.scores.members.Keys <= names
    ensures Trimmed(s.scores, now, cfg.ttl).Keys <= names && |Trimmed(s.scores, now, cfg.ttl)| <= |names|
  {
    var active := Trimmed(s.scores, now, cfg.ttl);
    SubsetSize(active.Keys, names);
    assert |active| == |active.Keys|;
  }

  lemma ConnectAdmits(cfg: Config, s: State, id: string)
    requires |Trimmed(s.scores, s.now, cfg.ttl)| < cfg.maxConnections && Enabled(cfg, s, Connect(id))
    ensures var after := Apply(cfg, s, Connect(id));
            && after.now == s.now && after.scores.members == Trimmed(s.scores, s.now, cfg.ttl)[id := s.now]
            && after.connections == s.connections[id := Connection(Held, s.now, s.now)]
  {
    hide Trimmed;
  }

  lemma CrowdJoined(cfg: Config, s: State, after: State, t: real, n: nat)
    requires Crowd(cfg, s, t, n) && after.now == t
    requires after.scores.members == Trimmed(s.scores, t, cfg.ttl)[Name(n) := t]
    requires after.connections == s.connections[Name(n) := Connection(Held, t, t)]
    ensures Crowd(cfg, after, t, n + 1)
  {
    FewActive(cfg, s, t, Names(n));
    var active := Trimmed(s.scores, t, cfg.ttl);
    assert Name(0) in active ==> active[Name(0)] == s.scores.members[Name(0)];
    assert |Name(0)| != |Name(n)|;
    hide Trimmed, Name;
  }

  lemma CrowdGrows(cfg: Config, s: State, t: real, n: nat)
    requires Sane(cfg) && 1 <= n < cfg.maxConnections && Crowd(cfg, s, t, n)
    ensures Enabled(cfg, s, Connect(Name(n))) && Crowd(cfg, Apply(cfg, s, Connect(Name(n))), t, n + 1)
  {
    hide Trimmed, Apply;
    assert |Name(n)| == n;
    FewActive(cfg, s, t, Names(n));
    ConnectAdmits(cfg, s, Name(n));
    CrowdJoined(cfg, s, Apply(cfg, s, Connect(Name(n))), t, n);
  }

  lemma CrowdOfOne(cfg: Config, t: real)
    ensures Crowd(cfg, Lingering(cfg, t), t, 1)
  {
    assert Names(1) == Names(0) + {Name(0)} == {Name(0)};
  }

  lemma {:induction false} CrowdGathers(cfg: Config, t: real, n: nat) returns (s: State)
    requires Sane(cfg) && 1 <= n <= cfg.maxConnections && Reached(cfg, Lingering(cfg, t))
    ensures Reached(cfg, s) && Crowd(cfg, s, t, n)
  {
    hide Reached, Crowd, Apply;
    if n == 1 {
      s := Lingering(cfg, t);
      CrowdOfOne(cfg, t);
    } else {
      var before := CrowdGathers(cfg, t, n - 1);
      CrowdGrows(cfg, before, t, n - 1);
      s := Apply(cfg, before, Connect(Name(n - 1)));
      ReachedNext(cfg, before, Connect(Name(n - 1)));
    }
  }

  /** Once the first lease has run out unrenewed, one connection too many is let in. */
  lemma CrowdOverflows(cfg: Config, s: State, t: real) returns (after: State)
    requires Sane(cfg) && Reached(cfg, s) && Crowd(cfg, s, t, cfg.maxConnections) && t + cfg.gap >= cfg.ttl
    ensures Reached(cfg, after) && |HeldIds(after)| > cfg.maxConnections
  {
    hide Reached;
    var n: nat := cfg.maxConnections;
    var later := Apply(cfg, s, Tick(t + cfg.gap));
    ReachedNext(cfg, s, Tick(t + cfg.gap));
    var active := Trimmed(later.scores, later.now, cfg.ttl);
    assert Name(0) !in active;
    NamesHold(n);
    SubsetSize(active.Keys, Names(n) - {Name(0)});
    assert |active| == |active.Keys|;
    assert |Name(n)| == n;
    after := Apply(cfg, later, Connect(Name(n)));
    ReachedNext(cfg, later, Connect(Name(n)));
    assert HeldIds(after) == Names(n) + {Name(n)};
  }

  lemma {:induction false} NamesHold(n: nat)
    ensures n > 0 ==> Name(0) in Names(n)
  {
    if n > 1 {
      NamesHold(n - 1);
    }
  }

  /** No run, however long, holds more connections than the limit. */
  ghost predicate LimitHolds(cfg: Config) {
    forall s :: Reached(cfg, s) ==> |HeldIds(s)| <= cfg.maxConnections
  }

  /**
   The limit holds in every run exactly when the longest gap between renew calls and the renewal
   interval together fit into one lease.
   */
  lemma LimitHoldsExactlyWhenTimely(cfg: Config)
    requires Sane(cfg)
    ensures LimitHolds(cfg) <==> cfg.gap + MaxReal(1.0, cfg.ttl / 3.0) <= cfg.ttl
  {
    if Timely(cfg) {
      forall s | Reached(cfg, s) ensures |HeldIds(s)| <= cfg.maxConnections {
        var now, steps :| Legal(cfg, Start(now), steps) && Exec(cfg, Start(now), steps) == s;
        LimitIsNeverExceeded(cfg, now, steps);
      }
    } else {
      var t := if cfg.gap >= cfg.ttl then 0.0 else cfg.ttl - cfg.gap;
      var calls := EnoughCalls(t, cfg.gap);
      LingersUntil(cfg, t, calls);
      var s := CrowdGathers(cfg, t, cfg.maxConnections);
      var after := CrowdOverflows(cfg, s, t);
    }
  }
}
