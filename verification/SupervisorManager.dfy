/** The manager object: children changed in place, one stop flag and one exit code. */
module SupervisorManager {
  import opened Common
  import opened Supervisor

  class ChildRuntime {
    var started: bool
    var starts: nat
    var consecutiveFailures: int
    var lastStart: real
    var lastExit: real
    var lastExitCode: Option<int>
    var nextStart: real
    var recentQuickFailures: seq<real>

    function State(): Child
      reads this
    {
      Child(started, starts, consecutiveFailures, lastStart, lastExit, lastExitCode, nextStart, recentQuickFailures)
    }

    constructor ()
      ensures State() == Fresh().child
    {
      started, starts, consecutiveFailures := false, 0, 0;
      lastStart, lastExit, lastExitCode, nextStart, recentQuickFailures := 0.0, 0.0, None, 0.0, [];
    }

    /** Drops window entries from the left while they are too old. */
    method TrimQuickFailures(cutoff: real)
      modifies this`recentQuickFailures
      ensures recentQuickFailures == DropOld(old(recentQuickFailures), cutoff)
    {
      while recentQuickFailures != [] && recentQuickFailures[0] < cutoff
        invariant DropOld(recentQuickFailures, cutoff) == DropOld(old(recentQuickFailures), cutoff)
        decreases |recentQuickFailures|
      {
        recentQuickFailures := recentQuickFailures[1..];
      }
    }
  }

  /** What a signal or a group failure does to the manager. */
  datatype Interrupt = Signal | Failure

  /** The stop flag and exit code after a history of interrupts. */
  function Fate(history: seq<Interrupt>): (fate: (bool, int))
    ensures fate.0 <==> history != []
    ensures fate.1 == if Failure in history then 1 else 0
  {
    if history == [] then (false, 0)
    else
      var before := Fate(history[..|history| - 1]);
      match history[|history| - 1]
      case Signal => if before.0 then before else (true, 0)
      case Failure => if before.0 && before.1 != 0 then before else (true, 1)
  }

  class WorkerGroupManager {
    const config: Config
    var stopRequested: bool
    var exitCode: int
    ghost var history: seq<Interrupt>

    ghost predicate Valid()
      reads this
    {
      (stopRequested, exitCode) == Fate(history)
    }

    constructor (raw: Config)
      ensures Valid() && history == [] && config == Clamped(raw) && Sane(config)
    {
      config := Clamped(raw);
      stopRequested, exitCode, history := false, 0, [];
    }

    method OnSignal()
      requires Valid()
      modifies this
      ensures Valid() && history == old(history) + [Signal]
      ensures Failure in old(history) ==> exitCode == 1
    {
      history := history + [Signal];
      assert history[..|history| - 1] == old(history);
      if stopRequested {
        return;
      }
      stopRequested := true;
      exitCode := 0;
    }

    method FailGroup()
      requires Valid()
      modifies this
      ensures Valid() && history == old(history) + [Failure]
      ensures stopRequested && exitCode == 1
    {
      history := history + [Failure];
      assert history[..|history| - 1] == old(history);
      if stopRequested && exitCode != 0 {
        return;
      }
      stopRequested := true;
      exitCode := 1;
    }

    /** The bookkeeping of an exit, and whether it failed the group or ended in an error. */
    method HandleChildExit(child: ChildRuntime, now: real, code: int) returns (ending: Ending)
      requires Valid()
      modifies this, child
      ensures Valid() && child.State() == AfterExit(config, old(child.State()), now, code, old(stopRequested))
      ensures ending == EndingOf(config, child.State())
      ensures history == old(history) + if ending == Failed then [Failure] else []
      ensures !child.started && child.lastExit == now && child.lastExitCode == Some(code)
      ensures child.starts == old(child.starts) && child.lastStart == old(child.lastStart)
      ensures var quick := MaxReal(0.0, now - old(child.lastStart)) < config.quickFail;
              && child.consecutiveFailures == (if code == 0 && old(stopRequested) then 0
                                               else if quick then old(child.consecutiveFailures) + 1 else 1)
              && (!quick ==> child.recentQuickFailures == [])
      ensures match ending
              case Failed => |child.recentQuickFailures| >= config.maxQuick && child.nextStart == old(child.nextStart)
              case Overflowed => child.consecutiveFailures > MAX_DOUBLED && child.nextStart == old(child.nextStart)
              case Going =>
                && |child.recentQuickFailures| < config.maxQuick && child.consecutiveFailures <= MAX_DOUBLED
                && child.nextStart == now + CappedDoubling(config, child.consecutiveFailures)
    {
      child.started := false;
      child.lastExitCode := Some(code);
      child.lastExit := now;
      var runtime := MaxReal(0.0, now - child.lastStart);
      if runtime < config.quickFail {
        child.recentQuickFailures := child.recentQuickFailures + [now];
        child.TrimQuickFailures(now - config.window);
      } else {
        child.recentQuickFailures := [];
        child.consecutiveFailures := 0;
      }
      if code == 0 && !stopRequested {
        child.consecutiveFailures := child.consecutiveFailures + 1;
      } else if code != 0 {
        child.consecutiveFailures := child.consecutiveFailures + 1;
      } else {
        child.consecutiveFailures := 0;
      }
      if |child.recentQuickFailures| >= config.maxQuick {
        FailGroup();
        return Failed;
      }
      var backoff := Backoff(config, child.consecutiveFailures);
      if backoff.None? {
        return Overflowed;
      }
      child.nextStart := now + backoff.value;
      return Going;
    }

    /** One visit of the run loop to one child; a signal may have come earlier in the same pass. */
    method VisitChild(child: ChildRuntime, p: Poll) returns (ending: Ending)
      requires Valid()
      modifies this, child
      ensures Valid()
      ensures var w := Pass(config, Watched(old(child.State()), Going, []), p, old(stopRequested));
              && child.State() == w.child && ending == w.ending
      ensures history == old(history) + if ending == Failed then [Failure] else []
      ensures !old(child.started) && p.now >= old(child.nextStart) && p.spawns ==>
                && ending == Going && child.started && child.starts == old(child.starts) + 1
                && child.lastStart == p.startedAt && child.lastExitCode == None && child.nextStart == 0.0
                && child.consecutiveFailures == old(child.consecutiveFailures)
                && child.recentQuickFailures == old(child.recentQuickFailures)
                && child.lastExit == old(child.lastExit)
      ensures (if old(child.started) then p.exitCode.None? else p.now < old(child.nextStart) || !p.spawns) ==>
                child.State() == old(child.State())
      ensures !old(child.started) ==>
                (ending == Failed <==> p.now >= old(child.nextStart) && !p.spawns) && ending != Overflowed
    {
      ending := Going;
      if child.started && p.exitCode.None? {
        return;
      }
      if child.started {
        ending := HandleChildExit(child, p.now, p.exitCode.value);
        if ending != Going {
          return;
        }
      }
      if p.now >= child.nextStart {
        if p.spawns {
          child.started, child.starts := true, child.starts + 1;
          child.lastStart, child.lastExitCode, child.nextStart := p.startedAt, None, 0.0;
        } else {
          FailGroup();
          ending := Failed;
        }
      }
    }
  }
}
