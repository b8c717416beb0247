/**
 When the restart pause can overflow: which settings let a viable child fail often enough in a row,
 given that passes of the loop rest half a second and come one after the other within a tick.
 */
module SupervisorOverflow {
  import opened Common
  import opened Supervisor
  import opened SupervisorBounds

  /** The loop sleeps this long after each pass. */
  const REST := 0.5

  /** Each pass rests after the one before, and is over at most `tick` after that one began. */
  ghost predicate Paced(polls: seq<Poll>, tick: real) {
    && Monotonic(polls)
    && (forall i :: 0 <= i < |polls| - 1 ==>
          polls[i].startedAt + REST <= polls[i + 1].now && polls[i + 1].startedAt <= polls[i].now + tick)
  }

  /** Some run of the loop ends in the error. */
  ghost predicate OverflowReachable(cfg: Config, tick: real) {
    exists polls :: Paced(polls, tick) && Watch(cfg, polls).ending == Overflowed
  }

  /**
   No `count + 1` quick exits spread wider than this, when the first of them is failure `from` in a
   row: after each, the pause, a tick until the restart, and a quick run.
   */
  function LongestSpan(cfg: Config, tick: real, from: nat, count: nat): real {
    if count == 0 then 0.0
    else LongestSpan(cfg, tick, from, count - 1) + CappedDoubling(cfg, from + count - 1) + tick + cfg.quickFail
  }

  // ----- settings under which it cannot happen -----

  /** Restarts come within a tick of the end of their pause. */
  ghost predicate PromptHistory(cfg: Config, exits: seq<Exit>, tick: real) {
    forall i :: 0 < i < |exits| ==> PromptAt(cfg, exits, i, tick)
  }

  ghost predicate PromptAt(cfg: Config, exits: seq<Exit>, i: int, tick: real)
    requires 0 < i < |exits|
  {
    exits[i].start < EarliestRestart(cfg, exits[..i]) + tick
  }

  ghost predicate Prompt(cfg: Config, w: Watched, passAt: real, tick: real) {
    && PromptHistory(cfg, w.exits, tick)
    && (w.exits != [] && w.child.started ==> w.child.lastStart < EarliestRestart(cfg, w.exits) + tick)
    && (w.exits != [] && !w.child.started && w.ending == Going ==> passAt < w.child.nextStart)
  }

  lemma ExitKeepsPrompt(cfg: Config, w: Watched, p: Poll, passAt: real, tick: real)
    requires Sane(cfg) && Faithful(cfg, w, p.now) && Prompt(cfg, w, passAt, tick) && w.ending == Going
    requires w.child.started && p.exitCode.Some?
    ensures Prompt(cfg, Noticed(cfg, w, p, false), p.now, tick)
    ensures Pass(cfg, w, p, false) == Noticed(cfg, w, p, false)
  {
    hide FailuresInRow, QuickSince, DropOld, Viable, Ordered, CappedDoubling, EarliestRestart;
    var n := Noticed(cfg, w, p, false);
    BackoffBounds(cfg, n.child.consecutive);
    forall i | 0 < i < |n.exits| ensures PromptAt(cfg, n.exits, i, tick) {
      assert n.exits[..i] == w.exits[..i];
      assert i < |w.exits| ==> PromptAt(cfg, w.exits, i, tick);
      assert w.exits[..|w.exits|] == w.exits;
    }
  }

  lemma PassKeepsPrompt(cfg: Config, w: Watched, p: Poll, passAt: real, tick: real)
    requires Sane(cfg) && Faithful(cfg, w, p.now) && Prompt(cfg, w, passAt, tick) && w.ending == Going
    requires w.exits != [] ==> p.startedAt <= passAt + tick
    ensures Prompt(cfg, Pass(cfg, w, p, false), p.now, tick)
  {
    hide FailuresInRow, QuickSince, DropOld, Viable, Ordered, CappedDoubling, EarliestRestart, PromptHistory, Tracks;
    if w.child.started && p.exitCode.Some? {
      ExitKeepsPrompt(cfg, w, p, passAt, tick);
    }
  }

  lemma {:induction false} PacedIsPrompt(cfg: Config, polls: seq<Poll>, tick: real)
    requires Sane(cfg) && Paced(polls, tick)
    ensures Prompt(cfg, Watch(cfg, polls), if polls == [] then 0.0 else polls[|polls| - 1].now, tick)
  {
    if polls != [] {
      var init, p := polls[..|polls| - 1], polls[|polls| - 1];
      assert Paced(init, tick);
      PacedIsPrompt(cfg, init, tick);
      WatchFaithful(cfg, init);
      var w := Watch(cfg, init);
      if init == [] {
        assert w == Fresh();
      } else {
        assert init[|init| - 1] == polls[|polls| - 2];
      }
      hide Prompt, Faithful;
      if w.ending == Going {
        FaithfulAtNext(cfg, w, init, p);
        PassKeepsPrompt(cfg, w, p, if init == [] then 0.0 else init[|init| - 1].now, tick);
      } else {
        EndedStaysPrompt(cfg, w, if init == [] then 0.0 else init[|init| - 1].now, p.now, tick);
      }
    }
  }

  lemma FaithfulAtNext(cfg: Config, w: Watched, init: seq<Poll>, p: Poll)
    requires Faithful(cfg, w, if init == [] then 0.0 else init[|init| - 1].startedAt)
    requires 0.0 <= p.now && (init != [] ==> init[|init| - 1].startedAt <= p.now)
    ensures Faithful(cfg, w, p.now)
  {
    FaithfulLater(cfg, w, if init == [] then 0.0 else init[|init| - 1].startedAt, p.now);
  }

  lemma EndedStaysPrompt(cfg: Config, w: Watched, passAt: real, later: real, tick: real)
    requires Prompt(cfg, w, passAt, tick) && w.ending != Going
    ensures Prompt(cfg, w, later, tick)
  {
  }

  /** When the current stretch of quick exits began. */
  function FirstQuick(cfg: Config, exits: seq<Exit>): real
    requires QuickRun(cfg, exits) > 0
  {
    if QuickRun(cfg, exits) == 1 then exits[|exits| - 1].at else FirstQuick(cfg, exits[..|exits| - 1])
  }

  /** A window that reaches back to the first quick exit holds them all. */
  lemma {:induction false} AllRecent(cfg: Config, exits: seq<Exit>, cutoff: real)
    requires Ordered(exits) && QuickRun(cfg, exits) > 0 && cutoff <= FirstQuick(cfg, exits)
    ensures |QuickSince(cfg, exits, cutoff)| == QuickRun(cfg, exits)
    ensures cutoff <= exits[|exits| - 1].at
  {
    if QuickRun(cfg, exits) > 1 {
      OrderedPrefix(exits);
      AllRecent(cfg, exits[..|exits| - 1], cutoff);
      OrderedTimes(exits, |exits| - 2, |exits| - 1);
    } else {
      assert QuickSince(cfg, exits[..|exits| - 1], cutoff) == [];
    }
  }

  lemma {:induction false} SpanGrows(cfg: Config, tick: real, from: nat, count: nat, more: nat)
    requires Sane(cfg) && tick >= 0.0 && count <= more
    ensures LongestSpan(cfg, tick, from, count) <= LongestSpan(cfg, tick, from, more)
  {
    if count < more {
      SpanGrows(cfg, tick, from, count, more - 1);
      DoublingBounds(cfg, from + more - 1);
    }
  }

  lemma {:induction false} DoublingGrows(cfg: Config, few: int, many: int)
    requires Sane(cfg) && 0 <= few <= many
    ensures CappedDoubling(cfg, few) <= CappedDoubling(cfg, many)
    decreases many
  {
    if few < many {
      DoublingGrows(cfg, few, many - 1);
      DoublingBounds(cfg, many);
    }
  }

  lemma {:induction false} PromptPrefix(cfg: Config, exits: seq<Exit>, tick: real)
    requires PromptHistory(cfg, exits, tick) && exits != []
    ensures PromptHistory(cfg, exits[..|exits| - 1], tick)
    ensures |exits| > 1 ==> exits[|exits| - 1].start < EarliestRestart(cfg, exits[..|exits| - 1]) + tick
  {
    hide EarliestRestart;
    var init := exits[..|exits| - 1];
    forall i | 0 < i < |init| ensures PromptAt(cfg, init, i, tick) {
      assert init[..i] == exits[..i] && PromptAt(cfg, exits, i, tick);
    }
    assert |exits| > 1 ==> PromptAt(cfg, exits, |exits| - 1, tick);
  }

  /** One more quick exit widens the stretch by no more than its share of the span. */
  lemma StretchWidens(cfg: Config, exits: seq<Exit>, tick: real)
    requires Sane(cfg) && Ordered(exits) && PromptHistory(cfg, exits, tick)
    requires |exits| > 1 && QuickRun(cfg, exits) > 1
    ensures exits[|exits| - 1].at - exits[|exits| - 2].at
            < CappedDoubling(cfg, QuickRun(cfg, exits)) + tick + cfg.quickFail
  {
    var init := exits[..|exits| - 1];
    PromptPrefix(cfg, exits, tick);
    DoublingGrows(cfg, FailuresInRow(cfg, init), QuickRun(cfg, exits));
  }

  /** If the longest span fits the window, prompt restarts fail the group before the stretch gets long. */
  lemma {:induction false} StretchBounded(cfg: Config, exits: seq<Exit>, tick: real)
    requires Sane(cfg) && tick >= 0.0 && Ordered(exits) && Viable(cfg, exits) && PromptHistory(cfg, exits, tick)
    requires LongestSpan(cfg, tick, 2, cfg.maxQuick - 1) <= cfg.window
    ensures QuickRun(cfg, exits) < cfg.maxQuick
    ensures QuickRun(cfg, exits) > 0 ==>
              exits[|exits| - 1].at - FirstQuick(cfg, exits) <= LongestSpan(cfg, tick, 2, QuickRun(cfg, exits) - 1)
  {
    if QuickRun(cfg, exits) > 0 {
      var q := QuickRun(cfg, exits);
      OrderedPrefix(exits);
      ViablePrefix(cfg, exits);
      PromptPrefix(cfg, exits, tick);
      StretchBounded(cfg, exits[..|exits| - 1], tick);
      if q > 1 {
        StretchWidens(cfg, exits, tick);
      }
      hide Viable, PromptHistory, CappedDoubling;
      SpanGrows(cfg, tick, 2, q - 1, cfg.maxQuick - 1);
      AllRecent(cfg, exits, exits[|exits| - 1].at - cfg.window);
    }
  }

  /** Without room for the longest span, only a limit beyond the largest exponent leads to the error. */
  lemma NoOverflowInside(cfg: Config, polls: seq<Poll>, tick: real)
    requires Sane(cfg) && tick >= 0.0 && Paced(polls, tick) && Watch(cfg, polls).ending == Overflowed
    requires LongestSpan(cfg, tick, 2, cfg.maxQuick - 1) <= cfg.window
    ensures cfg.maxQuick > MAX_DOUBLED
  {
    hide Watch, QuickSince, Spaced, LongestSpan;
    PacedIsPrompt(cfg, polls, tick);
    WatchFaithful(cfg, polls);
    OverflowsExactlyAfterTooManyFailures(cfg, polls);
    StretchBounded(cfg, Watch(cfg, polls).exits, tick);
  }

  // ----- a run into the error -----

  /** Some paced run leads to `w`, its last pass at one moment `at`. */
  ghost predicate Runs(cfg: Config, tick: real, w: Watched, at: real) {
    exists polls :: RunsBy(cfg, tick, polls, w, at)
  }

  ghost predicate RunsBy(cfg: Config, tick: real, polls: seq<Poll>, w: Watched, at: real) {
    && polls != [] && Paced(polls, tick) && Watch(cfg, polls) == w
    && polls[|polls| - 1].now == polls[|polls| - 1].startedAt == at
  }

  lemma WatchOneMore(cfg: Config, polls: seq<Poll>, p: Poll)
    ensures var w := Watch(cfg, polls);
            Watch(cfg, polls + [p]) == if w.ending != Going then w else Pass(cfg, w, p, false)
  {
    assert (polls + [p])[..|polls|] == polls;
  }

  lemma PacedOneMore(polls: seq<Poll>, p: Poll, tick: real)
    requires polls != [] && Paced(polls, tick) && p.now == p.startedAt
    requires polls[|polls| - 1].now == polls[|polls| - 1].startedAt
    requires polls[|polls| - 1].now + REST <= p.now <= polls[|polls| - 1].now + tick
    ensures Paced(polls + [p], tick)
  {
    var all := polls + [p];
    forall i | 0 <= i < |all| - 1
      ensures all[i].startedAt + REST <= all[i + 1].now && all[i + 1].startedAt <= all[i].now + tick
      ensures all[i].startedAt <= all[i + 1].now
    {
      assert i < |polls| - 1 ==> all[i] == polls[i] && all[i + 1] == polls[i + 1];
    }
  }

  /** One more pass. */
  lemma RunsOn(cfg: Config, tick: real, w: Watched, at: real, p: Poll)
    requires Runs(cfg, tick, w, at) && w.ending == Going
    requires p.now == p.startedAt && at + REST <= p.now <= at + tick
    ensures Runs(cfg, tick, Pass(cfg, w, p, false), p.now)
  {
    hide Pass, Watch, Paced;
    var polls :| RunsBy(cfg, tick, polls, w, at);
    WatchOneMore(cfg, polls, p);
    PacedOneMore(polls, p, tick);
    assert RunsBy(cfg, tick, polls + [p], Pass(cfg, w, p, false), p.now);
  }

  /** A pass that finds nothing to do: the child runs on, or its pause is not over. */
  predicate Idle(w: Watched, t: real) {
    w.ending == Going && (w.child.started || t < w.child.nextStart)
  }

  lemma RunsIdly(cfg: Config, tick: real, w: Watched, at: real, to: real)
    requires Runs(cfg, tick, w, at) && Idle(w, to) && at + REST <= to <= at + tick
    ensures Runs(cfg, tick, w, to)
  {
    hide Runs;
    RunsOn(cfg, tick, w, at, Poll(to, None, true, to));
  }

  /** Any later moment can be reached by idle passes. */
  lemma {:induction false} Waits(cfg: Config, tick: real, w: Watched, at: real, to: real)
    requires tick >= 1.0 && Runs(cfg, tick, w, at) && Idle(w, to) && at + REST <= to
    ensures Runs(cfg, tick, w, to)
    decreases (to - at).Floor
  {
    hide Runs;
    if to - at <= 1.0 {
      RunsIdly(cfg, tick, w, at, to);
    } else if to - at <= 1.5 {
      RunsIdly(cfg, tick, w, at, at + REST);
      RunsIdly(cfg, tick, w, at + REST, to);
    } else {
      RunsIdly(cfg, tick, w, at, at + 1.0);
      Waits(cfg, tick, w, at + 1.0, to);
    }
  }

  /** After idle passes, a pass that finds something. */
  lemma Meets(cfg: Config, tick: real, w: Watched, at: real, p: Poll)
    requires tick >= 1.0 && Runs(cfg, tick, w, at) && w.ending == Going
    requires w.child.started || p.now <= w.child.nextStart
    requires p.now == p.startedAt && at + REST <= p.now
    ensures Runs(cfg, tick, Pass(cfg, w, p, false), p.now)
  {
    hide Runs, Pass;
    if p.now - at <= 1.0 {
      RunsOn(cfg, tick, w, at, p);
    } else {
      Waits(cfg, tick, w, at, p.now - REST);
      RunsOn(cfg, tick, w, p.now - REST, p);
    }
  }

  /** When the `n`th failure in a row is noticed: a long run, then quick runs `slack` short of the longest span. */
  function FailsAt(cfg: Config, tick: real, slack: real, n: nat): real {
    if n == 0 then 0.0
    else if n == 1 then cfg.quickFail
    else if n == 2 then cfg.quickFail + CappedDoubling(cfg, 1) + cfg.quickFail - slack
    else FailsAt(cfg, tick, slack, n - 1) + CappedDoubling(cfg, n - 1) + tick - slack + cfg.quickFail - slack
  }

  /** The times of failures `from` to `n`. */
  function Times(cfg: Config, tick: real, slack: real, from: nat, n: nat): seq<real> {
    if n < from || n == 0 then [] else Times(cfg, tick, slack, from, n - 1) + [FailsAt(cfg, tick, slack, n)]
  }

  /** The child at its `n`th failure in a row: the window holds the last few quick exits. */
  ghost predicate Failing(cfg: Config, tick: real, slack: real, w: Watched, n: nat) {
    var c, t := w.child, FailsAt(cfg, tick, slack, n);
    && w.ending == (if n > MAX_DOUBLED then Overflowed else Going)
    && !c.started && c.consecutive == n
    && (w.ending == Going ==> c.nextStart == t + CappedDoubling(cfg, n))
    && exists from: nat :: 2 <= from <= n + 1 && c.recent == Times(cfg, tick, slack, from, n)
  }

  /** Failures `from` to `n` are too few to fail the group, or spread wider than the window. */
  ghost predicate RoomFor(cfg: Config, tick: real, slack: real, from: nat, n: nat) {
    n - from + 1 < cfg.maxQuick || FailsAt(cfg, tick, slack, n) - FailsAt(cfg, tick, slack, from) > cfg.window
  }

  /** Settings and slack under which no window fails the group. */
  ghost predicate Roomy(cfg: Config, tick: real, slack: real) {
    && Sane(cfg) && tick >= 1.0 && 0.0 < slack <= 0.25
    && forall from: nat, n: nat :: 2 <= from <= n <= MAX_DOUBLED + 1 ==> RoomFor(cfg, tick, slack, from, n)
  }

  lemma {:induction false} TimesShape(cfg: Config, tick: real, slack: real, from: nat, n: nat)
    requires 0 < from <= n + 1
    ensures |Times(cfg, tick, slack, from, n)| == n - from + 1
    ensures from <= n ==> Times(cfg, tick, slack, from, n)[0] == FailsAt(cfg, tick, slack, from)
    ensures from <= n ==> Times(cfg, tick, slack, from, n)[1..] == Times(cfg, tick, slack, from + 1, n)
  {
    hide FailsAt;
    if from < n {
      TimesShape(cfg, tick, slack, from, n - 1);
    }
  }

  /** Dropping old failures leaves the later ones. */
  lemma {:induction false} DropOldTimes(cfg: Config, tick: real, slack: real, from: nat, n: nat, cutoff: real)
    returns (kept: nat)
    requires 0 < from <= n && cutoff <= FailsAt(cfg, tick, slack, n)
    ensures from <= kept <= n && DropOld(Times(cfg, tick, slack, from, n), cutoff) == Times(cfg, tick, slack, kept, n)
    ensures cutoff <= FailsAt(cfg, tick, slack, kept)
    decreases n - from
  {
    hide FailsAt, Times;
    TimesShape(cfg, tick, slack, from, n);
    if FailsAt(cfg, tick, slack, from) < cutoff {
      kept := DropOldTimes(cfg, tick, slack, from + 1, n, cutoff);
    } else {
      kept := from;
    }
  }

  /** The first start, and a long run. */
  lemma FirstFailure(cfg: Config, tick: real, slack: real) returns (w: Watched)
    requires Sane(cfg) && tick >= 1.0
    ensures Runs(cfg, tick, w, FailsAt(cfg, tick, slack, 1)) && Failing(cfg, tick, slack, w, 1)
  {
    var first := Poll(0.0, None, true, 0.0);
    var started := Watched(AfterStart(Fresh().child, 0.0), Going, []);
    assert [first][..0] == [];
    assert Watch(cfg, [first]) == started;
    assert RunsBy(cfg, tick, [first], started, 0.0);
    var exit := Poll(cfg.quickFail, Some(1), true, cfg.quickFail);
    hide Runs, Watch;
    DoublingBounds(cfg, 1);
    Meets(cfg, tick, started, 0.0, exit);
    w := Pass(cfg, started, exit, false);
    assert Times(cfg, tick, slack, 2, 1) == [];
  }

  /** When the child restarts after its `n`th failure. */
  function RestartsAt(cfg: Config, tick: real, slack: real, n: nat): real {
    FailsAt(cfg, tick, slack, n) + CappedDoubling(cfg, n) + if n < 2 then 0.0 else tick - slack
  }

  function Restarted(w: Watched, at: real): Watched {
    w.(child := AfterStart(w.child, at))
  }

  lemma StartsAgain(cfg: Config, tick: real, slack: real, w: Watched, n: nat)
    requires Sane(cfg) && tick >= 1.0 && 0.0 < slack <= 0.25 && 1 <= n <= MAX_DOUBLED
    requires Runs(cfg, tick, w, FailsAt(cfg, tick, slack, n)) && Failing(cfg, tick, slack, w, n)
    ensures Runs(cfg, tick, Restarted(w, RestartsAt(cfg, tick, slack, n)), RestartsAt(cfg, tick, slack, n))
  {
    hide Runs, FailsAt, Times, CappedDoubling;
    DoublingBounds(cfg, n);
    var t, start := FailsAt(cfg, tick, slack, n), RestartsAt(cfg, tick, slack, n);
    if n == 1 {
      FirstPause(cfg);
      Meets(cfg, tick, w, t, Poll(start, None, true, start));
    } else {
      Waits(cfg, tick, w, t, start - tick);
      RunsOn(cfg, tick, w, start - tick, Poll(start, None, true, start));
    }
  }

  lemma FirstPause(cfg: Config)
    requires Sane(cfg)
    ensures CappedDoubling(cfg, 1) >= REST
  {
  }

  /** The quick exit after a restart. */
  function Exited(cfg: Config, w: Watched, at: real): Watched {
    Pass(cfg, w, Poll(at, Some(1), true, at), false)
  }

  lemma FailsAgain(cfg: Config, tick: real, slack: real, w: Watched, n: nat)
    requires Roomy(cfg, tick, slack) && 1 <= n <= MAX_DOUBLED && Failing(cfg, tick, slack, w, n)
    ensures var again := Restarted(w, RestartsAt(cfg, tick, slack, n));
            Failing(cfg, tick, slack, Exited(cfg, again, FailsAt(cfg, tick, slack, n + 1)), n + 1)
  {
    var t := FailsAt(cfg, tick, slack, n + 1);
    assert t == RestartsAt(cfg, tick, slack, n) + cfg.quickFail - slack;
    hide FailsAt, CappedDoubling, DropOld;
    var from: nat :| 2 <= from <= n + 1 && w.child.recent == Times(cfg, tick, slack, from, n);
    assert Times(cfg, tick, slack, from, n + 1) == w.child.recent + [t];
    var kept := DropOldTimes(cfg, tick, slack, from, n + 1, t - cfg.window);
    assert RoomFor(cfg, tick, slack, kept, n + 1);
    TimesShape(cfg, tick, slack, kept, n + 1);
    hide Times, Roomy;
    BackoffBounds(cfg, n + 1);
  }

  lemma {:induction false} KeepsFailing(cfg: Config, tick: real, slack: real, n: nat) returns (w: Watched)
    requires Roomy(cfg, tick, slack) && 1 <= n <= MAX_DOUBLED + 1
    ensures Runs(cfg, tick, w, FailsAt(cfg, tick, slack, n)) && Failing(cfg, tick, slack, w, n)
  {
    hide Runs, FailsAt, Failing, Pass, RoomFor;
    if n == 1 {
      w := FirstFailure(cfg, tick, slack);
    } else {
      var before := KeepsFailing(cfg, tick, slack, n - 1);
      var start, t := RestartsAt(cfg, tick, slack, n - 1), FailsAt(cfg, tick, slack, n);
      StartsAgain(cfg, tick, slack, before, n - 1);
      FailsAgain(cfg, tick, slack, before, n - 1);
      StillGoing(cfg, tick, slack, before, n - 1);
      RunsQuickly(cfg, tick, slack, n - 1);
      Meets(cfg, tick, Restarted(before, start), start, Poll(t, Some(1), true, t));
      w := Exited(cfg, Restarted(before, start), t);
    }
  }

  lemma StillGoing(cfg: Config, tick: real, slack: real, w: Watched, n: nat)
    requires Failing(cfg, tick, slack, w, n) && n <= MAX_DOUBLED
    ensures w.ending == Going
  {
  }

  lemma RunsQuickly(cfg: Config, tick: real, slack: real, n: nat)
    requires n >= 1
    ensures FailsAt(cfg, tick, slack, n + 1) == RestartsAt(cfg, tick, slack, n) + cfg.quickFail - slack
  {
  }

  // ----- when there is room -----

  /** From the second failure on, failures are spread like the longest span but for the slack. */
  lemma {:induction false} FailuresSpread(cfg: Config, tick: real, slack: real, from: nat, count: nat)
    requires from >= 2
    ensures FailsAt(cfg, tick, slack, from + count) - FailsAt(cfg, tick, slack, from)
            == LongestSpan(cfg, tick, from, count) - Lengths(count, 2.0 * slack)
  {
    if count > 0 {
      FailuresSpread(cfg, tick, slack, from, count - 1);
      hide CappedDoubling;
    }
  }

  lemma {:induction false} LaterIsWider(cfg: Config, tick: real, from: nat, count: nat)
    requires Sane(cfg) && from >= 2
    ensures LongestSpan(cfg, tick, 2, count) <= LongestSpan(cfg, tick, from, count)
  {
    if count > 0 {
      LaterIsWider(cfg, tick, from, count - 1);
      DoublingGrows(cfg, 2 + count - 1, from + count - 1);
    }
  }

  lemma {:induction false} FailuresOrdered(cfg: Config, tick: real, slack: real, i: nat, j: nat)
    requires Sane(cfg) && tick >= 1.0 && slack <= 0.25 && 2 <= i <= j
    ensures FailsAt(cfg, tick, slack, i) <= FailsAt(cfg, tick, slack, j)
    decreases j
  {
    if i < j {
      FailuresOrdered(cfg, tick, slack, i, j - 1);
      DoublingBounds(cfg, j - 1);
    }
  }

  /** A slack small enough to leave the first `count` spacings above the window. */
  lemma SmallSlack(gap: real, count: nat) returns (slack: real)
    requires gap > 0.0
    ensures 0.0 < slack <= 0.25 && Lengths(count, 2.0 * slack) < gap
  {
    var share := gap / (2 * (count + 1)) as real;
    assert share * (2 * (count + 1)) as real == gap;
    slack := MinReal(0.25, share);
    LengthsMultiply(count + 1, 2.0 * slack);
    ShareFits(slack, share, (count + 1) as real);
  }

  lemma ShareFits(slack: real, share: real, parts: real)
    requires slack <= share && parts >= 0.0
    ensures parts * (2.0 * slack) <= share * (2.0 * parts)
  {
    assert (share - slack) * parts >= 0.0;
  }

  lemma RoomWhenSpanExceeds(cfg: Config, tick: real, slack: real, from: nat, n: nat)
    requires Sane(cfg) && tick >= 1.0 && 0.0 < slack <= 0.25 && 2 <= from <= n
    requires Lengths(cfg.maxQuick - 1, 2.0 * slack) < LongestSpan(cfg, tick, 2, cfg.maxQuick - 1) - cfg.window
    ensures RoomFor(cfg, tick, slack, from, n)
  {
    hide FailsAt, LongestSpan, Lengths;
    var count: nat := cfg.maxQuick - 1;
    if n - from >= count {
      FailuresSpread(cfg, tick, slack, n - count, count);
      LaterIsWider(cfg, tick, n - count, count);
      FailuresOrdered(cfg, tick, slack, from, n - count);
    }
  }

  /**
   A viable child can fail its way into the overflow exactly when the limit on quick failures exceeds
   the largest exponent, or the longest span of that many quick failures, the first of them the
   second in a row, exceeds the window.
   */
  lemma OverflowReachableExactlyWhen(cfg: Config, tick: real)
    requires Sane(cfg) && tick >= 1.0
    ensures OverflowReachable(cfg, tick) <==>
            cfg.maxQuick > MAX_DOUBLED || LongestSpan(cfg, tick, 2, cfg.maxQuick - 1) > cfg.window
  {
    hide FailsAt, LongestSpan, Watch, Paced, Failing;
    var span := LongestSpan(cfg, tick, 2, cfg.maxQuick - 1);
    if span <= cfg.window {
      forall polls | Paced(polls, tick) && Watch(cfg, polls).ending == Overflowed
        ensures cfg.maxQuick > MAX_DOUBLED
      {
        NoOverflowInside(cfg, polls, tick);
      }
    }
    if cfg.maxQuick > MAX_DOUBLED {
      assert Roomy(cfg, tick, 0.25);
      RunsOver(cfg, tick, 0.25);
    } else if span > cfg.window {
      var slack := SmallSlack(span - cfg.window, cfg.maxQuick - 1);
      forall from: nat, n: nat | 2 <= from <= n <= MAX_DOUBLED + 1 ensures RoomFor(cfg, tick, slack, from, n) {
        RoomWhenSpanExceeds(cfg, tick, slack, from, n);
      }
      RunsOver(cfg, tick, slack);
    }
  }

  lemma RunsOver(cfg: Config, tick: real, slack: real)
    requires Roomy(cfg, tick, slack)
    ensures OverflowReachable(cfg, tick)
  {
    hide Watch, Paced, FailsAt, Times, Roomy;
    var w := KeepsFailing(cfg, tick, slack, MAX_DOUBLED + 1);
    var polls :| RunsBy(cfg, tick, polls, w, FailsAt(cfg, tick, slack, MAX_DOUBLED + 1));
  }

  /** The settings used when none are given. */
  const DEFAULTS := Config(300.0, 15.0, 5, 1.0, 30.0)

  /** With those, the overflow takes passes of almost a minute. */
  lemma DefaultsOverflowExactlyWhen(tick: real)
    requires tick >= 1.0
    ensures Clamped(DEFAULTS) == DEFAULTS
    ensures OverflowReachable(DEFAULTS, tick) <==> tick > 52.5
  {
    OverflowReachableExactlyWhen(DEFAULTS, tick);
    var cfg := DEFAULTS;
    assert CappedDoubling(cfg, 2) == 2.0 && CappedDoubling(cfg, 3) == 4.0;
    assert CappedDoubling(cfg, 4) == 8.0 && CappedDoubling(cfg, 5) == 16.0;
    assert LongestSpan(cfg, tick, 2, 1) == 2.0 + tick + 15.0;
    assert LongestSpan(cfg, tick, 2, 2) == 6.0 + 2.0 * (tick + 15.0);
    assert LongestSpan(cfg, tick, 2, 3) == 14.0 + 3.0 * (tick + 15.0);
    assert LongestSpan(cfg, tick, 2, 4) == 30.0 + 4.0 * (tick + 15.0);
  }
}
