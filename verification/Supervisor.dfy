/** The worker-group supervisor: quick-failure window, back-off and sticky group failure. Times in seconds. */
module Supervisor {
  import opened Common

  datatype Config =
    Config(window: real, quickFail: real, maxQuick: int, backoffInitial: real, backoffMax: real)

  /** The settings after the clamping the manager applies to whatever it is given. */
  function Clamped(raw: Config): Config {
    Config(
      MaxReal(10.0, raw.window), MaxReal(1.0, raw.quickFail), Max(1, raw.maxQuick),
      MaxReal(0.5, raw.backoffInitial), MaxReal(2.0, raw.backoffMax))
  }

  /** Every setting is taken as given unless it is below the least value allowed for it. */
  lemma ClampedMeans(raw: Config)
    ensures var cfg := Clamped(raw);
            && cfg.window == (if raw.window < 10.0 then 10.0 else raw.window)
            && cfg.quickFail == (if raw.quickFail < 1.0 then 1.0 else raw.quickFail)
            && cfg.maxQuick == (if raw.maxQuick < 1 then 1 else raw.maxQuick)
            && cfg.backoffInitial == (if raw.backoffInitial < 0.5 then 0.5 else raw.backoffInitial)
            && cfg.backoffMax == (if raw.backoffMax < 2.0 then 2.0 else raw.backoffMax)
  {
  }

  /** What clamping guarantees. */
  predicate Sane(cfg: Config) {
    && cfg.window >= 10.0 && cfg.quickFail >= 1.0 && cfg.maxQuick >= 1
    && cfg.backoffInitial >= 0.5 && cfg.backoffMax >= 2.0
  }

  datatype Child = Child(
    started: bool,
    starts: nat,
    consecutive: int,
    lastStart: real,
    lastExit: real,
    lastExitCode: Option<int>,
    nextStart: real,
    recent: seq<real>)

  /** A time, doubled `n` times over. */
  function Doubled(time: real, n: nat): real {
    if n == 0 then time else 2.0 * Doubled(time, n - 1)
  }

  /** Most failures in a row whose doubling still fits a floating-point number. */
  const MAX_DOUBLED := 1024

  /** The pause before a restart; beyond the largest float, computing it raises an error. */
  function Backoff(cfg: Config, failures: int): Option<real> {
    if failures > MAX_DOUBLED then None else Some(CappedDoubling(cfg, failures))
  }

  function CappedDoubling(cfg: Config, failures: int): real {
    MinReal(Doubled(cfg.backoffInitial, Max(0, failures - 1)), cfg.backoffMax)
  }

  function DropOld(times: seq<real>, cutoff: real): seq<real> {
    if times != [] && times[0] < cutoff then DropOld(times[1..], cutoff) else times
  }

  predicate IsQuick(cfg: Config, start: real, at: real) {
    MaxReal(0.0, at - start) < cfg.quickFail
  }

  /** The bookkeeping of one exit, noticed at `now`. */
  function AfterExit(cfg: Config, c: Child, now: real, code: int, stopping: bool): Child {
    var quick := IsQuick(cfg, c.lastStart, now);
    var recent := if quick then DropOld(c.recent + [now], now - cfg.window) else [];
    var before := if quick then c.consecutive else 0;
    var failures := if code != 0 || !stopping then before + 1 else 0;
    var next :=
      if |recent| >= cfg.maxQuick then c.nextStart
      else match Backoff(cfg, failures) case None => c.nextStart case Some(pause) => now + pause;
    c.(started := false, consecutive := failures, lastExit := now, lastExitCode := Some(code),
       nextStart := next, recent := recent)
  }

  function AfterStart(c: Child, at: real): Child {
    c.(started := true, starts := c.starts + 1, lastStart := at, lastExitCode := None, nextStart := 0.0)
  }

  // ----- one child under the run loop -----

  /** What a pass of the run loop meets: the clock, the exit code if the process ended, and the spawn. */
  datatype Poll = Poll(now: real, exitCode: Option<int>, spawns: bool, startedAt: real)

  datatype Exit = Exit(start: real, at: real, code: int)

  /** How the loop ended, if it did: the group failed, or an error escaped the loop. */
  datatype Ending = Going | Failed | Overflowed

  /** A child, the loop's ending, and the exits noticed so far. */
  datatype Watched = Watched(child: Child, ending: Ending, exits: seq<Exit>)

  function EndingOf(cfg: Config, c: Child): Ending {
    if |c.recent| >= cfg.maxQuick then Failed
    else if Backoff(cfg, c.consecutive).None? then Overflowed
    else Going
  }

  function Noticed(cfg: Config, w: Watched, p: Poll, stopping: bool): Watched {
    if w.child.started && p.exitCode.Some? then
      var child := AfterExit(cfg, w.child, p.now, p.exitCode.value, stopping);
      Watched(child, EndingOf(cfg, child), w.exits + [Exit(w.child.lastStart, p.now, p.exitCode.value)])
    else w
  }

  /** One visit; `stopping` when a signal came earlier in the same pass. */
  function Pass(cfg: Config, w: Watched, p: Poll, stopping: bool): Watched {
    if w.child.started && p.exitCode.None? then w
    else
      var n := Noticed(cfg, w, p, stopping);
      if n.ending != Going || p.now < n.child.nextStart then n
      else if !p.spawns then n.(ending := Failed)
      else n.(child := AfterStart(n.child, p.startedAt))
  }

  function Fresh(): Watched {
    Watched(Child(false, 0, 0, 0.0, 0.0, None, 0.0, []), Going, [])
  }

  /** The run loop keeps passing over a child until it ends. */
  function Watch(cfg: Config, polls: seq<Poll>): Watched {
    if polls == [] then Fresh()
    else
      var w := Watch(cfg, polls[..|polls| - 1]);
      if w.ending != Going then w else Pass(cfg, w, polls[|polls| - 1], false)
  }

  /** Readings of one monotonic clock: a start is stamped after the pass that makes it and before the next. */
  ghost predicate Monotonic(polls: seq<Poll>) {
    && (forall i :: 0 <= i < |polls| ==> 0.0 <= polls[i].now <= polls[i].startedAt)
    && (forall i :: 0 <= i < |polls| - 1 ==> polls[i].startedAt <= polls[i + 1].now)
  }

  // ----- closed forms over the exits -----

  predicate Quick(cfg: Config, e: Exit) {
    IsQuick(cfg, e.start, e.at)
  }

  /** Times at or after `cutoff` of the quick exits since the last long run. */
  function QuickSince(cfg: Config, exits: seq<Exit>, cutoff: real): seq<real> {
    if exits == [] || !Quick(cfg, exits[|exits| - 1]) then []
    else
      var last := exits[|exits| - 1].at;
      QuickSince(cfg, exits[..|exits| - 1], cutoff) + if last >= cutoff then [last] else []
  }

  /** Number of quick exits since the last long run. */
  function QuickRun(cfg: Config, exits: seq<Exit>): nat {
    if exits == [] || !Quick(cfg, exits[|exits| - 1]) then 0 else QuickRun(cfg, exits[..|exits| - 1]) + 1
  }

  predicate HadLongRun(cfg: Config, exits: seq<Exit>) {
    exists e :: e in exits && !Quick(cfg, e)
  }

  function FailuresInRow(cfg: Config, exits: seq<Exit>): nat {
    QuickRun(cfg, exits) + if HadLongRun(cfg, exits) then 1 else 0
  }

  ghost predicate Ordered(exits: seq<Exit>) {
    && (forall i :: 0 <= i < |exits| ==> exits[i].start <= exits[i].at)
    && (forall i :: 0 < i < |exits| ==> exits[i - 1].at <= exits[i].start)
  }

  lemma {:induction false} OrderedTimes(exits: seq<Exit>, i: nat, j: nat)
    requires Ordered(exits) && i <= j < |exits|
    ensures exits[i].at <= exits[j].at
    decreases j
  {
    if i < j {
      OrderedTimes(exits, i, j - 1);
      assert exits[j - 1].at <= exits[j].start <= exits[j].at;
    }
  }

  lemma OrderedPrefix(exits: seq<Exit>)
    requires Ordered(exits) && exits != []
    ensures Ordered(exits[..|exits| - 1])
  {
  }

  ghost predicate Within(times: seq<real>, low: real, high: real) {
    forall i :: 0 <= i < |times| ==> low <= times[i] <= high
  }

  lemma {:induction false} QuickSinceBounds(cfg: Config, exits: seq<Exit>, cutoff: real)
    requires Ordered(exits) && exits != []
    ensures Within(QuickSince(cfg, exits, cutoff), cutoff, exits[|exits| - 1].at)
  {
    if Quick(cfg, exits[|exits| - 1]) && |exits| > 1 {
      OrderedPrefix(exits);
      QuickSinceBounds(cfg, exits[..|exits| - 1], cutoff);
      OrderedTimes(exits, |exits| - 2, |exits| - 1);
    }
  }

  lemma NoneSince(cfg: Config, exits: seq<Exit>, cutoff: real)
    requires Ordered(exits) && exits != [] && exits[|exits| - 1].at < cutoff
    ensures QuickSince(cfg, exits, cutoff) == []
  {
    QuickSinceBounds(cfg, exits, cutoff);
  }

  lemma {:induction false} DropOldAll(times: seq<real>, cutoff: real)
    requires forall i :: 0 <= i < |times| ==> times[i] < cutoff
    ensures DropOld(times, cutoff) == []
  {
    if times != [] {
      DropOldAll(times[1..], cutoff);
    }
  }

  lemma {:induction false} DropOldAppend(times: seq<real>, last: real, cutoff: real)
    requires last >= cutoff
    ensures DropOld(times + [last], cutoff) == DropOld(times, cutoff) + [last]
  {
    if times != [] && times[0] < cutoff {
      assert (times + [last])[1..] == times[1..] + [last];
      DropOldAppend(times[1..], last, cutoff);
    }
  }

  /** Trimming from the left to a later cutoff is filtering by it. */
  lemma {:induction false} DropOldFilters(cfg: Config, exits: seq<Exit>, low: real, high: real)
    requires Ordered(exits) && low <= high
    ensures DropOld(QuickSince(cfg, exits, low), high) == QuickSince(cfg, exits, high)
  {
    if exits != [] && Quick(cfg, exits[|exits| - 1]) {
      var init, last := exits[..|exits| - 1], exits[|exits| - 1].at;
      OrderedPrefix(exits);
      if last >= high {
        DropOldFilters(cfg, init, low, high);
        DropOldAppend(QuickSince(cfg, init, low), last, high);
      } else {
        QuickSinceBounds(cfg, exits, low);
        DropOldAll(QuickSince(cfg, exits, low), high);
        NoneSince(cfg, exits, high);
      }
    }
  }

  // ----- the run invariant -----

  /** What the supervisor knows about a child, in terms of the exits alone. */
  ghost predicate Tracks(cfg: Config, w: Watched, clock: real) {
    var c, exits := w.child, w.exits;
    && Ordered(exits)
    && c.consecutive == FailuresInRow(cfg, exits)
    && c.recent == (if exits == [] then [] else QuickSince(cfg, exits, exits[|exits| - 1].at - cfg.window))
    && (exits != [] ==> exits[|exits| - 1].at <= clock)
    && (c.started ==> c.lastStart <= clock)
    && (c.started && exits != [] ==> exits[|exits| - 1].at <= c.lastStart)
  }

  /** Restarts observe the back-off the exits before them call for. */
  ghost predicate Spaced(cfg: Config, w: Watched) {
    var c, exits := w.child, w.exits;
    && (forall i :: 0 < i < |exits| ==> exits[i].start >= EarliestRestart(cfg, exits[..i]))
    && (exits != [] && c.started ==> c.lastStart >= EarliestRestart(cfg, exits))
    && (exits != [] && !c.started && w.ending == Going ==> c.nextStart == EarliestRestart(cfg, exits))
  }

  /** Every exit handled before the group failed left fewer than the limit in the window. */
  ghost predicate Viable(cfg: Config, exits: seq<Exit>) {
    forall i :: 0 < i <= |exits| ==> ViableAt(cfg, exits, i)
  }

  ghost predicate ViableAt(cfg: Config, exits: seq<Exit>, i: int)
    requires 0 < i <= |exits|
  {
    |QuickSince(cfg, exits[..i], exits[i - 1].at - cfg.window)| < cfg.maxQuick
  }

  function EarliestRestart(cfg: Config, exits: seq<Exit>): real
    requires exits != []
  {
    exits[|exits| - 1].at + CappedDoubling(cfg, FailuresInRow(cfg, exits))
  }

  /** What the exits make of the group once the last of them is handled. */
  function EndingFor(cfg: Config, exits: seq<Exit>): Ending {
    if exits == [] then Going
    else if |QuickSince(cfg, exits, exits[|exits| - 1].at - cfg.window)| >= cfg.maxQuick then Failed
    else if FailuresInRow(cfg, exits) > MAX_DOUBLED then Overflowed
    else Going
  }

  lemma QuickLonger(cfg: Config, exits: seq<Exit>, e: Exit)
    requires Quick(cfg, e)
    ensures FailuresInRow(cfg, exits + [e]) == FailuresInRow(cfg, exits) + 1
    ensures forall cutoff :: cutoff <= e.at ==>
              QuickSince(cfg, exits + [e], cutoff) == QuickSince(cfg, exits, cutoff) + [e.at]
  {
    assert (exits + [e])[..|exits|] == exits;
    assert HadLongRun(cfg, exits + [e]) <==> HadLongRun(cfg, exits);
  }

  lemma LongRestarts(cfg: Config, exits: seq<Exit>, e: Exit)
    requires !Quick(cfg, e)
    ensures FailuresInRow(cfg, exits + [e]) == 1
    ensures forall cutoff :: QuickSince(cfg, exits + [e], cutoff) == []
  {
    assert e in exits + [e];
  }

  lemma EmptyTimes(cfg: Config, cutoff: real)
    ensures DropOld([], cutoff) == [] && QuickSince(cfg, [], cutoff) == []
  {
  }

  /** The deque after a quick exit, whatever it held before. */
  lemma DequeTracks(cfg: Config, exits: seq<Exit>, recent: seq<real>, e: Exit)
    requires Sane(cfg) && Ordered(exits) && Quick(cfg, e)
    requires exits != [] ==> exits[|exits| - 1].at <= e.at
    requires recent == if exits == [] then [] else QuickSince(cfg, exits, exits[|exits| - 1].at - cfg.window)
    ensures DropOld(recent + [e.at], e.at - cfg.window) == QuickSince(cfg, exits + [e], e.at - cfg.window)
  {
    hide QuickSince, DropOld, FailuresInRow, Quick;
    var cutoff := e.at - cfg.window;
    DropOldAppend(recent, e.at, cutoff);
    QuickLonger(cfg, exits, e);
    if exits == [] {
      EmptyTimes(cfg, cutoff);
    } else {
      DropOldFilters(cfg, exits, exits[|exits| - 1].at - cfg.window, cutoff);
    }
  }

  /** The counters after one more exit. */
  lemma CountersTrack(cfg: Config, exits: seq<Exit>, c: Child, p: Poll, e: Exit)
    requires Sane(cfg) && Ordered(exits) && p.exitCode.Some? && e == Exit(c.lastStart, p.now, p.exitCode.value)
    requires exits != [] ==> exits[|exits| - 1].at <= e.at
    requires c.consecutive == FailuresInRow(cfg, exits)
    requires c.recent == if exits == [] then [] else QuickSince(cfg, exits, exits[|exits| - 1].at - cfg.window)
    ensures var after := AfterExit(cfg, c, p.now, p.exitCode.value, false);
            && after.consecutive == FailuresInRow(cfg, exits + [e])
            && after.recent == QuickSince(cfg, exits + [e], e.at - cfg.window)
  {
    hide FailuresInRow, QuickSince, Backoff, DropOld;
    if Quick(cfg, e) {
      QuickLonger(cfg, exits, e);
      DequeTracks(cfg, exits, c.recent, e);
    } else {
      LongRestarts(cfg, exits, e);
    }
  }

  lemma OrderedMore(exits: seq<Exit>, e: Exit)
    requires Ordered(exits) && e.start <= e.at && (exits != [] ==> exits[|exits| - 1].at <= e.start)
    ensures Ordered(exits + [e])
  {
  }

  lemma NoticedTracks(cfg: Config, w: Watched, p: Poll)
    requires Sane(cfg) && Tracks(cfg, w, p.now) && w.child.started && p.exitCode.Some?
    ensures Tracks(cfg, Noticed(cfg, w, p, false), p.now)
  {
    hide FailuresInRow, QuickSince, Backoff, Ordered, IsQuick, DropOld;
    var e := Exit(w.child.lastStart, p.now, p.exitCode.value);
    CountersTrack(cfg, w.exits, w.child, p, e);
    OrderedMore(w.exits, e);
  }

  lemma NoticedSpaced(cfg: Config, w: Watched, p: Poll)
    requires Sane(cfg) && Tracks(cfg, w, p.now) && Spaced(cfg, w) && w.child.started && p.exitCode.Some?
    ensures Spaced(cfg, Noticed(cfg, w, p, false))
  {
    hide FailuresInRow, QuickSince, DropOld, CappedDoubling, Ordered, IsQuick;
    NoticedTracks(cfg, w, p);
    var n := Noticed(cfg, w, p, false);
    assert n.exits[..|w.exits|] == w.exits && n.exits[..|n.exits|] == n.exits;
    forall i | 0 < i < |n.exits| ensures n.exits[i].start >= EarliestRestart(cfg, n.exits[..i]) {
      assert i < |w.exits| ==> n.exits[..i] == w.exits[..i];
    }
  }

  lemma NoticedViable(cfg: Config, w: Watched, p: Poll)
    requires Sane(cfg) && Tracks(cfg, w, p.now) && Viable(cfg, w.exits) && w.child.started && p.exitCode.Some?
    ensures Viable(cfg, Noticed(cfg, w, p, false).exits) <==> Noticed(cfg, w, p, false).ending != Failed
    ensures Noticed(cfg, w, p, false).ending == EndingFor(cfg, Noticed(cfg, w, p, false).exits)
  {
    hide FailuresInRow, QuickSince, DropOld, CappedDoubling;
    NoticedTracks(cfg, w, p);
    var n := Noticed(cfg, w, p, false);
    assert n.exits[..|n.exits|] == n.exits;
    assert ViableAt(cfg, n.exits, |n.exits|) <==> n.ending != Failed;
    forall i | 0 < i <= |w.exits| ensures ViableAt(cfg, n.exits, i) {
      assert n.exits[..i] == w.exits[..i] && ViableAt(cfg, w.exits, i);
    }
  }

  ghost predicate Faithful(cfg: Config, w: Watched, clock: real) {
    && Tracks(cfg, w, clock) && Spaced(cfg, w)
    && (w.child.started ==> w.ending == Going)
    && (w.ending != Failed ==> Viable(cfg, w.exits) && w.ending == EndingFor(cfg, w.exits))
  }

  lemma NoticedFaithful(cfg: Config, w: Watched, p: Poll)
    requires Sane(cfg) && Faithful(cfg, w, p.now) && w.ending == Going && (w.child.started ==> p.exitCode.Some?)
    ensures Faithful(cfg, Noticed(cfg, w, p, false), p.now) && !Noticed(cfg, w, p, false).child.started
  {
    hide QuickSince, FailuresInRow, Viable, Tracks, Spaced, EndingFor;
    if w.child.started {
      NoticedTracks(cfg, w, p);
      NoticedSpaced(cfg, w, p);
      NoticedViable(cfg, w, p);
    }
  }

  lemma StartFaithful(cfg: Config, n: Watched, p: Poll)
    requires Faithful(cfg, n, p.now) && n.ending == Going && !n.child.started
    requires n.child.nextStart <= p.now <= p.startedAt
    ensures Faithful(cfg, n.(child := AfterStart(n.child, p.startedAt)), p.startedAt)
  {
    hide QuickSince, FailuresInRow, Viable, Ordered, EarliestRestart, EndingFor;
  }

  lemma FaithfulLater(cfg: Config, w: Watched, clock: real, later: real)
    requires Faithful(cfg, w, clock) && clock <= later
    ensures Faithful(cfg, w, later)
    ensures !w.child.started ==> Faithful(cfg, w.(ending := Failed), later)
  {
    hide QuickSince, FailuresInRow, Viable, Ordered, EarliestRestart, EndingFor;
  }

  lemma PassFaithful(cfg: Config, w: Watched, p: Poll)
    requires Sane(cfg) && Faithful(cfg, w, p.now) && w.ending == Going && p.now <= p.startedAt
    ensures Faithful(cfg, Pass(cfg, w, p, false), p.startedAt)
  {
    hide Faithful, AfterStart;
    if w.child.started && p.exitCode.None? {
      FaithfulLater(cfg, w, p.now, p.startedAt);
    } else {
      var n := Noticed(cfg, w, p, false);
      NoticedFaithful(cfg, w, p);
      FaithfulLater(cfg, n, p.now, p.startedAt);
      if n.ending == Going && n.child.nextStart <= p.now {
        StartFaithful(cfg, n, p);
      }
    }
  }

  /** Every run of the loop, over any exits and any clock readings, keeps the account faithful. */
  lemma {:induction false} WatchFaithful(cfg: Config, polls: seq<Poll>)
    requires Sane(cfg) && Monotonic(polls)
    ensures Faithful(cfg, Watch(cfg, polls), if polls == [] then 0.0 else polls[|polls| - 1].startedAt)
  {
    if polls != [] {
      var init, p := polls[..|polls| - 1], polls[|polls| - 1];
      WatchFaithful(cfg, init);
      var w := Watch(cfg, init);
      assert init != [] ==> init[|init| - 1].startedAt <= p.now;
      if w.ending == Going {
        PassFaithful(cfg, w, p);
      }
    }
  }
}
