/** What the supervisor guarantees over every run of its loop. */
module SupervisorBounds {
  import opened Common
  import opened Supervisor

  /** Number of exits at times in the closed span from `a` to `b`. */
  function ExitsIn(exits: seq<Exit>, a: real, b: real): nat {
    if exits == [] then 0
    else
      ExitsIn(exits[..|exits| - 1], a, b) + if a <= exits[|exits| - 1].at <= b then 1 else 0
  }

  /** Number of long runs ending in the span. */
  function LongIn(cfg: Config, exits: seq<Exit>, a: real, b: real): nat {
    if exits == [] then 0
    else
      LongIn(cfg, exits[..|exits| - 1], a, b)
      + if a <= exits[|exits| - 1].at <= b && !Quick(cfg, exits[|exits| - 1]) then 1 else 0
  }

  lemma {:induction false} NoneBefore(cfg: Config, exits: seq<Exit>, a: real, b: real)
    requires Ordered(exits) && (exits != [] ==> exits[|exits| - 1].at < a)
    ensures ExitsIn(exits, a, b) == 0 && LongIn(cfg, exits, a, b) == 0
  {
    if exits != [] {
      OrderedPrefix(exits);
      if |exits| > 1 {
        OrderedTimes(exits, |exits| - 2, |exits| - 1);
      }
      NoneBefore(cfg, exits[..|exits| - 1], a, b);
    }
  }

  /** A length, `n` times over. */
  function Lengths(n: nat, length: real): real {
    if n == 0 then 0.0 else Lengths(n - 1, length) + length
  }

  lemma {:induction false} LengthsMultiply(n: nat, length: real)
    ensures Lengths(n, length) == n as real * length
  {
    if n > 0 {
      LengthsMultiply(n - 1, length);
      assert n as real * length == (n - 1) as real * length + length;
    }
  }

  /** Long runs are disjoint, so `k` of them ending in the span reach at least `k - 1` run lengths past its start. */
  lemma {:induction false} LongRunsDisjoint(cfg: Config, exits: seq<Exit>, a: real, b: real)
    requires Sane(cfg) && Ordered(exits) && exits != [] && LongIn(cfg, exits, a, b) >= 1
    ensures exits[|exits| - 1].at >= a + Lengths(LongIn(cfg, exits, a, b) - 1, cfg.quickFail)
  {
    var init, last := exits[..|exits| - 1], exits[|exits| - 1];
    OrderedPrefix(exits);
    if LongIn(cfg, init, a, b) >= 1 {
      LongRunsDisjoint(cfg, init, a, b);
      assert init[|init| - 1].at <= last.start <= last.at by {
        assert init[|init| - 1] == exits[|exits| - 2];
      }
    }
  }

  lemma {:induction false} RecentGrowsBackward(cfg: Config, exits: seq<Exit>, low: real, high: real)
    requires low <= high
    ensures |QuickSince(cfg, exits, high)| <= |QuickSince(cfg, exits, low)|
  {
    if exits != [] && Quick(cfg, exits[|exits| - 1]) {
      RecentGrowsBackward(cfg, exits[..|exits| - 1], low, high);
    }
  }

  lemma ViableAtPrefix(cfg: Config, exits: seq<Exit>, i: int)
    requires 0 < i < |exits| && ViableAt(cfg, exits, i)
    ensures ViableAt(cfg, exits[..|exits| - 1], i)
  {
    hide QuickSince;
    assert exits[..|exits| - 1][..i] == exits[..i];
  }

  lemma ViablePrefix(cfg: Config, exits: seq<Exit>)
    requires Viable(cfg, exits) && exits != []
    ensures Viable(cfg, exits[..|exits| - 1])
    ensures |QuickSince(cfg, exits, exits[|exits| - 1].at - cfg.window)| < cfg.maxQuick
  {
    ViableWhole(cfg, exits);
    hide ViableAt, QuickSince;
    var init := exits[..|exits| - 1];
    forall i | 0 < i <= |init| ensures ViableAt(cfg, init, i) {
      ViableAtPrefix(cfg, exits, i);
    }
  }

  lemma ViableWhole(cfg: Config, exits: seq<Exit>)
    requires Viable(cfg, exits) && exits != []
    ensures |QuickSince(cfg, exits, exits[|exits| - 1].at - cfg.window)| < cfg.maxQuick
  {
    hide QuickSince;
    assert ViableAt(cfg, exits, |exits|);
    assert exits[..|exits|] == exits;
  }

  /** What one more exit in the span adds to the counts. */
  lemma OneMoreInSpan(cfg: Config, exits: seq<Exit>, a: real, b: real)
    requires exits != [] && a <= exits[|exits| - 1].at <= b
    ensures var init, quick := exits[..|exits| - 1], Quick(cfg, exits[|exits| - 1]);
            && ExitsIn(exits, a, b) == ExitsIn(init, a, b) + 1
            && LongIn(cfg, exits, a, b) == LongIn(cfg, init, a, b) + (if quick then 0 else 1)
            && |QuickSince(cfg, exits, a)| == if quick then |QuickSince(cfg, init, a)| + 1 else 0
  {
  }

  /** While the last exit is in the span: each long run pays for the quick exits before it. */
  lemma {:induction false} CountInsideSpan(cfg: Config, exits: seq<Exit>, a: real)
    requires Sane(cfg) && Ordered(exits) && Viable(cfg, exits)
    requires exits != [] ==> exits[|exits| - 1].at <= a + cfg.window
    ensures ExitsIn(exits, a, a + cfg.window) <=
            LongIn(cfg, exits, a, a + cfg.window) * cfg.maxQuick + |QuickSince(cfg, exits, a)|
    ensures |QuickSince(cfg, exits, a)| < cfg.maxQuick
  {
    if exits != [] {
      var init, last := exits[..|exits| - 1], exits[|exits| - 1];
      OrderedPrefix(exits);
      ViablePrefix(cfg, exits);
      RecentGrowsBackward(cfg, exits, last.at - cfg.window, a);
      if last.at < a {
        NoneBefore(cfg, exits, a, a + cfg.window);
      } else {
        hide ExitsIn, LongIn, QuickSince, ViableAt;
        if init != [] {
          OrderedTimes(exits, |exits| - 2, |exits| - 1);
        }
        CountInsideSpan(cfg, init, a);
        OneMoreInSpan(cfg, exits, a, a + cfg.window);
        OneMore(LongIn(cfg, init, a, a + cfg.window), cfg.maxQuick);
      }
    }
  }

  lemma OneMore(n: int, size: int)
    ensures (n + 1) * size == n * size + size
  {
  }

  lemma LongRunsFit(longs: int, quickFail: real, window: real)
    requires longs >= 1 ==> Lengths(longs - 1, quickFail) <= window
    requires quickFail > 0.0 && window >= 0.0
    ensures longs <= (window / quickFail).Floor + 1
  {
    var ratio := window / quickFail;
    assert ratio * quickFail == window;
    if longs >= 1 && (longs - 1) as real > ratio {
      LengthsMultiply(longs - 1, quickFail);
      OutGrows((longs - 1) as real, ratio, quickFail);
    }
  }

  lemma OutGrows(a: real, b: real, size: real)
    requires a > b && size > 0.0
    ensures a * size > b * size
  {
    assert (a - b) * size > 0.0;
  }

  lemma {:induction false} StormBound(cfg: Config, exits: seq<Exit>, a: real)
    requires Sane(cfg) && Ordered(exits) && Viable(cfg, exits)
    ensures ExitsIn(exits, a, a + cfg.window) <= cfg.maxQuick * ((cfg.window / cfg.quickFail).Floor + 2) - 1
  {
    if exits != [] && exits[|exits| - 1].at > a + cfg.window {
      OrderedPrefix(exits);
      ViablePrefix(cfg, exits);
      StormBound(cfg, exits[..|exits| - 1], a);
    } else {
      CountInsideSpan(cfg, exits, a);
      var longs := LongIn(cfg, exits, a, a + cfg.window);
      if longs >= 1 {
        LongRunsDisjoint(cfg, exits, a, a + cfg.window);
      }
      LongRunsFit(longs, cfg.quickFail, cfg.window);
      BoundArithmetic(longs, cfg.maxQuick, (cfg.window / cfg.quickFail).Floor);
    }
  }

  lemma BoundArithmetic(longs: int, maxQuick: int, ratio: int)
    requires 0 <= longs <= ratio + 1 && maxQuick >= 1
    ensures longs * maxQuick + maxQuick - 1 <= maxQuick * (ratio + 2) - 1
  {
    var spare := ratio + 1 - longs;
    assert spare * maxQuick >= 0;
    assert (longs + spare + 1) * maxQuick == longs * maxQuick + spare * maxQuick + maxQuick;
  }

  // ----- main results over runs -----

  /**
   Restart storms are bounded: while the group stays viable, no span as long as the restart window
   holds more exits of one child than this.
   */
  lemma RestartStormBounded(cfg: Config, polls: seq<Poll>, a: real)
    requires Sane(cfg) && Monotonic(polls) && Watch(cfg, polls).ending != Failed
    ensures ExitsIn(Watch(cfg, polls).exits, a, a + cfg.window)
            <= cfg.maxQuick * ((cfg.window / cfg.quickFail).Floor + 2) - 1
  {
    WatchFaithful(cfg, polls);
    StormBound(cfg, Watch(cfg, polls).exits, a);
  }

  /** The counters are functions of the exits alone, over every run. */
  lemma CountersClosedForm(cfg: Config, polls: seq<Poll>)
    requires Sane(cfg) && Monotonic(polls) && Watch(cfg, polls).exits != []
    ensures var w := Watch(cfg, polls);
            && w.child.recent == QuickSince(cfg, w.exits, w.exits[|w.exits| - 1].at - cfg.window)
            && w.child.consecutive == FailuresInRow(cfg, w.exits)
  {
    hide QuickSince, FailuresInRow, Watch, Spaced;
    WatchFaithful(cfg, polls);
  }

  /** No start precedes the previous exit by less than the back-off the exits so far call for. */
  lemma RestartsWaitForBackoff(cfg: Config, polls: seq<Poll>, i: nat)
    requires Sane(cfg) && Monotonic(polls)
    ensures var w := Watch(cfg, polls);
            && (0 < i < |w.exits| ==> w.exits[i].start >= EarliestRestart(cfg, w.exits[..i]))
            && (w.exits != [] && w.child.started ==> w.child.lastStart >= EarliestRestart(cfg, w.exits))
  {
    WatchFaithful(cfg, polls);
  }

  /**
   The pass that notices an exit fails the group exactly when that exit makes too many quick exits
   since the last long run within the window.
   */
  lemma FailsExactlyOnTooManyQuickExits(cfg: Config, polls: seq<Poll>, p: Poll)
    requires Sane(cfg) && Monotonic(polls + [p]) && Watch(cfg, polls).ending == Going
    requires Watch(cfg, polls).child.started && p.exitCode.Some?
    ensures var w := Watch(cfg, polls + [p]);
            w.ending == Failed <==> |QuickSince(cfg, w.exits, p.now - cfg.window)| >= cfg.maxQuick
  {
    hide QuickSince, FailuresInRow, Backoff, Monotonic;
    MonotonicPrefix(polls, p);
    WatchFaithful(cfg, polls);
    EndsOnNotice(cfg, Watch(cfg, polls), p);
    assert (polls + [p])[..|polls|] == polls;
  }

  /**
   A pass starts a child that is not running exactly when the pause its exits call for is over and the
   process can be spawned; when it is over and the process cannot be spawned, the group fails.
   */
  lemma StartsExactlyWhenDue(cfg: Config, polls: seq<Poll>, p: Poll)
    requires Sane(cfg) && Monotonic(polls + [p]) && Watch(cfg, polls).ending == Going
    requires !Watch(cfg, polls).child.started
    ensures var before, w := Watch(cfg, polls), Watch(cfg, polls + [p]);
            var due := before.exits == [] || p.now >= EarliestRestart(cfg, before.exits);
            && w.exits == before.exits
            && (w.child.started <==> due && p.spawns) && (w.ending == Failed <==> due && !p.spawns)
            && (due && p.spawns ==> w.child.lastStart == p.startedAt && w.child.starts == before.child.starts + 1)
  {
    hide QuickSince, FailuresInRow, Backoff, Monotonic, Ordered, EarliestRestart, Viable;
    MonotonicPrefix(polls, p);
    WatchFaithful(cfg, polls);
    FirstStartDue(cfg, polls);
    assert 0.0 <= p.now by { MonotonicLast(polls, p); }
    assert (polls + [p])[..|polls|] == polls;
  }

  lemma MonotonicLast(polls: seq<Poll>, p: Poll)
    requires Monotonic(polls + [p])
    ensures 0.0 <= p.now
  {
    assert (polls + [p])[|polls|] == p;
  }

  /** Before its first exit nothing holds a child's start back. */
  lemma {:induction false} FirstStartDue(cfg: Config, polls: seq<Poll>)
    ensures Watch(cfg, polls).exits == [] ==> Watch(cfg, polls).child.nextStart == 0.0
  {
    if polls != [] {
      FirstStartDue(cfg, polls[..|polls| - 1]);
    }
  }

  /** An error escapes the loop exactly when a viable child has failed more than 1024 times in a row. */
  lemma OverflowsExactlyAfterTooManyFailures(cfg: Config, polls: seq<Poll>)
    requires Sane(cfg) && Monotonic(polls) && Watch(cfg, polls).ending != Failed
    ensures var w := Watch(cfg, polls);
            w.ending == Overflowed <==> FailuresInRow(cfg, w.exits) > MAX_DOUBLED
  {
    hide QuickSince, FailuresInRow, Watch, Spaced, Tracks;
    WatchFaithful(cfg, polls);
    NoFailuresYet(cfg);
  }

  lemma NoFailuresYet(cfg: Config)
    ensures FailuresInRow(cfg, []) == 0
  {
  }

  lemma MonotonicPrefix(polls: seq<Poll>, p: Poll)
    requires Monotonic(polls + [p])
    ensures Monotonic(polls) && (if polls == [] then 0.0 else polls[|polls| - 1].startedAt) <= p.now
  {
    var all := polls + [p];
    assert forall i :: 0 <= i < |polls| ==> all[i] == polls[i];
    assert all[|polls|] == p;
    assert polls != [] ==> all[|polls| - 1].startedAt <= all[|polls| - 1 + 1].now;
  }

  lemma EndsOnNotice(cfg: Config, w: Watched, p: Poll)
    requires Sane(cfg) && Tracks(cfg, w, p.now) && Viable(cfg, w.exits) && w.ending == Going
    requires w.child.started && p.exitCode.Some?
    ensures Pass(cfg, w, p, false) == Noticed(cfg, w, p, false)
    ensures var n := Noticed(cfg, w, p, false);
            n.ending == Failed <==> |QuickSince(cfg, n.exits, p.now - cfg.window)| >= cfg.maxQuick
  {
    hide QuickSince, FailuresInRow;
    NoticedTracks(cfg, w, p);
    BackoffBounds(cfg, Noticed(cfg, w, p, false).child.consecutive);
  }

  /** Up to 1024 failures the back-off is there, never falls, and stays between its first value and the cap. */
  lemma BackoffBounds(cfg: Config, failures: int)
    requires Sane(cfg)
    ensures Backoff(cfg, failures).Some? <==> failures <= MAX_DOUBLED
    ensures failures <= MAX_DOUBLED ==>
              0.0 < MinReal(cfg.backoffInitial, cfg.backoffMax) <= Backoff(cfg, failures).value <= cfg.backoffMax
    ensures 0 < failures <= MAX_DOUBLED ==> Backoff(cfg, failures - 1).value <= Backoff(cfg, failures).value
  {
    DoublingBounds(cfg, failures);
  }

  lemma DoublingBounds(cfg: Config, failures: int)
    requires Sane(cfg)
    ensures 0.0 < MinReal(cfg.backoffInitial, cfg.backoffMax) <= CappedDoubling(cfg, failures) <= cfg.backoffMax
    ensures failures > 0 ==> CappedDoubling(cfg, failures - 1) <= CappedDoubling(cfg, failures)
    ensures failures >= 2 ==> CappedDoubling(cfg, failures) >= 1.0
  {
    DoubledGrows(cfg.backoffInitial, Max(0, failures - 1));
    if failures >= 2 {
      DoubledGrows(cfg.backoffInitial, failures - 2);
    }
  }

  lemma {:induction false} DoubledGrows(time: real, n: nat)
    requires time > 0.0
    ensures Doubled(time, n) >= time
  {
    if n > 0 {
      DoubledGrows(time, n - 1);
    }
  }
}
