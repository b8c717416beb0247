/** Read-replica routing: hysteresis over probe histories and round-robin choice. Times in seconds. */
module Replication {
  import opened Common

  datatype Status = Status(
    lagBytes: Option<int>,
    degraded: bool,
    failing: bool,
    lagOverSince: Option<real>,
    lastProbeAt: Option<real>)

  /** One probe of one replica: its time, the lag if known, and whether it failed. */
  datatype Probe = Probe(at: real, lag: Option<int>, failed: bool)

  function Unprobed(): Status {
    Status(None, true, false, None, None)
  }

  /** The status after one more probe. */
  function Recorded(st: Status, p: Probe, threshold: int, degradeAfter: real): Status {
    var seen := st.(lastProbeAt := Some(p.at), lagBytes := p.lag, failing := p.failed);
    if p.failed then seen.(lagOverSince := None, degraded := true)
    else if p.lag.Some? && p.lag.value > threshold then
      var since := if st.lagOverSince.Some? then st.lagOverSince.value else p.at;
      seen.(lagOverSince := Some(since), degraded := st.degraded || p.at - since >= degradeAfter)
    else seen.(lagOverSince := None, degraded := false)
  }

  function Lag(primary: Option<int>, replayed: Option<int>, failed: bool): Option<int> {
    if !failed && primary.Some? && replayed.Some? then Some(Max(0, primary.value - replayed.value)) else None
  }

  /** The lag is known when both positions are and the replica answered: how far the replica is behind. */
  lemma LagMeans(primary: Option<int>, replayed: Option<int>, failed: bool)
    ensures var lag := Lag(primary, replayed, failed);
            && (lag.Some? <==> !failed && primary.Some? && replayed.Some?)
            && (lag.Some? && replayed.value <= primary.value ==> replayed.value + lag.value == primary.value)
            && (lag.Some? && replayed.value > primary.value ==> lag.value == 0)
  {
  }

  // ----- the router -----

  predicate Usable(st: Status, now: real, maxAge: real) {
    !st.degraded && st.lastProbeAt.Some? && now - st.lastProbeAt.value <= maxAge
  }

  /** The replicas a read may go to, in configured order. */
  function Healthy(names: seq<string>, statuses: map<string, Status>, now: real, maxAge: real): seq<string>
    requires forall n :: n in names ==> n in statuses
  {
    if names == [] then []
    else
      Healthy(names[..|names| - 1], statuses, now, maxAge)
      + if Usable(statuses[names[|names| - 1]], now, maxAge) then [names[|names| - 1]] else []
  }

  class ReadRouter {
    const names: seq<string>
    const threshold: int
    const degradeAfter: real
    const interval: real
    var statuses: map<string, Status>
    var counter: nat

    ghost predicate Valid()
      reads this
    {
      statuses.Keys == (set n | n in names)
    }

    constructor (names: seq<string>, threshold: int, degradeAfter: real, interval: real)
      ensures Valid() && counter == 0 && this.names == names
      ensures this.threshold == Max(1, threshold) && this.degradeAfter == MaxReal(0.0, degradeAfter)
      ensures this.interval == MaxReal(0.5, interval)
      ensures forall n :: n in names ==> statuses[n] == Unprobed()
    {
      this.names, this.threshold := names, Max(1, threshold);
      this.degradeAfter, this.interval := MaxReal(0.0, degradeAfter), MaxReal(0.5, interval);
      statuses := map n | n in names :: Unprobed();
      counter := 0;
    }

    method RecordProbe(name: string, p: Probe)
      requires Valid() && name in names
      modifies this`statuses
      ensures Valid()
      ensures statuses == old(statuses)[name := Recorded(old(statuses)[name], p, threshold, degradeAfter)]
      ensures var st := statuses[name];
              st.lastProbeAt == Some(p.at) && st.lagBytes == p.lag && st.failing == p.failed
    {
      var st := statuses[name];
      st := st.(lastProbeAt := Some(p.at), lagBytes := p.lag, failing := p.failed);
      if p.failed {
        st := st.(lagOverSince := None, degraded := true);
      } else if p.lag.Some? && p.lag.value > threshold {
        if st.lagOverSince.None? {
          st := st.(lagOverSince := Some(p.at));
        }
        if p.at - st.lagOverSince.value >= degradeAfter {
          st := st.(degraded := true);
        }
      } else {
        st := st.(lagOverSince := None, degraded := false);
      }
      statuses := statuses[name := st];
    }

    /** One pass over all replicas, given what each replayed (or its failure) and the primary's position. */
    method ProbeAll(now: real, primary: Option<int>, replayed: map<string, Option<int>>, failed: set<string>)
      requires Valid() && (forall n :: n in names ==> n in replayed)
      requires forall i, j :: 0 <= i < j < |names| ==> names[i] != names[j]
      modifies this`statuses
      ensures Valid()
      ensures forall n :: n in names ==>
                statuses[n] ==
                Recorded(old(statuses)[n], Probe(now, Lag(primary, replayed[n], n in failed), n in failed),
                         threshold, degradeAfter)
    {
      for i := 0 to |names|
        invariant Valid()
        invariant forall j :: i <= j < |names| ==> statuses[names[j]] == old(statuses)[names[j]]
        invariant forall j :: 0 <= j < i ==>
                    statuses[names[j]] ==
                    Recorded(old(statuses)[names[j]],
                             Probe(now, Lag(primary, replayed[names[j]], names[j] in failed), names[j] in failed),
                             threshold, degradeAfter)
      {
        var n := names[i];
        RecordProbe(n, Probe(now, Lag(primary, replayed[n], n in failed), n in failed));
      }
    }

    /** The next replica in turn among the healthy ones; none when no replica is healthy. */
    method Acquire(now: real) returns (choice: Option<string>)
      requires Valid()
      modifies this`counter
      ensures var healthy := Healthy(names, statuses, now, interval * 3.0);
              && choice == (if healthy == [] then None else Some(healthy[old(counter) % |healthy|]))
              && counter == old(counter) + if healthy == [] then 0 else 1
    {
      if names == [] {
        return None;
      }
      var healthy := [];
      for i := 0 to |names|
        invariant healthy == Healthy(names[..i], statuses, now, interval * 3.0)
      {
        assert names[..i + 1][..i] == names[..i];
        var st := statuses[names[i]];
        if !st.degraded && st.lastProbeAt.Some? && now - st.lastProbeAt.value <= interval * 3.0 {
          healthy := healthy + [names[i]];
        }
      }
      assert names[..|names|] == names;
      if healthy == [] {
        return None;
      }
      choice := Some(healthy[counter % |healthy|]);
      counter := counter + 1;
    }
  }

  lemma {:induction false} HealthyExactly(
    names: seq<string>, statuses: map<string, Status>, now: real, maxAge: real, n: string)
    requires forall m :: m in names ==> m in statuses
    ensures n in Healthy(names, statuses, now, maxAge) <==> n in names && Usable(statuses[n], now, maxAge)
  {
    if names != [] {
      HealthyExactly(names[..|names| - 1], statuses, now, maxAge, n);
      assert names == names[..|names| - 1] + [names[|names| - 1]];
    }
  }

  /** The list keeps the configured order: of two usable replicas the one configured first comes first. */
  lemma {:induction false} HealthyInOrder(
    names: seq<string>, statuses: map<string, Status>, now: real, maxAge: real, i: nat, j: nat)
    requires (forall m :: m in names ==> m in statuses) && i < j < |names|
    requires Usable(statuses[names[i]], now, maxAge) && Usable(statuses[names[j]], now, maxAge)
    ensures exists a, b :: 0 <= a < b < |Healthy(names, statuses, now, maxAge)|
                           && Healthy(names, statuses, now, maxAge)[a] == names[i]
                           && Healthy(names, statuses, now, maxAge)[b] == names[j]
  {
    var front, list := names[..|names| - 1], Healthy(names, statuses, now, maxAge);
    var before := Healthy(front, statuses, now, maxAge);
    if j < |names| - 1 {
      HealthyInOrder(front, statuses, now, maxAge, i, j);
      var a, b :| 0 <= a < b < |before| && before[a] == names[i] && before[b] == names[j];
      assert list[a] == names[i] && list[b] == names[j];
    } else {
      HealthyExactly(front, statuses, now, maxAge, names[i]);
      assert front[i] == names[i];
      var a :| 0 <= a < |before| && before[a] == names[i];
      assert list[a] == names[i] && list[|before|] == names[j];
    }
  }

  lemma OneMore(list: seq<string>, x: string, n: string)
    ensures multiset(list + [x])[n] == multiset(list)[n] + if x == n then 1 else 0
  {
  }

  /** A usable replica is listed as often as it is configured. */
  lemma {:induction false} HealthyAsOften(
    names: seq<string>, statuses: map<string, Status>, now: real, maxAge: real, n: string)
    requires (forall m :: m in names ==> m in statuses) && n in statuses
    ensures multiset(Healthy(names, statuses, now, maxAge))[n]
            == if Usable(statuses[n], now, maxAge) then multiset(names)[n] else 0
  {
    hide Usable;
    if names != [] {
      var front, last := names[..|names| - 1], names[|names| - 1];
      HealthyAsOften(front, statuses, now, maxAge, n);
      OneMore(front, last, n);
      OneMore(Healthy(front, statuses, now, maxAge), last, n);
      assert names == front + [last];
    }
  }

  // ----- hysteresis in closed form -----

  function Replay(probes: seq<Probe>, threshold: int, degradeAfter: real): Status {
    if probes == [] then Unprobed()
    else
      Recorded(Replay(probes[..|probes| - 1], threshold, degradeAfter), probes[|probes| - 1],
               threshold, degradeAfter)
  }

  predicate Good(p: Probe, threshold: int) {
    !p.failed && (p.lag.None? || p.lag.value <= threshold)
  }

  predicate Lagging(p: Probe, threshold: int) {
    !p.failed && p.lag.Some? && p.lag.value > threshold
  }

  ghost predicate InOrder(probes: seq<Probe>) {
    forall i :: 0 < i < |probes| ==> probes[i - 1].at <= probes[i].at
  }

  /** Every probe from index `k` on is error-free and over the threshold. */
  ghost predicate LaggingFrom(probes: seq<Probe>, k: nat, threshold: int) {
    forall i :: k <= i < |probes| ==> Lagging(probes[i], threshold)
  }

  /** A good probe at `g`, only lagging ones since, and those spanning less than the grace period. */
  ghost predicate Tolerated(probes: seq<Probe>, g: nat, threshold: int, degradeAfter: real)
    requires g < |probes|
  {
    && Good(probes[g], threshold) && LaggingFrom(probes, g + 1, threshold)
    && (g + 1 < |probes| ==> probes[|probes| - 1].at - probes[g + 1].at < degradeAfter)
  }

  /** Where the current stretch of lagging probes starts. */
  function Stretch(probes: seq<Probe>, threshold: int): (k: nat)
    ensures k <= |probes|
    ensures LaggingFrom(probes, k, threshold)
    ensures k > 0 ==> !Lagging(probes[k - 1], threshold)
  {
    if probes == [] || !Lagging(probes[|probes| - 1], threshold) then |probes|
    else
      Stretch(probes[..|probes| - 1], threshold)
  }

  lemma {:induction false} ReplayClosedForm(probes: seq<Probe>, threshold: int, degradeAfter: real)
    requires InOrder(probes) && degradeAfter >= 0.0
    ensures var st := Replay(probes, threshold, degradeAfter);
            var k := Stretch(probes, threshold);
            && st.lagOverSince == (if k < |probes| then Some(probes[k].at) else None)
            && (!st.degraded <==>
                k > 0 && Good(probes[k - 1], threshold)
                && (k < |probes| ==> probes[|probes| - 1].at - probes[k].at < degradeAfter))
  {
    if probes != [] {
      var init := probes[..|probes| - 1];
      ReplayClosedForm(init, threshold, degradeAfter);
      assert init != [] ==> init[|init| - 1].at <= probes[|probes| - 1].at;
    }
  }

  /**
   A replica serves reads exactly when some probe of its history was good, every later one is an
   error-free lagging one, and those span less than the grace period.
   */
  lemma HysteresisClosedForm(probes: seq<Probe>, threshold: int, degradeAfter: real)
    requires InOrder(probes) && degradeAfter >= 0.0
    ensures !Replay(probes, threshold, degradeAfter).degraded <==>
            exists g :: 0 <= g < |probes| && Tolerated(probes, g, threshold, degradeAfter)
  {
    ReplayClosedForm(probes, threshold, degradeAfter);
    var k := Stretch(probes, threshold);
    forall g | 0 <= g < |probes| && Tolerated(probes, g, threshold, degradeAfter) ensures g == k - 1 {
      assert Good(probes[g], threshold) && LaggingFrom(probes, g + 1, threshold);
      assert LaggingFrom(probes, k, threshold);
    }
    if !Replay(probes, threshold, degradeAfter).degraded {
      assert Tolerated(probes, k - 1, threshold, degradeAfter);
    }
  }

  /** The status holds the last probe's time, lag and error. */
  lemma StatusHoldsLastProbe(probes: seq<Probe>, threshold: int, degradeAfter: real)
    ensures var st := Replay(probes, threshold, degradeAfter);
            if probes == [] then st.lastProbeAt == None && st.lagBytes == None && !st.failing
            else
              var last := probes[|probes| - 1];
              st.lastProbeAt == Some(last.at) && st.lagBytes == last.lag && st.failing == last.failed
  {
  }

  /**
   A read may go to a replica exactly when it is configured, its history of probes is tolerated, and
   the last of them is at most the greatest age old.
   */
  lemma RoutedExactlyWhen(
    names: seq<string>, histories: map<string, seq<Probe>>, statuses: map<string, Status>,
    threshold: int, degradeAfter: real, now: real, maxAge: real, n: string)
    requires (forall m :: m in names ==> m in histories && m in statuses) && degradeAfter >= 0.0
    requires forall m :: m in names ==>
               InOrder(histories[m]) && statuses[m] == Replay(histories[m], threshold, degradeAfter)
    ensures n in Healthy(names, statuses, now, maxAge) <==>
            && n in names
            && (exists g :: 0 <= g < |histories[n]| && Tolerated(histories[n], g, threshold, degradeAfter))
            && now - histories[n][|histories[n]| - 1].at <= maxAge
  {
    HealthyExactly(names, statuses, now, maxAge, n);
    if n in names {
      StatusHoldsLastProbe(histories[n], threshold, degradeAfter);
      HysteresisClosedForm(histories[n], threshold, degradeAfter);
      hide Replay, Tolerated, Healthy;
    }
  }

  // ----- fairness -----

  /** How often residue `r` comes up in `m` consecutive counter values from `c`. */
  function Chosen(c: nat, m: nat, n: nat, r: nat): nat
    requires n > 0
    decreases m
  {
    if m == 0 then 0 else (if c % n == r then 1 else 0) + Chosen(c + 1, m - 1, n, r)
  }

  lemma NextResidue(c: nat, n: nat)
    requires n > 0
    ensures (c + 1) % n == if c % n + 1 == n then 0 else c % n + 1
  {
    var q, d := c / n, c % n;
    var p, e := (c + 1) / n, (c + 1) % n;
    assert q * n + d + 1 == p * n + e;
    if d + 1 == n {
      assert (q + 1) * n == q * n + n;
      UniqueRemainder(q + 1, 0, p, e, n);
    } else {
      UniqueRemainder(q, d + 1, p, e, n);
    }
  }

  /** Up to a full round meets each residue at most once: those from the current one on, around the end. */
  lemma {:induction false} PartialRound(c: nat, m: nat, n: nat, r: nat)
    requires n > 0 && m <= n && r < n
    ensures var d := c % n;
            Chosen(c, m, n, r) == if d <= r < d + m || r + n < d + m then 1 else 0
    decreases m
  {
    if m > 0 {
      PartialRound(c + 1, m - 1, n, r);
      NextResidue(c, n);
    }
  }

  lemma {:induction false} ChosenSplits(c: nat, a: nat, b: nat, n: nat, r: nat)
    requires n > 0
    ensures Chosen(c, a + b, n, r) == Chosen(c, a, n, r) + Chosen(c + a, b, n, r)
    decreases a
  {
    if a > 0 {
      ChosenSplits(c + 1, a - 1, b, n, r);
    }
  }

  lemma OneRoundLess(m: nat, n: nat)
    requires 0 < n <= m
    ensures (m - n) / n == m / n - 1 && (m - n) % n == m % n
  {
    var q, d := m / n, m % n;
    var p, e := (m - n) / n, (m - n) % n;
    assert (q - 1) * n == q * n - n;
    assert (q - 1) * n + d == p * n + e;
    UniqueRemainder(q - 1, d, p, e, n);
  }

  lemma NoFullRound(m: nat, n: nat)
    requires m < n
    ensures m / n == 0 && m % n == m
  {
    UniqueRemainder(0, m, m / n, m % n, n);
  }

  /**
   Round robin is fair: over any `m` consecutive choices among `n` unchanged healthy replicas, each
   is chosen `m / n` times, or once more, whatever the counter started at.
   */
  lemma {:induction false} RoundRobinIsFair(c: nat, m: nat, n: nat, r: nat)
    requires n > 0 && r < n
    ensures m / n <= Chosen(c, m, n, r) <= m / n + 1
    ensures m % n == 0 ==> Chosen(c, m, n, r) == m / n
    decreases m
  {
    if m < n {
      PartialRound(c, m, n, r);
      NoFullRound(m, n);
    } else {
      ChosenSplits(c, n, m - n, n, r);
      PartialRound(c, n, n, r);
      RoundRobinIsFair(c + n, m - n, n, r);
      OneRoundLess(m, n);
    }
  }

  /** The choices of consecutive acquires over one healthy list, as `Acquire` makes them. */
  function Choices(healthy: seq<string>, c: nat, m: nat): seq<string>
    requires healthy != []
    decreases m
  {
    if m == 0 then [] else [healthy[c % |healthy|]] + Choices(healthy, c + 1, m - 1)
  }

  lemma {:induction false} ChoicesCount(healthy: seq<string>, c: nat, m: nat, r: nat)
    requires r < |healthy| && forall i, j :: 0 <= i < j < |healthy| ==> healthy[i] != healthy[j]
    ensures multiset(Choices(healthy, c, m))[healthy[r]] == Chosen(c, m, |healthy|, r)
    decreases m
  {
    if m > 0 {
      ChoicesCount(healthy, c + 1, m - 1, r);
      var first := c % |healthy|;
      assert first != r ==> healthy[first] != healthy[r];
    }
  }

  /** Over any run of acquires with an unchanged healthy list, every replica on it gets its share. */
  lemma EveryHealthyReplicaGetsItsShare(healthy: seq<string>, c: nat, m: nat, name: string)
    requires name in healthy && forall i, j :: 0 <= i < j < |healthy| ==> healthy[i] != healthy[j]
    ensures var times := multiset(Choices(healthy, c, m))[name];
            && m / |healthy| <= times <= m / |healthy| + 1
            && (m % |healthy| == 0 ==> times == m / |healthy|)
  {
    var r :| 0 <= r < |healthy| && healthy[r] == name;
    ChoicesCount(healthy, c, m, r);
    RoundRobinIsFair(c, m, |healthy|, r);
  }
}
