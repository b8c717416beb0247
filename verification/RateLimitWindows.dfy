/** The simple fixed-window counter both rate-limit backends stand in for, and what it guarantees. */
module RateLimitWindows {
  import opened Common
  import opened RateLimit

  datatype Window = Closed | Open(hits: int, expiresAt: real)

  /** One hit. A local window closes at its expiry; a shared key still `lingers` at the very moment of its expiry. */
  function Advance(w: Window, t: real, length: real, lingers: bool): Window {
    if w.Open? && (t < w.expiresAt || (lingers && t == w.expiresAt))
    then Open(w.hits + 1, w.expiresAt)
    else Open(1, t + length)
  }

  function WindowRun(times: seq<real>, length: real, lingers: bool): Window {
    if times == [] then Closed
    else Advance(WindowRun(times[..|times| - 1], length, lingers), times[|times| - 1], length, lingers)
  }

  // ----- the shared counter -----

  /** A stored counter, with the millisecond its key expires if it was given one. */
  datatype Counter = Absent | Counter(count: int, deadline: Option<int>)

  ghost function AsWindow(c: Counter): Window {
    if c.Counter? && c.deadline.Some? then Open(c.count, c.deadline.value as real) else Closed
  }

  class SharedCounter {
    var cell: Counter

    /** Every counter the script leaves behind has a deadline. */
    ghost predicate Valid()
      reads this
    {
      cell.Counter? ==> cell.deadline.Some?
    }

    constructor ()
      ensures Valid() && cell == Absent
    {
      cell := Absent;
    }

    /** The key disappears once its deadline is past. */
    method Lapse(now: int)
      requires Valid()
      modifies this
      ensures Valid()
      ensures cell == if old(cell).Counter? && old(cell).deadline.value < now then Absent else old(cell)
    {
      if cell.Counter? && cell.deadline.Some? && cell.deadline.value < now {
        cell := Absent;
      }
    }

    /** The window script: increment, then give the key a deadline if it has none. */
    method Eval(now: int, windowSeconds: int) returns (hits: int, ttl: int)
      requires Valid()
      modifies this
      ensures Valid()
      ensures AsWindow(cell) == Advance(AsWindow(old(cell)), now as real, Max(1, windowSeconds * 1000) as real, true)
      ensures hits == AsWindow(cell).hits && (now + ttl) as real == AsWindow(cell).expiresAt
    {
      var windowMs := Max(1, windowSeconds * 1000);
      Lapse(now);
      match cell {
        case Absent => cell := Counter(1, None);
        case Counter(count, deadline) => cell := Counter(count + 1, deadline);
      }
      hits := cell.count;
      ttl := match cell.deadline case None => -1 case Some(d) => d - now;
      if ttl < 0 {
        cell := Counter(cell.count, Some(now + windowMs));
        ttl := windowMs;
      }
    }
  }

  // ----- when the bounded table is the simple counter -----

  /** One key's window with unlimited room. */
  function Alone(trace: seq<Request>, key: string): Window {
    if trace == [] then Closed
    else
      var h, before := trace[|trace| - 1], Alone(trace[..|trace| - 1], key);
      if h.key == key then Advance(before, h.now, h.windowSeconds as real, false) else before
  }

  /** Distinct other keys hit since the last hit of a key. */
  function OthersSince(trace: seq<Request>, key: string): set<string> {
    if trace == [] || trace[|trace| - 1].key == key then {}
    else OthersSince(trace[..|trace| - 1], key) + {trace[|trace| - 1].key}
  }

  /** Every hit of a key was told the count and the expiry of the simple counter. */
  ghost predicate AlwaysAgrees(trace: seq<Request>, key: string, capacity: nat)
    requires capacity >= 1
  {
    trace == [] ||
    (AlwaysAgrees(trace[..|trace| - 1], key, capacity) &&
     (trace[|trace| - 1].key == key ==>
        var told := Told(trace, capacity); Alone(trace, key) == Open(told.hits, told.expiresAt)))
  }

  /** Between two hits of a key in one window, fewer than `capacity` distinct other keys were hit. */
  ghost predicate LiveGapsSmall(trace: seq<Request>, key: string, capacity: nat) {
    trace == [] ||
    (LiveGapsSmall(trace[..|trace| - 1], key, capacity) &&
     (trace[|trace| - 1].key == key ==>
        var before := Alone(trace[..|trace| - 1], key);
        before.Open? && trace[|trace| - 1].now < before.expiresAt ==>
          |OthersSince(trace[..|trace| - 1], key)| < capacity))
  }

  ghost predicate SameWindow(solo: Solo, alone: Window) {
    match solo
    case Unseen => alone == Closed
    case Seen(hits, expiresAt, _) => alone == Open(hits, expiresAt)
  }

  lemma {:induction false} SoloOthers(trace: seq<Request>, key: string, capacity: nat)
    ensures SoloRun(trace, key, capacity).Seen? ==>
              SoloRun(trace, key, capacity).others == OthersSince(trace, key)
  {
    if trace != [] {
      SoloOthers(trace[..|trace| - 1], key, capacity);
    }
  }

  lemma {:induction false} AloneCountsUp(trace: seq<Request>, key: string)
    ensures Alone(trace, key).Open? ==> Alone(trace, key).hits >= 1
  {
    if trace != [] {
      AloneCountsUp(trace[..|trace| - 1], key);
    }
  }

  /** Between two hits of a key in one window, no other hit sweeps its entry away. */
  ghost predicate LiveWindowsKept(trace: seq<Request>, key: string, capacity: nat)
    requires capacity >= 1
  {
    trace == [] ||
    (LiveWindowsKept(trace[..|trace| - 1], key, capacity) &&
     (trace[|trace| - 1].key == key ==>
        var before := Alone(trace[..|trace| - 1], key);
        before.Open? && trace[|trace| - 1].now < before.expiresAt ==>
          !SweptSince(trace[..|trace| - 1], key, capacity)))
  }

  ghost predicate Kept(trace: seq<Request>, key: string, capacity: nat)
    requires capacity >= 1
  {
    LiveGapsSmall(trace, key, capacity) && LiveWindowsKept(trace, key, capacity)
  }

  /** As long as live windows are kept, the three specifications of a key are one. */
  lemma {:induction false} KeptAgrees(trace: seq<Request>, key: string, capacity: nat)
    requires capacity >= 1 && Kept(trace, key, capacity)
    ensures NeverSweptEarly(trace, key, capacity) && AlwaysAgrees(trace, key, capacity)
    ensures SameWindow(SoloRun(trace, key, capacity), Alone(trace, key))
  {
    if trace != [] {
      var init := trace[..|trace| - 1];
      KeptAgrees(init, key, capacity);
      SoloOthers(init, key, capacity);
      TableIsPerKeyCounterExactlyWhen(trace, key, capacity);
    }
  }

  /** A window that was not kept restarts in the table and counts on in the counter. */
  lemma {:induction false} AgreementKeeps(trace: seq<Request>, key: string, capacity: nat)
    requires capacity >= 1 && AlwaysAgrees(trace, key, capacity)
    ensures Kept(trace, key, capacity)
  {
    if trace != [] {
      var init, h := trace[..|trace| - 1], trace[|trace| - 1];
      AgreementKeeps(init, key, capacity);
      KeptAgrees(init, key, capacity);
      SoloOthers(init, key, capacity);
      AloneCountsUp(init, key);
      if h.key == key {
        LostRestarts(init, h, capacity);
      }
    }
  }

  /** An entry that was swept, or followed by too many others, is not found. */
  lemma LostRestarts(init: seq<Request>, h: Request, capacity: nat)
    requires capacity >= 1 && NeverSweptEarly(init, h.key, capacity)
    ensures SweptSince(init, h.key, capacity) || |OthersSince(init, h.key)| >= capacity ==>
              Told(init + [h], capacity).hits == 1
  {
    assert (init + [h])[..|init|] == init;
    var table, solo := Table(init, capacity), SoloRun(init, h.key, capacity);
    TableAgrees(init, h.key, capacity);
    TableNeverOverflows(init, capacity);
    SoloOthers(init, h.key, capacity);
    FindFinds(table, h.key);
    if h.key in Keys(table) {
      var p :| 0 <= p < |table| && Holds(table, p, h.key, solo);
      SplitAt(table, p);
      DistinctKeysCount(table[p + 1..]);
    }
  }

  /**
   Whatever the clock readings, the bounded table is indistinguishable from the unbounded counter on
   a key exactly when, between two hits in one window of that key, fewer than `capacity` distinct
   other keys are hit and none of these hits sweeps the key's entry away.
   */
  lemma BoundedTableIsCounterExactlyWhen(trace: seq<Request>, key: string, capacity: nat)
    requires capacity >= 1
    ensures AlwaysAgrees(trace, key, capacity) <==>
            LiveGapsSmall(trace, key, capacity) && LiveWindowsKept(trace, key, capacity)
  {
    if AlwaysAgrees(trace, key, capacity) {
      AgreementKeeps(trace, key, capacity);
    }
    if Kept(trace, key, capacity) {
      KeptAgrees(trace, key, capacity);
    }
  }

  lemma {:induction false} OrderedKeepsWindows(trace: seq<Request>, key: string, capacity: nat)
    requires capacity >= 1 && Ordered(trace) && LiveGapsSmall(trace, key, capacity)
    ensures LiveWindowsKept(trace, key, capacity)
  {
    if trace != [] {
      var init, h := trace[..|trace| - 1], trace[|trace| - 1];
      OrderedKeepsWindows(init, key, capacity);
      KeptAgrees(init, key, capacity);
      OrderedIsNeverSweptEarly(init, key, capacity);
      assert init != [] ==> init[|init| - 1] == trace[|trace| - 2];
    }
  }

  /** When hits enter the table in the order of their readings, the gaps alone decide. */
  lemma InOrderTheGapsDecide(trace: seq<Request>, key: string, capacity: nat)
    requires capacity >= 1 && Ordered(trace)
    ensures AlwaysAgrees(trace, key, capacity) <==> LiveGapsSmall(trace, key, capacity)
  {
    BoundedTableIsCounterExactlyWhen(trace, key, capacity);
    if LiveGapsSmall(trace, key, capacity) {
      OrderedKeepsWindows(trace, key, capacity);
    }
  }

  lemma SweptFromTable(k: Request, x: Request, capacity: nat)
    requires capacity >= 1 && x.key != k.key && k.now + k.windowSeconds as real <= x.now
    ensures SweptSince([k, x], k.key, capacity) && NeverSweptEarly([k, x], k.key, capacity)
  {
    var entry := Entry(k.key, 1, k.now + k.windowSeconds as real);
    assert [k, x][..1] == [k] && [k][..0] == [];
    assert Table([k], capacity) == [entry];
    assert Popped([entry], x.key) == [entry];
    assert ExpiredUpTo([entry], 0, x.now);
    assert Sweeps([entry], k.key, x);
  }

  /**
   A hit that read its clock before the hit in front of it finds its window swept away, although
   there was room for both keys.
   */
  lemma LateReadingFindsItsWindowSwept()
    ensures var trace := [Request("k", 0.0, 10), Request("x", 10.0, 10), Request("k", 9.5, 10)];
            && LiveGapsSmall(trace, "k", 2) && !LiveWindowsKept(trace, "k", 2)
            && Told(trace, 2).hits == 1 && Alone(trace, "k") == Open(2, 10.0)
  {
    var k0, x1, k2 := Request("k", 0.0, 10), Request("x", 10.0, 10), Request("k", 9.5, 10);
    var trace := [k0, x1, k2];
    SweptFromTable(k0, x1, 2);
    hide Told, SweptSince, NeverSweptEarly;
    assert trace[..2] == [k0, x1] && [k0, x1][..1] == [k0] && [k0][..0] == [];
    assert Alone([k0], "k") == Open(1, 10.0);
    assert Alone([k0, x1], "k") == Open(1, 10.0);
    assert OthersSince([k0, x1], "k") == {"x"};
    assert LiveGapsSmall([k0], "k", 2);
    assert LiveGapsSmall([k0, x1], "k", 2);
    assert trace == [k0, x1] + [k2];
    LostRestarts([k0, x1], k2, 2);
  }

  /**
   Looking at the latest gap alone is not enough: with room for one key, an eviction two hits ago
   still leaves the count short although no other key was hit since the previous one.
   */
  lemma LatestGapIsNotEnough()
    ensures var trace := [Request("k", 0.0, 10), Request("x", 1.0, 10), Request("k", 2.0, 10), Request("k", 3.0, 10)];
            && OthersSince(trace[..3], "k") == {}
            && Told(trace, 1).hits == 2 && Alone(trace, "k") == Open(3, 10.0)
  {
    var k0, x1, k2, k3 := Request("k", 0.0, 10), Request("x", 1.0, 10), Request("k", 2.0, 10), Request("k", 3.0, 10);
    var trace := [k0, x1, k2, k3];
    assert trace[..3] == [k0, x1, k2] && [k0, x1, k2][..2] == [k0, x1] && [k0, x1][..1] == [k0] && [k0][..0] == [];
    assert Alone([k0], "k") == Open(1, 10.0);
    assert Alone([k0, x1], "k") == Open(1, 10.0);
    assert Alone([k0, x1, k2], "k") == Open(2, 10.0);
    assert SoloRun([k0], "k", 1) == Seen(1, 10.0, {});
    assert SoloRun([k0, x1], "k", 1) == Seen(1, 10.0, {"x"}) by {
      assert {} + {"x"} == {"x"};
    }
    assert SoloRun([k0, x1, k2], "k", 1) == Seen(1, 12.0, {});
    TableIsPerKeyCounter(trace, 1);
  }

  // ----- the fixed-window guarantee -----

  /** No reading is more than `d` older than one before it; with `d` zero, readings never go back. */
  ghost predicate LateByAtMost(times: seq<real>, d: real) {
    forall i, j :: 0 <= i < j < |times| ==> times[i] - d <= times[j]
  }

  /** Hits allowed in the half-open span of one window length from `a`. */
  function AllowedIn(times: seq<real>, length: real, lingers: bool, limit: int, a: real): nat {
    if times == [] then 0
    else
      var t := times[|times| - 1];
      AllowedIn(times[..|times| - 1], length, lingers, limit, a)
      + if a <= t < a + length && WindowRun(times, length, lingers).hits <= limit then 1 else 0
  }

  /** At most the current window and one before it reach into the span. */
  ghost predicate TwoWindows(w: Window, allowed: int, length: real, limit: int, a: real, last: real) {
    w.Open? && w.hits >= 1 &&
    var start := w.expiresAt - length;
    && start <= last && (last < a ==> allowed == 0)
    && (start < a ==> allowed <= Min(w.hits, limit))
    && (a <= start < a + length ==> allowed <= limit + Min(w.hits, limit))
    && allowed <= 2 * limit
  }

  lemma {:induction false} AtMostTwoWindows(times: seq<real>, length: real, lingers: bool, limit: int, a: real)
    requires length > 0.0 && limit >= 0 && LateByAtMost(times, 0.0) && times != []
    ensures TwoWindows(WindowRun(times, length, lingers), AllowedIn(times, length, lingers, limit, a),
                       length, limit, a, times[|times| - 1])
  {
    var init := times[..|times| - 1];
    if init != [] {
      AtMostTwoWindows(init, length, lingers, limit, a);
      assert init[|init| - 1] == times[|times| - 2] <= times[|times| - 1];
    }
  }

  /** When readings never go back, a span of one window length never admits more than twice the limit. */
  lemma FixedWindowGuarantee(times: seq<real>, length: real, lingers: bool, limit: int, a: real)
    requires length > 0.0 && limit >= 0 && LateByAtMost(times, 0.0)
    ensures AllowedIn(times, length, lingers, limit, a) <= 2 * limit
  {
    if times != [] {
      AtMostTwoWindows(times, length, lingers, limit, a);
    }
  }

  /** All local traffic with readings late by at most `d` keeps to twice the limit, whatever the limit. */
  ghost predicate GuaranteedWhenLateBy(length: real, d: real) {
    forall times: seq<real>, limit: int, a: real :: limit >= 0 && LateByAtMost(times, d) ==>
      AllowedIn(times, length, false, limit, a) <= 2 * limit
  }

  /** Nine hits that reach into one span from three windows: the last two are `2 * e` late. */
  function ThreeWindows(n: real, e: real): seq<real> {
    [e - n, 0.0, 0.0, e, e, e, e + n, n - e, n - e]
  }

  lemma WindowGrows(times: seq<real>, t: real, length: real, limit: int, a: real)
    ensures WindowRun(times + [t], length, false) == Advance(WindowRun(times, length, false), t, length, false)
    ensures AllowedIn(times + [t], length, false, limit, a)
            == AllowedIn(times, length, false, limit, a)
               + if a <= t < a + length && WindowRun(times + [t], length, false).hits <= limit then 1 else 0
  {
    assert (times + [t])[..|times|] == times;
  }

  lemma FirstHit(t: real, n: real)
    requires t < 0.0
    ensures WindowRun([t], n, false) == Open(1, t + n) && AllowedIn([t], n, false, 3, 0.0) == 0
  {
    assert [t][..0] == [];
  }

  /** The first window: opened before the span, two hits in it. */
  lemma OneWindowFills(n: real, e: real)
    requires 0.0 < 2.0 * e < n
    ensures WindowRun([e - n, 0.0, 0.0], n, false) == Open(3, e)
    ensures AllowedIn([e - n, 0.0, 0.0], n, false, 3, 0.0) == 2
  {
    hide WindowRun, AllowedIn;
    var one := [e - n];
    FirstHit(e - n, n);
    assert WindowRun(one, n, false) == Open(1, e) && AllowedIn(one, n, false, 3, 0.0) == 0;
    var two := one + [0.0];
    WindowGrows(one, 0.0, n, 3, 0.0);
    assert WindowRun(two, n, false) == Open(2, e) && AllowedIn(two, n, false, 3, 0.0) == 1;
    WindowGrows(two, 0.0, n, 3, 0.0);
    assert two + [0.0] == [e - n, 0.0, 0.0];
  }

  /** The first two windows: five hits in the span. */
  lemma TwoWindowsFill(n: real, e: real)
    requires 0.0 < 2.0 * e < n
    ensures WindowRun([e - n, 0.0, 0.0, e, e, e], n, false) == Open(3, e + n)
    ensures AllowedIn([e - n, 0.0, 0.0, e, e, e], n, false, 3, 0.0) == 5
  {
    hide WindowRun, AllowedIn;
    OneWindowFills(n, e);
    var three := [e - n, 0.0, 0.0];
    var four := three + [e];
    WindowGrows(three, e, n, 3, 0.0);
    assert WindowRun(four, n, false) == Open(1, e + n) && AllowedIn(four, n, false, 3, 0.0) == 3;
    var five := four + [e];
    WindowGrows(four, e, n, 3, 0.0);
    assert WindowRun(five, n, false) == Open(2, e + n) && AllowedIn(five, n, false, 3, 0.0) == 4;
    WindowGrows(five, e, n, 3, 0.0);
    assert five + [e] == [e - n, 0.0, 0.0, e, e, e];
  }

  lemma ThreeWindowsExceed(n: real, e: real)
    requires 0.0 < 2.0 * e < n
    ensures LateByAtMost(ThreeWindows(n, e), 2.0 * e)
    ensures AllowedIn(ThreeWindows(n, e), n, false, 3, 0.0) == 7
  {
    hide WindowRun, AllowedIn;
    var six := [e - n, 0.0, 0.0, e, e, e];
    var seven, eight := six + [e + n], six + [e + n, n - e];
    TwoWindowsFill(n, e);
    WindowGrows(six, e + n, n, 3, 0.0);
    WindowGrows(seven, n - e, n, 3, 0.0);
    WindowGrows(eight, n - e, n, 3, 0.0);
    assert seven + [n - e] == eight && eight + [n - e] == ThreeWindows(n, e);
  }

  /** The guarantee survives no lateness at all: readings that go back by however little can break it. */
  lemma NoLatenessTolerated(length: real, d: real)
    requires length > 0.0
    ensures GuaranteedWhenLateBy(length, d) <==> d <= 0.0
  {
    if d <= 0.0 {
      forall times: seq<real>, limit: int, a: real | limit >= 0 && LateByAtMost(times, d)
        ensures AllowedIn(times, length, false, limit, a) <= 2 * limit
      {
        FixedWindowGuarantee(times, length, false, limit, a);
      }
    } else {
      var e := if d < length then d / 2.0 else length / 4.0;
      ThreeWindowsExceed(length, e);
      assert LateByAtMost(ThreeWindows(length, e), d);
    }
  }

  // ----- several processes, each with its share -----

  function LocalLimit(limit: int, processes: int): int {
    Max(1, limit / Max(1, processes))
  }

  /** Each process gets the largest share with which all of them keep to the limit, and at least one hit. */
  lemma ShareIsLargest(limit: int, processes: int)
    requires limit >= 0 && processes >= 1
    ensures var share := LocalLimit(limit, processes);
            && share >= 1 && (limit < processes ==> share == 1)
            && (limit >= processes ==> processes * share <= limit < processes * (share + 1))
  {
    var q := limit / processes;
    assert processes * q <= limit < processes * (q + 1) by {
      assert limit == processes * q + limit % processes;
    }
    if limit >= processes {
      assert q >= 1;
    } else {
      assert q == 0;
    }
  }

  function AllowedByAll(traffic: seq<seq<real>>, length: real, limit: int, a: real): nat {
    if traffic == [] then 0
    else AllowedByAll(traffic[1..], length, limit, a) + AllowedIn(traffic[0], length, false, limit, a)
  }

  lemma {:induction false} SharesAddUp(traffic: seq<seq<real>>, length: real, limit: int, a: real)
    requires length > 0.0 && limit >= 0
    requires forall i :: 0 <= i < |traffic| ==> LateByAtMost(traffic[i], 0.0)
    ensures AllowedByAll(traffic, length, limit, a) <= |traffic| * (2 * limit)
  {
    if traffic != [] {
      SharesAddUp(traffic[1..], length, limit, a);
      FixedWindowGuarantee(traffic[0], length, false, limit, a);
      assert |traffic| * (2 * limit) == |traffic[1..]| * (2 * limit) + 2 * limit;
    }
  }

  /** Processes that divide the limit together allow at most twice the larger of limit and process count. */
  lemma DividedLimitGuarantee(traffic: seq<seq<real>>, length: real, limit: int, a: real)
    requires length > 0.0 && limit >= 0 && traffic != []
    requires forall i :: 0 <= i < |traffic| ==> LateByAtMost(traffic[i], 0.0)
    ensures AllowedByAll(traffic, length, LocalLimit(limit, |traffic|), a) <= 2 * Max(limit, |traffic|)
  {
    var p, share := |traffic|, LocalLimit(limit, |traffic|);
    SharesAddUp(traffic, length, share, a);
    assert p * (limit / p) <= limit;
    assert p * share <= Max(limit, p);
    assert p * (2 * share) == 2 * (p * share);
  }

  // ----- the local table under the guarantee -----

  function TimesOf(trace: seq<Request>, key: string): seq<real> {
    if trace == [] then []
    else
      TimesOf(trace[..|trace| - 1], key) + if trace[|trace| - 1].key == key then [trace[|trace| - 1].now] else []
  }

  /** Hits on a key the table allowed in the span. */
  function AllowedByTable(trace: seq<Request>, key: string, capacity: nat, length: real, limit: int, a: real): nat
    requires capacity >= 1
  {
    if trace == [] then 0
    else
      var h := trace[|trace| - 1];
      AllowedByTable(trace[..|trace| - 1], key, capacity, length, limit, a)
      + if h.key == key && a <= h.now < a + length && Told(trace, capacity).hits <= limit then 1 else 0
  }

  /** In lock order no reading is late. */
  lemma {:induction false} OrderedIsNotLate(trace: seq<Request>, key: string)
    requires Ordered(trace)
    ensures LateByAtMost(TimesOf(trace, key), 0.0)
    ensures forall i :: 0 <= i < |TimesOf(trace, key)| ==> TimesOf(trace, key)[i] <= trace[|trace| - 1].now
  {
    if trace != [] {
      OrderedIsNotLate(trace[..|trace| - 1], key);
      assert |trace| > 1 ==> trace[|trace| - 2].now <= trace[|trace| - 1].now;
    }
  }

  /** One more hit of the key, told what the counter says. */
  lemma OwnHitAllowedAlike(
    trace: seq<Request>, key: string, capacity: nat, seconds: int, limit: int, a: real)
    requires capacity >= 1 && trace != []
    requires trace[|trace| - 1].key == key && trace[|trace| - 1].windowSeconds == seconds
    requires AlwaysAgrees(trace, key, capacity)
    requires Alone(trace[..|trace| - 1], key) == WindowRun(TimesOf(trace[..|trace| - 1], key), seconds as real, false)
    requires AllowedByTable(trace[..|trace| - 1], key, capacity, seconds as real, limit, a)
             == AllowedIn(TimesOf(trace[..|trace| - 1], key), seconds as real, false, limit, a)
    ensures Alone(trace, key) == WindowRun(TimesOf(trace, key), seconds as real, false)
    ensures AllowedByTable(trace, key, capacity, seconds as real, limit, a)
            == AllowedIn(TimesOf(trace, key), seconds as real, false, limit, a)
  {
    hide Told, Advance;
    var times := TimesOf(trace, key);
    assert times[..|times| - 1] == TimesOf(trace[..|trace| - 1], key);
    assert times[|times| - 1] == trace[|trace| - 1].now;
  }

  lemma {:induction false} TableAllowsLikeCounter(
    trace: seq<Request>, key: string, capacity: nat, seconds: int, limit: int, a: real)
    requires capacity >= 1 && Kept(trace, key, capacity)
    requires forall h :: h in trace && h.key == key ==> h.windowSeconds == seconds
    ensures Alone(trace, key) == WindowRun(TimesOf(trace, key), seconds as real, false)
    ensures AllowedByTable(trace, key, capacity, seconds as real, limit, a)
            == AllowedIn(TimesOf(trace, key), seconds as real, false, limit, a)
  {
    if trace != [] {
      var init, h := trace[..|trace| - 1], trace[|trace| - 1];
      assert h in trace;
      TableAllowsLikeCounter(init, key, capacity, seconds, limit, a);
      hide WindowRun, AllowedIn;
      KeptAgrees(trace, key, capacity);
      if h.key == key {
        OwnHitAllowedAlike(trace, key, capacity, seconds, limit, a);
      } else {
        assert TimesOf(trace, key) == TimesOf(init, key);
      }
    }
  }

  /** A key whose live windows are kept keeps the guarantee behind the bounded table. */
  lemma BoundedTableGuarantee(trace: seq<Request>, key: string, capacity: nat, seconds: int, limit: int, a: real)
    requires capacity >= 1 && LiveGapsSmall(trace, key, capacity) && LiveWindowsKept(trace, key, capacity)
    requires seconds >= 1 && limit >= 0 && LateByAtMost(TimesOf(trace, key), 0.0)
    requires forall h :: h in trace && h.key == key ==> h.windowSeconds == seconds
    ensures AllowedByTable(trace, key, capacity, seconds as real, limit, a) <= 2 * limit
  {
    TableAllowsLikeCounter(trace, key, capacity, seconds, limit, a);
    FixedWindowGuarantee(TimesOf(trace, key), seconds as real, false, limit, a);
  }

  /** In lock order, a key keeps the guarantee if its gaps are small. */
  lemma InOrderTableGuarantee(trace: seq<Request>, key: string, capacity: nat, seconds: int, limit: int, a: real)
    requires capacity >= 1 && Ordered(trace) && LiveGapsSmall(trace, key, capacity)
    requires seconds >= 1 && limit >= 0
    requires forall h :: h in trace && h.key == key ==> h.windowSeconds == seconds
    ensures AllowedByTable(trace, key, capacity, seconds as real, limit, a) <= 2 * limit
  {
    OrderedKeepsWindows(trace, key, capacity);
    OrderedIsNotLate(trace, key);
    BoundedTableGuarantee(trace, key, capacity, seconds, limit, a);
  }
}
