/** The per-process rate-limit table: a bounded, recency-ordered dictionary of windows. Times in seconds. */
module RateLimit {
  import opened Common

  datatype Entry = Entry(key: string, hits: int, expiresAt: real)

  datatype Request = Request(key: string, now: real, windowSeconds: int)

  function Keys(table: seq<Entry>): set<string> {
    set e | e in table :: e.key
  }

  /** The table with the entry of a key taken out. */
  function Popped(table: seq<Entry>, key: string): seq<Entry> {
    if table == [] then []
    else if table[0].key == key then Popped(table[1..], key)
    else [table[0]] + Popped(table[1..], key)
  }

  function Find(table: seq<Entry>, key: string): Option<Entry> {
    if table == [] then None
    else if table[0].key == key then Some(table[0])
    else Find(table[1..], key)
  }

  /** Number of entries at the front whose window has passed. */
  function ExpiredFront(table: seq<Entry>, now: real): (n: nat)
    ensures n <= |table|
  {
    if table != [] && table[0].expiresAt <= now then 1 + ExpiredFront(table[1..], now) else 0
  }

  /** Expired entries go from the front, then the least recent ones until a slot is free. */
  function MadeRoom(table: seq<Entry>, now: real, capacity: nat): seq<Entry>
    requires capacity >= 1
  {
    var live := table[ExpiredFront(table, now)..];
    live[Max(0, |live| - (capacity - 1))..]
  }

  /** The entry a hit leaves, given what was popped. */
  function Counted(found: Option<Entry>, h: Request): Entry {
    if found.Some? && found.value.expiresAt > h.now
    then Entry(h.key, found.value.hits + 1, found.value.expiresAt)
    else Entry(h.key, 1, h.now + h.windowSeconds as real)
  }

  function AfterHit(table: seq<Entry>, h: Request, capacity: nat): seq<Entry>
    requires capacity >= 1
  {
    MadeRoom(Popped(table, h.key), h.now, capacity) + [Counted(Find(table, h.key), h)]
  }

  function ResetSeconds(expiresAt: real, now: real): int {
    Max(1, Ceil(expiresAt - now))
  }

  /** The least whole number of seconds, and at least one, after which the window is over. */
  lemma ResetIsLeast(expiresAt: real, now: real)
    ensures var reset := ResetSeconds(expiresAt, now);
            && reset >= 1 && now + reset as real >= expiresAt
            && (reset > 1 ==> now + (reset - 1) as real < expiresAt)
  {
  }

  class LocalWindows {
    var windows: seq<Entry>

    constructor ()
      ensures windows == []
    {
      windows := [];
    }

    method MakeRoom(now: real, capacity: nat)
      requires capacity >= 1
      modifies this
      ensures windows == MadeRoom(old(windows), now, capacity)
    {
      ghost var k := 0;
      while windows != [] && windows[0].expiresAt <= now
        invariant k + ExpiredFront(windows, now) == ExpiredFront(old(windows), now)
        invariant windows == old(windows)[k..]
        decreases |windows|
      {
        windows := windows[1..];
        k := k + 1;
      }
      ghost var live := windows;
      ghost var j := 0;
      while |windows| >= capacity
        invariant j <= |live| && windows == live[j..]
        invariant j <= Max(0, |live| - (capacity - 1))
        decreases |windows|
      {
        windows := windows[1..];
        j := j + 1;
      }
    }

    /** A hit: its count in the current window, and the seconds until that window resets. */
    method Hit(key: string, now: real, windowSeconds: int, capacity: nat) returns (hits: int, reset: int)
      requires capacity >= 1 && now >= 0.0
      modifies this
      ensures var h := Request(key, now, windowSeconds);
              var entry := Counted(Find(old(windows), key), h);
              && windows == AfterHit(old(windows), h, capacity)
              && hits == entry.hits && reset == ResetSeconds(entry.expiresAt, now)
              && reset >= 1 && now + reset as real >= entry.expiresAt
              && (reset > 1 ==> now + (reset - 1) as real < entry.expiresAt)
    {
      var expiresAt;
      match Find(windows, key) {
        case Some(e) => hits, expiresAt := e.hits, e.expiresAt;
        case None => hits, expiresAt := 0, 0.0;
      }
      windows := Popped(windows, key);
      MakeRoom(now, capacity);
      if expiresAt <= now {
        hits, expiresAt := 0, now + windowSeconds as real;
      }
      hits := hits + 1;
      windows := windows + [Entry(key, hits, expiresAt)];
      reset := ResetSeconds(expiresAt, now);
    }
  }

  // ----- runs of the table -----

  function Table(trace: seq<Request>, capacity: nat): seq<Entry>
    requires capacity >= 1
  {
    if trace == [] then [] else AfterHit(Table(trace[..|trace| - 1], capacity), trace[|trace| - 1], capacity)
  }

  /** What the last hit of a trace is told: its count and the end of its window. */
  function Told(trace: seq<Request>, capacity: nat): Entry
    requires capacity >= 1 && trace != []
  {
    var h := trace[|trace| - 1];
    Counted(Find(Table(trace[..|trace| - 1], capacity), h.key), h)
  }

  ghost predicate Ordered(trace: seq<Request>) {
    forall i :: 0 < i < |trace| ==> trace[i - 1].now <= trace[i].now
  }

  /** One key seen alone: its window, and the other keys hit since. */
  datatype Solo = Unseen | Seen(hits: int, expiresAt: real, others: set<string>)

  /** The exact specification of one key, with no table in it. */
  function SoloStep(solo: Solo, key: string, h: Request, capacity: nat): Solo {
    if h.key != key then
      match solo
      case Unseen => Unseen
      case Seen(hits, expiresAt, others) => Seen(hits, expiresAt, others + {h.key})
    else if solo.Unseen? || solo.expiresAt <= h.now || |solo.others| >= capacity then
      Seen(1, h.now + h.windowSeconds as real, {})
    else
      Seen(solo.hits + 1, solo.expiresAt, {})
  }

  function SoloRun(trace: seq<Request>, key: string, capacity: nat): Solo {
    if trace == [] then Unseen
    else SoloStep(SoloRun(trace[..|trace| - 1], key, capacity), key, trace[|trace| - 1], capacity)
  }

  /** A hit sweeps a key away: at its reading that entry and every one before it have expired. */
  ghost predicate Sweeps(table: seq<Entry>, key: string, h: Request) {
    exists p :: ExpiredUpTo(Popped(table, h.key), p, h.now) && Popped(table, h.key)[p].key == key
  }

  ghost predicate ExpiredUpTo(table: seq<Entry>, p: int, now: real) {
    0 <= p < |table| && forall q :: 0 <= q <= p ==> table[q].expiresAt <= now
  }

  /** The key's entry was swept since its last hit. */
  ghost predicate SweptSince(trace: seq<Request>, key: string, capacity: nat)
    requires capacity >= 1
  {
    trace != [] && trace[|trace| - 1].key != key &&
    var init := trace[..|trace| - 1];
    SweptSince(init, key, capacity) || Sweeps(Table(init, capacity), key, trace[|trace| - 1])
  }

  /** No hit of a key reads its clock within a window whose entry was swept since the hit before. */
  ghost predicate NeverSweptEarly(trace: seq<Request>, key: string, capacity: nat)
    requires capacity >= 1
  {
    trace == [] ||
    var init, h := trace[..|trace| - 1], trace[|trace| - 1];
    && NeverSweptEarly(init, key, capacity)
    && (h.key == key && SweptSince(init, key, capacity) ==>
          match SoloRun(init, key, capacity)
          case Unseen => true
          case Seen(_, expiresAt, others) => expiresAt <= h.now || |others| >= capacity)
  }

  // ----- the table implements the specification -----

  ghost predicate Distinct(table: seq<Entry>) {
    forall i, j :: 0 <= i < j < |table| ==> table[i].key != table[j].key
  }

  ghost predicate Holds(table: seq<Entry>, p: nat, key: string, solo: Solo)
    requires p < |table| && solo.Seen?
  {
    table[p] == Entry(key, solo.hits, solo.expiresAt) && Keys(table[p + 1..]) == solo.others
  }

  /** The table tells the truth about a key, or has nothing to tell since its entry was swept or made way. */
  ghost predicate Agrees(table: seq<Entry>, key: string, solo: Solo, swept: bool, capacity: nat) {
    match solo
    case Unseen => key !in Keys(table)
    case Seen(_, _, others) =>
      if key in Keys(table) then !swept && exists p :: 0 <= p < |table| && Holds(table, p, key, solo)
      else swept || |others| >= capacity
  }

  lemma {:induction false} FindFinds(table: seq<Entry>, key: string)
    ensures Find(table, key).None? <==> key !in Keys(table)
    ensures Distinct(table) ==>
              forall p :: 0 <= p < |table| && table[p].key == key ==> Find(table, key) == Some(table[p])
  {
    if table != [] {
      FindFinds(table[1..], key);
      assert table == [table[0]] + table[1..];
    }
  }

  lemma KeysConcat(a: seq<Entry>, b: seq<Entry>)
    ensures Keys(a + b) == Keys(a) + Keys(b)
  {
  }

  lemma FirstIsAlone(table: seq<Entry>)
    requires table != []
    ensures Keys(table) == {table[0].key} + Keys(table[1..])
    ensures Distinct(table) ==> table[0].key !in Keys(table[1..]) && Distinct(table[1..])
  {
    assert table == [table[0]] + table[1..];
    KeysConcat([table[0]], table[1..]);
    assert Keys([table[0]]) == {table[0].key};
    forall e | e in table[1..] && Distinct(table) ensures e.key != table[0].key {
      var i :| 0 <= i < |table[1..]| && table[1..][i] == e;
      assert table[1 + i] == e;
    }
  }

  lemma {:induction false} PoppedFacts(table: seq<Entry>, key: string)
    ensures Keys(Popped(table, key)) == Keys(table) - {key}
    ensures |Popped(table, key)| <= |table|
    ensures Distinct(table) ==> Distinct(Popped(table, key))
  {
    if table != [] {
      var rest := Popped(table[1..], key);
      PoppedFacts(table[1..], key);
      FirstIsAlone(table);
      if table[0].key != key {
        KeysConcat([table[0]], rest);
        assert Keys([table[0]]) == {table[0].key};
        forall j | 0 <= j < |rest| ensures rest[j].key in Keys(rest) {
        }
      }
    }
  }

  lemma {:induction false} PoppedConcat(a: seq<Entry>, b: seq<Entry>, key: string)
    ensures Popped(a + b, key) == Popped(a, key) + Popped(b, key)
  {
    if a == [] {
      assert a + b == b;
    } else {
      assert (a + b)[1..] == a[1..] + b;
      PoppedConcat(a[1..], b, key);
    }
  }

  lemma {:induction false} ExpiredFrontExactly(table: seq<Entry>, now: real, p: nat)
    ensures p < ExpiredFront(table, now) <==> ExpiredUpTo(table, p, now)
  {
    if p > 0 && table != [] {
      ExpiredFrontExactly(table[1..], now, p - 1);
      assert ExpiredUpTo(table, p, now) ==> ExpiredUpTo(table[1..], p - 1, now);
      if ExpiredUpTo(table[1..], p - 1, now) && table[0].expiresAt <= now {
        forall q | 0 <= q <= p ensures table[q].expiresAt <= now {
          assert q > 0 ==> table[q] == table[1..][q - 1];
        }
      }
    }
  }

  /** Making room drops a prefix: position `p` is lost exactly when it is swept or too many entries follow. */
  lemma MadeRoomCuts(table: seq<Entry>, now: real, capacity: nat) returns (cut: nat)
    requires capacity >= 1
    ensures cut <= |table| && MadeRoom(table, now, capacity) == table[cut..] && |table| - cut < capacity
    ensures forall p :: 0 <= p < |table| ==> (p < cut <==> ExpiredUpTo(table, p, now) || |table| - p >= capacity)
  {
    var d := ExpiredFront(table, now);
    cut := d + Max(0, |table| - d - (capacity - 1));
    assert table[d..][cut - d..] == table[cut..];
    forall p | 0 <= p < |table| ensures p < d <==> ExpiredUpTo(table, p, now) {
      ExpiredFrontExactly(table, now, p);
    }
  }

  lemma {:induction false} DistinctKeysCount(table: seq<Entry>)
    requires Distinct(table)
    ensures |Keys(table)| == |table|
  {
    if table != [] {
      DistinctKeysCount(table[1..]);
      FirstIsAlone(table);
    }
  }

  lemma AfterHitTidy(table: seq<Entry>, h: Request, capacity: nat)
    requires capacity >= 1 && Distinct(table)
    ensures Distinct(AfterHit(table, h, capacity)) && |AfterHit(table, h, capacity)| <= capacity
  {
    var popped := Popped(table, h.key);
    PoppedFacts(table, h.key);
    var cut := MadeRoomCuts(popped, h.now, capacity);
    forall i | 0 <= i < |popped| ensures popped[i].key != h.key {
      assert popped[i].key in Keys(popped);
    }
  }

  /** A table split at one entry. */
  lemma SplitAt(table: seq<Entry>, p: nat)
    requires p < |table| && Distinct(table)
    ensures table == table[..p] + [table[p]] + table[p + 1..]
    ensures table[p].key !in Keys(table[..p]) && table[p].key !in Keys(table[p + 1..])
    ensures Distinct(table[p + 1..])
  {
    forall e | e in table[..p] ensures e.key != table[p].key {
      var i :| 0 <= i < p && table[..p][i] == e;
      assert table[i] == e;
    }
    forall e | e in table[p + 1..] ensures e.key != table[p].key {
      var i :| 0 <= i < |table[p + 1..]| && table[p + 1..][i] == e;
      assert table[p + 1 + i] == e;
    }
  }

  /** Popping another key keeps an entry and forgets only that key behind it. */
  lemma PoppedKeeps(table: seq<Entry>, p: nat, other: string) returns (q: nat)
    requires p < |table| && Distinct(table) && table[p].key != other
    ensures var popped := Popped(table, other);
            && q < |popped| && popped[q] == table[p]
            && Keys(popped[q + 1..]) == Keys(table[p + 1..]) - {other}
            && Distinct(popped[q + 1..])
  {
    var a, b := table[..p], table[p + 1..];
    SplitAt(table, p);
    PoppedConcat(a + [table[p]], b, other);
    PoppedConcat(a, [table[p]], other);
    assert Popped([table[p]], other) == [table[p]];
    PoppedFacts(b, other);
    q := |Popped(a, other)|;
    assert Popped(table, other)[q + 1..] == Popped(b, other);
  }

  /** A hit on another key: the entry stays with that key behind it, or was swept, or made way. */
  lemma OtherHitKeeps(table: seq<Entry>, p: nat, key: string, solo: Solo, h: Request, capacity: nat)
    requires capacity >= 1 && Distinct(table) && p < |table| && solo.Seen? && Holds(table, p, key, solo)
    requires h.key != key
    ensures Agrees(AfterHit(table, h, capacity), key, SoloStep(solo, key, h, capacity), Sweeps(table, key, h), capacity)
  {
    hide Popped, Find, MadeRoom, Counted, Distinct, ExpiredUpTo;
    var popped := Popped(table, h.key);
    var q := PoppedKeeps(table, p, h.key);
    var cut := MadeRoomCuts(popped, h.now, capacity);
    var added := [Counted(Find(table, h.key), h)];
    CountedKey(Find(table, h.key), h);
    SweptHere(table, key, h, q);
    if q < cut {
      CrowdSize(popped[q + 1..], solo.others, h.key);
      EvictedAgrees(table, popped, q, cut, key, h, added);
    } else {
      KeptHolds(popped, q, cut, key, solo, h, capacity, added);
    }
  }

  /** A key is swept exactly when its one entry is. */
  lemma SweptHere(table: seq<Entry>, key: string, h: Request, q: nat)
    requires Distinct(table) && q < |Popped(table, h.key)| && Popped(table, h.key)[q].key == key
    ensures Sweeps(table, key, h) <==> ExpiredUpTo(Popped(table, h.key), q, h.now)
  {
    PoppedFacts(table, h.key);
  }

  lemma AbsentIsNotSwept(table: seq<Entry>, key: string, h: Request)
    requires key !in Keys(table)
    ensures !Sweeps(table, key, h)
  {
    PoppedFacts(table, h.key);
    forall p | 0 <= p < |Popped(table, h.key)| ensures Popped(table, h.key)[p].key != key {
      assert Popped(table, h.key)[p].key in Keys(Popped(table, h.key));
    }
  }

  lemma CountedKey(found: Option<Entry>, h: Request)
    ensures Keys([Counted(found, h)]) == {h.key}
  {
  }

  /** With `n` other keys behind an entry, the key being hit makes `n + 1`. */
  lemma CrowdSize(behind: seq<Entry>, others: set<string>, hit: string)
    requires Distinct(behind) && Keys(behind) == others - {hit}
    ensures |others + {hit}| == |behind| + 1
  {
    DistinctKeysCount(behind);
    assert others + {hit} == Keys(behind) + {hit};
  }

  lemma KeptHolds(
    popped: seq<Entry>, q: nat, cut: nat, key: string, solo: Solo, h: Request, capacity: nat, added: seq<Entry>)
    requires cut <= q < |popped| && solo.Seen? && h.key != key && |added| == 1 && Keys(added) == {h.key}
    requires popped[q] == Entry(key, solo.hits, solo.expiresAt) && Keys(popped[q + 1..]) == solo.others - {h.key}
    ensures Agrees(popped[cut..] + added, key, SoloStep(solo, key, h, capacity), false, capacity)
  {
    var table' := popped[cut..] + added;
    assert table'[q - cut] == popped[q];
    assert table'[q - cut + 1..] == popped[q + 1..] + added;
    KeysConcat(popped[q + 1..], added);
    assert Holds(table', q - cut, key, SoloStep(solo, key, h, capacity));
  }

  lemma EvictedAgrees(
    table: seq<Entry>, popped: seq<Entry>, q: nat, cut: nat, key: string, h: Request, added: seq<Entry>)
    requires Distinct(table) && popped == Popped(table, h.key) && q < cut <= |popped| && popped[q].key == key
    requires key != h.key && Keys(added) == {h.key}
    ensures key !in Keys(popped[cut..] + added)
  {
    PoppedFacts(table, h.key);
    KeysConcat(popped[cut..], added);
    forall e | e in popped[cut..] ensures e.key != key {
      var i :| 0 <= i < |popped[cut..]| && popped[cut..][i] == e;
      assert popped[cut + i] == e;
    }
  }

  lemma AbsentStaysAbsent(table: seq<Entry>, key: string, h: Request, capacity: nat)
    requires capacity >= 1 && key !in Keys(table) && h.key != key
    ensures key !in Keys(AfterHit(table, h, capacity))
  {
    hide Find, Popped, MadeRoom, Distinct;
    var popped := Popped(table, h.key);
    PoppedFacts(table, h.key);
    CountedKey(Find(table, h.key), h);
    var cut := MadeRoomCuts(popped, h.now, capacity);
    assert popped == popped[..cut] + popped[cut..];
    KeysConcat(popped[..cut], popped[cut..]);
    KeysConcat(popped[cut..], [Counted(Find(table, h.key), h)]);
  }

  /** What a hit is told is the specification's, unless the entry was swept within its window. */
  lemma OwnHitCounts(table: seq<Entry>, key: string, solo: Solo, swept: bool, h: Request, capacity: nat)
    requires capacity >= 1 && Distinct(table) && |table| <= capacity
    requires Agrees(table, key, solo, swept, capacity) && h.key == key
    requires solo.Seen? ==> solo.hits >= 1
    ensures var solo' := SoloStep(solo, key, h, capacity);
            Counted(Find(table, key), h) == Entry(key, solo'.hits, solo'.expiresAt)
            <==> (swept && solo.Seen? ==> solo.expiresAt <= h.now || |solo.others| >= capacity)
  {
    hide Find;
    FindFinds(table, key);
    if solo.Seen? && key in Keys(table) {
      var p :| 0 <= p < |table| && Holds(table, p, key, solo);
      SplitAt(table, p);
      DistinctKeysCount(table[p + 1..]);
    }
  }

  lemma LastHolds(front: seq<Entry>, key: string, solo: Solo, capacity: nat)
    requires solo.Seen? && solo.others == {}
    ensures Agrees(front + [Entry(key, solo.hits, solo.expiresAt)], key, solo, false, capacity)
  {
    var table := front + [Entry(key, solo.hits, solo.expiresAt)];
    assert table[|front|] in table;
    assert table[|front| + 1..] == [];
    assert Holds(table, |front|, key, solo);
  }

  lemma OwnHit(table: seq<Entry>, key: string, solo: Solo, swept: bool, h: Request, capacity: nat)
    requires capacity >= 1 && Distinct(table) && |table| <= capacity
    requires Agrees(table, key, solo, swept, capacity) && h.key == key && (solo.Seen? ==> solo.hits >= 1)
    requires swept && solo.Seen? ==> solo.expiresAt <= h.now || |solo.others| >= capacity
    ensures Agrees(AfterHit(table, h, capacity), key, SoloStep(solo, key, h, capacity), false, capacity)
  {
    hide Find, Popped, MadeRoom, Agrees;
    OwnHitCounts(table, key, solo, swept, h, capacity);
    LastHolds(MadeRoom(Popped(table, key), h.now, capacity), key, SoloStep(solo, key, h, capacity), capacity);
  }

  lemma OtherHit(table: seq<Entry>, key: string, solo: Solo, swept: bool, h: Request, capacity: nat)
    requires capacity >= 1 && Distinct(table) && h.key != key && Agrees(table, key, solo, swept, capacity)
    ensures Agrees(AfterHit(table, h, capacity), key, SoloStep(solo, key, h, capacity),
                   swept || Sweeps(table, key, h), capacity)
  {
    hide Find, Popped, MadeRoom, Distinct;
    if key in Keys(table) {
      var p :| 0 <= p < |table| && Holds(table, p, key, solo);
      OtherHitKeeps(table, p, key, solo, h, capacity);
    } else {
      AbsentStaysAbsent(table, key, h, capacity);
      AbsentIsNotSwept(table, key, h);
      if solo.Seen? {
        SubsetSize(solo.others, solo.others + {h.key});
      }
    }
  }

  lemma {:induction false} SoloCountsUp(trace: seq<Request>, key: string, capacity: nat)
    ensures SoloRun(trace, key, capacity).Seen? ==> SoloRun(trace, key, capacity).hits >= 1
  {
    if trace != [] {
      SoloCountsUp(trace[..|trace| - 1], key, capacity);
    }
  }

  lemma {:induction false} TableAgrees(trace: seq<Request>, key: string, capacity: nat)
    requires capacity >= 1 && NeverSweptEarly(trace, key, capacity)
    ensures Agrees(Table(trace, capacity), key, SoloRun(trace, key, capacity),
                   SweptSince(trace, key, capacity), capacity)
  {
    hide Agrees, Sweeps;
    if trace == [] {
      NothingAgrees(key, capacity);
    } else {
      var init, h := trace[..|trace| - 1], trace[|trace| - 1];
      TableAgrees(init, key, capacity);
      TableNeverOverflows(init, capacity);
      SoloCountsUp(init, key, capacity);
      if h.key == key {
        OwnHit(Table(init, capacity), key, SoloRun(init, key, capacity), SweptSince(init, key, capacity), h, capacity);
      } else {
        OtherHit(Table(init, capacity), key, SoloRun(init, key, capacity),
                 SweptSince(init, key, capacity), h, capacity);
      }
    }
  }

  lemma NothingAgrees(key: string, capacity: nat)
    ensures Agrees([], key, Unseen, false, capacity)
  {
  }

  // ----- main results -----

  /** After every hit of any trace the table holds no key twice and no more keys than its capacity. */
  lemma {:induction false} TableNeverOverflows(trace: seq<Request>, capacity: nat)
    requires capacity >= 1
    ensures |Table(trace, capacity)| <= capacity && Distinct(Table(trace, capacity))
  {
    if trace != [] {
      TableNeverOverflows(trace[..|trace| - 1], capacity);
      AfterHitTidy(Table(trace[..|trace| - 1], capacity), trace[|trace| - 1], capacity);
    }
  }

  /** What the last hit of a trace is told is the per-key counter's answer. */
  ghost predicate ToldBySolo(trace: seq<Request>, capacity: nat)
    requires capacity >= 1 && trace != []
  {
    var h := trace[|trace| - 1];
    var solo := SoloRun(trace, h.key, capacity);
    solo.Seen? && Told(trace, capacity) == Entry(h.key, solo.hits, solo.expiresAt)
  }

  /** Every hit of a key so far was told the per-key counter's answer. */
  ghost predicate AlwaysToldBySolo(trace: seq<Request>, key: string, capacity: nat)
    requires capacity >= 1
  {
    trace == [] ||
    (AlwaysToldBySolo(trace[..|trace| - 1], key, capacity) &&
     (trace[|trace| - 1].key == key ==> ToldBySolo(trace, capacity)))
  }

  /**
   Whatever the clock readings, the table answers a key like a counter of that key alone, one that
   restarts when its window has passed or when at least `capacity` distinct other keys were hit
   since, exactly when no hit reads its clock within a window that another hit has swept away.
   */
  lemma {:induction false} TableIsPerKeyCounterExactlyWhen(trace: seq<Request>, key: string, capacity: nat)
    requires capacity >= 1
    ensures AlwaysToldBySolo(trace, key, capacity) <==> NeverSweptEarly(trace, key, capacity)
  {
    if trace != [] {
      var init, h := trace[..|trace| - 1], trace[|trace| - 1];
      TableIsPerKeyCounterExactlyWhen(init, key, capacity);
      if h.key == key && NeverSweptEarly(init, key, capacity) {
        TableAgrees(init, key, capacity);
        TableNeverOverflows(init, capacity);
        SoloCountsUp(init, key, capacity);
        hide Agrees, SweptSince, Find;
        OwnHitCounts(Table(init, capacity), key, SoloRun(init, key, capacity),
                     SweptSince(init, key, capacity), h, capacity);
      }
    }
  }

  /** Hits that enter the table in the order of their readings find swept windows over. */
  lemma {:induction false} OrderedIsNeverSweptEarly(trace: seq<Request>, key: string, capacity: nat)
    requires capacity >= 1 && Ordered(trace)
    ensures NeverSweptEarly(trace, key, capacity)
    ensures SweptSince(trace, key, capacity) ==>
              SoloRun(trace, key, capacity).Seen? && SoloRun(trace, key, capacity).expiresAt <= trace[|trace| - 1].now
  {
    if trace != [] {
      var init, h := trace[..|trace| - 1], trace[|trace| - 1];
      OrderedIsNeverSweptEarly(init, key, capacity);
      assert init != [] ==> init[|init| - 1] == trace[|trace| - 2];
      if h.key != key && Sweeps(Table(init, capacity), key, h) {
        TableAgrees(init, key, capacity);
        TableNeverOverflows(init, capacity);
        SweptIsExpired(Table(init, capacity), key, SoloRun(init, key, capacity),
                       SweptSince(init, key, capacity), h, capacity);
      }
    }
  }

  lemma SweptIsExpired(table: seq<Entry>, key: string, solo: Solo, swept: bool, h: Request, capacity: nat)
    requires Distinct(table) && Agrees(table, key, solo, swept, capacity) && Sweeps(table, key, h) && h.key != key
    ensures solo.Seen? && solo.expiresAt <= h.now
  {
    if key in Keys(table) {
      var p :| 0 <= p < |table| && Holds(table, p, key, solo);
      var q := PoppedKeeps(table, p, h.key);
      SweptHere(table, key, h, q);
    } else {
      AbsentIsNotSwept(table, key, h);
    }
  }

  /** In particular, in lock order, the table answers every hit like the per-key counter. */
  lemma TableIsPerKeyCounter(trace: seq<Request>, capacity: nat)
    requires capacity >= 1 && Ordered(trace) && trace != []
    ensures ToldBySolo(trace, capacity)
  {
    var key := trace[|trace| - 1].key;
    OrderedIsNeverSweptEarly(trace, key, capacity);
    TableIsPerKeyCounterExactlyWhen(trace, key, capacity);
  }
}
