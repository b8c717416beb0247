/** Whole runs of the audit log: appends interleaved with retention passes. */
module AuditRuns {
  import opened Common
  import opened AuditChain
  import opened AuditVerification

  /** A stored chain together with every event ever written to it. */
  datatype Log = Log(store: Store, history: seq<Event>)

  datatype Op =
    | Write(id: string, createdAt: int, body: string)
    | Retire(cutoff: int, batch: nat, sealedAt: int)

  function Step(l: Log, op: Op): Log {
    match op
    case Write(id, createdAt, body) =>
      Log(Append(l.store, id, createdAt, body), l.history + [Linked(l.store, id, createdAt, body)])
    case Retire(cutoff, batch, sealedAt) =>
      Log(Prune(l.store, cutoff, batch, sealedAt), l.history)
  }

  function Run(l: Log, ops: seq<Op>): Log
    decreases |ops|
  {
    if ops == [] then l else Run(Step(l, ops[0]), ops[1..])
  }

  /** The store before its first event. */
  function Empty(): Log {
    Log(Store([], None, []), [])
  }

  /** The store the migration leaves: rows numbered by age, whatever hashes they carry, below the floor. */
  function Migrated(legacy: seq<Event>): Log {
    Log(Store(legacy, Some(Head(|legacy|, Blank, |legacy| + 1)), []), legacy)
  }

  ghost predicate Numbered(h: seq<Event>) {
    forall i :: 0 <= i < |h| ==> h[i].num == i + 1
  }

  ghost predicate ByAge(h: seq<Event>) {
    forall i, j :: 0 <= i < j < |h| ==> h[i].createdAt <= h[j].createdAt
  }

  ghost predicate DistinctIds(rows: seq<Event>) {
    forall i, j :: 0 <= i < j < |rows| ==> rows[i].id != rows[j].id
  }

  ghost predicate Initial(l: Log) {
    || l == Empty()
    || (l == Migrated(l.history) && Numbered(l.history) && ByAge(l.history) && DistinctIds(l.history))
  }

  ghost predicate LinkedAt(h: seq<Event>, floor: int, i: int)
    requires 0 <= i < |h|
  {
    && h[i].hash == SignEvent(h[i])
    && h[i].prev == if i == 0 || i == floor - 1 then Blank else h[i - 1].hash
  }

  /** Index in the history where the retained rows at or above the floor begin. */
  function Resumes(l: Log): int {
    |l.history| - (|l.store.rows| - FirstChecked(l.store))
  }

  ghost predicate SealsHistory(c: Checkpoint, h: seq<Event>) {
    1 <= c.payload.toSeq <= |h| && c.payload.lastEventHash == h[c.payload.toSeq - 1].hash
  }

  /** The history is numbered, signed and linked from the floor on, and the head describes its end. */
  ghost predicate HistoryFits(l: Log) {
    var h, floor := l.history, Floor(l.store);
    && Numbered(h) && 1 <= floor <= |h| + 1
    && (forall i :: floor - 1 <= i < |h| ==> LinkedAt(h, floor, i))
    && HeadOf(l.store).num == |h|
    && HeadOf(l.store).hash == (if |h| >= floor then h[|h| - 1].hash else Blank)
  }

  ghost predicate OfHistory(e: Event, h: seq<Event>) {
    1 <= e.num <= |h| && e == h[e.num - 1]
  }

  /** Stored rows are events of the history, in order. */
  ghost predicate RowsFit(l: Log) {
    && Sorted(l.store.rows)
    && (forall e {:trigger OfHistory(e, l.history)} :: e in l.store.rows ==> OfHistory(e, l.history))
  }

  /** Checked row `i` is the event of the history in its place. */
  ghost predicate Retained(l: Log, i: int)
    requires 0 <= i < |l.store.rows| && 0 <= Resumes(l) + i - FirstChecked(l.store) < |l.history|
  {
    l.store.rows[i] == l.history[Resumes(l) + i - FirstChecked(l.store)]
  }

  /** From the floor on, the rows are an end of the history. */
  ghost predicate TailFits(l: Log) {
    && 0 <= Floor(l.store) - 1 <= Resumes(l) <= |l.history|
    && (forall i :: FirstChecked(l.store) <= i < |l.store.rows| ==> Retained(l, i))
  }

  /** Checkpoints tell the truth, and one vouches for the first checked row unless that is the floor. */
  ghost predicate SealsFit(l: Log) {
    && (forall c :: c in l.store.checkpoints ==> SealsHistory(c, l.history))
    && (Resumes(l) == Floor(l.store) - 1
        || exists c :: c in l.store.checkpoints && c.payload.toSeq == Resumes(l))
  }

  /** The stored chain is an honest account of the history. */
  ghost predicate Sound(l: Log) {
    HistoryFits(l) && RowsFit(l) && TailFits(l) && SealsFit(l)
  }

  /** What appends and harmless prunes keep, whatever the timestamps. */
  ghost predicate Verifiable(l: Log) {
    Sound(l) && DistinctIds(l.store.rows)
  }

  // ----- verification of a sound log -----

  lemma RetainedRow(l: Log, i: nat)
    requires HistoryFits(l) && TailFits(l) && FirstChecked(l.store) <= i < |l.store.rows|
    ensures var at := Resumes(l) + i - FirstChecked(l.store);
            && Floor(l.store) - 1 <= at < |l.history| && l.store.rows[i] == l.history[at]
            && LinkedAt(l.history, Floor(l.store), at)
  {
    assert Retained(l, i);
  }

  /** The hash a page starting at row `i` expects is the hash of the event before it. */
  lemma PredecessorKnown(l: Log, i: nat)
    requires Sound(l) && FirstChecked(l.store) <= i < |l.store.rows|
    requires l.store.rows[i].num > Floor(l.store)
    ensures 2 <= l.store.rows[i].num <= |l.history|
    ensures Predecessor(l.store, l.store.rows[i]) == Some(l.history[l.store.rows[i].num - 2].hash)
  {
    hide LinkedAt, Sorted, DistinctIds, FirstAfter, FindRow, FindCheckpoint;
    var s, row := l.store, l.store.rows[i];
    RetainedRow(l, i);
    FindRowFinds(s.rows, row.num - 1);
    FindCheckpointFinds(s.checkpoints, row.num - 1);
    if i > FirstChecked(s) {
      RetainedRow(l, i - 1);
      assert s.rows[i - 1] in s.rows;
    }
    match FindRow(s.rows, row.num - 1) {
      case Some(e) => assert OfHistory(e, l.history);
      case None => assert i == FirstChecked(s) && row.num - 1 == Resumes(l);
    }
  }

  lemma RetainedRowFits(l: Log, i: nat)
    requires Sound(l) && FirstChecked(l.store) <= i < |l.store.rows|
    ensures !MisfitAtStart(l.store, i)
    ensures i > FirstChecked(l.store) ==> !Misfit(l.store, i)
  {
    RetainedRow(l, i);
    if i > FirstChecked(l.store) {
      RetainedRow(l, i - 1);
    }
    if l.store.rows[i].num > Floor(l.store) {
      PredecessorKnown(l, i);
    }
  }

  /** Every page of a sound log, from anywhere and of any size, is free of breaks. */
  lemma SoundIsClean(l: Log, after: int, limit: nat)
    requires Sound(l)
    ensures PageReport(l.store, after, limit).breaks == []
  {
    hide PageReport, MisfitAtStart, Misfit;
    var s := l.store;
    var start := Max(after, Floor(s) - 1);
    SameStart(s, after, limit);
    PageFlags(s, start, limit);
    FirstAfterMonotone(s.rows, Floor(s) - 1, start);
    forall i | FirstAfter(s.rows, start) <= i < |s.rows|
      ensures !FlaggedFrom(s, FirstAfter(s.rows, start), i)
    {
      RetainedRowFits(l, i);
    }
    var breaks := PageReport(s, start, limit).breaks;
    assert Flagged(breaks) == {};
    FirstBreakFlagged(breaks);
  }

  lemma FirstBreakFlagged(breaks: seq<ChainBreak>)
    ensures breaks != [] ==> breaks[0].num in Flagged(breaks)
  {
  }

  lemma SameStart(s: Store, after: int, limit: nat)
    ensures PageReport(s, after, limit) == PageReport(s, Max(after, Floor(s) - 1), limit)
  {
    hide FirstAfter, BreaksIn, Predecessor;
  }

  // ----- appending -----

  lemma AppendKeepsHistory(l: Log, id: string, createdAt: int, body: string)
    requires HistoryFits(l)
    ensures HistoryFits(Step(l, Write(id, createdAt, body)))
    ensures Floor(Append(l.store, id, createdAt, body)) == Floor(l.store)
  {
    var h := l.history;
    var h' := h + [Linked(l.store, id, createdAt, body)];
    forall i | Floor(l.store) - 1 <= i < |h'| ensures LinkedAt(h', Floor(l.store), i) {
      if i < |h| {
        assert LinkedAt(h, Floor(l.store), i);
      }
    }
  }

  lemma AppendKeepsRows(l: Log, id: string, createdAt: int, body: string)
    requires HistoryFits(l) && RowsFit(l)
    requires DistinctIds(l.store.rows) && id !in Ids(l.store.rows)
    ensures DistinctIds(Append(l.store, id, createdAt, body).rows)
    ensures RowsFit(Step(l, Write(id, createdAt, body)))
  {
    var rows := l.store.rows;
    var l' := Step(l, Write(id, createdAt, body));
    forall i | 0 <= i < |rows| ensures rows[i].num <= |l.history| && rows[i].id in Ids(rows) {
      assert OfHistory(rows[i], l.history);
    }
    forall e | e in l'.store.rows ensures OfHistory(e, l'.history) {
      if e in rows {
        assert OfHistory(e, l.history);
      }
    }
  }

  lemma AppendKeepsFirstChecked(s: Store, id: string, createdAt: int, body: string)
    requires Sorted(s.rows) && HeadOf(s).num + 1 >= Floor(s)
    requires forall e :: e in s.rows ==> e.num <= HeadOf(s).num
    ensures FirstChecked(Append(s, id, createdAt, body)) == FirstChecked(s)
    ensures Floor(Append(s, id, createdAt, body)) == Floor(s)
  {
    var rows := s.rows + [Linked(s, id, createdAt, body)];
    assert forall i :: 0 <= i < |s.rows| ==> s.rows[i] in s.rows;
    FirstAfterIs(rows, Floor(s) - 1, FirstChecked(s));
  }

  lemma AppendKeepsTail(l: Log, id: string, createdAt: int, body: string)
    requires HistoryFits(l) && RowsFit(l) && TailFits(l)
    ensures var l' := Step(l, Write(id, createdAt, body)); TailFits(l') && Resumes(l') == Resumes(l)
  {
    hide LinkedAt, Floor, FirstAfter, Linked;
    var s := l.store;
    forall e | e in s.rows ensures e.num <= HeadOf(s).num {
      assert OfHistory(e, l.history);
    }
    AppendKeepsFirstChecked(s, id, createdAt, body);
    var l' := Step(l, Write(id, createdAt, body));
    forall i | FirstChecked(s) <= i < |l'.store.rows| ensures Retained(l', i) {
      if i < |s.rows| {
        assert Retained(l, i);
      }
    }
  }

  lemma AppendKeepsVerifiable(l: Log, id: string, createdAt: int, body: string)
    requires Verifiable(l) && id !in Ids(l.store.rows)
    ensures Verifiable(Step(l, Write(id, createdAt, body)))
  {
    hide LinkedAt, Sorted, DistinctIds, FirstChecked, Linked, Resumes;
    AppendKeepsHistory(l, id, createdAt, body);
    AppendKeepsRows(l, id, createdAt, body);
    AppendKeepsTail(l, id, createdAt, body);
  }

  // ----- pruning -----

  lemma {:induction false} SelectedFacts(rows: seq<Event>, cutoff: int, batch: nat)
    ensures var sel := Selected(rows, cutoff, batch);
            && |sel| <= |rows| && (forall e :: e in sel ==> e in rows && e.createdAt < cutoff)
            && (Sorted(rows) ==> Sorted(sel))
  {
    if rows != [] && batch != 0 {
      var rest := if rows[0].createdAt < cutoff then Selected(rows[1..], cutoff, batch - 1)
                  else Selected(rows[1..], cutoff, batch);
      SelectedFacts(rows[1..], cutoff, if rows[0].createdAt < cutoff then batch - 1 else batch);
      if Sorted(rows) {
        forall e | e in rest ensures rows[0].num < e.num {
          var j :| 0 <= j < |rows[1..]| && rows[1..][j] == e;
          assert rows[1 + j] == e;
        }
      }
    }
  }

  lemma {:induction false} WithoutMembers(rows: seq<Event>, gone: set<string>)
    ensures forall e :: e in Without(rows, gone) <==> e in rows && e.id !in gone
  {
    if rows != [] {
      WithoutMembers(rows[1..], gone);
      assert rows == [rows[0]] + rows[1..];
    }
  }

  lemma {:induction false} WithoutFacts(rows: seq<Event>, gone: set<string>)
    ensures var kept := Without(rows, gone);
            && (forall e :: e in kept <==> e in rows && e.id !in gone)
            && (Sorted(rows) ==> Sorted(kept)) && (DistinctIds(rows) ==> DistinctIds(kept))
  {
    WithoutMembers(rows, gone);
    if rows != [] {
      WithoutFacts(rows[1..], gone);
      hide Sorted, DistinctIds;
      WithoutFrontFacts(rows, Without(rows[1..], gone));
    }
  }

  /** Putting the first row back in front of a selection of the others. */
  lemma WithoutFrontFacts(rows: seq<Event>, kept: seq<Event>)
    requires rows != [] && forall e :: e in kept ==> e in rows[1..]
    ensures Sorted(rows) && Sorted(kept) ==> Sorted([rows[0]] + kept)
    ensures DistinctIds(rows) && DistinctIds(kept) ==> DistinctIds([rows[0]] + kept)
    ensures (Sorted(rows) ==> Sorted(rows[1..])) && (DistinctIds(rows) ==> DistinctIds(rows[1..]))
  {
    forall j | 0 <= j < |kept|
      ensures Sorted(rows) ==> rows[0].num < kept[j].num
      ensures DistinctIds(rows) ==> rows[0].id != kept[j].id
    {
      assert kept[j] in kept;
      var i :| 0 <= i < |rows[1..]| && rows[1..][i] == kept[j];
      assert rows[1 + i] == kept[j];
    }
  }

  lemma {:induction false} WithoutConcat(a: seq<Event>, b: seq<Event>, gone: set<string>)
    ensures Without(a + b, gone) == Without(a, gone) + Without(b, gone)
  {
    if a == [] {
      assert a + b == b;
    } else {
      assert (a + b)[1..] == a[1..] + b;
      WithoutConcat(a[1..], b, gone);
    }
  }

  lemma {:induction false} WithoutNothing(rows: seq<Event>, gone: set<string>)
    requires forall e :: e in rows ==> e.id !in gone
    ensures Without(rows, gone) == rows
  {
    if rows != [] {
      WithoutNothing(rows[1..], gone);
    }
  }

  lemma {:induction false} WithoutEverything(rows: seq<Event>, gone: set<string>)
    requires forall e :: e in rows ==> e.id in gone
    ensures Without(rows, gone) == []
  {
    if rows != [] {
      WithoutEverything(rows[1..], gone);
    }
  }

  /** The prune keeps no checked row that is older in sequence than one it deletes. */
  ghost predicate NoneLeftBehind(s: Store, cutoff: int, batch: nat) {
    var sel := Selected(s.rows, cutoff, batch);
    forall i, j :: 0 <= i < j < |s.rows| && s.rows[i] !in sel && s.rows[j] in sel ==> s.rows[i].num < Floor(s)
  }

  /** With no checked row left behind, the deleted checked rows are a run at the front. */
  lemma CutPoint(s: Store, cutoff: int, batch: nat) returns (cut: nat)
    requires Sorted(s.rows) && NoneLeftBehind(s, cutoff, batch)
    ensures FirstChecked(s) <= cut <= |s.rows|
    ensures forall i :: FirstChecked(s) <= i < cut ==> s.rows[i] in Selected(s.rows, cutoff, batch)
    ensures forall i :: cut <= i < |s.rows| ==> s.rows[i] !in Selected(s.rows, cutoff, batch)
  {
    cut := FirstChecked(s);
    while cut < |s.rows| && s.rows[cut] in Selected(s.rows, cutoff, batch)
      invariant FirstChecked(s) <= cut <= |s.rows|
      invariant forall i :: FirstChecked(s) <= i < cut ==> s.rows[i] in Selected(s.rows, cutoff, batch)
    {
      cut := cut + 1;
    }
  }

  /** Rows of a sorted, id-distinct table are deleted by id exactly when they were selected. */
  lemma DeletedIffSelected(rows: seq<Event>, sel: seq<Event>, e: Event)
    requires DistinctIds(rows) && e in rows && (forall x :: x in sel ==> x in rows)
    ensures e.id in Ids(sel) <==> e in sel
  {
    if e.id in Ids(sel) {
      var x :| x in sel && x.id == e.id;
      var i :| 0 <= i < |rows| && rows[i] == x;
      var j :| 0 <= j < |rows| && rows[j] == e;
      assert i == j;
    }
  }

  lemma RowsAfterPrune(s: Store, cutoff: int, batch: nat, cut: nat)
    requires Sorted(s.rows) && DistinctIds(s.rows) && FirstChecked(s) <= cut <= |s.rows|
    requires forall i :: FirstChecked(s) <= i < cut ==> s.rows[i] in Selected(s.rows, cutoff, batch)
    requires forall i :: cut <= i < |s.rows| ==> s.rows[i] !in Selected(s.rows, cutoff, batch)
    ensures var kept := Without(s.rows, Ids(Selected(s.rows, cutoff, batch)));
            kept[FirstAfter(kept, Floor(s) - 1)..] == s.rows[cut..]
  {
    hide Selected, Without, Floor;
    var gone := Ids(Selected(s.rows, cutoff, batch));
    forall i | 0 <= i < |s.rows|
      ensures s.rows[i].id in gone <==> s.rows[i] in Selected(s.rows, cutoff, batch)
    {
      SparedOrLost(s.rows, cutoff, batch, i);
    }
    ThreeParts(s.rows, FirstChecked(s), cut, gone);
    WithoutFacts(s.rows, gone);
    SplitPoint(s.rows, FirstChecked(s), Floor(s) - 1, gone, s.rows[cut..]);
  }

  /** Rows up to a bound, then rows above it: the boundary is where the second part begins. */
  lemma SplitPoint(rows: seq<Event>, n: nat, bound: int, gone: set<string>, tail: seq<Event>)
    requires n <= |rows| && forall i :: 0 <= i < n ==> rows[i].num <= bound
    requires Sorted(Without(rows[..n], gone) + tail) && (tail != [] ==> tail[0].num > bound)
    ensures var kept := Without(rows[..n], gone) + tail; kept[FirstAfter(kept, bound)..] == tail
  {
    hide Without, FirstAfter;
    var front := Without(rows[..n], gone);
    WithoutFacts(rows[..n], gone);
    if front != [] {
      assert front[|front| - 1] in rows[..n];
    }
    FirstAfterIs(front + tail, bound, |front|);
  }

  lemma ThreeParts(rows: seq<Event>, a: nat, b: nat, gone: set<string>)
    requires a <= b <= |rows|
    requires forall i :: a <= i < b ==> rows[i].id in gone
    requires forall i :: b <= i < |rows| ==> rows[i].id !in gone
    ensures Without(rows, gone) == Without(rows[..a], gone) + rows[b..]
  {
    hide Without;
    assert rows == rows[..a] + (rows[a..b] + rows[b..]);
    WithoutConcat(rows[..a], rows[a..b] + rows[b..], gone);
    WithoutConcat(rows[a..b], rows[b..], gone);
    WithoutEverything(rows[a..b], gone);
    WithoutNothing(rows[b..], gone);
  }

  lemma SealedEnd(s: Store, cutoff: int, batch: nat, cut: nat)
    requires Sorted(s.rows) && FirstChecked(s) < cut <= |s.rows|
    requires s.rows[cut - 1] in Selected(s.rows, cutoff, batch)
    requires forall i :: cut <= i < |s.rows| ==> s.rows[i] !in Selected(s.rows, cutoff, batch)
    ensures var sel := Selected(s.rows, cutoff, batch); sel[|sel| - 1] == s.rows[cut - 1]
  {
    var sel := Selected(s.rows, cutoff, batch);
    SelectedFacts(s.rows, cutoff, batch);
    var x := sel[|sel| - 1];
    assert x in sel;
    var i :| 0 <= i < |s.rows| && s.rows[i] == x;
    var j :| 0 <= j < |sel| && sel[j] == s.rows[cut - 1];
    assert i < cut;
  }

  lemma PruneKeepsRows(l: Log, cutoff: int, batch: nat, sealedAt: int)
    requires HistoryFits(l) && RowsFit(l)
    ensures HistoryFits(Step(l, Retire(cutoff, batch, sealedAt)))
    ensures RowsFit(Step(l, Retire(cutoff, batch, sealedAt)))
    ensures DistinctIds(l.store.rows) ==> DistinctIds(Prune(l.store, cutoff, batch, sealedAt).rows)
    ensures Floor(Prune(l.store, cutoff, batch, sealedAt)) == Floor(l.store)
  {
    hide LinkedAt, Selected, Sealed;
    WithoutFacts(l.store.rows, Ids(Selected(l.store.rows, cutoff, batch)));
  }

  /** A log whose checked rows are the old ones from index `cut` on. */
  lemma TailAfterCut(l: Log, l': Log, cut: nat)
    requires TailFits(l) && l'.history == l.history && Floor(l'.store) == Floor(l.store)
    requires FirstChecked(l.store) <= cut <= |l.store.rows|
    requires l'.store.rows[FirstChecked(l'.store)..] == l.store.rows[cut..]
    ensures TailFits(l') && Resumes(l') == Resumes(l) + cut - FirstChecked(l.store)
  {
    hide Floor, FirstAfter;
    var from := FirstChecked(l'.store);
    assert |l'.store.rows| - from == |l.store.rows| - cut;
    forall i | from <= i < |l'.store.rows| ensures Retained(l', i) {
      assert l'.store.rows[i] == l'.store.rows[from..][i - from] == l.store.rows[cut..][i - from];
      assert Retained(l, cut + (i - from));
    }
  }

  lemma PruneKeepsTail(l: Log, cutoff: int, batch: nat, sealedAt: int, cut: nat)
    requires HistoryFits(l) && RowsFit(l) && TailFits(l) && DistinctIds(l.store.rows)
    requires Selected(l.store.rows, cutoff, batch) != []
    requires FirstChecked(l.store) <= cut <= |l.store.rows|
    requires forall i :: FirstChecked(l.store) <= i < cut ==> l.store.rows[i] in Selected(l.store.rows, cutoff, batch)
    requires forall i :: cut <= i < |l.store.rows| ==> l.store.rows[i] !in Selected(l.store.rows, cutoff, batch)
    ensures var l' := Step(l, Retire(cutoff, batch, sealedAt));
            TailFits(l') && Resumes(l') == Resumes(l) + cut - FirstChecked(l.store)
  {
    hide LinkedAt, Retained, Selected, Without, FirstAfter, Sealed;
    RowsAfterPrune(l.store, cutoff, batch, cut);
    PruneKeepsRows(l, cutoff, batch, sealedAt);
    TailAfterCut(l, Step(l, Retire(cutoff, batch, sealedAt)), cut);
  }

  lemma NewSealFits(l: Log, cutoff: int, batch: nat, sealedAt: int)
    requires RowsFit(l) && Selected(l.store.rows, cutoff, batch) != []
    ensures var sel := Selected(l.store.rows, cutoff, batch);
            var s' := Prune(l.store, cutoff, batch, sealedAt);
            && |s'.checkpoints| == |l.store.checkpoints| + 1
            && s'.checkpoints[..|l.store.checkpoints|] == l.store.checkpoints
            && SealsHistory(s'.checkpoints[|l.store.checkpoints|], l.history)
            && s'.checkpoints[|l.store.checkpoints|].payload.toSeq == sel[|sel| - 1].num
  {
    var sel := Selected(l.store.rows, cutoff, batch);
    SelectedFacts(l.store.rows, cutoff, batch);
    assert sel[|sel| - 1] in l.store.rows && OfHistory(sel[|sel| - 1], l.history);
  }

  lemma PruneKeepsSeals(l: Log, cutoff: int, batch: nat, sealedAt: int, cut: nat)
    requires HistoryFits(l) && RowsFit(l) && TailFits(l) && SealsFit(l)
    requires Selected(l.store.rows, cutoff, batch) != []
    requires FirstChecked(l.store) <= cut <= |l.store.rows|
    requires cut > FirstChecked(l.store) ==> l.store.rows[cut - 1] in Selected(l.store.rows, cutoff, batch)
    requires forall i :: cut <= i < |l.store.rows| ==> l.store.rows[i] !in Selected(l.store.rows, cutoff, batch)
    requires Resumes(Step(l, Retire(cutoff, batch, sealedAt))) == Resumes(l) + cut - FirstChecked(l.store)
    requires Floor(Prune(l.store, cutoff, batch, sealedAt)) == Floor(l.store)
    ensures SealsFit(Step(l, Retire(cutoff, batch, sealedAt)))
  {
    hide LinkedAt, Retained, FirstAfter, SealsHistory, Floor, Prune;
    var s := l.store;
    var s' := Prune(s, cutoff, batch, sealedAt);
    var n := |s.checkpoints|;
    NewSealFits(l, cutoff, batch, sealedAt);
    if cut > FirstChecked(s) {
      SealedEnd(s, cutoff, batch, cut);
      RetainedRow(l, cut - 1);
      assert s'.checkpoints[n] in s'.checkpoints;
    } else if Resumes(l) != Floor(s) - 1 {
      var prior :| prior in s.checkpoints && prior.payload.toSeq == Resumes(l);
      assert prior in s'.checkpoints;
    }
    forall c | c in s'.checkpoints ensures SealsHistory(c, l.history) {
      var i :| 0 <= i < |s'.checkpoints| && s'.checkpoints[i] == c;
      assert i < n ==> s'.checkpoints[..n][i] == s.checkpoints[i];
    }
  }

  /** A prune that leaves no checked row behind keeps the log verifiable. */
  lemma PruneKeepsVerifiable(l: Log, cutoff: int, batch: nat, sealedAt: int)
    requires Verifiable(l) && NoneLeftBehind(l.store, cutoff, batch)
    ensures Verifiable(Step(l, Retire(cutoff, batch, sealedAt)))
  {
    hide HistoryFits, TailFits, SealsFit, FirstChecked, Prune;
    PruneKeepsRows(l, cutoff, batch, sealedAt);
    if Selected(l.store.rows, cutoff, batch) == [] {
      PruneNothing(l, cutoff, batch, sealedAt);
    } else {
      var cut := CutPoint(l.store, cutoff, batch);
      PruneKeepsTail(l, cutoff, batch, sealedAt, cut);
      PruneKeepsSeals(l, cutoff, batch, sealedAt, cut);
    }
  }

  lemma PruneNothing(l: Log, cutoff: int, batch: nat, sealedAt: int)
    requires Selected(l.store.rows, cutoff, batch) == []
    ensures Step(l, Retire(cutoff, batch, sealedAt)) == l
  {
  }

  // ----- when a prune is harmless -----

  lemma CleanNums(s: Store, i: nat, j: nat)
    requires Sorted(s.rows) && Clean(s) && FirstChecked(s) <= i <= j < |s.rows|
    ensures s.rows[j].num == s.rows[i].num + (j - i)
    decreases j
  {
    if i < j {
      CleanRows(s);
      CleanNums(s, i, j - 1);
    }
  }

  /** Deleting a row between a checked one that stays and the next one written leaves a visible hole. */
  lemma HoleShows(s: Store, kept: Event, lost: int, i: nat, j: nat)
    requires Sorted(s.rows) && FirstChecked(s) <= i <= j < |s.rows|
    requires s.rows[i] == kept && kept.num < lost < s.rows[j].num
    requires forall k :: 0 <= k < |s.rows| ==> s.rows[k].num != lost
    ensures !Clean(s)
  {
    if Clean(s) {
      CleanNums(s, i, j);
      CleanNums(s, i, i + (lost - kept.num));
    }
  }

  /** What a prune and a write leave stored: the kept row still checked, the lost one nowhere. */
  lemma LeftBehindRows(
    l: Log, cutoff: int, batch: nat, sealedAt: int, id: string, createdAt: int, body: string, i: nat, j: nat)
    returns (at: nat)
    requires HistoryFits(l) && RowsFit(l) && DistinctIds(l.store.rows) && i < j < |l.store.rows|
    requires var sel := Selected(l.store.rows, cutoff, batch);
             l.store.rows[i] !in sel && l.store.rows[j] in sel && l.store.rows[i].num >= Floor(l.store)
    ensures var rows := Append(Prune(l.store, cutoff, batch, sealedAt), id, createdAt, body).rows;
            && at < |rows| && rows[at] == l.store.rows[i]
            && forall k :: 0 <= k < |rows| ==> rows[k].num != l.store.rows[j].num
  {
    hide LinkedAt, Retained, Selected, Without, Sealed, FirstAfter;
    var s := l.store;
    var gone := Ids(Selected(s.rows, cutoff, batch));
    SparedOrLost(s.rows, cutoff, batch, i);
    SparedOrLost(s.rows, cutoff, batch, j);
    assert OfHistory(s.rows[j], l.history);
    WithoutFacts(s.rows, gone);
    var kept := Without(s.rows, gone);
    at := IndexOf(kept, s.rows[i]);
    LostNum(l, gone, j, kept);
  }

  lemma IndexOf(rows: seq<Event>, e: Event) returns (at: nat)
    requires e in rows
    ensures at < |rows| && rows[at] == e
  {
    at :| 0 <= at < |rows| && rows[at] == e;
  }

  lemma SparedOrLost(rows: seq<Event>, cutoff: int, batch: nat, i: nat)
    requires DistinctIds(rows) && i < |rows|
    ensures rows[i] in rows
    ensures rows[i].id in Ids(Selected(rows, cutoff, batch)) <==> rows[i] in Selected(rows, cutoff, batch)
  {
    SelectedFacts(rows, cutoff, batch);
    DeletedIffSelected(rows, Selected(rows, cutoff, batch), rows[i]);
  }

  lemma LostNum(l: Log, gone: set<string>, j: nat, kept: seq<Event>)
    requires RowsFit(l) && j < |l.store.rows| && l.store.rows[j].id in gone
    requires forall e :: e in kept ==> e in l.store.rows && e.id !in gone
    ensures forall k :: 0 <= k < |kept| ==> kept[k].num != l.store.rows[j].num
  {
    forall k | 0 <= k < |kept| ensures kept[k].num != l.store.rows[j].num {
      assert kept[k] in kept && l.store.rows[j] in l.store.rows;
      SameNumSameRow(l, kept[k], l.store.rows[j]);
    }
  }

  lemma SameNumSameRow(l: Log, e: Event, f: Event)
    requires RowsFit(l) && e in l.store.rows && f in l.store.rows
    ensures e.num == f.num ==> e == f
  {
    hide DistinctIds, Sorted;
    assert OfHistory(e, l.history) && OfHistory(f, l.history);
  }

  lemma LeftBehindShows(l: Log, cutoff: int, batch: nat, sealedAt: int, id: string, createdAt: int, body: string)
    requires Verifiable(l) && !NoneLeftBehind(l.store, cutoff, batch)
    requires id !in Ids(Prune(l.store, cutoff, batch, sealedAt).rows)
    ensures !Clean(Append(Prune(l.store, cutoff, batch, sealedAt), id, createdAt, body))
  {
    hide LinkedAt, Retained, Prune, FirstAfter, Selected;
    var s := l.store;
    var sel := Selected(s.rows, cutoff, batch);
    var i, j :| 0 <= i < j < |s.rows| && s.rows[i] !in sel && s.rows[j] in sel && s.rows[i].num >= Floor(s);
    var pruned := Step(l, Retire(cutoff, batch, sealedAt));
    var grown := Step(pruned, Write(id, createdAt, body)).store;
    PruneKeepsRows(l, cutoff, batch, sealedAt);
    AppendKeepsHistory(pruned, id, createdAt, body);
    AppendKeepsRows(pruned, id, createdAt, body);
    var at := LeftBehindRows(l, cutoff, batch, sealedAt, id, createdAt, body, i, j);
    assert s.rows[j] in s.rows && OfHistory(s.rows[j], l.history);
    HoleShows(grown, s.rows[i], s.rows[j].num, at, |grown.rows| - 1);
  }

  /** No page of the store, from anywhere and of any size, reports a break. */
  ghost predicate AlwaysClean(s: Store) {
    forall after: int, limit: nat :: PageReport(s, after, limit).breaks == []
  }

  /**
   Retention is harmless exactly when it leaves no checked row behind: the chain verifies clean
   after the prune and after the next write, on every page, if and only if no row at or above the
   floor is skipped in favour of a later one.
   */
  lemma PruneHarmlessExactlyWhen(
    l: Log, cutoff: int, batch: nat, sealedAt: int, id: string, createdAt: int, body: string)
    requires Verifiable(l) && id !in Ids(Prune(l.store, cutoff, batch, sealedAt).rows)
    ensures var pruned := Prune(l.store, cutoff, batch, sealedAt);
            AlwaysClean(pruned) && AlwaysClean(Append(pruned, id, createdAt, body))
            <==> NoneLeftBehind(l.store, cutoff, batch)
  {
    hide NoneLeftBehind, Sound, PageReport;
    var pruned := Step(l, Retire(cutoff, batch, sealedAt));
    var grown := Step(pruned, Write(id, createdAt, body));
    if NoneLeftBehind(l.store, cutoff, batch) {
      PruneKeepsVerifiable(l, cutoff, batch, sealedAt);
      AppendKeepsVerifiable(pruned, id, createdAt, body);
      forall after: int, limit: nat
        ensures PageReport(pruned.store, after, limit).breaks == []
        ensures PageReport(grown.store, after, limit).breaks == []
      {
        SoundIsClean(pruned, after, limit);
        SoundIsClean(grown, after, limit);
      }
    } else {
      LeftBehindShows(l, cutoff, batch, sealedAt, id, createdAt, body);
    }
  }
}
