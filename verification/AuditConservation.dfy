/** Runs whose timestamps follow sequence order: nothing is lost and everything verifies. */
module AuditConservation {
  import opened Common
  import opened AuditChain
  import opened AuditVerification
  import opened AuditRuns

  /** Number of events pruned so far. */
  function PrunedCount(l: Log): int {
    |l.history| - |l.store.rows|
  }

  /** Checkpoint `j` seals the events right after its predecessor's and is signed onto its predecessor. */
  ghost predicate SealAt(l: Log, j: int)
    requires 0 <= j < |l.store.checkpoints|
  {
    var cs, h := l.store.checkpoints, l.history;
    var c := cs[j].payload;
    && c.fromSeq == (if j == 0 then 1 else cs[j - 1].payload.toSeq + 1)
    && 1 <= c.fromSeq <= c.toSeq <= |h|
    && c.prunedCount == c.toSeq - c.fromSeq + 1
    && c.lastEventHash == h[c.toSeq - 1].hash
    && cs[j].prev == (if j == 0 then Blank else cs[j - 1].hash)
    && cs[j].hash == CheckpointMac(c, cs[j].prev)
  }

  /** The checkpoints tile the pruned events, in order, without gap or overlap. */
  ghost predicate Tiled(l: Log) {
    var cs := l.store.checkpoints;
    && (forall j :: 0 <= j < |cs| ==> SealAt(l, j))
    && PrunedCount(l) == if cs == [] then 0 else cs[|cs| - 1].payload.toSeq
  }

  ghost predicate Orderly(l: Log) {
    && Verifiable(l) && ByAge(l.history) && Tiled(l)
    && 0 <= PrunedCount(l) && l.store.rows == l.history[PrunedCount(l)..]
  }

  /** Ids are fresh and timestamps never go back. */
  ghost predicate Admissible(l: Log, op: Op) {
    match op
    case Write(id, createdAt, _) =>
      && id !in Ids(l.store.rows)
      && (l.history == [] || l.history[|l.history| - 1].createdAt <= createdAt)
    case Retire(_, _, _) => true
  }

  ghost predicate AdmissibleRun(l: Log, ops: seq<Op>)
    decreases |ops|
  {
    ops == [] || (Admissible(l, ops[0]) && AdmissibleRun(Step(l, ops[0]), ops[1..]))
  }

  lemma InitialSound(l: Log)
    requires Initial(l)
    ensures Sound(l)
  {
    hide LinkedAt, ByAge, DistinctIds;
    var s := l.store;
    assert HistoryFits(l);
    assert RowsFit(l);
    FirstAfterIs(s.rows, Floor(s) - 1, |s.rows|);
    assert TailFits(l);
  }

  lemma InitialOrderly(l: Log)
    requires Initial(l)
    ensures Orderly(l)
  {
    hide Sound;
    InitialSound(l);
    assert l.history[0..] == l.history;
  }

  lemma WriteKeepsOrderly(l: Log, id: string, createdAt: int, body: string)
    requires Orderly(l) && Admissible(l, Write(id, createdAt, body))
    ensures Orderly(Step(l, Write(id, createdAt, body)))
  {
    hide Verifiable, Linked;
    AppendKeepsVerifiable(l, id, createdAt, body);
    var l' := Step(l, Write(id, createdAt, body));
    assert l'.history[PrunedCount(l)..] == l.history[PrunedCount(l)..] + [Linked(l.store, id, createdAt, body)];
    forall j | 0 <= j < |l'.store.checkpoints| ensures SealAt(l', j) {
      assert SealAt(l, j);
    }
    WriteKeepsByAge(l, id, createdAt, body);
  }

  lemma WriteKeepsByAge(l: Log, id: string, createdAt: int, body: string)
    requires ByAge(l.history) && Admissible(l, Write(id, createdAt, body))
    ensures ByAge(Step(l, Write(id, createdAt, body)).history)
  {
  }

  /** Among rows ordered by age, the selected ones are those at the front. */
  lemma {:induction false} SelectedIsPrefix(rows: seq<Event>, cutoff: int, batch: nat)
    requires ByAge(rows)
    ensures var n := |Selected(rows, cutoff, batch)|; n <= |rows| && Selected(rows, cutoff, batch) == rows[..n]
  {
    if rows != [] && batch != 0 {
      if rows[0].createdAt < cutoff {
        ByAgeTail(rows);
        hide ByAge;
        SelectedIsPrefix(rows[1..], cutoff, batch - 1);
        var m := |Selected(rows[1..], cutoff, batch - 1)|;
        assert [rows[0]] + rows[1..][..m] == rows[..m + 1];
      } else {
        SelectedNone(rows, cutoff, batch);
      }
    }
  }

  lemma ByAgeTail(rows: seq<Event>)
    requires ByAge(rows) && rows != []
    ensures ByAge(rows[1..])
  {
  }

  lemma {:induction false} SelectedNone(rows: seq<Event>, cutoff: int, batch: nat)
    requires forall i :: 0 <= i < |rows| ==> rows[i].createdAt >= cutoff
    ensures Selected(rows, cutoff, batch) == []
  {
    if rows != [] {
      SelectedNone(rows[1..], cutoff, batch);
    }
  }

  lemma PrefixLeavesNoneBehind(s: Store, cutoff: int, batch: nat, n: nat)
    requires n <= |s.rows| && Selected(s.rows, cutoff, batch) == s.rows[..n] && Sorted(s.rows)
    ensures NoneLeftBehind(s, cutoff, batch)
  {
    var sel := s.rows[..n];
    forall i | 0 <= i < |s.rows| ensures s.rows[i] in sel <==> i < n {
      assert forall k :: 0 <= k < n ==> sel[k] == s.rows[k];
      if s.rows[i] in sel {
        var k :| 0 <= k < n && sel[k] == s.rows[i];
        assert k == i;
      }
    }
  }

  lemma {:induction false} LatestIsLast(l: Log, n: nat)
    requires Tiled(l) && n <= |l.store.checkpoints|
    ensures LatestCheckpoint(l.store.checkpoints[..n]) ==
            if n == 0 then None else Some(l.store.checkpoints[n - 1])
  {
    if n > 0 {
      LatestIsLast(l, n - 1);
      assert l.store.checkpoints[..n][..n - 1] == l.store.checkpoints[..n - 1];
      assert SealAt(l, n - 1);
    }
  }

  lemma RetireOrderlyShape(l: Log, cutoff: int, batch: nat, sealedAt: int) returns (n: nat)
    requires Orderly(l)
    ensures n <= |l.store.rows| && Selected(l.store.rows, cutoff, batch) == l.store.rows[..n]
    ensures NoneLeftBehind(l.store, cutoff, batch)
    ensures Prune(l.store, cutoff, batch, sealedAt).rows == l.store.rows[n..]
  {
    hide HistoryFits, TailFits, SealsFit, Tiled, NoneLeftBehind, Selected, Without;
    var rows := l.store.rows;
    RowsByAge(l);
    SelectedIsPrefix(rows, cutoff, batch);
    n := |Selected(rows, cutoff, batch)|;
    PrefixLeavesNoneBehind(l.store, cutoff, batch, n);
    WithoutPrefix(rows, n);
  }

  lemma RowsByAge(l: Log)
    requires Orderly(l)
    ensures ByAge(l.store.rows)
  {
  }

  lemma WithoutPrefix(rows: seq<Event>, n: nat)
    requires DistinctIds(rows) && n <= |rows|
    ensures Without(rows, Ids(rows[..n])) == rows[n..]
  {
    hide Without;
    var gone := Ids(rows[..n]);
    forall i | 0 <= i < |rows| ensures rows[i].id in gone <==> i < n {
      if i < n {
        assert rows[..n][i] == rows[i];
      }
    }
    ThreeParts(rows, 0, n, gone);
    assert rows[..0] == [];
    WithoutNothing([], gone);
  }

  lemma RetireKeepsTiled(l: Log, cutoff: int, batch: nat, sealedAt: int, n: nat)
    requires Orderly(l) && 0 < n <= |l.store.rows|
    requires Selected(l.store.rows, cutoff, batch) == l.store.rows[..n]
    requires Prune(l.store, cutoff, batch, sealedAt).rows == l.store.rows[n..]
    ensures Tiled(Step(l, Retire(cutoff, batch, sealedAt)))
  {
    hide Verifiable, Without, LatestCheckpoint, ByAge;
    var cs := l.store.checkpoints;
    var l' := Step(l, Retire(cutoff, batch, sealedAt));
    LatestIsLast(l, |cs|);
    assert cs[..|cs|] == cs;
    assert Numbered(l.history) by {
      OrderlyNumbered(l);
    }
    assert l.store.rows[0] == l.history[PrunedCount(l)];
    assert l.store.rows[n - 1] == l.history[PrunedCount(l) + n - 1];
    forall j | 0 <= j < |l'.store.checkpoints| ensures SealAt(l', j) {
      if j < |cs| {
        assert SealAt(l, j);
      }
    }
  }

  lemma OrderlyNumbered(l: Log)
    requires Orderly(l)
    ensures Numbered(l.history)
  {
  }

  lemma RetireKeepsOrderly(l: Log, cutoff: int, batch: nat, sealedAt: int)
    requires Orderly(l)
    ensures Orderly(Step(l, Retire(cutoff, batch, sealedAt)))
  {
    hide Verifiable, Prune, ByAge, NoneLeftBehind, Tiled;
    var n := RetireOrderlyShape(l, cutoff, batch, sealedAt);
    if n == 0 {
      PruneNothing(l, cutoff, batch, sealedAt);
    } else {
      PruneKeepsVerifiable(l, cutoff, batch, sealedAt);
      RetireKeepsTiled(l, cutoff, batch, sealedAt, n);
      assert l.store.rows[n..] == l.history[PrunedCount(l) + n..];
    }
  }

  lemma {:induction false} RunKeepsOrderly(l: Log, ops: seq<Op>)
    requires Orderly(l) && AdmissibleRun(l, ops)
    ensures Orderly(Run(l, ops))
    decreases |ops|
  {
    hide Orderly;
    if ops != [] {
      match ops[0] {
        case Write(id, createdAt, body) => WriteKeepsOrderly(l, id, createdAt, body);
        case Retire(cutoff, batch, sealedAt) => RetireKeepsOrderly(l, cutoff, batch, sealedAt);
      }
      RunKeepsOrderly(Step(l, ops[0]), ops[1..]);
    }
  }

  /** Sum of the counts the checkpoints record. */
  function CountSealed(cs: seq<Checkpoint>): int {
    if cs == [] then 0 else CountSealed(cs[..|cs| - 1]) + cs[|cs| - 1].payload.prunedCount
  }

  lemma {:induction false} CountSealedTiled(l: Log, n: nat)
    requires Tiled(l) && n <= |l.store.checkpoints|
    ensures CountSealed(l.store.checkpoints[..n]) == if n == 0 then 0 else l.store.checkpoints[n - 1].payload.toSeq
  {
    if n > 0 {
      CountSealedTiled(l, n - 1);
      assert l.store.checkpoints[..n][..n - 1] == l.store.checkpoints[..n - 1];
      assert SealAt(l, n - 1);
    }
  }

  /**
   From either initial store, after any writes in timestamp order and any retention passes, every
   page verifies, the checkpoints tile the pruned events, and every event is either stored or
   counted by a checkpoint.
   */
  lemma EveryRunVerifiesAndConserves(l: Log, ops: seq<Op>)
    requires Initial(l) && AdmissibleRun(l, ops)
    ensures var end := Run(l, ops);
            && AlwaysClean(end.store)
            && Tiled(end)
            && 0 <= PrunedCount(end) && end.store.rows == end.history[PrunedCount(end)..]
            && CountSealed(end.store.checkpoints) + |end.store.rows| == HeadOf(end.store).num
  {
    hide Run, AdmissibleRun, Initial, AlwaysClean, Tiled, Verifiable, ByAge;
    InitialOrderly(l);
    RunKeepsOrderly(l, ops);
    OrderlyIsClean(Run(l, ops));
    OrderlyConserves(Run(l, ops));
  }

  lemma OrderlyIsClean(l: Log)
    requires Orderly(l)
    ensures AlwaysClean(l.store)
  {
    hide Sound, PageReport;
    assert Sound(l);
    forall after: int, limit: nat ensures PageReport(l.store, after, limit).breaks == [] {
      SoundIsClean(l, after, limit);
    }
  }

  lemma OrderlyConserves(l: Log)
    requires Orderly(l)
    ensures CountSealed(l.store.checkpoints) + |l.store.rows| == HeadOf(l.store).num
  {
    assert HeadOf(l.store).num == |l.history|;
    hide Verifiable, ByAge;
    CountSealedTiled(l, |l.store.checkpoints|);
    assert l.store.checkpoints[..|l.store.checkpoints|] == l.store.checkpoints;
  }

  /** Three events, the second stamped before the first; retention then takes the second alone. */
  function HoleRun(): seq<Op> {
    [Write("a", 10, ""), Write("b", 5, ""), Write("c", 20, ""), Retire(8, 100, 30)]
  }

  /** What that run leaves: the first and the third event. */
  ghost predicate HoleLeft(s: Store, a: Event, c: Event) {
    s.rows == [a, c] && Floor(s) == 1 && a.num == 1 && c.num == 3 && c.id == "c"
  }

  lemma HoleRunLeaves() returns (a: Event, c: Event)
    ensures HoleLeft(Run(Empty(), HoleRun()).store, a, c)
  {
    hide PageReport, Selected, Without, Linked;
    var w1, w2, w3, r := Write("a", 10, ""), Write("b", 5, ""), Write("c", 20, ""), Retire(8, 100, 30);
    var l1 := Step(Empty(), w1);
    var l2 := Step(l1, w2);
    var l3 := Step(l2, w3);
    var l4 := Step(l3, r);
    assert [w1, w2, w3, r][1..] == [w2, w3, r] && [w2, w3, r][1..] == [w3, r] && [w3, r][1..] == [r] && [r][1..] == [];
    assert Run(Empty(), HoleRun()) == Run(l1, [w2, w3, r]) == Run(l2, [w3, r]) == Run(l3, [r]) == Run(l4, []);
    var b := Linked(l1.store, "b", 5, "");
    a, c := Linked(Empty().store, "a", 10, ""), Linked(l2.store, "c", 20, "");
    ThreeWritten(a, b, c);
    assert l3.store.rows == [a, b, c];
    MiddlePruned(a, b, c);
    assert l4.store.rows == [a, c];
  }

  /**
   Out-of-order timestamps open a hole: the second of three events is stamped before the first,
   retention takes it alone, and the next full pass reports a sequence gap at the third.
   */
  lemma TimestampOrderMatters()
    ensures ChainBreak(3, "c", SeqGap) in PageReport(Run(Empty(), HoleRun()).store, 0, 10).breaks
  {
    hide Run, HoleRun;
    var a, c := HoleRunLeaves();
    HoleReported(Run(Empty(), HoleRun()).store, a, c);
  }

  lemma ThreeWritten(a: Event, b: Event, c: Event)
    requires a == Linked(Empty().store, "a", 10, "")
    requires b == Linked(Append(Empty().store, "a", 10, ""), "b", 5, "")
    requires c == Linked(Append(Append(Empty().store, "a", 10, ""), "b", 5, ""), "c", 20, "")
    ensures a.num == 1 && b.num == 2 && c.num == 3
    ensures a.createdAt == 10 && b.createdAt == 5 && c.createdAt == 20
    ensures a.id == "a" && b.id == "b" && c.id == "c"
  {
  }

  lemma MiddlePruned(a: Event, b: Event, c: Event)
    requires a.createdAt == 10 && b.createdAt == 5 && c.createdAt == 20
    requires a.id == "a" && b.id == "b" && c.id == "c"
    ensures Selected([a, b, c], 8, 100) == [b] && Without([a, b, c], Ids([b])) == [a, c]
  {
    assert [a, b, c][1..] == [b, c] && [b, c][1..] == [c];
    assert Selected([c], 8, 99) == [];
    assert Selected([b, c], 8, 100) == [b];
    assert Ids([b]) == {"b"};
    assert Without([c], {"b"}) == [c];
    assert Without([b, c], {"b"}) == [c];
  }

  lemma HoleReported(s: Store, a: Event, c: Event)
    requires s.rows == [a, c] && a.num == 1 && c.num == 3 && c.id == "c" && Floor(s) == 1
    ensures ChainBreak(3, "c", SeqGap) in PageReport(s, 0, 10).breaks
  {
    hide PageReport;
    assert FirstAfter([a, c], 0) == 0;
    assert PageRows(s, 0, 10) == [a, c];
    PageReportsExactlyTheFaults(s, 0, 10, ChainBreak(3, "c", SeqGap));
    assert ReportsFault(s, [a, c], 1, ChainBreak(3, "c", SeqGap));
  }

  /**
   The head hash vouches for the whole past: a stored chain, however it was rewritten, that
   verifies clean and still ends in the last honest event carries only honest rows.
   */
  lemma CleanChainEndingAtTheHeadIsHonest(l: Log, t: Store, j: nat, b: nat)
    requires Verifiable(l) && l.history != [] && |l.history| >= Floor(l.store)
    requires Sorted(t.rows) && Clean(t) && FirstChecked(t) <= b <= j < |t.rows|
    requires t.rows[j].num == |l.history| && t.rows[j].hash == HeadOf(l.store).hash
    requires t.rows[b].num >= Floor(l.store)
    ensures t.rows[b] == l.history[t.rows[b].num - 1]
  {
    hide HistoryFits, RowsFit, TailFits, SealsFit, PageReport, FirstAfter;
    // The same history with nothing pruned.
    var full := Log(Store(l.history, l.store.head, []), l.history);
    FullLogSound(l, full);
    SoundIsClean(full, Floor(l.store) - 1, |l.history|);
    CleanNums(t, b, j);
    HonestRow(l, t.rows[b].num);
    HonestRow(l, |l.history|);
    TamperEvidence(full.store, t, |l.history| - 1, j, t.rows[b].num - 1, b);
  }

  lemma HonestRow(l: Log, num: int)
    requires HistoryFits(l) && 1 <= num <= |l.history|
    ensures l.history[num - 1].num == num
  {
  }

  lemma FullHistoryFits(l: Log, full: Log)
    requires HistoryFits(l) && full == Log(Store(l.history, l.store.head, []), l.history)
    ensures HistoryFits(full) && Floor(full.store) == Floor(l.store)
  {
    hide LinkedAt;
  }

  lemma FullRowsFit(full: Log)
    requires HistoryFits(full) && full.store.rows == full.history
    ensures RowsFit(full) && FirstChecked(full.store) == Floor(full.store) - 1
  {
    hide LinkedAt;
    forall e | e in full.store.rows ensures OfHistory(e, full.history) {
      var i :| 0 <= i < |full.history| && full.history[i] == e;
    }
    FirstAfterIs(full.history, Floor(full.store) - 1, Floor(full.store) - 1);
  }

  lemma FullTailFits(full: Log)
    requires FirstChecked(full.store) == Floor(full.store) - 1 <= |full.history| && full.store.rows == full.history
    requires Floor(full.store) >= 1
    ensures TailFits(full) && Resumes(full) == Floor(full.store) - 1
  {
    hide FirstAfter;
    forall i | FirstChecked(full.store) <= i < |full.store.rows| ensures Retained(full, i) {
    }
  }

  lemma FullLogSound(l: Log, full: Log)
    requires HistoryFits(l) && full == Log(Store(l.history, l.store.head, []), l.history)
    ensures Sound(full) && FirstChecked(full.store) == Floor(l.store) - 1
    ensures Sorted(l.history)
    ensures |l.history| >= Floor(l.store) ==> l.history[|l.history| - 1].hash == HeadOf(l.store).hash
  {
    hide LinkedAt, TailFits, FirstAfter, FirstChecked;
    FullHistoryFits(l, full);
    FullRowsFit(full);
    FullTailFits(full);
  }
}
