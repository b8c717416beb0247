/** What the verifier job, which pages with one batch size, flags of any store, and what it misses. */
module AuditBatches {
  import opened Common
  import opened AuditChain
  import opened AuditVerification
  import opened AuditRuns

  /** An adopted row at which a page of the job starts. */
  ghost predicate Escapes(s: Store, batch: nat, i: nat)
    requires batch >= 1
  {
    FirstChecked(s) < i < |s.rows| && (i - FirstChecked(s)) % batch == 0 && Adopted(s, i)
  }

  /** The row is suspect and does not escape. */
  ghost predicate Caught(s: Store, batch: nat, i: nat)
    requires batch >= 1 && i < |s.rows|
  {
    Suspect(s, i) && !Escapes(s, batch, i)
  }

  /** Numbers of the rows caught among those at indices `lo` up to `hi`. */
  ghost function CaughtIn(s: Store, batch: nat, lo: nat, hi: nat): set<int>
    requires batch >= 1 && hi <= |s.rows|
  {
    set i {:trigger Caught(s, batch, i)} | lo <= i < hi && Caught(s, batch, i) :: s.rows[i].num
  }

  /** Whether a page that starts at row `k` flags row `i` depends on the batch boundary alone. */
  lemma CaughtByPage(s: Store, batch: nat, k: nat, i: nat)
    requires Sorted(s.rows) && batch >= 1 && FirstChecked(s) <= k <= i < |s.rows| && i < k + batch
    requires (k - FirstChecked(s)) % batch == 0
    ensures FlaggedFrom(s, k, i) <==> Caught(s, batch, i)
  {
    hide FirstChecked, Misfit, MisfitAtStart;
    if i > FirstChecked(s) {
      StartAgrees(s, i);
      AdoptedMisfits(s, i);
    }
    if k < i {
      NotAtBoundary(k - FirstChecked(s), i - k, batch);
    }
  }

  lemma AdoptedMisfits(s: Store, i: nat)
    requires 0 < i < |s.rows|
    ensures Adopted(s, i) ==> Misfit(s, i) && !MisfitAtStart(s, i)
  {
  }

  lemma NotAtBoundary(start: nat, offset: nat, batch: nat)
    requires batch >= 1 && start % batch == 0 && 0 < offset < batch
    ensures (start + offset) % batch != 0
  {
    var n := start + offset;
    UniqueRemainder(start / batch, offset, n / batch, n % batch, batch);
  }

  lemma NextBoundary(start: nat, batch: nat)
    requires batch >= 1 && start % batch == 0
    ensures (start + batch) % batch == 0
  {
    var n := start + batch;
    assert (start / batch + 1) * batch == start / batch * batch + batch;
    UniqueRemainder(start / batch + 1, 0, n / batch, n % batch, batch);
  }

  lemma PageCatches(s: Store, batch: nat, after: int)
    requires Sorted(s.rows) && batch >= 1 && after >= Floor(s) - 1
    requires (FirstAfter(s.rows, after) - FirstChecked(s)) % batch == 0
    ensures var k := FirstAfter(s.rows, after);
            Flagged(PageReport(s, after, batch).breaks) == CaughtIn(s, batch, k, Min(k + batch, |s.rows|))
  {
    hide PageReport, FlaggedFrom, Caught, FirstAfter, Floor;
    PageFlags(s, after, batch);
    FirstAfterMonotone(s.rows, Floor(s) - 1, after);
    var k := FirstAfter(s.rows, after);
    forall i | k <= i < Min(k + batch, |s.rows|) ensures FlaggedFrom(s, k, i) <==> Caught(s, batch, i) {
      CaughtByPage(s, batch, k, i);
    }
  }

  lemma {:induction false} WalkCatches(s: Store, batch: nat, after: int, k: nat)
    requires Sorted(s.rows) && batch >= 1 && after >= Floor(s) - 1
    requires (FirstAfter(s.rows, after) - FirstChecked(s)) % batch == 0
    ensures Flagged(Walk(s, after, Constantly(batch), k).breaks)
            == CaughtIn(s, batch, FirstAfter(s.rows, after), |s.rows|)
    decreases |s.rows| - FirstAfter(s.rows, after)
  {
    hide PageReport, PageRows, Walk, FirstAfter, Floor, Caught;
    var limits := Constantly(batch);
    var page, from := PageReport(s, after, batch), FirstAfter(s.rows, after);
    PageSpan(s, after, batch);
    PageCatches(s, batch, after);
    WalkUnfolds(s, after, limits, k);
    if !page.exhausted {
      PageIsFull(s, after, batch);
      FirstAfterMonotone(s.rows, Floor(s) - 1, after);
      NextBoundary(from - FirstChecked(s), batch);
      WalkCatches(s, batch, page.lastSeq, k + 1);
      FlaggedConcat(page.breaks, Walk(s, page.lastSeq, limits, k + 1).breaks);
      assert CaughtIn(s, batch, from, |s.rows|)
             == CaughtIn(s, batch, from, from + batch) + CaughtIn(s, batch, from + batch, |s.rows|);
    }
  }

  /** A page that is not the last is full. */
  lemma PageIsFull(s: Store, after: int, batch: nat)
    requires batch >= 1 && after >= Floor(s) - 1 && !PageReport(s, after, batch).exhausted
    ensures FirstAfter(s.rows, after) + batch <= |s.rows|
  {
    PageEnds(s, after, batch);
  }

  /**
   The job with one batch size flags exactly the suspect rows, except those a checkpoint vouches for
   across a hole and that stand a whole number of batches behind the first checked row.
   */
  lemma JobFlagsExactly(s: Store, batch: nat)
    requires Sorted(s.rows) && batch >= 1
    ensures Flagged(Walk(s, Floor(s) - 1, Constantly(batch), 0).breaks)
            == CaughtIn(s, batch, FirstChecked(s), |s.rows|)
  {
    hide Walk, FirstAfter, Floor;
    assert 0 % batch == 0;
    WalkCatches(s, batch, Floor(s) - 1, 0);
  }

  /** A suspect row is missed by the job exactly when it escapes. */
  lemma JobMissesExactly(s: Store, batch: nat, i: nat)
    requires Sorted(s.rows) && batch >= 1 && FirstChecked(s) <= i < |s.rows| && Suspect(s, i)
    ensures s.rows[i].num in UnlimitedFlags(s)
    ensures s.rows[i].num !in Flagged(Walk(s, Floor(s) - 1, Constantly(batch), 0).breaks) <==> Escapes(s, batch, i)
  {
    hide Walk, FirstAfter, Floor, Suspect, Escapes;
    JobFlagsExactly(s, batch);
    UnlimitedPageFlags(s);
    assert Suspect(s, i);
    if s.rows[i].num in CaughtIn(s, batch, FirstChecked(s), |s.rows|) {
      var j :| FirstChecked(s) <= j < |s.rows| && Caught(s, batch, j) && s.rows[j].num == s.rows[i].num;
      assert j == i;
    } else {
      assert !Caught(s, batch, i);
    }
  }

  // ----- every batch size can miss a gap -----

  function Name(n: nat): string {
    seq(n, _ => 'a')
  }

  /** `n` events of one age. */
  function Fillers(n: nat): seq<Op> {
    if n == 0 then [] else Fillers(n - 1) + [Write(Name(n), 10, "")]
  }

  /** Then one stamped earlier and one later; retention takes the one stamped earlier. */
  function HoleAfter(n: nat): seq<Op> {
    Fillers(n) + [Write("b", 5, "")] + [Write("c", 20, "")] + [Retire(8, 100, 30)]
  }

  lemma {:induction false} RunOneMore(l: Log, ops: seq<Op>, op: Op)
    ensures Run(l, ops + [op]) == Step(Run(l, ops), op)
    decreases |ops|
  {
    if ops == [] {
      assert [] + [op] == [op] && [op][1..] == [];
    } else {
      assert (ops + [op])[1..] == ops[1..] + [op];
      RunOneMore(Step(l, ops[0]), ops[1..], op);
    }
  }

  ghost predicate Filled(l: Log, n: nat) {
    && Verifiable(l) && l.store.rows == l.history && |l.history| == n && l.store.checkpoints == []
    && HeadOf(l.store).chainFrom == 1
    && forall i :: 0 <= i < n ==> l.history[i].createdAt == 10 && l.history[i].id == Name(i + 1)
  }

  lemma {:induction false} FillersFill(n: nat)
    ensures Filled(Run(Empty(), Fillers(n)), n)
  {
    if n > 0 {
      var before := Run(Empty(), Fillers(n - 1));
      FillersFill(n - 1);
      RunOneMore(Empty(), Fillers(n - 1), Write(Name(n), 10, ""));
      FillOneMore(before, n - 1);
    }
  }

  lemma FillOneMore(l: Log, n: nat)
    requires Filled(l, n)
    ensures Filled(Step(l, Write(Name(n + 1), 10, "")), n + 1)
  {
    hide Verifiable;
    forall e | e in l.store.rows ensures e.id != Name(n + 1) {
      var i :| 0 <= i < n && l.store.rows[i] == e;
      assert |e.id| == i + 1 && |Name(n + 1)| == n + 1;
    }
    AppendKeepsVerifiable(l, Name(n + 1), 10, "");
  }

  lemma {:induction false} SelectedSkips(rows: seq<Event>, tail: seq<Event>, cutoff: int, batch: nat)
    requires forall i :: 0 <= i < |rows| ==> rows[i].createdAt >= cutoff
    ensures Selected(rows + tail, cutoff, batch) == Selected(tail, cutoff, batch)
  {
    if rows == [] {
      assert rows + tail == tail;
    } else {
      assert (rows + tail)[1..] == rows[1..] + tail;
      SelectedSkips(rows[1..], tail, cutoff, batch);
    }
  }

  /** What the run leaves: the fillers and the last event, and a checkpoint that ends in the one between them. */
  ghost predicate HoleLeft(s: Store, n: nat, b: Event, c: Event) {
    && |s.rows| == n + 1 && s.rows[n] == c && c.num == n + 2 && Floor(s) == 1 && Sorted(s.rows)
    && (forall i :: 0 <= i < n ==> s.rows[i].num == i + 1)
    && c.prev == b.hash && c.hash == SignEvent(c)
    && |s.checkpoints| == 1 && s.checkpoints[0].payload.toSeq == n + 1
    && s.checkpoints[0].payload.lastEventHash == b.hash
  }

  lemma TwoMore(l: Log, n: nat) returns (b: Event, c: Event)
    requires Filled(l, n)
    ensures var two := Step(Step(l, Write("b", 5, "")), Write("c", 20, ""));
            && two.store == Store(l.store.rows + [b, c], Some(Head(n + 2, c.hash, 1)), [])
            && b.num == n + 1 && c.num == n + 2 && b.createdAt == 5 && c.createdAt == 20 && b.id == "b" && c.id == "c"
            && c.prev == b.hash && c.hash == SignEvent(c)
    ensures forall i :: 0 <= i < n ==> l.store.rows[i].num == i + 1
  {
    b := Linked(l.store, "b", 5, "");
    c := Linked(Append(l.store, "b", 5, ""), "c", 20, "");
    assert HeadOf(l.store).num == n;
    assert Append(l.store, "b", 5, "") == Store(l.store.rows + [b], Some(Head(n + 1, b.hash, 1)), []);
    assert l.store.rows + [b] + [c] == l.store.rows + [b, c];
  }

  lemma MiddleSelected(rows: seq<Event>, b: Event, c: Event)
    requires forall i :: 0 <= i < |rows| ==> rows[i].createdAt == 10
    requires b.createdAt == 5 && c.createdAt == 20
    ensures Selected(rows + [b, c], 8, 100) == [b]
  {
    SelectedSkips(rows, [b, c], 8, 100);
    assert [b, c][1..] == [c] && [c][1..] == [];
    assert Selected([c], 8, 99) == [];
  }

  lemma MiddleTaken(rows: seq<Event>, b: Event, c: Event)
    requires forall i :: 0 <= i < |rows| ==> rows[i].id == Name(i + 1)
    requires b.id == "b" && c.id == "c"
    ensures Ids([b]) == {"b"} && Without(rows + [b, c], {"b"}) == rows + [c]
  {
    hide Without;
    forall e | e in rows ensures e.id != "b" {
      var i :| 0 <= i < |rows| && rows[i] == e;
      assert e.id[0] == 'a';
    }
    WithoutNothing(rows, {"b"});
    WithoutConcat(rows, [b, c], {"b"});
    LastKept(b, c);
  }

  lemma LastKept(b: Event, c: Event)
    requires b.id == "b" && c.id == "c"
    ensures Without([b, c], {"b"}) == [c]
  {
    assert [b, c][1..] == [c] && [c][1..] == [];
    assert Without([c], {"b"}) == [c];
  }

  lemma HoleAfterLeaves(n: nat) returns (b: Event, c: Event)
    ensures HoleLeft(Run(Empty(), HoleAfter(n)).store, n, b, c)
  {
    var l, ops := Run(Empty(), Fillers(n)), Fillers(n);
    FillersFill(n);
    RunOneMore(Empty(), ops, Write("b", 5, ""));
    RunOneMore(Empty(), ops + [Write("b", 5, "")], Write("c", 20, ""));
    RunOneMore(Empty(), ops + [Write("b", 5, "")] + [Write("c", 20, "")], Retire(8, 100, 30));
    b, c := TwoMore(l, n);
    MiddleSelected(l.store.rows, b, c);
    MiddleTaken(l.store.rows, b, c);
    hide Run, Fillers, Selected, Without, SignEvent;
  }

  /** The checkpoint vouches for the row behind the hole. */
  lemma HoleVouched(s: Store, n: nat, b: Event, c: Event)
    requires HoleLeft(s, n, b, c)
    ensures Predecessor(s, c) == Some(b.hash)
  {
    hide SignEvent;
    forall e | e in s.rows ensures e.num != n + 1 {
      var j :| 0 <= j < |s.rows| && s.rows[j] == e;
      assert j < n ==> e.num == j + 1;
    }
    FindRowFinds(s.rows, n + 1);
    assert FindCheckpoint(s.checkpoints, n + 1) == Some(s.checkpoints[0]);
  }

  lemma HoleIsAdopted(s: Store, n: nat, b: Event, c: Event)
    requires HoleLeft(s, n, b, c) && n >= 1
    ensures FirstChecked(s) == 0 && Suspect(s, n) && Escapes(s, n, n)
  {
    FirstAfterIs(s.rows, 0, 0);
    HoleVouched(s, n, b, c);
    hide FirstAfter, Predecessor, SignEvent;
    assert s.rows[n - 1].num == n;
    assert n % n == 0;
  }

  /**
   For every batch size there is a run of writes and one prune after which the job with that batch
   size does not report the gap that an unlimited page reports.
   */
  lemma EveryBatchCanMissAGap(batch: nat)
    requires batch >= 1
    ensures var s := Run(Empty(), HoleAfter(batch)).store;
            && Sorted(s.rows) && batch + 2 in UnlimitedFlags(s)
            && batch + 2 !in Flagged(Walk(s, Floor(s) - 1, Constantly(batch), 0).breaks)
  {
    hide Run, HoleAfter, Walk, FirstAfter, Suspect, Escapes;
    var b, c := HoleAfterLeaves(batch);
    var s := Run(Empty(), HoleAfter(batch)).store;
    HoleIsAdopted(s, batch, b, c);
    JobMissesExactly(s, batch, batch);
  }
}
