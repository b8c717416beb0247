/** The audit log as the services change it: one locked head, one table of rows, one of checkpoints. */
module AuditStore {
  import opened Common
  import opened AuditChain
  import opened AuditVerification
  import opened AuditBatches
  import opened AuditRuns
  import opened AuditRetention

  class AuditLog {
    var rows: seq<Event>
    var head: Option<Head>
    var checkpoints: seq<Checkpoint>

    function State(): Store
      reads this
    {
      Store(rows, head, checkpoints)
    }

    constructor ()
      ensures State() == Store([], None, [])
    {
      rows, head, checkpoints := [], None, [];
    }

    /** The head row, created on first use. */
    method LockedHead() returns (h: Head)
      modifies this`head
      ensures h == HeadOf(old(State())) && head == Some(h)
    {
      if head.None? {
        head := Some(Head(0, Blank, 1));
      }
      h := head.value;
    }

    /** Numbers, links and signs an event, moves the head onto it and stores it. */
    method WriteEvent(id: string, createdAt: int, body: string) returns (row: Event)
      modifies this
      ensures row == Linked(old(State()), id, createdAt, body)
      ensures State() == Append(old(State()), id, createdAt, body)
      ensures row.id == id && row.createdAt == createdAt && row.body == body && rows == old(rows) + [row]
      ensures var before := if old(head).Some? then old(head).value else Head(0, Blank, 1);
              && row.num == before.num + 1 && row.prev == before.hash
              && row.hash == EventMac(EventPayload(row.num, id, createdAt, body), before.hash)
              && head == Some(Head(row.num, row.hash, before.chainFrom))
    {
      var h := LockedHead();
      row := Event(h.num + 1, id, createdAt, body, h.hash, Blank);
      row := row.(hash := SignEvent(row));
      head := Some(Head(row.num, row.hash, h.chainFrom));
      rows := rows + [row];
    }

    /** Signs a checkpoint onto the latest one. */
    method SealPrunedRange(fromSeq: int, toSeq: int, prunedCount: int, lastEventHash: Hash, createdAt: int)
      modifies this`checkpoints
      ensures var payload := CheckpointPayload(createdAt, fromSeq, toSeq, prunedCount, lastEventHash);
              checkpoints == old(checkpoints) + [Sealed(old(checkpoints), payload)]
    {
      var payload := CheckpointPayload(createdAt, fromSeq, toSeq, prunedCount, lastEventHash);
      var prev := Blank;
      match LatestCheckpoint(checkpoints) {
        case Some(c) => prev := c.hash;
        case None =>
      }
      checkpoints := checkpoints + [Checkpoint(payload, prev, CheckpointMac(payload, prev))];
    }

    /** Seals and deletes the first `batch` rows older than the cutoff. */
    method PruneAuditEvents(cutoff: int, batch: nat, now: int) returns (deleted: int)
      modifies this
      ensures State() == Prune(old(State()), cutoff, batch, now)
      ensures deleted == |old(rows)| - |rows|
      ensures DistinctIds(old(rows)) ==>
                && deleted == Min(batch, DueBefore(old(rows), |old(rows)|, cutoff))
                && (forall i :: 0 <= i < |old(rows)| ==>
                      (old(rows)[i] !in rows <==> Taken(old(rows), cutoff, batch, i)))
    {
      hide Taken, DistinctIds, DueBefore;
      if DistinctIds(rows) {
        PruneCounts(State(), cutoff, batch, now);
        forall i | 0 <= i < |rows|
          ensures rows[i] !in Prune(State(), cutoff, batch, now).rows <==> Taken(rows, cutoff, batch, i)
        {
          PruneTakesExactly(State(), cutoff, batch, now, i);
        }
      }
      var sel := Selected(rows, cutoff, batch);
      if sel == [] {
        return 0;
      }
      var last := sel[|sel| - 1];
      SealPrunedRange(sel[0].num, last.num, |sel|, last.hash, now);
      var before := |rows|;
      rows := Without(rows, Ids(sel));
      deleted := before - |rows|;
    }

    /** Checks a row against the link and the number expected of it. */
    static method CheckRow(row: Event, expectedPrev: Hash, expectedSeq: int) returns (breaks: seq<ChainBreak>)
      ensures breaks == RowBreaks(row, expectedPrev, expectedSeq)
    {
      breaks := [];
      if row.num != expectedSeq {
        breaks := breaks + [ChainBreak(row.num, row.id, SeqGap)];
      }
      if row.prev != expectedPrev {
        breaks := breaks + [ChainBreak(row.num, row.id, PrevHashMismatch)];
      }
      if SignEvent(row) != row.hash {
        breaks := breaks + [ChainBreak(row.num, row.id, EventHashMismatch)];
      }
    }

    /** Walks a page with the link and the number expected of each row. */
    static method ScanPage(page: seq<Event>, anchor: Hash) returns (breaks: seq<ChainBreak>)
      requires page != []
      ensures breaks == BreaksIn(page, anchor, |page|)
    {
      hide RowBreaks;
      breaks := [];
      var expectedPrev, expectedSeq := anchor, page[0].num;
      for i := 0 to |page|
        invariant breaks == BreaksIn(page, anchor, i)
        invariant expectedPrev == if i == 0 then anchor else page[i - 1].hash
        invariant expectedSeq == if i == 0 then page[0].num else page[i - 1].num + 1
      {
        var found := CheckRow(page[i], expectedPrev, expectedSeq);
        breaks := breaks + found;
        expectedPrev := page[i].hash;
        expectedSeq := page[i].num + 1;
      }
    }

    /** One page of verification. */
    method VerifyPage(after: int, limit: nat) returns (page: ChainPage)
      ensures page == PageReport(State(), after, limit)
    {
      hide FirstAfter, FindRow, FindCheckpoint, BreaksIn;
      var start := Max(after, Floor(State()) - 1);
      var pageRows := PageRows(State(), start, limit);
      if pageRows == [] {
        return ChainPage(0, start, [], true);
      }
      var first := pageRows[0];
      var breaks;
      match Predecessor(State(), first) {
        case Some(anchor) =>
          breaks := ScanPage(pageRows, anchor);
        case None =>
          breaks := ScanPage(pageRows, first.prev);
          breaks := [ChainBreak(first.num, first.id, MissingPredecessor)] + breaks;
      }
      page := ChainPage(|pageRows|, pageRows[|pageRows| - 1].num, breaks, |pageRows| < limit);
    }

    /** The verifier job: page after page of one size until the chain is exhausted. */
    method VerifyChain(batch: nat) returns (checked: nat, last: int, breaks: seq<ChainBreak>)
      requires Sorted(rows) && batch >= 1
      ensures checked == |rows| - FirstChecked(State())
      ensures last == LastBefore(State(), |rows|)
      ensures breaks == Walk(State(), Floor(State()) - 1, Constantly(batch), 0).breaks
      ensures Flagged(breaks) == CaughtIn(State(), batch, FirstChecked(State()), |rows|) <= UnlimitedFlags(State())
      ensures NoneAdopted(State()) ==> Flagged(breaks) == UnlimitedFlags(State())
    {
      hide Walk, PageReport, Floor, NoneAdopted, FirstAfter, LastBefore, Caught;
      last := Floor(State()) - 1;
      checked, breaks := 0, [];
      ghost var limits := Constantly(batch);
      ghost var total := Walk(State(), last, limits, 0);
      ghost var k := 0;
      WalkStart(State(), limits);
      JobFlagsExactly(State(), batch);
      var exhausted := false;
      while !exhausted
        invariant WalkPoint(State(), last)
        invariant !exhausted ==> breaks + Walk(State(), last, limits, k).breaks == total.breaks
        invariant !exhausted ==> checked + |Walk(State(), last, limits, k).visited| == |total.visited|
        invariant exhausted ==> breaks == total.breaks && checked == |total.visited|
        invariant exhausted ==> last == LastBefore(State(), |rows|)
        decreases !exhausted, |rows| - FirstAfter(rows, last)
      {
        var page := VerifyPage(last, batch);
        WalkStep(State(), last, limits, k);
        checked := checked + page.checked;
        breaks := breaks + page.breaks;
        last := page.lastSeq;
        exhausted := page.exhausted;
        k := k + 1;
      }
    }
  }

  /** The walk stands right behind the rows it has visited. */
  ghost predicate WalkPoint(s: Store, after: int) {
    Sorted(s.rows) && after >= Floor(s) - 1 && after == LastBefore(s, FirstAfter(s.rows, after))
  }

  lemma WalkStart(s: Store, limits: nat -> nat)
    requires Sorted(s.rows) && Positive(limits)
    ensures WalkPoint(s, Floor(s) - 1)
    ensures var total := Walk(s, Floor(s) - 1, limits, 0);
            && |total.visited| == |s.rows| - FirstChecked(s)
            && Flagged(total.breaks) <= UnlimitedFlags(s)
            && (NoneAdopted(s) ==> Flagged(total.breaks) == UnlimitedFlags(s))
  {
    hide Walk, PageReport, NoneAdopted, Floor, FirstAfter;
    WalkVisitsEachRowOnce(s, Floor(s) - 1, limits, 0);
    UnlimitedPageFlags(s);
  }

  /** One page of a walk, and the point it leads to. */
  lemma WalkStep(s: Store, after: int, limits: nat -> nat, k: nat)
    requires WalkPoint(s, after) && Positive(limits)
    ensures var page, walk := PageReport(s, after, limits(k)), Walk(s, after, limits, k);
            && WalkPoint(s, page.lastSeq)
            && (page.exhausted ==>
                  walk.breaks == page.breaks && |walk.visited| == page.checked
                  && page.lastSeq == LastBefore(s, |s.rows|))
            && (!page.exhausted ==>
                  && FirstAfter(s.rows, page.lastSeq) > FirstAfter(s.rows, after)
                  && walk.breaks == page.breaks + Walk(s, page.lastSeq, limits, k + 1).breaks
                  && |walk.visited| == page.checked + |Walk(s, page.lastSeq, limits, k + 1).visited|)
  {
    var page := PageReport(s, after, limits(k));
    PageSpan(s, after, limits(k));
    PageEnd(s, after, limits(k));
    WalkUnfolds(s, after, limits, k);
    PageCounts(s, after, limits(k));
    hide PageReport, Walk, BreaksIn;
    if page.exhausted {
      EndPoint(s);
    }
  }

  lemma PageCounts(s: Store, after: int, limit: nat)
    requires after >= Floor(s) - 1
    ensures PageReport(s, after, limit).checked == |PageRows(s, after, limit)|
  {
  }

  lemma EndPoint(s: Store)
    requires Sorted(s.rows)
    ensures WalkPoint(s, LastBefore(s, |s.rows|))
  {
    FirstAfterMonotone(s.rows, Floor(s) - 1, LastBefore(s, |s.rows|));
  }
}
