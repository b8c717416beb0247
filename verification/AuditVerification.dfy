/** What a verification pass over any stored chain, honest or corrupted, reports. */
module AuditVerification {
  import opened Common
  import opened AuditChain

  // ----- what the parts mean -----

  /** The floor is the head's, and one where there is no head or the head names none. */
  lemma FloorMeans(s: Store)
    ensures s.head.None? ==> Floor(s) == 1
    ensures s.head.Some? ==> Floor(s) == if s.head.value.chainFrom == 0 then 1 else s.head.value.chainFrom
  {
  }

  /** The latest checkpoint is the first stored one among those with the greatest end. */
  lemma {:induction false} LatestIsGreatest(cs: seq<Checkpoint>) returns (j: nat)
    ensures LatestCheckpoint(cs) == None <==> cs == []
    ensures cs != [] ==>
              && j < |cs| && LatestCheckpoint(cs) == Some(cs[j])
              && (forall k :: 0 <= k < |cs| ==> cs[k].payload.toSeq <= cs[j].payload.toSeq)
              && (forall k :: 0 <= k < j ==> cs[k].payload.toSeq < cs[j].payload.toSeq)
  {
    j := 0;
    if |cs| > 1 {
      var init, last := cs[..|cs| - 1], cs[|cs| - 1];
      j := LatestIsGreatest(init);
      assert forall k :: 0 <= k < |init| ==> init[k] == cs[k];
      if last.payload.toSeq > init[j].payload.toSeq {
        j := |cs| - 1;
      }
    }
  }

  // ----- what a break means -----

  /** The first stored row with a number. */
  ghost predicate FirstNumbered(rows: seq<Event>, j: int, num: int) {
    0 <= j < |rows| && rows[j].num == num && forall k :: 0 <= k < j ==> rows[k].num != num
  }

  /** The first stored checkpoint that ends in a number. */
  ghost predicate FirstEnding(cs: seq<Checkpoint>, j: int, num: int) {
    0 <= j < |cs| && cs[j].payload.toSeq == num && forall k :: 0 <= k < j ==> cs[k].payload.toSeq != num
  }

  /**
   The first row of a page points elsewhere than it should: to nothing at the floor, to the stored
   row numbered one less, or, where there is none, to the end of the range sealed up to there.
   */
  ghost predicate LinkFault(s: Store, first: Event) {
    if first.num <= Floor(s) then first.prev != Blank
    else if exists e :: e in s.rows && e.num == first.num - 1 then
      exists j :: FirstNumbered(s.rows, j, first.num - 1) && first.prev != s.rows[j].hash
    else
      exists j :: FirstEnding(s.checkpoints, j, first.num - 1)
                  && first.prev != s.checkpoints[j].payload.lastEventHash
  }

  /** The fault named by `reason` at row `i` of a page, read off the rows and checkpoints themselves. */
  ghost predicate Fault(s: Store, page: seq<Event>, i: nat, reason: Reason)
    requires i < |page|
  {
    match reason
    case MissingPredecessor =>
      i == 0 && page[0].num > Floor(s)
      && (forall e :: e in s.rows ==> e.num != page[0].num - 1)
      && (forall c :: c in s.checkpoints ==> c.payload.toSeq != page[0].num - 1)
    case SeqGap => i > 0 && page[i].num != page[i - 1].num + 1
    case PrevHashMismatch =>
      if i > 0 then page[i].prev != page[i - 1].hash else LinkFault(s, page[0])
    case EventHashMismatch => page[i].hash != EventMac(Payload(page[i]), page[i].prev)
  }

  lemma {:induction false} FindRowFinds(rows: seq<Event>, num: int)
    ensures FindRow(rows, num).None? <==> forall e :: e in rows ==> e.num != num
    ensures FindRow(rows, num).Some? ==>
              FindRow(rows, num).value in rows && FindRow(rows, num).value.num == num
  {
    if rows != [] {
      FindRowFinds(rows[1..], num);
      assert rows == [rows[0]] + rows[1..];
    }
  }

  lemma {:induction false} FindCheckpointFinds(cs: seq<Checkpoint>, toSeq: int)
    ensures FindCheckpoint(cs, toSeq).None? <==> forall c :: c in cs ==> c.payload.toSeq != toSeq
    ensures FindCheckpoint(cs, toSeq).Some? ==>
              FindCheckpoint(cs, toSeq).value in cs && FindCheckpoint(cs, toSeq).value.payload.toSeq == toSeq
  {
    if cs != [] {
      FindCheckpointFinds(cs[1..], toSeq);
      assert cs == [cs[0]] + cs[1..];
    }
  }

  lemma {:induction false} FindRowFirst(rows: seq<Event>, num: int)
    requires FindRow(rows, num).Some?
    ensures exists j :: FirstNumbered(rows, j, num) && rows[j] == FindRow(rows, num).value
  {
    if rows[0].num == num {
      assert FirstNumbered(rows, 0, num);
    } else {
      FindRowFirst(rows[1..], num);
      var j :| FirstNumbered(rows[1..], j, num) && rows[1..][j] == FindRow(rows[1..], num).value;
      forall k | 0 <= k < j + 1 ensures rows[k].num != num {
        assert k > 0 ==> rows[k] == rows[1..][k - 1];
      }
      assert FirstNumbered(rows, j + 1, num);
    }
  }

  lemma {:induction false} FindCheckpointFirst(cs: seq<Checkpoint>, num: int)
    requires FindCheckpoint(cs, num).Some?
    ensures exists j :: FirstEnding(cs, j, num) && cs[j] == FindCheckpoint(cs, num).value
  {
    if cs[0].payload.toSeq == num {
      assert FirstEnding(cs, 0, num);
    } else {
      FindCheckpointFirst(cs[1..], num);
      var j :| FirstEnding(cs[1..], j, num) && cs[1..][j] == FindCheckpoint(cs[1..], num).value;
      forall k | 0 <= k < j + 1 ensures cs[k].payload.toSeq != num {
        assert k > 0 ==> cs[k] == cs[1..][k - 1];
      }
      assert FirstEnding(cs, j + 1, num);
    }
  }

  /** What a first row is held against is what the stored rows and checkpoints say it should point to. */
  lemma LinkFaultExactly(s: Store, first: Event)
    ensures LinkFault(s, first) <==> Predecessor(s, first).Some? && first.prev != Predecessor(s, first).value
  {
    FindRowFinds(s.rows, first.num - 1);
    FindCheckpointFinds(s.checkpoints, first.num - 1);
    if FindRow(s.rows, first.num - 1).Some? {
      FindRowFirst(s.rows, first.num - 1);
    } else if FindCheckpoint(s.checkpoints, first.num - 1).Some? {
      FindCheckpointFirst(s.checkpoints, first.num - 1);
    }
  }

  /** Row `i` of a page anchored at `anchor` shows break `b`. */
  ghost predicate Shows(page: seq<Event>, anchor: Hash, i: nat, b: ChainBreak)
    requires i < |page|
  {
    && b.num == page[i].num && b.id == page[i].id
    && match b.reason {
      case MissingPredecessor => false
      case SeqGap => i > 0 && page[i].num != page[i - 1].num + 1
      case PrevHashMismatch => page[i].prev != if i == 0 then anchor else page[i - 1].hash
      case EventHashMismatch => page[i].hash != SignEvent(page[i])
    }
  }

  lemma InRowBreaks(e: Event, expectedPrev: Hash, expectedSeq: int, b: ChainBreak)
    ensures b in RowBreaks(e, expectedPrev, expectedSeq) <==>
            && b.num == e.num && b.id == e.id
            && match b.reason {
              case MissingPredecessor => false
              case SeqGap => e.num != expectedSeq
              case PrevHashMismatch => e.prev != expectedPrev
              case EventHashMismatch => e.hash != SignEvent(e)
            }
  {
    hide SignEvent;
  }

  lemma LastRowShows(page: seq<Event>, anchor: Hash, n: nat, b: ChainBreak)
    requires 0 < n <= |page|
    ensures b in BreaksIn(page, anchor, n) <==> b in BreaksIn(page, anchor, n - 1) || Shows(page, anchor, n - 1, b)
  {
    hide RowBreaks, SignEvent;
    if n == 1 {
      InRowBreaks(page[0], anchor, page[0].num, b);
    } else {
      InRowBreaks(page[n - 1], page[n - 2].hash, page[n - 2].num + 1, b);
    }
  }

  lemma {:induction false} BreaksInExactly(page: seq<Event>, anchor: Hash, n: nat, b: ChainBreak)
    requires n <= |page|
    ensures b in BreaksIn(page, anchor, n) <==> exists i :: 0 <= i < n && Shows(page, anchor, i, b)
  {
    if n > 0 {
      LastRowShows(page, anchor, n, b);
      hide Shows, RowBreaks;
      BreaksInExactly(page, anchor, n - 1, b);
    }
  }

  /** What the first row must point back to, its own word being taken when nothing vouches for it. */
  function Anchor(s: Store, first: Event): Hash {
    match Predecessor(s, first)
    case Some(h) => h
    case None => first.prev
  }

  lemma MissingExactly(s: Store, page: seq<Event>)
    requires page != []
    ensures Fault(s, page, 0, MissingPredecessor) <==> Predecessor(s, page[0]).None?
  {
    FindRowFinds(s.rows, page[0].num - 1);
    FindCheckpointFinds(s.checkpoints, page[0].num - 1);
  }

  lemma ShownIsFault(s: Store, page: seq<Event>, i: nat, b: ChainBreak)
    requires i < |page| && b.reason != MissingPredecessor
    ensures Shows(page, Anchor(s, page[0]), i, b) <==>
            b.num == page[i].num && b.id == page[i].id && Fault(s, page, i, b.reason)
  {
    hide LinkFault;
    LinkFaultExactly(s, page[0]);
  }

  ghost predicate ReportsFault(s: Store, page: seq<Event>, i: nat, b: ChainBreak)
    requires i < |page|
  {
    b.num == page[i].num && b.id == page[i].id && Fault(s, page, i, b.reason)
  }

  function Missing(s: Store, first: Event): seq<ChainBreak> {
    if Predecessor(s, first).None? then [ChainBreak(first.num, first.id, MissingPredecessor)] else []
  }

  lemma ReportShape(s: Store, after: int, limit: nat)
    ensures var page := PageRows(s, Max(after, Floor(s) - 1), limit);
            PageReport(s, after, limit).breaks ==
            if page == [] then [] else Missing(s, page[0]) + BreaksIn(page, Anchor(s, page[0]), |page|)
  {
  }

  /** A page reports a break exactly where the stored rows show that fault: nothing missed, nothing invented. */
  lemma PageReportsExactlyTheFaults(s: Store, after: int, limit: nat, b: ChainBreak)
    ensures var page := PageRows(s, Max(after, Floor(s) - 1), limit);
            b in PageReport(s, after, limit).breaks <==>
            exists i :: 0 <= i < |page| && ReportsFault(s, page, i, b)
  {
    ReportShape(s, after, limit);
    ReportedInPage(s, PageRows(s, Max(after, Floor(s) - 1), limit), b);
  }

  /**
   The link of a page's first row is reported exactly when it is wrong: at or below the floor when it
   is not blank, else when it differs from the hash of the row numbered one less, else, that row being
   gone, from the hash sealed by the first stored checkpoint that ends there.
   */
  lemma FirstLinkReportedExactly(s: Store, after: int, limit: nat)
    requires Sorted(s.rows) && PageRows(s, Max(after, Floor(s) - 1), limit) != []
    ensures var first := PageRows(s, Max(after, Floor(s) - 1), limit)[0];
            ChainBreak(first.num, first.id, PrevHashMismatch) in PageReport(s, after, limit).breaks
            <==> LinkFault(s, first)
  {
    var page := PageRows(s, Max(after, Floor(s) - 1), limit);
    var b := ChainBreak(page[0].num, page[0].id, PrevHashMismatch);
    PageReportsExactlyTheFaults(s, after, limit, b);
    hide PageReport, LinkFault, Floor;
    forall i | 0 <= i < |page| && ReportsFault(s, page, i, b) ensures i == 0 {
    }
    assert ReportsFault(s, page, 0, b) <==> LinkFault(s, page[0]);
  }

  lemma ReportedInPage(s: Store, page: seq<Event>, b: ChainBreak)
    ensures page != [] ==>
              (b in Missing(s, page[0]) + BreaksIn(page, Anchor(s, page[0]), |page|) <==>
               exists i :: 0 <= i < |page| && ReportsFault(s, page, i, b))
  {
    if page != [] {
      var anchor := Anchor(s, page[0]);
      MissingExactly(s, page);
      BreaksInExactly(page, anchor, |page|, b);
      if b.reason == MissingPredecessor {
        assert b in Missing(s, page[0]) <==> ReportsFault(s, page, 0, b);
      } else {
        forall i | 0 <= i < |page|
          ensures Shows(page, anchor, i, b) <==> ReportsFault(s, page, i, b)
        {
          ShownIsFault(s, page, i, b);
        }
      }
    }
  }

  // ----- page size -----

  /** Row `i` misfits the row stored before it. */
  ghost predicate Misfit(s: Store, i: nat)
    requires 0 < i < |s.rows|
  {
    || s.rows[i].num != s.rows[i - 1].num + 1
    || s.rows[i].prev != s.rows[i - 1].hash
    || s.rows[i].hash != SignEvent(s.rows[i])
  }

  /** Row `i` is flagged when a page starts there. */
  ghost predicate MisfitAtStart(s: Store, i: nat)
    requires i < |s.rows|
  {
    || Predecessor(s, s.rows[i]).None?
    || s.rows[i].prev != Predecessor(s, s.rows[i]).value
    || s.rows[i].hash != SignEvent(s.rows[i])
  }

  /** A checkpoint vouches for row `i` although rows older than the sealed range are still stored. */
  ghost predicate Adopted(s: Store, i: nat)
    requires 0 < i < |s.rows|
  {
    && s.rows[i].num != s.rows[i - 1].num + 1
    && !MisfitAtStart(s, i)
  }

  function FirstChecked(s: Store): nat {
    FirstAfter(s.rows, Floor(s) - 1)
  }

  ghost predicate Suspect(s: Store, i: nat)
    requires i < |s.rows|
  {
    if i <= FirstChecked(s) then MisfitAtStart(s, i) else Misfit(s, i)
  }

  lemma FirstAfterIs(rows: seq<Event>, after: int, k: nat)
    requires Sorted(rows) && k <= |rows|
    requires k > 0 ==> rows[k - 1].num <= after
    requires k < |rows| ==> rows[k].num > after
    ensures FirstAfter(rows, after) == k
  {
  }

  lemma FirstAfterMonotone(rows: seq<Event>, low: int, high: int)
    requires Sorted(rows) && low <= high
    ensures FirstAfter(rows, low) <= FirstAfter(rows, high)
  {
    var l, h := FirstAfter(rows, low), FirstAfter(rows, high);
    assert h < |rows| ==> rows[h].num > low;
  }

  /** Starting a page at a row or arriving there from the row before gives the same verdict, adoption aside. */
  lemma StartAgrees(s: Store, i: nat)
    requires Sorted(s.rows) && FirstChecked(s) < i < |s.rows|
    ensures MisfitAtStart(s, i) ==> Misfit(s, i)
    ensures !Adopted(s, i) ==> (MisfitAtStart(s, i) <==> Misfit(s, i))
  {
    var row, before := s.rows[i], s.rows[i - 1];
    assert before.num >= Floor(s);
    FindRowFinds(s.rows, row.num - 1);
    if before.num == row.num - 1 {
      assert before in s.rows;
      var found := FindRow(s.rows, row.num - 1).value;
      var j :| 0 <= j < |s.rows| && s.rows[j] == found;
      assert j == i - 1;
    }
  }

  /** Row `i` of a page anchored at `anchor` is flagged for some reason. */
  ghost predicate Flags(page: seq<Event>, anchor: Hash, i: nat)
    requires i < |page|
  {
    || (i > 0 && page[i].num != page[i - 1].num + 1)
    || (page[i].prev != if i == 0 then anchor else page[i - 1].hash)
    || page[i].hash != SignEvent(page[i])
  }

  lemma {:induction false} BreaksInFlag(page: seq<Event>, anchor: Hash, n: nat)
    requires n <= |page|
    ensures Flagged(BreaksIn(page, anchor, n)) ==
            set i {:trigger Flags(page, anchor, i)} | 0 <= i < n && Flags(page, anchor, i) :: page[i].num
  {
    hide Flags, RowBreaks;
    if n > 0 {
      BreaksInFlag(page, anchor, n - 1);
      var last := if n == 1 then RowBreaks(page[0], anchor, page[0].num)
                  else RowBreaks(page[n - 1], page[n - 2].hash, page[n - 2].num + 1);
      RowBreaksFlag(page, anchor, n - 1);
      FlaggedConcat(BreaksIn(page, anchor, n - 1), last);
      assert BreaksIn(page, anchor, n) == BreaksIn(page, anchor, n - 1) + last;
    }
  }

  lemma RowBreaksFlag(page: seq<Event>, anchor: Hash, i: nat)
    requires i < |page|
    ensures Flagged(if i == 0 then RowBreaks(page[0], anchor, page[0].num)
                    else RowBreaks(page[i], page[i - 1].hash, page[i - 1].num + 1)) ==
            if Flags(page, anchor, i) then {page[i].num} else {}
  {
  }

  /** Row `i` is flagged by a page that starts at row `k`. */
  ghost predicate FlaggedFrom(s: Store, k: nat, i: nat)
    requires k <= i < |s.rows|
  {
    if i == k then MisfitAtStart(s, i) else Misfit(s, i)
  }

  lemma PageFlagsAt(s: Store, page: seq<Event>, k: nat, i: nat)
    requires k + |page| <= |s.rows| && page == s.rows[k..k + |page|] && i < |page|
    ensures FlaggedFrom(s, k, k + i) <==>
            Flags(page, Anchor(s, page[0]), i) || (i == 0 && Predecessor(s, page[0]).None?)
  {
    hide Predecessor, SignEvent;
    assert page[i] == s.rows[k + i] && page[0] == s.rows[k];
    assert i > 0 ==> page[i - 1] == s.rows[k + i - 1];
  }

  /** The numbers of the rows a page that starts at row `k` flags. */
  ghost function FlaggedNums(s: Store, k: nat, n: nat): set<int>
    requires n <= |s.rows|
  {
    set i {:trigger FlaggedFrom(s, k, i)} | k <= i < n && FlaggedFrom(s, k, i) :: s.rows[i].num
  }

  ghost function FlagsNums(page: seq<Event>, anchor: Hash): set<int> {
    set i {:trigger Flags(page, anchor, i)} | 0 <= i < |page| && Flags(page, anchor, i) :: page[i].num
  }

  lemma FlaggedHas(s: Store, k: nat, n: nat, i: nat)
    requires k <= i < n <= |s.rows| && FlaggedFrom(s, k, i)
    ensures s.rows[i].num in FlaggedNums(s, k, n)
  {
  }

  lemma FlagsWithin(s: Store, page: seq<Event>, k: nat)
    requires k + |page| <= |s.rows| && page == s.rows[k..k + |page|] && page != []
    ensures FlagsNums(page, Anchor(s, page[0])) <= FlaggedNums(s, k, k + |page|)
    ensures Predecessor(s, page[0]).None? ==> page[0].num in FlaggedNums(s, k, k + |page|)
  {
    hide Flags, FlaggedFrom, Predecessor, Anchor, FlaggedNums;
    var anchor := Anchor(s, page[0]);
    forall num | num in FlagsNums(page, anchor) ensures num in FlaggedNums(s, k, k + |page|) {
      var i :| 0 <= i < |page| && Flags(page, anchor, i) && page[i].num == num;
      PageFlagsAt(s, page, k, i);
      FlaggedHas(s, k, k + |page|, k + i);
      assert page[i] == s.rows[k + i];
    }
    PageFlagsAt(s, page, k, 0);
    if Predecessor(s, page[0]).None? {
      FlaggedHas(s, k, k + |page|, k);
      assert page[0] == s.rows[k];
    }
  }

  lemma FlaggedWithin(s: Store, page: seq<Event>, k: nat, num: int)
    requires k + |page| <= |s.rows| && page == s.rows[k..k + |page|] && page != []
    requires num in FlaggedNums(s, k, k + |page|)
    ensures num in FlagsNums(page, Anchor(s, page[0])) || (Predecessor(s, page[0]).None? && num == page[0].num)
  {
    hide Flags, FlaggedFrom, Predecessor, Anchor;
    var i :| k <= i < k + |page| && FlaggedFrom(s, k, i) && s.rows[i].num == num;
    PageFlagsAt(s, page, k, i - k);
    assert page[i - k] == s.rows[i];
    assert Flags(page, Anchor(s, page[0]), i - k) ==> page[i - k].num in FlagsNums(page, Anchor(s, page[0]));
  }

  lemma PageFlagsIn(s: Store, page: seq<Event>, k: nat)
    requires k + |page| <= |s.rows| && page == s.rows[k..k + |page|] && page != []
    ensures Flagged(Missing(s, page[0]) + BreaksIn(page, Anchor(s, page[0]), |page|))
            == FlaggedNums(s, k, k + |page|)
  {
    hide Flags, FlaggedFrom, Predecessor, Anchor, BreaksIn;
    var anchor := Anchor(s, page[0]);
    var whole, inside, missing := FlaggedNums(s, k, k + |page|), FlagsNums(page, anchor), Flagged(Missing(s, page[0]));
    FlaggedConcat(Missing(s, page[0]), BreaksIn(page, anchor, |page|));
    BreaksInFlag(page, anchor, |page|);
    assert Flagged(BreaksIn(page, anchor, |page|)) == inside;
    assert missing == if Predecessor(s, page[0]).None? then {page[0].num} else {};
    FlagsWithin(s, page, k);
    forall num | num in whole ensures num in missing + inside {
      FlaggedWithin(s, page, k, num);
    }
  }

  lemma PageFlags(s: Store, start: int, limit: nat)
    requires start >= Floor(s) - 1
    ensures var k := FirstAfter(s.rows, start); var n := Min(k + limit, |s.rows|);
            Flagged(PageReport(s, start, limit).breaks) ==
            set i {:trigger FlaggedFrom(s, k, i)} | k <= i < n && FlaggedFrom(s, k, i) :: s.rows[i].num
  {
    ReportShape(s, start, limit);
    hide PageReport, BreaksIn, FlaggedFrom, Floor;
    var page := PageRows(s, start, limit);
    if page != [] {
      PageFlagsIn(s, page, FirstAfter(s.rows, start));
    }
  }

  lemma FlaggedConcat(a: seq<ChainBreak>, b: seq<ChainBreak>)
    ensures Flagged(a + b) == Flagged(a) + Flagged(b)
  {
  }

  /** Sequence numbers of the suspect rows at indices `lo` up to `hi`. */
  ghost function SuspectsIn(s: Store, lo: nat, hi: nat): set<int>
    requires hi <= |s.rows|
  {
    set i {:trigger Suspect(s, i)} | lo <= i < hi && Suspect(s, i) :: s.rows[i].num
  }

  /** No checkpoint vouches for a row across a hole in the checked rows. */
  ghost predicate NoneAdopted(s: Store) {
    forall i :: FirstChecked(s) < i < |s.rows| ==> !Adopted(s, i)
  }

  /** Breaks flag only suspect rows of a range, and all of them when `exactly`. */
  ghost predicate Accounts(s: Store, breaks: seq<ChainBreak>, lo: nat, hi: nat, exactly: bool)
    requires hi <= |s.rows|
  {
    && Flagged(breaks) <= SuspectsIn(s, lo, hi)
    && (exactly ==> Flagged(breaks) == SuspectsIn(s, lo, hi))
  }

  lemma PageSuspects(s: Store, start: int, limit: nat)
    requires Sorted(s.rows) && start >= Floor(s) - 1
    ensures var k := FirstAfter(s.rows, start); var n := Min(k + limit, |s.rows|);
            Accounts(s, PageReport(s, start, limit).breaks, k, n, NoneAdopted(s) || k == FirstChecked(s))
  {
    hide PageReport, MisfitAtStart, Misfit, FirstAfter, Floor;
    PageFlags(s, start, limit);
    FirstAfterMonotone(s.rows, Floor(s) - 1, start);
    var k := FirstAfter(s.rows, start);
    forall i | k <= i < |s.rows|
      ensures FlaggedFrom(s, k, i) ==> Suspect(s, i)
      ensures NoneAdopted(s) || k == FirstChecked(s) ==> (FlaggedFrom(s, k, i) <==> Suspect(s, i))
    {
      if i > FirstChecked(s) {
        StartAgrees(s, i);
      }
    }
  }

  /** Where a page ends, and where the next one starts. */
  lemma PageSpan(s: Store, start: int, limit: nat)
    requires Sorted(s.rows) && start >= Floor(s) - 1 && limit >= 1
    ensures var from := FirstAfter(s.rows, start); var to := Min(from + limit, |s.rows|);
            var page := PageReport(s, start, limit);
            && PageRows(s, start, limit) == s.rows[from..to]
            && (page.exhausted ==> to == |s.rows|)
            && (!page.exhausted ==> page.lastSeq > start && from < to == FirstAfter(s.rows, page.lastSeq))
  {
    hide PageReport, FirstAfter, Floor;
    var from := FirstAfter(s.rows, start);
    var to := Min(from + limit, |s.rows|);
    PageLast(s, start, limit);
    PageEnds(s, start, limit);
    if from < to {
      assert s.rows[from..to][to - from - 1] == s.rows[to - 1];
      FirstAfterIs(s.rows, s.rows[to - 1].num, to);
    }
  }

  lemma PageEnds(s: Store, start: int, limit: nat)
    requires start >= Floor(s) - 1 && limit >= 1
    ensures PageReport(s, start, limit).exhausted <==> |PageRows(s, start, limit)| < limit
  {
    hide PageRows, BreaksIn, Predecessor;
  }

  /** The number of the last row before index `k` that a walk visits, or what the walk starts from. */
  function LastBefore(s: Store, k: nat): int
    requires k <= |s.rows|
  {
    if k <= FirstChecked(s) then Floor(s) - 1 else s.rows[k - 1].num
  }

  lemma PageEnd(s: Store, start: int, limit: nat)
    requires Sorted(s.rows) && start >= Floor(s) - 1 && limit >= 1
    requires start == LastBefore(s, FirstAfter(s.rows, start))
    ensures var to := Min(FirstAfter(s.rows, start) + limit, |s.rows|);
            PageReport(s, start, limit).lastSeq == LastBefore(s, to)
  {
    hide PageReport, FirstAfter, Floor;
    FirstAfterMonotone(s.rows, Floor(s) - 1, start);
    PageLast(s, start, limit);
  }

  lemma PageLast(s: Store, start: int, limit: nat)
    requires start >= Floor(s) - 1
    ensures var rows := PageRows(s, start, limit);
            PageReport(s, start, limit).lastSeq == if rows == [] then start else rows[|rows| - 1].num
  {
    hide PageRows, BreaksIn, Predecessor;
  }

  /** One step of a walk: the rows of a page, then the walk from its end. */
  lemma WalkUnfolds(s: Store, after: int, limits: nat -> nat, k: nat)
    requires Sorted(s.rows) && after >= Floor(s) - 1
    requires forall j: nat :: limits(j) >= 1
    ensures var page := PageReport(s, after, limits(k)); var rows := PageRows(s, after, limits(k));
            Walk(s, after, limits, k) ==
            if page.exhausted then Walked(rows, page.breaks)
            else var rest := Walk(s, page.lastSeq, limits, k + 1);
                 Walked(rows + rest.visited, page.breaks + rest.breaks)
  {
  }

  ghost predicate WalkedFrom(s: Store, walked: Walked, from: nat)
    requires from <= |s.rows|
  {
    walked.visited == s.rows[from..] && Accounts(s, walked.breaks, from, |s.rows|, NoneAdopted(s))
  }

  lemma AccountsJoin(s: Store, lo: nat, mid: nat, hi: nat, a: seq<ChainBreak>, b: seq<ChainBreak>, exactly: bool)
    requires lo <= mid <= hi <= |s.rows|
    requires Accounts(s, a, lo, mid, exactly) && Accounts(s, b, mid, hi, exactly)
    ensures Accounts(s, a + b, lo, hi, exactly)
  {
    FlaggedConcat(a, b);
    assert SuspectsIn(s, lo, hi) == SuspectsIn(s, lo, mid) + SuspectsIn(s, mid, hi);
  }

  lemma WalkJoins(s: Store, from: nat, to: nat, breaks: seq<ChainBreak>, rest: Walked)
    requires from <= to <= |s.rows|
    requires Accounts(s, breaks, from, to, NoneAdopted(s)) && WalkedFrom(s, rest, to)
    ensures WalkedFrom(s, Walked(s.rows[from..to] + rest.visited, breaks + rest.breaks), from)
  {
    hide Suspect;
    AccountsJoin(s, from, to, |s.rows|, breaks, rest.breaks, NoneAdopted(s));
    assert s.rows[from..] == s.rows[from..to] + s.rows[to..];
  }

  /** Any walk visits the checked rows once each, in order, and flags no row that is not suspect. */
  lemma {:induction false} WalkVisitsEachRowOnce(s: Store, after: int, limits: nat -> nat, k: nat)
    requires Sorted(s.rows) && after >= Floor(s) - 1
    requires forall j: nat :: limits(j) >= 1
    ensures WalkedFrom(s, Walk(s, after, limits, k), FirstAfter(s.rows, after))
    decreases |s.rows| - FirstAfter(s.rows, after)
  {
    hide PageReport, PageRows, Suspect, Adopted;
    var page := PageReport(s, after, limits(k));
    PageSpan(s, after, limits(k));
    PageSuspects(s, after, limits(k));
    WalkUnfolds(s, after, limits, k);
    if !page.exhausted {
      WalkVisitsEachRowOnce(s, page.lastSeq, limits, k + 1);
      WalkJoins(s, FirstAfter(s.rows, after), FirstAfter(s.rows, page.lastSeq), page.breaks,
                Walk(s, page.lastSeq, limits, k + 1));
    }
  }

  ghost predicate Positive(limits: nat -> nat) {
    forall j: nat :: limits(j) >= 1
  }

  ghost function WalkFlags(s: Store, limits: nat -> nat): set<int>
    requires Sorted(s.rows) && Positive(limits)
  {
    Flagged(Walk(s, Floor(s) - 1, limits, 0).breaks)
  }

  ghost function UnlimitedFlags(s: Store): set<int> {
    Flagged(PageReport(s, Floor(s) - 1, |s.rows|).breaks)
  }

  /** Every way of paging through the stored chain flags the same sequence numbers as one unlimited page. */
  ghost predicate PageSizeIndependent(s: Store)
    requires Sorted(s.rows)
  {
    forall limits: nat -> nat | Positive(limits) :: WalkFlags(s, limits) == UnlimitedFlags(s)
  }

  lemma UnlimitedPageFlags(s: Store)
    requires Sorted(s.rows)
    ensures UnlimitedFlags(s) == SuspectsIn(s, FirstChecked(s), |s.rows|)
  {
    hide PageReport, Suspect, FirstAfter, Floor;
    PageSuspects(s, Floor(s) - 1, |s.rows|);
  }

  /** A page boundary placed at an adopted row hides the hole in front of it. */
  lemma AdoptedRowEscapes(s: Store, at: nat, limits: nat -> nat)
    requires Sorted(s.rows) && FirstChecked(s) < at < |s.rows| && Adopted(s, at)
    requires limits(0) == at - FirstChecked(s) && Positive(limits)
    ensures s.rows[at].num !in WalkFlags(s, limits)
  {
    hide PageReport, PageRows, Suspect, Adopted;
    var start := Floor(s) - 1;
    var first := PageReport(s, start, limits(0));
    PageSpan(s, start, limits(0));
    PageSuspects(s, start, limits(0));
    WalkUnfolds(s, start, limits, 0);
    AdoptedRowPasses(s, at, first.lastSeq, limits, 1);
    FlaggedConcat(first.breaks, Walk(s, first.lastSeq, limits, 1).breaks);
  }

  lemma AdoptedRowPasses(s: Store, at: nat, after: int, limits: nat -> nat, k: nat)
    requires Sorted(s.rows) && FirstChecked(s) < at < |s.rows| && Adopted(s, at) && Positive(limits)
    requires after >= Floor(s) - 1 && FirstAfter(s.rows, after) == at
    ensures s.rows[at].num !in Flagged(Walk(s, after, limits, k).breaks)
  {
    hide PageReport, PageRows, Walk, Floor, FirstAfter, MisfitAtStart, Suspect;
    var page := PageReport(s, after, limits(k));
    PageSpan(s, after, limits(k));
    AdoptedRowHeads(s, at, after, limits(k));
    WalkUnfolds(s, after, limits, k);
    if !page.exhausted {
      WalkVisitsEachRowOnce(s, page.lastSeq, limits, k + 1);
      FlaggedConcat(page.breaks, Walk(s, page.lastSeq, limits, k + 1).breaks);
    }
  }

  /** The page that starts at an adopted row does not flag it. */
  lemma AdoptedRowHeads(s: Store, at: nat, after: int, limit: nat)
    requires Sorted(s.rows) && FirstChecked(s) < at < |s.rows| && Adopted(s, at) && limit >= 1
    requires after >= Floor(s) - 1 && FirstAfter(s.rows, after) == at
    ensures s.rows[at].num !in Flagged(PageReport(s, after, limit).breaks)
  {
    hide PageReport, PageRows, Floor, FirstAfter, MisfitAtStart;
    PageFlags(s, after, limit);
  }

  /**
   Page size never matters exactly when no checkpoint vouches for a row across a hole. In
   particular it never matters when no checkpoint ends inside the retained range.
   */
  lemma PageSizeNeverMatters(s: Store)
    requires Sorted(s.rows)
    ensures PageSizeIndependent(s) <==> NoneAdopted(s)
  {
    hide PageReport, Walk, MisfitAtStart;
    UnlimitedPageFlags(s);
    if NoneAdopted(s) {
      forall limits: nat -> nat | Positive(limits) ensures WalkFlags(s, limits) == UnlimitedFlags(s) {
        WalkVisitsEachRowOnce(s, Floor(s) - 1, limits, 0);
      }
    } else {
      var at :| FirstChecked(s) < at < |s.rows| && Adopted(s, at);
      AdoptedRowEscapes(s, at, Constantly(at - FirstChecked(s)));
      assert Suspect(s, at);
      assert s.rows[at].num in UnlimitedFlags(s);
    }
  }

  function Constantly(n: nat): nat -> nat {
    (_: nat) => n
  }

  /** No row is adopted when every checkpoint ends below the first stored row, or at or above the last. */
  lemma NoInnerCheckpointNoAdoption(s: Store)
    requires Sorted(s.rows)
    requires forall c :: c in s.checkpoints && s.rows != [] ==>
               c.payload.toSeq < s.rows[0].num || s.rows[|s.rows| - 1].num <= c.payload.toSeq
    ensures NoneAdopted(s)
  {
    hide FirstChecked, Adopted;
    forall i | FirstChecked(s) < i < |s.rows| ensures !Adopted(s, i) {
      NotVouched(s, i);
    }
  }

  lemma NotVouched(s: Store, i: nat)
    requires Sorted(s.rows) && FirstChecked(s) < i < |s.rows|
    requires forall c :: c in s.checkpoints ==>
               c.payload.toSeq < s.rows[0].num || s.rows[|s.rows| - 1].num <= c.payload.toSeq
    ensures !Adopted(s, i)
  {
    hide FirstChecked, SignEvent;
    FindRowFinds(s.rows, s.rows[i].num - 1);
    FindCheckpointFinds(s.checkpoints, s.rows[i].num - 1);
    AboveFloor(s, i);
    hide FindRow, FindCheckpoint, Floor;
    assert s.rows[0].num <= s.rows[i - 1].num < s.rows[i].num <= s.rows[|s.rows| - 1].num;
    if FindRow(s.rows, s.rows[i].num - 1).Some? {
      assert s.rows[i - 1].num <= s.rows[i].num - 1;
      RowBefore(s.rows, i, FindRow(s.rows, s.rows[i].num - 1).value);
    }
  }

  lemma AboveFloor(s: Store, i: nat)
    requires Sorted(s.rows) && FirstChecked(s) < i < |s.rows|
    ensures s.rows[i].num > Floor(s)
  {
    assert s.rows[i - 1].num > Floor(s) - 1;
  }

  /** A stored row numbered one below row `i` is the row before it. */
  lemma RowBefore(rows: seq<Event>, i: nat, e: Event)
    requires Sorted(rows) && 0 < i < |rows| && e in rows && e.num == rows[i].num - 1
    ensures rows[i - 1] == e
  {
    var j :| 0 <= j < |rows| && rows[j] == e;
    assert j < i;
  }

  // ----- tamper evidence -----

  /** One unlimited pass over the chain finds nothing wrong. */
  ghost predicate Clean(s: Store) {
    PageReport(s, Floor(s) - 1, |s.rows|).breaks == []
  }

  /** What a clean pass establishes about the checked rows. */
  lemma CleanRows(s: Store)
    requires Sorted(s.rows) && Clean(s)
    ensures forall i :: FirstChecked(s) <= i < |s.rows| ==> s.rows[i].hash == SignEvent(s.rows[i])
    ensures forall i :: FirstChecked(s) < i < |s.rows| ==>
              s.rows[i].num == s.rows[i - 1].num + 1 && s.rows[i].prev == s.rows[i - 1].hash
  {
    UnlimitedPageFlags(s);
    forall i | FirstChecked(s) <= i < |s.rows|
      ensures s.rows[i].hash == SignEvent(s.rows[i])
      ensures i > FirstChecked(s) ==>
                s.rows[i].num == s.rows[i - 1].num + 1 && s.rows[i].prev == s.rows[i - 1].hash
    {
      assert s.rows[i].num !in UnlimitedFlags(s);
      assert !Suspect(s, i);
    }
  }

  /**
   Two chains that verify clean and agree on the hash of one row carry identical rows at every
   earlier sequence number checked in both.
   */
  lemma {:induction false} TamperEvidence(s: Store, t: Store, i: nat, j: nat, a: nat, b: nat)
    requires Sorted(s.rows) && Sorted(t.rows) && Clean(s) && Clean(t)
    requires FirstChecked(s) <= a <= i < |s.rows| && FirstChecked(t) <= b <= j < |t.rows|
    requires s.rows[i].num == t.rows[j].num && s.rows[i].hash == t.rows[j].hash
    requires s.rows[a].num == t.rows[b].num
    ensures s.rows[a] == t.rows[b]
    decreases i
  {
    CleanRows(s);
    CleanRows(t);
    assert SignEvent(s.rows[i]) == SignEvent(t.rows[j]);
    assert a < i ==> s.rows[i - 1].num < s.rows[i].num;
    if a < i && b < j {
      TamperEvidence(s, t, i - 1, j - 1, a, b);
    }
  }
}
