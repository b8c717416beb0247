/**
 What the reader is guaranteed: every entry from its window on, how often, and after how many reads.
 */
module PortalDelivery {
  import opened Common
  import opened Portal
  import opened PortalRuns

  /** An answered load opens its window at the last `limit` retained rows of the log as it is then. */
  lemma LoadOpensAtNewest(st: State, p: Partition, limit: nat, query: Query)
    requires Legal(st, Load(p, limit, query)) && query != Unanswered
    ensures var s, load := StreamOf(st.log, p), Exec(st, Load(p, limit, query)).reader.loads[p];
            load.size == |s.rows| && load.start == |s.rows| - Min(limit, |s.rows| - s.trimmed)
  {
  }

  /** Retained rows the tail has yet to take. */
  function Pending(st: State, p: Partition): nat
    requires Complete(st.log) && p in st.reader.seeks
  {
    var s := StreamOf(st.log, p);
    |s.rows| - FirstAfter(s.rows, s.trimmed, st.reader.seeks[p])
  }

  /** An entry of the reader's share: at or after its window's start, and passed by the tail. */
  ghost predicate Passed(st: State, p: Partition, i: int) {
    && HasRow(st.log, p, i) && WellFormed(RowAt(st.log, p, i))
    && p in st.reader.loads && p in st.reader.seeks
    && st.reader.loads[p].start <= i && RowAt(st.log, p, i).id <= st.reader.seeks[p]
  }

  /** A replayed row beyond the one with the largest cursor. */
  predicate Repeated(load: Loaded, i: int, id: nat) {
    i < load.size && load.seek < id
  }

  function TimesDelivered(st: State, p: Partition, i: int): nat
    requires HasRow(st.log, p, i) && WellFormed(RowAt(st.log, p, i))
  {
    st.reader.got[EntryOf(RowAt(st.log, p, i))]
  }

  lemma InvAt(st: State, p: Partition, i: int)
    requires Inv(st) && HasRow(st.log, p, i)
    ensures Ordered(StreamOf(st.log, p)) && Placed(st.log, p, i) && Counted(st.log, st.reader, p, i)
    ensures p in st.reader.loads ==>
              p in st.reader.seeks && Tracked(StreamOf(st.log, p), st.reader.loads[p], st.reader.seeks[p])
  {
    hide Sourced, Ordered, Placed, Counted, Tracked, HasRow;
  }

  lemma DueWhenPassed(st: State, p: Partition, i: int)
    requires Inv(st) && Passed(st, p, i)
    ensures Due(st.reader, p, i, RowAt(st.log, p, i).id)
            == if Repeated(st.reader.loads[p], i, RowAt(st.log, p, i).id) then 2 else 1
  {
    hide Replayed, SeekOf, Inv;
    InvAt(st, p, i);
    var s, load := StreamOf(st.log, p), st.reader.loads[p];
    if load.size <= i && load.size > 0 {
      assert s.rows[load.size - 1].id < s.rows[i].id;
    }
  }

  /** With nothing pending, every retained row has been passed. */
  lemma DrainedPasses(st: State, p: Partition, i: int)
    requires Complete(st.log) && p in st.reader.seeks && Pending(st, p) == 0
    requires HasRow(st.log, p, i) && StreamOf(st.log, p).trimmed <= i
    ensures RowAt(st.log, p, i).id <= st.reader.seeks[p]
  {
  }

  lemma CountsAsDue(st: State, p: Partition, i: int)
    requires Inv(st) && Passed(st, p, i) && StreamOf(st.log, p).trimmed <= i
    ensures TimesDelivered(st, p, i) == if Repeated(st.reader.loads[p], i, RowAt(st.log, p, i).id) then 2 else 1
  {
    hide Inv, Tracked, Ordered;
    DueWhenPassed(st, p, i);
    InvAt(st, p, i);
  }

  /**
   Whatever publishers and reader do, and however they interleave: each retained entry from the
   window's start on that the tail has passed was delivered, twice if its replayed row lies beyond
   the row with the largest cursor and once otherwise.
   */
  lemma ReplayThenTailLosesNothing(trace: seq<Step>, p: Partition, i: int)
    requires LegalRun(EMPTY, trace)
    requires var st := Run(EMPTY, trace); Passed(st, p, i) && StreamOf(st.log, p).trimmed <= i
    ensures var st := Run(EMPTY, trace);
            TimesDelivered(st, p, i) == if Repeated(st.reader.loads[p], i, RowAt(st.log, p, i).id) then 2 else 1
  {
    EmptyInv();
    RunKeepsInv(EMPTY, trace);
    CountsAsDue(Run(EMPTY, trace), p, i);
  }

  lemma AtMostTwice(st: State, e: Entry)
    requires Inv(st) && e in st.reader.got
    ensures exists p, i :: Carries(st.log, p, i, e)
    ensures st.reader.got[e] <= 2
  {
    hide LogOk, ReaderOk, AllCounted;
    var p, i :| Carries(st.log, p, i, e);
    hide Inv, Sourced, Tracked, Placed, Ordered;
    InvAt(st, p, i);
  }

  /** Nothing that was never posted is delivered, and nothing more than twice. */
  lemma NothingInvented(trace: seq<Step>, e: Entry)
    requires LegalRun(EMPTY, trace) && e in Run(EMPTY, trace).reader.got
    ensures exists p, i :: Carries(Run(EMPTY, trace).log, p, i, e)
    ensures Run(EMPTY, trace).reader.got[e] <= 2
  {
    EmptyInv();
    RunKeepsInv(EMPTY, trace);
    AtMostTwice(Run(EMPTY, trace), e);
  }

  // ----- exactly once -----

  /** The newest well-formed row of the window. */
  ghost predicate Newest(st: State, p: Partition, j: int) {
    && HasRow(st.log, p, j) && p in st.reader.loads && Replays(st.reader.loads[p], j)
    && WellFormed(RowAt(st.log, p, j))
    && (forall k :: HasRow(st.log, p, k) && j < k < st.reader.loads[p].size ==> !WellFormed(RowAt(st.log, p, k)))
  }

  ghost predicate LeadsWindow(st: State, p: Partition, j: int)
    requires HasRow(st.log, p, j) && p in st.reader.loads
  {
    forall i :: HasRow(st.log, p, i) && Replays(st.reader.loads[p], i) && WellFormed(RowAt(st.log, p, i)) ==>
      RowAt(st.log, p, i).cursor <= RowAt(st.log, p, j).cursor
  }

  ghost predicate DeliveredOnce(st: State, p: Partition, i: int) {
    Passed(st, p, i) && StreamOf(st.log, p).trimmed <= i ==> TimesDelivered(st, p, i) == 1
  }

  /** The row tailing starts at. */
  lemma LargestInWindow(st: State, p: Partition, j: int) returns (at: int)
    requires Inv(st) && Newest(st, p, j)
    ensures HasRow(st.log, p, at) && Replays(st.reader.loads[p], at) && WellFormed(RowAt(st.log, p, at))
    ensures st.reader.loads[p].seek == RowAt(st.log, p, at).id && at <= j && LeadsWindow(st, p, at)
  {
    hide Inv, Replayed, SeekOf, Ordered;
    InvAt(st, p, j);
    var s, load := StreamOf(st.log, p), st.reader.loads[p];
    var rows := s.rows[load.start..load.size];
    var k := SeekIsLargestCursor(rows, load.query);
    assert rows[j - load.start] == s.rows[j];
    at := load.start + k;
    forall i | HasRow(st.log, p, i) && Replays(load, i) && WellFormed(RowAt(st.log, p, i))
      ensures RowAt(st.log, p, i).cursor <= RowAt(st.log, p, at).cursor
    {
      assert rows[i - load.start] == RowAt(st.log, p, i);
    }
  }

  /** Tailing starts at the newest row exactly when that row has the largest cursor. */
  lemma SeekIsNewestExactlyWhenLeading(st: State, p: Partition, j: int)
    requires Inv(st) && Newest(st, p, j)
    ensures st.reader.loads[p].seek == RowAt(st.log, p, j).id <==> LeadsWindow(st, p, j)
    ensures st.reader.loads[p].seek <= RowAt(st.log, p, j).id
  {
    hide Inv, Tracked, Counted;
    var at := LargestInWindow(st, p, j);
    InvAt(st, p, j);
    InvAt(st, p, at);
    assert at < j ==> RowAt(st.log, p, at).id < RowAt(st.log, p, j).id;
    if LeadsWindow(st, p, j) {
      assert RowAt(st.log, p, at).cursor == RowAt(st.log, p, j).cursor;
    }
  }

  lemma OnceExactlyWhenNewestLeads(st: State, p: Partition, j: int)
    requires Inv(st) && Newest(st, p, j) && Passed(st, p, j) && StreamOf(st.log, p).trimmed <= j
    ensures (forall i :: HasRow(st.log, p, i) ==> DeliveredOnce(st, p, i)) <==> LeadsWindow(st, p, j)
  {
    hide Inv, Tracked, Counted, Placed, LeadsWindow;
    SeekIsNewestExactlyWhenLeading(st, p, j);
    CountsAsDue(st, p, j);
    InvAt(st, p, j);
    assert !LeadsWindow(st, p, j) ==> !DeliveredOnce(st, p, j);
    if LeadsWindow(st, p, j) {
      forall i | HasRow(st.log, p, i) ensures DeliveredOnce(st, p, i) {
        if Passed(st, p, i) && StreamOf(st.log, p).trimmed <= i {
          CountsAsDue(st, p, i);
          assert i < j ==> RowAt(st.log, p, i).id < RowAt(st.log, p, j).id;
        }
      }
    }
  }

  /**
   While the newest replayed entry is retained and passed, each retained entry is delivered exactly
   once exactly when that newest entry carries the largest cursor of the window.
   */
  lemma ExactlyOnceExactlyWhenNewestLeads(trace: seq<Step>, p: Partition, j: int)
    requires LegalRun(EMPTY, trace)
    requires var st := Run(EMPTY, trace); Newest(st, p, j) && Passed(st, p, j) && StreamOf(st.log, p).trimmed <= j
    ensures var st := Run(EMPTY, trace);
            (forall i :: HasRow(st.log, p, i) ==> DeliveredOnce(st, p, i)) <==> LeadsWindow(st, p, j)
  {
    EmptyInv();
    RunKeepsInv(EMPTY, trace);
    hide Inv, LegalRun;
    OnceExactlyWhenNewestLeads(Run(EMPTY, trace), p, j);
  }

  // ----- progress -----

  lemma TailAdvances(s: Stream, seek: nat, count: nat)
    requires Ordered(s) && seek <= LastId(s) && count >= 1
    ensures var from := FirstAfter(s.rows, s.trimmed, seek);
            FirstAfter(s.rows, s.trimmed, SeekAfter(Tail(s, seek, count), seek)) == Min(from + count, |s.rows|)
  {
    var from, to := TailTakes(s, seek, count);
    var next := SeekAfter(Tail(s, seek, count), seek);
    var f := FirstAfter(s.rows, s.trimmed, next);
    if from < to {
      assert next == s.rows[to - 1].id;
      assert f < |s.rows| ==> f >= to;
      assert to < |s.rows| ==> s.rows[to].id > next;
    } else {
      assert next == seek;
    }
  }

  /** One read takes the next rows, as many as it asked for; with nothing pending it changes nothing. */
  lemma ReadShrinksPending(st: State, p: Partition, count: nat)
    requires Inv(st) && Legal(st, Read(p, count))
    ensures Pending(Exec(st, Read(p, count)), p) == Max(0, Pending(st, p) - count)
    ensures Pending(st, p) == 0 <==> Tail(StreamOf(st.log, p), st.reader.seeks[p], count) == []
  {
    hide Replayed, SeekOf, LogOk, ReaderOk, Sourced, AllCounted, Ordered, Exec;
    ReaderAt(st.log, st.reader, p);
    ReadExec(st, p, count);
    TailAdvances(StreamOf(st.log, p), st.reader.seeks[p], count);
  }

  /** Reads of one size. */
  function Reads(p: Partition, count: nat, times: nat): seq<Step> {
    if times == 0 then [] else [Read(p, count)] + Reads(p, count, times - 1)
  }

  lemma InvShape(st: State)
    requires Inv(st)
    ensures Complete(st.log) && st.reader.loads.Keys == st.reader.seeks.Keys
  {
    hide LogOk, Sourced, AllCounted;
  }

  lemma ReadStep(st: State, p: Partition, count: nat)
    requires Inv(st) && p in st.reader.loads && count >= 1
    ensures p in st.reader.seeks && Complete(st.log) && Legal(st, Read(p, count))
    ensures var next := Exec(st, Read(p, count));
            && Complete(next.log) && p in next.reader.seeks && p in next.reader.loads && Inv(next)
            && Pending(next, p) == Max(0, Pending(st, p) - count)
  {
    hide Inv, Pending, Tail, SeekAfter;
    InvShape(st);
    StepKeepsInv(st, Read(p, count));
    InvShape(Exec(st, Read(p, count)));
    ReadShrinksPending(st, p, count);
  }

  /** Undisturbed, a backlog is drained by as many reads as it fills, and not by fewer. */
  lemma {:induction false} ReadsDrainExactly(st: State, p: Partition, count: nat, times: nat)
    requires Inv(st) && p in st.reader.loads && count >= 1
    ensures LegalRun(st, Reads(p, count, times))
    ensures var after := Run(st, Reads(p, count, times));
            && p in after.reader.seeks && Complete(after.log)
            && (Pending(after, p) == 0 <==> Pending(st, p) <= times * count)
    decreases times
  {
    hide Inv, Exec, Legal, Pending;
    ReadStep(st, p, count);
    if times > 0 {
      var next := Exec(st, Read(p, count));
      ReadsDrainExactly(next, p, count, times - 1);
      assert Reads(p, count, times)[1..] == Reads(p, count, times - 1);
      assert times * count == (times - 1) * count + count;
    }
  }
}
