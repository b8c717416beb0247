/**
 Trimming and lag: a reader that stays within the length the log is trimmed to loses nothing at all,
 trimmed rows included; and publishers that overtake each other make a replay repeat an entry.
 */
module PortalLag {
  import opened Common
  import opened Portal
  import opened PortalRuns
  import opened PortalDelivery

  /** Rows the tail has passed, trimmed ones included. */
  function PassedRows(s: Stream, seek: nat): nat {
    FirstAfter(s.rows, 0, seek)
  }

  /** An append that trims only rows before the reader's window or passed by its tail. */
  predicate TrimsPassedOnly(st: State, p: Partition, trimTo: nat) {
    p in st.reader.loads && p in st.reader.seeks && Complete(st.log) ==>
      trimTo <= Max(st.reader.loads[p].start, PassedRows(StreamOf(st.log, p), st.reader.seeks[p]))
  }

  predicate KeepsUp(st: State, step: Step, p: Partition) {
    match step
    case Post(q, _, _, _, trimTo) => q == p ==> TrimsPassedOnly(st, p, trimTo)
    case Junk(q, _, trimTo) => q == p ==> TrimsPassedOnly(st, p, trimTo)
    case _ => true
  }

  predicate KeepsUpRun(st: State, trace: seq<Step>, p: Partition)
    requires LegalRun(st, trace)
    decreases |trace|
  {
    trace == [] || (KeepsUp(st, trace[0], p) && KeepsUpRun(Exec(st, trace[0]), trace[1..], p))
  }

  // ----- what becomes of a trimmed row -----

  /** The step trims row `i` of the reader's share before the tail has passed it. */
  predicate Loses(st: State, step: Step, p: Partition, i: nat)
    requires Legal(st, step)
  {
    match step
    case Post(q, _, _, _, trimTo) => q == p && TrimsUnpassed(st, p, trimTo, i)
    case Junk(q, _, trimTo) => q == p && TrimsUnpassed(st, p, trimTo, i)
    case _ => false
  }

  predicate TrimsUnpassed(st: State, p: Partition, trimTo: nat, i: nat)
    requires Complete(st.log)
  {
    && p in st.reader.loads && p in st.reader.seeks
    && Max(st.reader.loads[p].start, PassedRows(StreamOf(st.log, p), st.reader.seeks[p])) <= i
    && StreamOf(st.log, p).trimmed <= i < trimTo
  }

  /** Some step of the run loses the row, if it was not lost before. */
  predicate LostBy(st: State, trace: seq<Step>, p: Partition, i: nat, lost: bool)
    requires LegalRun(st, trace)
    decreases |trace|
  {
    if trace == [] then lost
    else LostBy(Exec(st, trace[0]), trace[1..], p, i, lost || Loses(st, trace[0], p, i))
  }

  /** A row of the reader's share that is trimmed. */
  predicate Gone(log: Log, reader: Reader, p: Partition, i: nat) {
    && Complete(log) && p in reader.loads && p in reader.seeks
    && reader.loads[p].start <= i < StreamOf(log, p).trimmed
  }

  /** A trimmed row was passed, and delivered as due, or lost, and then only replayed. */
  ghost predicate Fate(log: Log, reader: Reader, p: Partition, i: nat, lost: bool) {
    && (lost ==> Gone(log, reader, p, i))
    && (Gone(log, reader, p, i) && WellFormed(StreamOf(log, p).rows[i]) ==>
          FateOf(reader, p, i, StreamOf(log, p).rows[i], lost))
  }

  predicate FateOf(reader: Reader, p: Partition, i: nat, row: Row, lost: bool)
    requires p in reader.loads && p in reader.seeks && WellFormed(row)
  {
    if lost then reader.got[EntryOf(row)] == if Replays(reader.loads[p], i) then 1 else 0
    else row.id <= reader.seeks[p] && reader.got[EntryOf(row)] == Due(reader, p, i, row.id)
  }

  lemma CountedThere(st: State, p: Partition, i: int)
    requires Inv(st) && HasRow(st.log, p, i) && WellFormed(RowAt(st.log, p, i))
    ensures var times := st.reader.got[EntryOf(RowAt(st.log, p, i))];
            && times <= Due(st.reader, p, i, RowAt(st.log, p, i).id)
            && (p in st.reader.loads && Replays(st.reader.loads[p], i) ==> times >= 1)
            && (StreamOf(st.log, p).trimmed <= i ==> times == Due(st.reader, p, i, RowAt(st.log, p, i).id))
  {
    hide Inv, Tracked, Ordered;
    InvAt(st, p, i);
  }

  /** Ids beyond the passed rows lie beyond the tail. */
  lemma UnpassedBeyond(s: Stream, seek: nat, i: nat)
    requires Ordered(s) && i < |s.rows|
    ensures i < PassedRows(s, seek) <==> s.rows[i].id <= seek
  {
    var f := PassedRows(s, seek);
    assert f < i ==> s.rows[f].id < s.rows[i].id;
  }

  lemma AppendKeepsFate(st: State, row: Row, trimTo: nat, p: Partition, i: nat, lost: bool)
    requires Inv(st) && Appendable(st.log, p, row, trimTo) && Fate(st.log, st.reader, p, i, lost)
    ensures Fate(WithRow(st.log, p, row, trimTo), st.reader, p, i, lost || TrimsUnpassed(st, p, trimTo, i))
  {
    hide Inv, FateOf, TrimsUnpassed, WellFormed, LastId;
    AppendKeepsInv(st, p, row, trimTo);
    var next := st.(log := WithRow(st.log, p, row, trimTo));
    AppendedStream(st.log, p, row, trimTo);
    GoneGrows(st, next, p, i, trimTo);
    hide WithRow, Appendable;
    if !Gone(st.log, st.reader, p, i) && Gone(next.log, st.reader, p, i) && WellFormed(StreamOf(next.log, p).rows[i]) {
      NewlyGone(st, next, p, i, trimTo);
    }
  }

  lemma AppendedStream(log: Log, p: Partition, row: Row, trimTo: nat)
    requires Appendable(log, p, row, trimTo)
    ensures var next := WithRow(log, p, row, trimTo);
            && Complete(next) && StreamOf(next, p).rows == StreamOf(log, p).rows + [row]
            && StreamOf(next, p).trimmed == trimTo >= StreamOf(log, p).trimmed
  {
  }

  /** What was trimmed stays trimmed and was not lost now; what is lost now is trimmed now. */
  lemma GoneGrows(st: State, next: State, p: Partition, i: nat, trimTo: nat)
    requires Complete(st.log) && Complete(next.log) && next.reader == st.reader
    requires StreamOf(st.log, p).trimmed <= StreamOf(next.log, p).trimmed == trimTo
    ensures Gone(st.log, st.reader, p, i) ==> Gone(next.log, next.reader, p, i) && !TrimsUnpassed(st, p, trimTo, i)
    ensures TrimsUnpassed(st, p, trimTo, i) ==> Gone(next.log, next.reader, p, i) && !Gone(st.log, st.reader, p, i)
    ensures Gone(next.log, next.reader, p, i) && !Gone(st.log, st.reader, p, i) ==>
              StreamOf(st.log, p).trimmed <= i < trimTo
  {
  }

  /** A row that is trimmed now was passed, and so delivered as due, or is lost. */
  lemma NewlyGone(st: State, next: State, p: Partition, i: nat, trimTo: nat)
    requires Inv(st) && Inv(next) && next.reader == st.reader && Complete(st.log) && Complete(next.log)
    requires StreamOf(st.log, p).rows <= StreamOf(next.log, p).rows
    requires |StreamOf(next.log, p).rows| <= |StreamOf(st.log, p).rows| + 1
    requires StreamOf(next.log, p).trimmed == trimTo && StreamOf(st.log, p).trimmed <= i < trimTo
    requires Gone(next.log, next.reader, p, i) && WellFormed(StreamOf(next.log, p).rows[i])
    ensures FateOf(next.reader, p, i, StreamOf(next.log, p).rows[i], TrimsUnpassed(st, p, trimTo, i))
  {
    hide Inv, PassedRows, EntryOf, WellFormed, Due;
    UnpassedNow(st, next, p, i);
    assert HasRow(next.log, p, i);
    CountedThere(next, p, i);
    DueUnpassed(next.reader, p, i, RowAt(next.log, p, i).id);
    if i < |StreamOf(st.log, p).rows| {
      assert HasRow(st.log, p, i) && RowAt(st.log, p, i) == RowAt(next.log, p, i);
      CountedThere(st, p, i);
    }
  }

  lemma DueUnpassed(reader: Reader, p: Partition, i: nat, id: nat)
    requires p in reader.loads && p in reader.seeks
    ensures reader.seeks[p] < id ==> Due(reader, p, i, id) == if Replays(reader.loads[p], i) then 1 else 0
  {
  }

  /** A row is unpassed by position exactly when it is by id. */
  lemma UnpassedNow(st: State, next: State, p: Partition, i: nat)
    requires Inv(st) && Inv(next) && next.reader == st.reader && Complete(st.log) && Complete(next.log)
    requires p in st.reader.loads && p in st.reader.seeks
    requires StreamOf(st.log, p).rows <= StreamOf(next.log, p).rows
    requires i < |StreamOf(next.log, p).rows| <= |StreamOf(st.log, p).rows| + 1
    ensures PassedRows(StreamOf(st.log, p), st.reader.seeks[p]) <= i
            <==> st.reader.seeks[p] < StreamOf(next.log, p).rows[i].id
    ensures i >= |StreamOf(st.log, p).rows| ==> st.reader.seeks[p] < StreamOf(next.log, p).rows[i].id
  {
    var s, after, seek := StreamOf(st.log, p), StreamOf(next.log, p), st.reader.seeks[p];
    hide Inv, PassedRows, Counted, Tracked, Placed, Ordered;
    if i < |s.rows| {
      assert HasRow(st.log, p, i) && after.rows[i] == s.rows[i];
      InvAt(st, p, i);
      UnpassedBeyond(s, seek, i);
    } else {
      NewRowUnpassed(s, seek);
      NewRowBeyond(st, next, p, i);
    }
  }

  lemma NewRowUnpassed(s: Stream, seek: nat)
    ensures PassedRows(s, seek) <= |s.rows|
  {
  }

  lemma NewRowBeyond(st: State, next: State, p: Partition, i: nat)
    requires Inv(st) && Inv(next) && next.reader == st.reader && p in st.reader.loads && Complete(next.log)
    requires Complete(st.log) && i == |StreamOf(st.log, p).rows| < |StreamOf(next.log, p).rows|
    requires StreamOf(st.log, p).rows <= StreamOf(next.log, p).rows
    ensures p in st.reader.seeks && st.reader.seeks[p] < StreamOf(next.log, p).rows[i].id
  {
    hide Sourced, AllCounted, Replayed, SeekOf;
    ReaderAt(st.log, st.reader, p);
    ReaderAt(next.log, next.reader, p);
    hide LogOk, ReaderOk;
    var s, after := StreamOf(st.log, p), StreamOf(next.log, p);
    if i > 0 {
      assert after.rows[i - 1] == s.rows[i - 1];
    }
  }

  /** Taking a stretch of retained rows leaves trimmed ones as they were. */
  lemma TakingKeepsFate(st: State, next: Reader, q: Partition, from: nat, to: nat, p: Partition, i: nat, lost: bool)
    requires LogOk(st.log) && Fate(st.log, st.reader, p, i, lost)
    requires StreamOf(st.log, q).trimmed <= from <= to <= |StreamOf(st.log, q).rows|
    requires next.got == st.reader.got + multiset(Parsed(StreamOf(st.log, q).rows[from..to]))
    requires p in st.reader.loads && p in st.reader.seeks ==>
               && p in next.loads && p in next.seeks && next.loads[p] == st.reader.loads[p]
               && st.reader.seeks[p] <= next.seeks[p] && st.reader.loads[p].seek <= st.reader.seeks[p]
    requires p !in st.reader.loads || p !in st.reader.seeks ==> !Gone(st.log, next, p, i)
    ensures Fate(st.log, next, p, i, lost)
  {
    if Gone(st.log, next, p, i) && WellFormed(StreamOf(st.log, p).rows[i]) {
      assert HasRow(st.log, p, i) && RowAt(st.log, p, i) == StreamOf(st.log, p).rows[i];
      StretchTimes(st.log, q, from, to, p, i);
    }
  }

  lemma LoadKeepsFate(st: State, q: Partition, limit: nat, query: Query, p: Partition, i: nat, lost: bool)
    requires Inv(st) && Legal(st, Load(q, limit, query)) && Fate(st.log, st.reader, p, i, lost)
    ensures Fate(st.log, AfterLoad(st.log, st.reader, q, limit, query), p, i, lost)
  {
    hide Sourced, AllCounted, Replayed, SeekOf, FallsDue, Parsed, HasRow, Fate;
    var from, to := LoadTakes(st.log, st.reader, q, limit, query);
    if p in st.reader.loads {
      ReaderAt(st.log, st.reader, p);
    }
    hide LogOk, ReaderOk;
    TakingKeepsFate(st, AfterLoad(st.log, st.reader, q, limit, query), q, from, to, p, i, lost);
  }

  lemma ReadKeepsFate(st: State, q: Partition, count: nat, p: Partition, i: nat, lost: bool)
    requires Inv(st) && Legal(st, Read(q, count)) && Fate(st.log, st.reader, p, i, lost)
    ensures Fate(st.log, AfterRead(st.log, st.reader, q, count), p, i, lost)
  {
    hide Sourced, AllCounted, Replayed, SeekOf, Parsed, HasRow, Tail, SeekAfter, Ordered, Fate;
    ReaderAt(st.log, st.reader, q);
    if p in st.reader.loads {
      ReaderAt(st.log, st.reader, p);
    }
    var from, to := TailTakes(StreamOf(st.log, q), st.reader.seeks[q], count);
    hide LogOk, ReaderOk;
    TakingKeepsFate(st, AfterRead(st.log, st.reader, q, count), q, from, to, p, i, lost);
  }

  /** Nothing about the partition changes but what is in flight or in other logs. */
  lemma UntouchedKeepsFate(log: Log, next: Log, reader: Reader, p: Partition, i: nat, lost: bool)
    requires Fate(log, reader, p, i, lost) && Complete(log) && Complete(next)
    requires StreamOf(next, p) == StreamOf(log, p)
    ensures Fate(next, reader, p, i, lost)
  {
  }

  lemma RowKeepsFate(st: State, q: Partition, row: Row, trimTo: nat, p: Partition, i: nat, lost: bool)
    requires Inv(st) && Appendable(st.log, q, row, trimTo) && Fate(st.log, st.reader, p, i, lost)
    ensures Fate(WithRow(st.log, q, row, trimTo), st.reader, p, i,
                 lost || (q == p && TrimsUnpassed(st, p, trimTo, i)))
  {
    hide Inv, Fate, TrimsUnpassed;
    if q == p {
      AppendKeepsFate(st, row, trimTo, p, i, lost);
    } else {
      AppendKeepsRows(st.log, q, row, trimTo);
      UntouchedKeepsFate(st.log, WithRow(st.log, q, row, trimTo), st.reader, p, i, lost);
    }
  }

  lemma StepKeepsFate(st: State, step: Step, p: Partition, i: nat, lost: bool)
    requires Inv(st) && Legal(st, step) && Fate(st.log, st.reader, p, i, lost)
    ensures Fate(Exec(st, step).log, Exec(st, step).reader, p, i, lost || Loses(st, step, p, i))
  {
    hide Inv, AfterLoad, AfterRead, WithRow, TrimsUnpassed, Fate;
    match step {
      case Post(q, cursor, id, envelope, trimTo) =>
        RowKeepsFate(st, q, Row(id, cursor, Some(envelope)), trimTo, p, i, lost);
      case Junk(q, id, trimTo) => RowKeepsFate(st, q, Row(id, 0, None), trimTo, p, i, lost);
      case Load(q, limit, query) => LoadKeepsFate(st, q, limit, query, p, i, lost);
      case Read(q, count) => ReadKeepsFate(st, q, count, p, i, lost);
      case _ => UntouchedKeepsFate(st.log, Exec(st, step).log, st.reader, p, i, lost);
    }
  }

  lemma {:induction false} RunKeepsFate(st: State, trace: seq<Step>, p: Partition, i: nat, lost: bool)
    requires Inv(st) && LegalRun(st, trace) && Fate(st.log, st.reader, p, i, lost)
    ensures Fate(Run(st, trace).log, Run(st, trace).reader, p, i, LostBy(st, trace, p, i, lost))
    decreases |trace|
  {
    hide Inv, Fate, Exec, Legal, Loses;
    if trace != [] {
      StepKeepsInv(st, trace[0]);
      StepKeepsFate(st, trace[0], p, i, lost);
      RunKeepsFate(Exec(st, trace[0]), trace[1..], p, i, lost || Loses(st, trace[0], p, i));
    }
  }

  lemma EmptyFate(p: Partition, i: nat)
    ensures Fate(EMPTY.log, EMPTY.reader, p, i, false)
  {
  }

  /** An entry of the reader's share. */
  ghost predicate InShare(st: State, p: Partition, i: nat) {
    && HasRow(st.log, p, i) && WellFormed(RowAt(st.log, p, i))
    && p in st.reader.loads && p in st.reader.seeks && st.reader.loads[p].start <= i
  }

  lemma DrainedFate(st: State, p: Partition, i: nat, lost: bool)
    requires Inv(st) && Fate(st.log, st.reader, p, i, lost) && InShare(st, p, i) && Pending(st, p) == 0
    ensures TimesDelivered(st, p, i)
            == if lost then if Replays(st.reader.loads[p], i) then 1 else 0
               else if Repeated(st.reader.loads[p], i, RowAt(st.log, p, i).id) then 2 else 1
    ensures !lost ==> Passed(st, p, i)
  {
    hide Inv, Due, Pending;
    if StreamOf(st.log, p).trimmed <= i {
      assert Pending(st, p) == 0;
      DrainedPasses(st, p, i);
      CountsAsDue(st, p, i);
    } else {
      assert Gone(st.log, st.reader, p, i);
      if !lost {
        DueWhenPassed(st, p, i);
      }
    }
  }

  /**
   With nothing pending, an entry of the reader's share was never delivered exactly when some append
   trimmed it before the tail had passed it and it lies beyond the replayed window.
   */
  lemma NeverDeliveredExactlyWhenLost(trace: seq<Step>, p: Partition, i: nat)
    requires LegalRun(EMPTY, trace)
    requires InShare(Run(EMPTY, trace), p, i) && Pending(Run(EMPTY, trace), p) == 0
    ensures var st := Run(EMPTY, trace);
            && (TimesDelivered(st, p, i) == 0 <==>
                LostBy(EMPTY, trace, p, i, false) && !Replays(st.reader.loads[p], i))
            && (!LostBy(EMPTY, trace, p, i, false) ==>
                TimesDelivered(st, p, i) == if Repeated(st.reader.loads[p], i, RowAt(st.log, p, i).id) then 2 else 1)
  {
    EmptyInv();
    EmptyFate(p, i);
    RunKeepsInv(EMPTY, trace);
    RunKeepsFate(EMPTY, trace, p, i, false);
    hide Inv, LegalRun, Run, LostBy, Fate, Pending, TimesDelivered;
    DrainedFate(Run(EMPTY, trace), p, i, LostBy(EMPTY, trace, p, i, false));
  }

  // ----- keeping up -----

  lemma {:induction false} KeepingUpNeverLoses(st: State, trace: seq<Step>, p: Partition, i: nat)
    requires Inv(st) && LegalRun(st, trace) && KeepsUpRun(st, trace, p)
    ensures !LostBy(st, trace, p, i, false)
    decreases |trace|
  {
    hide Inv, Exec;
    if trace != [] {
      StepKeepsInv(st, trace[0]);
      KeepingUpNeverLoses(Exec(st, trace[0]), trace[1..], p, i);
    }
  }

  /** A reader that keeps up is delivered every entry from its window on that it has passed, retained or not. */
  lemma KeepingUpLosesNothing(trace: seq<Step>, p: Partition, i: int)
    requires LegalRun(EMPTY, trace) && KeepsUpRun(EMPTY, trace, p)
    requires Passed(Run(EMPTY, trace), p, i)
    ensures var st := Run(EMPTY, trace);
            TimesDelivered(st, p, i) == if Repeated(st.reader.loads[p], i, RowAt(st.log, p, i).id) then 2 else 1
  {
    EmptyInv();
    EmptyFate(p, i);
    RunKeepsInv(EMPTY, trace);
    RunKeepsFate(EMPTY, trace, p, i, false);
    KeepingUpNeverLoses(EMPTY, trace, p, i);
    hide Inv, LegalRun, Run, KeepsUpRun, LostBy;
    var st := Run(EMPTY, trace);
    if StreamOf(st.log, p).trimmed <= i {
      CountsAsDue(st, p, i);
    } else {
      DueWhenPassed(st, p, i);
      assert Gone(st.log, st.reader, p, i);
    }
  }

  /** And with nothing pending, that is every entry from its window on. */
  lemma KeptUpAndDrained(trace: seq<Step>, p: Partition, i: nat)
    requires LegalRun(EMPTY, trace) && KeepsUpRun(EMPTY, trace, p)
    requires InShare(Run(EMPTY, trace), p, i) && Pending(Run(EMPTY, trace), p) == 0
    ensures Passed(Run(EMPTY, trace), p, i)
  {
    EmptyInv();
    EmptyFate(p, i);
    RunKeepsInv(EMPTY, trace);
    RunKeepsFate(EMPTY, trace, p, i, false);
    KeepingUpNeverLoses(EMPTY, trace, p, i);
    hide Inv, LegalRun, Run, KeepsUpRun, LostBy, Fate, Pending;
    DrainedFate(Run(EMPTY, trace), p, i, false);
  }

  // ----- keeping up as a matter of lengths -----

  /** Rows of the log the reader has yet to pass, trimmed or not. */
  function Backlog(st: State, p: Partition): nat
    requires Complete(st.log) && p in st.reader.seeks
  {
    |StreamOf(st.log, p).rows| - PassedRows(StreamOf(st.log, p), st.reader.seeks[p])
  }

  /** An append leaves the newest `maxlen` rows untrimmed and meets a reader with fewer than that to go. */
  predicate ShortLag(st: State, p: Partition, trimTo: nat, maxlen: nat)
    requires Complete(st.log)
  {
    && trimTo <= Max(StreamOf(st.log, p).trimmed, |StreamOf(st.log, p).rows| + 1 - maxlen)
    && (p in st.reader.loads && p in st.reader.seeks ==> Backlog(st, p) < maxlen)
  }

  predicate ShortLagStep(st: State, step: Step, p: Partition, maxlen: nat)
    requires Legal(st, step)
  {
    match step
    case Post(q, _, _, _, trimTo) => q == p ==> ShortLag(st, p, trimTo, maxlen)
    case Junk(q, _, trimTo) => q == p ==> ShortLag(st, p, trimTo, maxlen)
    case _ => true
  }

  predicate ShortLagRun(st: State, trace: seq<Step>, p: Partition, maxlen: nat)
    requires LegalRun(st, trace)
    decreases |trace|
  {
    trace == [] ||
    (ShortLagStep(st, trace[0], p, maxlen) && ShortLagRun(Exec(st, trace[0]), trace[1..], p, maxlen))
  }

  /** Only rows before the reader's window or passed by its tail are trimmed. */
  predicate Ahead(st: State, p: Partition) {
    Complete(st.log) && (p in st.reader.loads ==> TrimsPassedOnly(st, p, StreamOf(st.log, p).trimmed))
  }

  lemma ShortLagKeepsUp(st: State, step: Step, p: Partition, maxlen: nat)
    requires Legal(st, step) && Ahead(st, p) && ShortLagStep(st, step, p, maxlen)
    ensures KeepsUp(st, step, p)
  {
  }

  lemma PassedRowsGrow(rows: seq<Row>, more: seq<Row>, seek: nat, later: nat)
    requires rows <= more && seek <= later
    ensures FirstAfter(rows, 0, seek) <= FirstAfter(more, 0, later)
  {
    var f, g := FirstAfter(rows, 0, seek), FirstAfter(more, 0, later);
    assert g < |rows| ==> more[g] == rows[g];
  }

  /** What a step does to one partition as the reader sees it. */
  lemma StepGrows(st: State, step: Step, p: Partition)
    requires Inv(st) && Legal(st, step)
    ensures var next := Exec(st, step);
            && Complete(next.log) && StreamOf(st.log, p).rows <= StreamOf(next.log, p).rows
            && (p in next.reader.loads <==> p in next.reader.seeks)
            && (p in st.reader.loads ==>
                  && p in next.reader.loads && p in st.reader.seeks
                  && next.reader.loads[p].start == st.reader.loads[p].start
                  && st.reader.seeks[p] <= next.reader.seeks[p])
            && (p !in st.reader.loads && p in next.reader.loads ==>
                  StreamOf(next.log, p).trimmed <= next.reader.loads[p].start)
            && (StreamOf(next.log, p).trimmed == StreamOf(st.log, p).trimmed
                || (step.Post? && step.partition == p && StreamOf(next.log, p).trimmed == step.trimTo)
                || (step.Junk? && step.partition == p && StreamOf(next.log, p).trimmed == step.trimTo))
  {
    hide Replayed, SeekOf, Tail, SeekAfter, Sourced, AllCounted, Parsed;
    if step.Read? {
      var q := step.partition;
      assert Tracked(StreamOf(st.log, q), st.reader.loads[q], st.reader.seeks[q]) && Ordered(StreamOf(st.log, q));
      var from, to := TailTakes(StreamOf(st.log, q), st.reader.seeks[q], step.count);
    }
  }

  lemma StepKeepsAhead(st: State, step: Step, p: Partition)
    requires Inv(st) && Legal(st, step) && Ahead(st, p) && KeepsUp(st, step, p)
    ensures Ahead(Exec(st, step), p)
  {
    hide Inv, Exec;
    StepGrows(st, step, p);
    var next := Exec(st, step);
    if p in st.reader.loads {
      PassedRowsGrow(StreamOf(st.log, p).rows, StreamOf(next.log, p).rows, st.reader.seeks[p], next.reader.seeks[p]);
    }
  }

  lemma {:induction false} ShortLagRunKeepsUp(st: State, trace: seq<Step>, p: Partition, maxlen: nat)
    requires Inv(st) && LegalRun(st, trace) && Ahead(st, p) && ShortLagRun(st, trace, p, maxlen)
    ensures KeepsUpRun(st, trace, p)
    decreases |trace|
  {
    hide Inv, Exec, Legal, Ahead, KeepsUp, ShortLagStep;
    if trace != [] {
      ShortLagKeepsUp(st, trace[0], p, maxlen);
      StepKeepsInv(st, trace[0]);
      StepKeepsAhead(st, trace[0], p);
      ShortLagRunKeepsUp(Exec(st, trace[0]), trace[1..], p, maxlen);
    }
  }

  /**
   If every append leaves the newest `maxlen` rows and the reader never has `maxlen` rows to go when
   one comes, no entry from its window on is lost, trimmed or not.
   */
  lemma ShortLagLosesNothing(trace: seq<Step>, p: Partition, maxlen: nat, i: int)
    requires LegalRun(EMPTY, trace) && ShortLagRun(EMPTY, trace, p, maxlen)
    requires Passed(Run(EMPTY, trace), p, i)
    ensures var st := Run(EMPTY, trace);
            TimesDelivered(st, p, i) == if Repeated(st.reader.loads[p], i, RowAt(st.log, p, i).id) then 2 else 1
  {
    EmptyInv();
    EmptyComplete();
    hide Inv, LegalRun, Run, ShortLagRun, KeepsUpRun;
    ShortLagRunKeepsUp(EMPTY, trace, p, maxlen);
    KeepingUpLosesNothing(trace, p, i);
  }

  // ----- overtaking publishers -----

  /** Two publishers draw 1 and 2 and append in the other order. */
  function Overtaking(p: Partition, envelope: string): seq<Step> {
    [Draw, Draw] + [Post(p, 2, 1, envelope, 0), Post(p, 1, 2, envelope, 0)]
  }

  /** The reader replays and tails once. */
  function ReplayAndRead(p: Partition): seq<Step> {
    [Load(p, 10, NewestFirst)] + [Read(p, 10)]
  }

  lemma EmptyComplete()
    ensures Complete(EMPTY.log) && forall p: Partition :: StreamOf(EMPTY.log, p) == Stream([], 0)
  {
    EmptyInv();
    forall p: Partition ensures StreamOf(EMPTY.log, p) == Stream([], 0) {
      match p case Critical => case Control => case Live =>
    }
  }

  lemma OvertakingPosts(p: Partition, envelope: string)
    requires Stripped(envelope) != ""
    ensures LegalRun(EMPTY, Overtaking(p, envelope))
    ensures var st := Run(EMPTY, Overtaking(p, envelope));
            && Complete(st.log) && st.reader == EMPTY.reader
            && StreamOf(st.log, p) == Stream([Row(1, 2, Some(envelope)), Row(2, 1, Some(envelope))], 0)
  {
    hide Stripped, Inv, LegalRun, Run;
    EmptyComplete();
    RunTwo(EMPTY, Draw, Draw);
    var drawn := Exec(Exec(EMPTY, Draw), Draw);
    hide EMPTY;
    var a, b := Post(p, 2, 1, envelope, 0), Post(p, 1, 2, envelope, 0);
    var once := Exec(drawn, a);
    assert StreamOf(once.log, p).rows == [Row(1, 2, Some(envelope))];
    RunTwo(drawn, a, b);
    RunAppend(EMPTY, [Draw, Draw], [a, b]);
  }

  lemma ReplayStep(st: State, p: Partition, older: Row, newer: Row)
    requires Complete(st.log) && st.reader == EMPTY.reader && StreamOf(st.log, p) == Stream([older, newer], 0)
    requires WellFormed(older) && WellFormed(newer) && newer.cursor < older.cursor && older.id < newer.id
    ensures var after := AfterLoad(st.log, st.reader, p, 10, NewestFirst);
            && after.loads.Keys == after.seeks.Keys == {p} && after.seeks[p] == older.id
            && after.got == multiset{EntryOf(newer), EntryOf(older)}
  {
    OvertakenReplay(older, newer);
    hide Replayed, WellFormed, Complete;
    assert [older, newer][0..2] == [older, newer];
  }

  lemma ReplayAndReadTwice(st: State, p: Partition, older: Row, newer: Row)
    requires Complete(st.log) && st.reader == EMPTY.reader && StreamOf(st.log, p) == Stream([older, newer], 0)
    requires WellFormed(older) && WellFormed(newer) && newer.cursor < older.cursor && older.id < newer.id
    ensures LegalRun(st, ReplayAndRead(p))
    ensures Run(st, ReplayAndRead(p)).reader.got[EntryOf(newer)] == 2
  {
    hide Replayed, Tail, Parsed, WellFormed, LegalRun, Run, AfterLoad, AfterRead, Complete, SeekAfter;
    OvertakenReplay(older, newer);
    ReplayStep(st, p, older, newer);
    var loaded := Exec(st, Load(p, 10, NewestFirst));
    ReadExec(loaded, p, 10);
    RunTwo(st, Load(p, 10, NewestFirst), Read(p, 10));
    assert ReplayAndRead(p) == [Load(p, 10, NewestFirst), Read(p, 10)];
    assert multiset([EntryOf(newer)]) == multiset{EntryOf(newer)};
  }

  /** Then the entry with the smaller cursor is delivered twice. */
  lemma OvertakingRepeatsAnEntry(p: Partition, envelope: string)
    requires Stripped(envelope) != ""
    ensures LegalRun(EMPTY, Overtaking(p, envelope) + ReplayAndRead(p))
    ensures Run(EMPTY, Overtaking(p, envelope) + ReplayAndRead(p)).reader.got[Entry(2, 1, Stripped(envelope))] == 2
  {
    hide Stripped, LegalRun, Run;
    OvertakingPosts(p, envelope);
    ReplayAndReadTwice(Run(EMPTY, Overtaking(p, envelope)), p, Row(1, 2, Some(envelope)), Row(2, 1, Some(envelope)));
    RunAppend(EMPTY, Overtaking(p, envelope), ReplayAndRead(p));
  }

  lemma OneParsed(row: Row)
    requires WellFormed(row)
    ensures Parsed([row]) == [EntryOf(row)]
  {
    hide WellFormed, EntryOf;
    assert [row][1..] == [];
    assert Parsed([]) == [];
  }

  lemma TwoReplayed(older: Row, newer: Row)
    requires WellFormed(older) && WellFormed(newer) && newer.cursor < older.cursor
    ensures Replayed([older, newer], NewestFirst) == [EntryOf(newer), EntryOf(older)]
  {
    hide WellFormed;
    var e, f := EntryOf(newer), EntryOf(older);
    TwoReversed(older, newer);
    OneParsed(newer);
    OneParsed(older);
    ParsedAppend([newer], [older]);
    assert [newer] + [older] == [newer, older] && [e] + [f] == [e, f];
    hide Reversed, Parsed;
    TwoSorted(e, f);
  }

  lemma TwoReversed(older: Row, newer: Row)
    ensures Reversed([older, newer]) == [newer, older]
  {
    assert [older, newer][1..] == [newer] && [newer][1..] == [];
    assert Reversed([newer]) == [newer];
  }

  lemma TwoSorted(e: Entry, f: Entry)
    requires e.cursor <= f.cursor
    ensures SortByCursor([e, f]) == [e, f]
  {
    assert [e, f][1..] == [f] && [f][1..] == [];
    assert SortByCursor([f]) == [f];
  }

  /** The tail of two rows from the older one on. */
  lemma NewerFollows(older: Row, newer: Row, trimmed: nat, seek: nat, count: nat)
    requires older.id < newer.id && seek < newer.id && count >= 1 && trimmed <= 1
    requires trimmed == 0 ==> older.id <= seek
    ensures Tail(Stream([older, newer], trimmed), seek, count) == [newer]
  {
    assert FirstAfter([older, newer], trimmed, seek) == 1;
    assert [older, newer][1..2] == [newer];
  }

  lemma OvertakenReplay(older: Row, newer: Row)
    requires WellFormed(older) && WellFormed(newer) && newer.cursor < older.cursor && older.id < newer.id
    ensures Replayed([older, newer], NewestFirst) == [EntryOf(newer), EntryOf(older)]
    ensures Tail(Stream([older, newer], 0), older.id, 10) == [newer]
    ensures Parsed([newer]) == [EntryOf(newer)]
  {
    hide WellFormed;
    TwoReplayed(older, newer);
    OneParsed(newer);
    NewerFollows(older, newer, 0, older.id, 10);
  }

  // ----- a reader that is outrun -----

  /** The reader starts on an empty log; two entries come, the second append trims the first; the reader reads. */
  function Outrunning(p: Partition, envelope: string): seq<Step> {
    ([Load(p, 10, NewestFirst), Draw] + [Post(p, 1, 1, envelope, 0), Draw])
    + [Post(p, 2, 2, envelope, 1), Read(p, 10)]
  }

  lemma EmptyLoad(p: Partition)
    ensures Legal(EMPTY, Load(p, 10, NewestFirst))
    ensures var st := Exec(EMPTY, Load(p, 10, NewestFirst));
            && Complete(st.log) && st.log == EMPTY.log && st.log.drawn == {} && st.log.counter == 0
            && StreamOf(st.log, p) == Stream([], 0)
            && st.reader == Reader(map[p := Loaded(0, 0, NewestFirst, 0)], map[p := 0], multiset{})
  {
    EmptyComplete();
    var none: seq<Row> := [];
    assert none[0..0] == none && Reversed(none) == none && Parsed(none) == [] && SortByCursor([]) == [];
  }

  /** The reader is never delivered the first entry, although it ends with nothing pending. */
  lemma OutrunLosesAnEntry(p: Partition, envelope: string)
    requires Stripped(envelope) != ""
    ensures LegalRun(EMPTY, Outrunning(p, envelope))
    ensures var st := Run(EMPTY, Outrunning(p, envelope));
            InShare(st, p, 0) && Pending(st, p) == 0 && TimesDelivered(st, p, 0) == 0
  {
    hide Stripped, LegalRun, Run, AfterLoad, Parsed, Tail, EMPTY;
    var a, b := Row(1, 1, Some(envelope)), Row(2, 2, Some(envelope));
    var first, second := Post(p, 1, 1, envelope, 0), Post(p, 2, 2, envelope, 1);
    EmptyLoad(p);
    var loaded := Exec(EMPTY, Load(p, 10, NewestFirst));
    var drawn := Exec(loaded, Draw);
    RunTwo(EMPTY, Load(p, 10, NewestFirst), Draw);
    var one := Exec(drawn, first);
    assert StreamOf(one.log, p) == Stream([a], 0);
    var again := Exec(one, Draw);
    RunTwo(drawn, first, Draw);
    var two := Exec(again, second);
    assert StreamOf(two.log, p) == Stream([a, b], 1) && two.reader == loaded.reader;
    NewerFollows(a, b, 1, 0, 10);
    OneParsed(b);
    ReadExec(two, p, 10);
    RunTwo(again, second, Read(p, 10));
    RunAppend(EMPTY, [Load(p, 10, NewestFirst), Draw], [first, Draw]);
    RunAppend(EMPTY, [Load(p, 10, NewestFirst), Draw] + [first, Draw], [second, Read(p, 10)]);
    var final := Exec(two, Read(p, 10));
    assert FirstAfter([a, b], 1, 2) == 2;
    assert final.reader.got == multiset{} + multiset([EntryOf(b)]);
  }
}
