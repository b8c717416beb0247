/**
 Whole runs of the backplane: publishers whose cursor draw and append interleave, and one reader
 that replays each of its partitions and then tails it.
 */
module PortalRuns {
  import opened Common
  import opened Portal

  /** The publishers' side: the cursor counter, cursors in flight, the logs, and where each cursor was posted. */
  datatype Log = Log(
    counter: nat,
    drawn: set<nat>,
    streams: map<Partition, Stream>,
    placed: map<nat, (Partition, nat)>)

  /** What a replay saw: window bounds in the log, query order, and where tailing starts. */
  datatype Loaded = Loaded(start: nat, size: nat, query: Query, seek: nat)

  datatype Reader = Reader(loads: map<Partition, Loaded>, seeks: map<Partition, nat>, got: multiset<Entry>)

  datatype State = State(log: Log, reader: Reader)

  /** Posting appends with an id and trims; `Lose` is an append that fails; `Junk` is a row nobody can parse. */
  datatype Step =
    | Draw
    | Post(partition: Partition, cursor: nat, id: nat, envelope: string, trimTo: nat)
    | Lose(cursor: nat)
    | Junk(partition: Partition, id: nat, trimTo: nat)
    | Load(partition: Partition, limit: nat, query: Query)
    | Read(partition: Partition, count: nat)

  predicate Complete(log: Log) {
    Holds(log.streams)
  }

  function StreamOf(log: Log, p: Partition): Stream
    requires Complete(log)
  {
    log.streams[p]
  }

  /** Log ids only grow, and trimming drops old rows only. */
  predicate CanAppend(s: Stream, id: nat, trimTo: nat) {
    LastId(s) < id && s.trimmed <= trimTo <= |s.rows| + 1
  }

  predicate Legal(st: State, step: Step) {
    Complete(st.log) && st.reader.loads.Keys == st.reader.seeks.Keys &&
    match step
    case Draw => true
    case Post(p, cursor, id, envelope, trimTo) =>
      cursor in st.log.drawn && Stripped(envelope) != "" && CanAppend(StreamOf(st.log, p), id, trimTo)
    case Lose(cursor) => cursor in st.log.drawn
    case Junk(p, id, trimTo) => CanAppend(StreamOf(st.log, p), id, trimTo)
    case Load(p, limit, _) => p !in st.reader.loads && limit >= 1
    case Read(p, count) => p in st.reader.loads && count >= 1
  }

  /** Adds a row with a cursor in flight, or with none. */
  function WithRow(log: Log, p: Partition, row: Row, trimTo: nat): Log
    requires Complete(log)
  {
    var s := StreamOf(log, p);
    log.(streams := log.streams[p := Appended(s, row, trimTo)],
         drawn := log.drawn - {row.cursor},
         placed := if row.cursor == 0 then log.placed else log.placed[row.cursor := (p, |s.rows|)])
  }

  function AfterLoad(log: Log, reader: Reader, p: Partition, limit: nat, query: Query): Reader
    requires Complete(log)
  {
    var s := StreamOf(log, p);
    var entries := Replayed(WindowOf(s, limit, query), query);
    Reader(reader.loads[p := Loaded(WindowStart(s, limit, query), WindowEnd(s, query), query, SeekOf(entries))],
           reader.seeks[p := SeekOf(entries)],
           reader.got + multiset(entries))
  }

  function AfterRead(log: Log, reader: Reader, p: Partition, count: nat): Reader
    requires Complete(log) && p in reader.seeks
  {
    var rows := Tail(StreamOf(log, p), reader.seeks[p], count);
    reader.(seeks := reader.seeks[p := SeekAfter(rows, reader.seeks[p])],
            got := reader.got + multiset(Parsed(rows)))
  }

  function Exec(st: State, step: Step): State
    requires Legal(st, step)
  {
    match step
    case Draw => st.(log := st.log.(counter := st.log.counter + 1, drawn := st.log.drawn + {st.log.counter + 1}))
    case Post(p, cursor, id, envelope, trimTo) =>
      st.(log := WithRow(st.log, p, Row(id, cursor, Some(envelope)), trimTo))
    case Lose(cursor) => st.(log := st.log.(drawn := st.log.drawn - {cursor}))
    case Junk(p, id, trimTo) => st.(log := WithRow(st.log, p, Row(id, 0, None), trimTo))
    case Load(p, limit, query) => st.(reader := AfterLoad(st.log, st.reader, p, limit, query))
    case Read(p, count) => st.(reader := AfterRead(st.log, st.reader, p, count))
  }

  predicate LegalRun(st: State, trace: seq<Step>)
    decreases |trace|
  {
    trace == [] || (Legal(st, trace[0]) && LegalRun(Exec(st, trace[0]), trace[1..]))
  }

  function Run(st: State, trace: seq<Step>): State
    requires LegalRun(st, trace)
    decreases |trace|
  {
    if trace == [] then st else Run(Exec(st, trace[0]), trace[1..])
  }

  lemma {:induction false} RunAppend(st: State, first: seq<Step>, second: seq<Step>)
    requires LegalRun(st, first) && LegalRun(Run(st, first), second)
    ensures LegalRun(st, first + second) && Run(st, first + second) == Run(Run(st, first), second)
    decreases |first|
  {
    if first == [] {
      assert first + second == second;
    } else {
      assert (first + second)[1..] == first[1..] + second;
      RunAppend(Exec(st, first[0]), first[1..], second);
    }
  }

  lemma RunOne(st: State, step: Step)
    requires Legal(st, step)
    ensures LegalRun(st, [step]) && Run(st, [step]) == Exec(st, step)
  {
    hide Legal, Exec;
    assert [step][1..] == [];
  }

  lemma RunTwo(st: State, a: Step, b: Step)
    requires Legal(st, a) && Legal(Exec(st, a), b)
    ensures LegalRun(st, [a, b]) && Run(st, [a, b]) == Exec(Exec(st, a), b)
  {
    hide Legal, Exec, LegalRun, Run;
    RunOne(st, a);
    RunOne(Exec(st, a), b);
    RunAppend(st, [a], [b]);
    assert [a] + [b] == [a, b];
  }

  /** A read step in terms of the rows it takes. */
  lemma ReadExec(st: State, p: Partition, count: nat)
    requires Complete(st.log) && st.reader.loads.Keys == st.reader.seeks.Keys && p in st.reader.loads && count >= 1
    ensures Legal(st, Read(p, count))
    ensures var rows, after := Tail(StreamOf(st.log, p), st.reader.seeks[p], count), Exec(st, Read(p, count));
            && after.log == st.log && after.reader.loads == st.reader.loads
            && after.reader.seeks == st.reader.seeks[p := SeekAfter(rows, st.reader.seeks[p])]
            && after.reader.got == st.reader.got + multiset(Parsed(rows))
  {
    hide Tail, SeekAfter, Parsed;
  }

  const EMPTY: State :=
    var none := Stream([], 0);
    State(Log(0, {}, map[Critical := none, Control := none, Live := none], map[]), Reader(map[], map[], multiset{}))

  // ----- what is delivered how often -----

  ghost predicate HasRow(log: Log, p: Partition, i: int) {
    Complete(log) && 0 <= i < |StreamOf(log, p).rows|
  }

  function RowAt(log: Log, p: Partition, i: int): Row
    requires HasRow(log, p, i)
  {
    StreamOf(log, p).rows[i]
  }

  ghost predicate Carries(log: Log, p: Partition, i: int, e: Entry) {
    HasRow(log, p, i) && WellFormed(RowAt(log, p, i)) && EntryOf(RowAt(log, p, i)) == e
  }

  predicate Replays(load: Loaded, i: int) {
    load.start <= i < load.size
  }

  /** The tail has passed this id. */
  predicate Tails(load: Loaded, seek: nat, id: nat) {
    load.seek < id <= seek
  }

  /** How often the reader is due row `i` of partition `p` so far. */
  function Due(reader: Reader, p: Partition, i: int, id: nat): nat {
    if p !in reader.loads || p !in reader.seeks then 0
    else (if Replays(reader.loads[p], i) then 1 else 0)
         + (if Tails(reader.loads[p], reader.seeks[p], id) then 1 else 0)
  }

  /** A row is never delivered more often than due, a replayed one at least once, a retained one exactly as due. */
  ghost predicate Counted(log: Log, reader: Reader, p: Partition, i: int)
    requires HasRow(log, p, i)
  {
    var row := RowAt(log, p, i);
    WellFormed(row) ==>
      var times, due := reader.got[EntryOf(row)], Due(reader, p, i, row.id);
      && times <= due
      && (p in reader.loads && Replays(reader.loads[p], i) ==> times >= 1)
      && (StreamOf(log, p).trimmed <= i ==> times == due)
  }

  // ----- invariants -----

  /** A row's cursor leads back to the row, and is no longer in flight. */
  ghost predicate Placed(log: Log, p: Partition, i: int)
    requires HasRow(log, p, i)
  {
    var cursor := RowAt(log, p, i).cursor;
    cursor > 0 ==> cursor in log.placed && log.placed[cursor] == (p, i as nat)
  }

  ghost predicate LogOk(log: Log) {
    && Complete(log)
    && (forall p: Partition :: Ordered(StreamOf(log, p)))
    && (forall p, i :: HasRow(log, p, i) ==> Placed(log, p, i))
    && (forall c :: c in log.drawn ==> 0 < c <= log.counter && c !in log.placed)
    && (forall c :: c in log.placed ==> c <= log.counter)
  }

  /** The window lies in the log, tailing starts where its replay ends, and never goes beyond the log. */
  ghost predicate Tracked(s: Stream, load: Loaded, seek: nat) {
    && load.start <= load.size <= |s.rows|
    && load.seek == SeekOf(Replayed(s.rows[load.start..load.size], load.query))
    && load.seek <= seek <= LastId(s)
    && (load.size == 0 ==> load.seek == 0)
    && (load.size > 0 ==> load.seek <= s.rows[load.size - 1].id)
  }

  ghost predicate ReaderOk(log: Log, reader: Reader) {
    && Complete(log)
    && reader.loads.Keys == reader.seeks.Keys
    && (forall p :: p in reader.loads ==> Tracked(StreamOf(log, p), reader.loads[p], reader.seeks[p]))
  }

  /** Nothing is delivered that was not posted. */
  ghost predicate Sourced(log: Log, got: multiset<Entry>) {
    forall e :: e in got ==> exists p, i :: Carries(log, p, i, e)
  }

  ghost predicate AllCounted(log: Log, reader: Reader) {
    forall p, i :: HasRow(log, p, i) ==> Counted(log, reader, p, i)
  }

  ghost predicate Inv(st: State) {
    && LogOk(st.log) && ReaderOk(st.log, st.reader)
    && Sourced(st.log, st.reader.got) && AllCounted(st.log, st.reader)
  }

  lemma EmptyInv()
    ensures Inv(EMPTY)
  {
    forall p: Partition ensures p in EMPTY.log.streams && EMPTY.log.streams[p] == Stream([], 0) {
      match p case Critical => case Control => case Live =>
    }
  }

  /** In an ordered log ids compare as positions do. */
  lemma LastIsLargest(s: Stream, i: int)
    requires Ordered(s) && 0 <= i < |s.rows|
    ensures s.rows[i].id <= LastId(s)
  {
  }

  // ----- appending -----

  predicate Appendable(log: Log, p: Partition, row: Row, trimTo: nat) {
    Complete(log) && CanAppend(StreamOf(log, p), row.id, trimTo) && (row.cursor == 0 || row.cursor in log.drawn)
  }

  /** Rows that were there stay where they were. */
  lemma AppendKeepsRows(log: Log, p: Partition, row: Row, trimTo: nat)
    requires Appendable(log, p, row, trimTo)
    ensures var next := WithRow(log, p, row, trimTo);
            && Complete(next)
            && (forall q, i :: HasRow(log, q, i) ==> HasRow(next, q, i) && RowAt(next, q, i) == RowAt(log, q, i))
            && (forall q, i :: HasRow(next, q, i) && !HasRow(log, q, i) ==>
                  q == p && i == |StreamOf(log, p).rows| && RowAt(next, q, i) == row)
  {
  }

  lemma AppendKeepsOrdered(s: Stream, row: Row, trimTo: nat)
    requires Ordered(s) && CanAppend(s, row.id, trimTo)
    ensures Ordered(Appended(s, row, trimTo))
  {
    forall i | 0 <= i < |s.rows| ensures s.rows[i].id < row.id {
      LastIsLargest(s, i);
    }
  }

  lemma AppendKeepsTracked(s: Stream, row: Row, trimTo: nat, load: Loaded, seek: nat)
    requires Tracked(s, load, seek) && CanAppend(s, row.id, trimTo)
    ensures Tracked(Appended(s, row, trimTo), load, seek)
  {
    hide Replayed, SeekOf;
    assert Appended(s, row, trimTo).rows[load.start..load.size] == s.rows[load.start..load.size];
  }

  lemma AppendKeepsLog(log: Log, p: Partition, row: Row, trimTo: nat)
    requires LogOk(log) && Appendable(log, p, row, trimTo)
    ensures LogOk(WithRow(log, p, row, trimTo))
  {
    hide Ordered;
    var next := WithRow(log, p, row, trimTo);
    AppendKeepsRows(log, p, row, trimTo);
    forall q: Partition ensures Ordered(StreamOf(next, q)) {
      assert Ordered(StreamOf(log, q));
      if q == p {
        AppendKeepsOrdered(StreamOf(log, q), row, trimTo);
      }
    }
    forall q, i | HasRow(next, q, i) ensures Placed(next, q, i) {
      if HasRow(log, q, i) {
        assert Placed(log, q, i);
      }
    }
  }

  lemma AppendKeepsReader(log: Log, p: Partition, row: Row, trimTo: nat, reader: Reader)
    requires Appendable(log, p, row, trimTo) && ReaderOk(log, reader)
    ensures ReaderOk(WithRow(log, p, row, trimTo), reader)
  {
    var next := WithRow(log, p, row, trimTo);
    AppendKeepsRows(log, p, row, trimTo);
    hide Tracked;
    forall q | q in reader.loads ensures Tracked(StreamOf(next, q), reader.loads[q], reader.seeks[q]) {
      if q == p {
        AppendKeepsTracked(StreamOf(log, p), row, trimTo, reader.loads[p], reader.seeks[p]);
      }
    }
  }

  lemma AppendKeepsSourced(log: Log, p: Partition, row: Row, trimTo: nat, got: multiset<Entry>)
    requires Appendable(log, p, row, trimTo) && Sourced(log, got)
    ensures Sourced(WithRow(log, p, row, trimTo), got)
  {
    var next := WithRow(log, p, row, trimTo);
    AppendKeepsRows(log, p, row, trimTo);
    hide Complete, WithRow, HasRow;
    forall e | e in got ensures exists q, i :: Carries(next, q, i, e) {
      var q, i :| Carries(log, q, i, e);
      assert Carries(next, q, i, e);
    }
  }

  lemma GotNotDrawn(log: Log, got: multiset<Entry>)
    requires LogOk(log) && Sourced(log, got)
    ensures forall e :: e in got ==> e.cursor !in log.drawn
  {
    forall e | e in got ensures e.cursor !in log.drawn {
      var p, i :| Carries(log, p, i, e);
      assert Placed(log, p, i);
    }
  }

  lemma NewRowNotDue(log: Log, p: Partition, id: nat, reader: Reader)
    requires ReaderOk(log, reader) && LastId(StreamOf(log, p)) < id
    ensures Due(reader, p, |StreamOf(log, p).rows|, id) == 0
    ensures p in reader.loads ==> !Replays(reader.loads[p], |StreamOf(log, p).rows|)
  {
    hide Replayed, SeekOf;
    assert p in reader.loads ==> Tracked(StreamOf(log, p), reader.loads[p], reader.seeks[p]);
  }

  /** A row that was there is counted as before. */
  lemma OldRowCounted(log: Log, next: Log, reader: Reader, q: Partition, i: int)
    requires HasRow(log, q, i) && HasRow(next, q, i) && RowAt(next, q, i) == RowAt(log, q, i)
    requires StreamOf(log, q).trimmed <= StreamOf(next, q).trimmed && Counted(log, reader, q, i)
    ensures Counted(next, reader, q, i)
  {
  }

  /** A new row with a fresh cursor, or none, has not been delivered and is not due yet. */
  lemma NewRowCounted(log: Log, next: Log, reader: Reader, p: Partition, i: int)
    requires Complete(log) && LogOk(log) && ReaderOk(log, reader) && Sourced(log, reader.got)
    requires HasRow(next, p, i) && i == |StreamOf(log, p).rows| && LastId(StreamOf(log, p)) < RowAt(next, p, i).id
    requires RowAt(next, p, i).cursor == 0 || RowAt(next, p, i).cursor in log.drawn
    ensures Counted(next, reader, p, i)
  {
    hide LogOk, ReaderOk, Sourced, Due;
    GotNotDrawn(log, reader.got);
    NewRowNotDue(log, p, RowAt(next, p, i).id, reader);
    assert WellFormed(RowAt(next, p, i)) ==> EntryOf(RowAt(next, p, i)) !in reader.got;
  }

  lemma AppendKeepsCounted(log: Log, p: Partition, row: Row, trimTo: nat, reader: Reader)
    requires Inv(State(log, reader)) && Appendable(log, p, row, trimTo)
    ensures AllCounted(WithRow(log, p, row, trimTo), reader)
  {
    hide LogOk, Sourced, ReaderOk, Counted;
    var next := WithRow(log, p, row, trimTo);
    AppendKeepsRows(log, p, row, trimTo);
    assert forall q: Partition :: StreamOf(log, q).trimmed <= StreamOf(next, q).trimmed;
    hide WithRow;
    forall q, i | HasRow(next, q, i) ensures Counted(next, reader, q, i) {
      if HasRow(log, q, i) {
        OldRowCounted(log, next, reader, q, i);
      } else {
        NewRowCounted(log, next, reader, p, i);
      }
    }
  }

  lemma AppendKeepsInv(st: State, p: Partition, row: Row, trimTo: nat)
    requires Inv(st) && Appendable(st.log, p, row, trimTo)
    ensures Inv(st.(log := WithRow(st.log, p, row, trimTo)))
  {
    hide LogOk, ReaderOk, Sourced, AllCounted;
    AppendKeepsLog(st.log, p, row, trimTo);
    AppendKeepsReader(st.log, p, row, trimTo, st.reader);
    AppendKeepsSourced(st.log, p, row, trimTo, st.reader.got);
    AppendKeepsCounted(st.log, p, row, trimTo, st.reader);
  }

  /** Drawing or losing a cursor touches neither the logs nor what was delivered. */
  lemma InFlightKeepsInv(st: State, counter: nat, drawn: set<nat>)
    requires Inv(st) && counter >= st.log.counter
    requires forall c :: c in drawn ==> c in st.log.drawn || st.log.counter < c <= counter
    ensures Inv(st.(log := st.log.(counter := counter, drawn := drawn)))
  {
    var next := st.log.(counter := counter, drawn := drawn);
    hide Ordered, Tracked;
    InFlightKeepsRows(st.log, next);
    forall p: Partition ensures Ordered(StreamOf(next, p)) {
      assert Ordered(StreamOf(st.log, p));
    }
    hide Complete, HasRow, Counted;
    forall p, i | HasRow(next, p, i) ensures Counted(next, st.reader, p, i) {
      assert Counted(st.log, st.reader, p, i);
    }
    hide Carries;
    forall e | e in st.reader.got ensures exists p, i :: Carries(next, p, i, e) {
      var p, i :| Carries(st.log, p, i, e);
      assert Carries(next, p, i, e);
    }
  }

  lemma InFlightKeepsRows(log: Log, next: Log)
    requires Complete(log) && next.streams == log.streams && next.placed == log.placed
    ensures Complete(next)
    ensures forall p, i :: HasRow(next, p, i) ==> HasRow(log, p, i) && (Placed(log, p, i) ==> Placed(next, p, i))
    ensures forall p, i, reader :: HasRow(next, p, i) && Counted(log, reader, p, i) ==> Counted(next, reader, p, i)
    ensures forall p, i, e :: Carries(log, p, i, e) ==> Carries(next, p, i, e)
  {
  }

  // ----- replaying and tailing -----

  /** How often a stretch of a partition yields the entry of a row. */
  lemma StretchTimes(log: Log, p: Partition, from: nat, to: nat, q: Partition, i: int)
    requires LogOk(log) && HasRow(log, q, i) && WellFormed(RowAt(log, q, i))
    requires from <= to <= |StreamOf(log, p).rows|
    ensures multiset(Parsed(StreamOf(log, p).rows[from..to]))[EntryOf(RowAt(log, q, i))]
            == if p == q && from <= i < to then 1 else 0
  {
    hide Ordered;
    var rows := StreamOf(log, p).rows[from..to];
    var e := EntryOf(RowAt(log, q, i));
    var at := if p == q then i - from else -1;
    assert Placed(log, q, i);
    forall k | 0 <= k < |rows| && k != at ensures rows[k].cursor != e.cursor {
      assert HasRow(log, p, from + k) && RowAt(log, p, from + k) == rows[k] && Placed(log, p, from + k);
    }
    ParsedTimes(rows, e, at);
  }

  /** Taking over entries of the log keeps everything sourced. */
  lemma TakingKeepsSourced(log: Log, got: multiset<Entry>, p: Partition, from: nat, to: nat)
    requires Complete(log) && Sourced(log, got)
    requires from <= to <= |StreamOf(log, p).rows|
    ensures Sourced(log, got + multiset(Parsed(StreamOf(log, p).rows[from..to])))
  {
    var rows := StreamOf(log, p).rows[from..to];
    forall e | e in got + multiset(Parsed(rows)) ensures exists q, i :: Carries(log, q, i, e) {
      if e !in got {
        var k := ParsedFrom(rows, e);
        assert Carries(log, p, from + k, e);
      }
    }
  }

  /** Row `i` falls due by exactly what is taken of it, or by more if it was trimmed. */
  ghost predicate FallsDue(log: Log, reader: Reader, next: Reader, p: Partition, taken: bool, i: int)
    requires HasRow(log, p, i)
  {
    var id, n := RowAt(log, p, i).id, if taken then 1 else 0;
    && Due(reader, p, i, id) + n <= Due(next, p, i, id)
    && (StreamOf(log, p).trimmed <= i ==> Due(reader, p, i, id) + n == Due(next, p, i, id))
    && (p in next.loads && Replays(next.loads[p], i) ==> taken || (p in reader.loads && Replays(reader.loads[p], i)))
  }

  /** The reader's account of every other partition is as it was. */
  ghost predicate OthersSame(reader: Reader, next: Reader, p: Partition) {
    && (forall q :: q != p ==> (q in next.loads <==> q in reader.loads) && (q in next.seeks <==> q in reader.seeks))
    && (forall q :: q != p && q in reader.loads ==> next.loads[q] == reader.loads[q])
    && (forall q :: q != p && q in reader.seeks ==> next.seeks[q] == reader.seeks[q])
  }

  lemma TakenRowCounted(
    log: Log, reader: Reader, next: Reader, p: Partition, from: nat, to: nat, q: Partition, i: int)
    requires LogOk(log) && HasRow(log, q, i) && Counted(log, reader, q, i) && OthersSame(reader, next, p)
    requires from <= to <= |StreamOf(log, p).rows|
    requires next.got == reader.got + multiset(Parsed(StreamOf(log, p).rows[from..to]))
    requires p == q ==> FallsDue(log, reader, next, p, from <= i < to, i)
    ensures Counted(log, next, q, i)
  {
    hide LogOk, Parsed;
    if WellFormed(RowAt(log, q, i)) {
      StretchTimes(log, p, from, to, q, i);
    }
  }

  /** Taking a stretch of a partition is counted right when it is what falls due. */
  lemma TakingKeepsCounted(log: Log, reader: Reader, next: Reader, p: Partition, from: nat, to: nat)
    requires LogOk(log) && AllCounted(log, reader) && OthersSame(reader, next, p)
    requires from <= to <= |StreamOf(log, p).rows|
    requires next.got == reader.got + multiset(Parsed(StreamOf(log, p).rows[from..to]))
    requires forall i :: HasRow(log, p, i) ==> FallsDue(log, reader, next, p, from <= i < to, i)
    ensures AllCounted(log, next)
  {
    forall q, i | HasRow(log, q, i) ensures Counted(log, next, q, i) {
      hide LogOk, Counted, FallsDue, OthersSame, HasRow;
      assert p == q ==> FallsDue(log, reader, next, p, from <= i < to, i);
      TakenRowCounted(log, reader, next, p, from, to, q, i);
    }
  }

  lemma LoadIsTracked(s: Stream, limit: nat, query: Query)
    requires Ordered(s)
    ensures var seek := SeekOf(Replayed(WindowOf(s, limit, query), query));
            Tracked(s, Loaded(WindowStart(s, limit, query), WindowEnd(s, query), query, seek), seek)
  {
    hide Replayed, SeekOf;
    var rows := WindowOf(s, limit, query);
    var k := SeekIsLargestCursor(rows, query);
    if exists i :: 0 <= i < |rows| && WellFormed(rows[i]) {
      var at := WindowStart(s, limit, query) + k;
      assert rows[k] == s.rows[at];
      LastIsLargest(s, at);
      LastIsLargest(Stream(s.rows[..WindowEnd(s, query)], 0), at);
    }
  }

  lemma LoadFallsDue(log: Log, reader: Reader, p: Partition, limit: nat, query: Query, i: int)
    requires HasRow(log, p, i) && p !in reader.loads
    ensures var s := StreamOf(log, p);
            FallsDue(log, reader, AfterLoad(log, reader, p, limit, query), p,
                     WindowStart(s, limit, query) <= i < WindowEnd(s, query), i)
  {
    hide Replayed, SeekOf;
  }

  /** A replay takes over a stretch of the log. */
  lemma LoadTakes(log: Log, reader: Reader, p: Partition, limit: nat, query: Query) returns (from: nat, to: nat)
    requires Complete(log) && p !in reader.loads
    ensures from == WindowStart(StreamOf(log, p), limit, query) && to == WindowEnd(StreamOf(log, p), query)
    ensures StreamOf(log, p).trimmed <= from <= to <= |StreamOf(log, p).rows|
    ensures AfterLoad(log, reader, p, limit, query).got
            == reader.got + multiset(Parsed(StreamOf(log, p).rows[from..to]))
    ensures forall i :: HasRow(log, p, i) ==>
              FallsDue(log, reader, AfterLoad(log, reader, p, limit, query), p, from <= i < to, i)
  {
    hide Replayed, SeekOf, FallsDue;
    var s := StreamOf(log, p);
    from, to := WindowStart(s, limit, query), WindowEnd(s, query);
    ReplayIsSortedPermutation(s.rows[from..to], query);
    forall i | HasRow(log, p, i)
      ensures FallsDue(log, reader, AfterLoad(log, reader, p, limit, query), p, from <= i < to, i)
    {
      LoadFallsDue(log, reader, p, limit, query, i);
    }
  }

  lemma LoadKeepsReader(log: Log, reader: Reader, p: Partition, limit: nat, query: Query)
    requires LogOk(log) && ReaderOk(log, reader)
    ensures ReaderOk(log, AfterLoad(log, reader, p, limit, query))
  {
    hide Replayed, SeekOf, Tracked, Ordered, HasRow;
    assert Ordered(StreamOf(log, p));
    LoadIsTracked(StreamOf(log, p), limit, query);
  }

  lemma LoadKeepsInv(st: State, p: Partition, limit: nat, query: Query)
    requires Inv(st) && Legal(st, Load(p, limit, query))
    ensures Inv(Exec(st, Load(p, limit, query)))
  {
    hide LogOk, Sourced, AllCounted, FallsDue, HasRow, Parsed, Replayed, SeekOf, Tracked;
    LoadKeepsReader(st.log, st.reader, p, limit, query);
    var next := AfterLoad(st.log, st.reader, p, limit, query);
    var from, to := LoadTakes(st.log, st.reader, p, limit, query);
    TakingKeepsSourced(st.log, st.reader.got, p, from, to);
    TakingKeepsCounted(st.log, st.reader, next, p, from, to);
  }

  /** A read takes exactly the retained rows that the seek id passes. */
  lemma TailTakes(s: Stream, seek: nat, count: nat) returns (from: nat, to: nat)
    requires Ordered(s) && seek <= LastId(s) && count >= 1
    ensures s.trimmed <= from <= to <= |s.rows| && Tail(s, seek, count) == s.rows[from..to]
    ensures seek <= SeekAfter(Tail(s, seek, count), seek) <= LastId(s)
    ensures forall i :: s.trimmed <= i < |s.rows| ==>
              (from <= i < to <==> seek < s.rows[i].id <= SeekAfter(Tail(s, seek, count), seek))
    ensures from == FirstAfter(s.rows, s.trimmed, seek) && to == Min(from + count, |s.rows|)
  {
    from := FirstAfter(s.rows, s.trimmed, seek);
    to := Min(from + count, |s.rows|);
    if from < to {
      LastIsLargest(s, to - 1);
    }
  }

  lemma ReadFallsDue(log: Log, reader: Reader, p: Partition, count: nat, from: nat, to: nat, i: int)
    requires HasRow(log, p, i) && p in reader.loads && p in reader.seeks
    requires var seek := reader.seeks[p];
             var after := SeekAfter(Tail(StreamOf(log, p), seek, count), seek);
             && reader.loads[p].seek <= seek <= after && StreamOf(log, p).trimmed <= from
             && (StreamOf(log, p).trimmed <= i ==> (from <= i < to <==> seek < RowAt(log, p, i).id <= after))
    ensures FallsDue(log, reader, AfterRead(log, reader, p, count), p, from <= i < to, i)
  {
    hide Tail, SeekAfter;
  }

  lemma ReaderAt(log: Log, reader: Reader, p: Partition)
    requires LogOk(log) && ReaderOk(log, reader) && p in reader.loads
    ensures p in reader.seeks && Ordered(StreamOf(log, p))
    ensures Tracked(StreamOf(log, p), reader.loads[p], reader.seeks[p])
  {
    hide Ordered, Tracked, HasRow, Placed;
  }

  lemma ReadKeepsReader(log: Log, reader: Reader, p: Partition, count: nat)
    requires LogOk(log) && ReaderOk(log, reader) && p in reader.loads && count >= 1
    ensures ReaderOk(log, AfterRead(log, reader, p, count))
  {
    ReaderAt(log, reader, p);
    hide LogOk, Replayed, SeekOf, Tail, SeekAfter, Ordered;
    var from, to := TailTakes(StreamOf(log, p), reader.seeks[p], count);
  }

  /** A read takes over a stretch of the log, and that is what falls due. */
  lemma ReadTakes(log: Log, reader: Reader, p: Partition, count: nat) returns (from: nat, to: nat)
    requires LogOk(log) && ReaderOk(log, reader) && p in reader.loads && count >= 1
    ensures from <= to <= |StreamOf(log, p).rows|
    ensures AfterRead(log, reader, p, count).got == reader.got + multiset(Parsed(StreamOf(log, p).rows[from..to]))
    ensures forall i :: HasRow(log, p, i) ==>
              FallsDue(log, reader, AfterRead(log, reader, p, count), p, from <= i < to, i)
  {
    ReaderAt(log, reader, p);
    hide LogOk, ReaderOk, Replayed, SeekOf, Tail, SeekAfter, FallsDue, Ordered;
    var s, seek := StreamOf(log, p), reader.seeks[p];
    from, to := TailTakes(s, seek, count);
    forall i | HasRow(log, p, i) ensures FallsDue(log, reader, AfterRead(log, reader, p, count), p, from <= i < to, i) {
      ReadFallsDue(log, reader, p, count, from, to, i);
    }
  }

  lemma ReadKeepsInv(st: State, p: Partition, count: nat)
    requires Inv(st) && Legal(st, Read(p, count))
    ensures Inv(Exec(st, Read(p, count)))
  {
    hide LogOk, Sourced, AllCounted, FallsDue, HasRow, Tail, SeekAfter, Tracked, ReaderOk;
    ReadKeepsReader(st.log, st.reader, p, count);
    var from, to := ReadTakes(st.log, st.reader, p, count);
    TakingKeepsSourced(st.log, st.reader.got, p, from, to);
    TakingKeepsCounted(st.log, st.reader, AfterRead(st.log, st.reader, p, count), p, from, to);
  }

  lemma StepKeepsInv(st: State, step: Step)
    requires Inv(st) && Legal(st, step)
    ensures Inv(Exec(st, step))
  {
    hide Inv;
    match step {
      case Draw => InFlightKeepsInv(st, st.log.counter + 1, st.log.drawn + {st.log.counter + 1});
      case Post(p, cursor, id, envelope, trimTo) => AppendKeepsInv(st, p, Row(id, cursor, Some(envelope)), trimTo);
      case Lose(cursor) => InFlightKeepsInv(st, st.log.counter, st.log.drawn - {cursor});
      case Junk(p, id, trimTo) => AppendKeepsInv(st, p, Row(id, 0, None), trimTo);
      case Load(p, limit, query) => LoadKeepsInv(st, p, limit, query);
      case Read(p, count) => ReadKeepsInv(st, p, count);
    }
  }

  lemma {:induction false} RunKeepsInv(st: State, trace: seq<Step>)
    requires Inv(st) && LegalRun(st, trace)
    ensures Inv(Run(st, trace))
    decreases |trace|
  {
    if trace != [] {
      StepKeepsInv(st, trace[0]);
      RunKeepsInv(Exec(st, trace[0]), trace[1..]);
    }
  }

  /** A cursor that was drawn, and is neither in flight nor posted. */
  ghost predicate UsedUp(log: Log, cursor: nat) {
    0 < cursor <= log.counter && cursor !in log.drawn && cursor !in log.placed
  }

  lemma {:induction false} UsedUpStays(st: State, trace: seq<Step>, cursor: nat)
    requires LegalRun(st, trace) && UsedUp(st.log, cursor)
    ensures UsedUp(Run(st, trace).log, cursor)
    decreases |trace|
  {
    if trace != [] {
      UsedUpStays(Exec(st, trace[0]), trace[1..], cursor);
    }
  }

  /** However a run goes on, no row ever carries the cursor of an append that failed. */
  lemma LostCursorNeverAppears(before: seq<Step>, cursor: nat, rest: seq<Step>, p: Partition, i: int)
    requires LegalRun(EMPTY, before) && Legal(Run(EMPTY, before), Lose(cursor))
    requires LegalRun(Exec(Run(EMPTY, before), Lose(cursor)), rest)
    requires HasRow(Run(Exec(Run(EMPTY, before), Lose(cursor)), rest).log, p, i)
    ensures RowAt(Run(Exec(Run(EMPTY, before), Lose(cursor)), rest).log, p, i).cursor != cursor
  {
    EmptyInv();
    RunKeepsInv(EMPTY, before);
    var st := Run(EMPTY, before);
    StepKeepsInv(st, Lose(cursor));
    RunKeepsInv(Exec(st, Lose(cursor)), rest);
    assert UsedUp(Exec(st, Lose(cursor)).log, cursor);
    UsedUpStays(Exec(st, Lose(cursor)), rest, cursor);
    hide LegalRun, Run, Exec;
    assert Placed(Run(Exec(st, Lose(cursor)), rest).log, p, i);
  }
}
