/** The backplane as an object: publishing, loading a replay, reading the tail of several partitions. */
module PortalBackplane {
  import opened Common
  import opened Portal
  import opened PortalRuns

  /** What can go wrong on the way to the backplane. */
  datatype Fault = NoFault | Unavailable | CursorFails | AppendFails

  datatype Published = Sent | Dropped | Rejected

  predicate Distinct(parts: seq<Partition>) {
    forall i, j :: 0 <= i < j < |parts| ==> parts[i] != parts[j]
  }

  /** Partitions without repetition, in order of first appearance. */
  function Normalized(parts: seq<Partition>): seq<Partition> {
    if parts == [] then []
    else
      var init := Normalized(parts[..|parts| - 1]);
      if parts[|parts| - 1] in init then init else init + [parts[|parts| - 1]]
  }

  lemma {:induction false} NormalizedDistinct(parts: seq<Partition>)
    ensures Distinct(Normalized(parts))
    ensures forall p :: p in Normalized(parts) <==> p in parts
  {
    if parts != [] {
      NormalizedDistinct(parts[..|parts| - 1]);
      assert parts == parts[..|parts| - 1] + [parts[|parts| - 1]];
    }
  }

  /** What comes later never moves what is there. */
  lemma {:induction false} NormalizedKeepsOrder(parts: seq<Partition>, k: nat)
    requires k <= |parts|
    ensures Normalized(parts[..k]) <= Normalized(parts)
  {
    if k < |parts| {
      NormalizedKeepsOrder(parts[..|parts| - 1], k);
      assert parts[..|parts| - 1][..k] == parts[..k];
    } else {
      assert parts[..k] == parts;
    }
  }

  function ReplayOf(s: Stream, limit: nat, query: Query): seq<Entry>
    requires s.trimmed <= |s.rows|
  {
    Replayed(WindowOf(s, limit, query), query)
  }

  /** The entries among the last `limit` retained rows of the log, and none when no query is answered. */
  function NewestOf(s: Stream, limit: nat, query: Query): multiset<Entry>
    requires s.trimmed <= |s.rows|
  {
    if query == Unanswered then multiset{}
    else multiset(Parsed(s.rows[|s.rows| - Min(limit, |s.rows| - s.trimmed)..]))
  }

  function NewestOfAll(streams: map<Partition, Stream>, parts: seq<Partition>, limit: nat, queries: Partition -> Query)
    : multiset<Entry>
    requires Holds(streams)
  {
    if parts == [] then multiset{}
    else
      NewestOfAll(streams, parts[..|parts| - 1], limit, queries)
      + NewestOf(streams[parts[|parts| - 1]], limit, queries(parts[|parts| - 1]))
  }

  /** A partition's replay is a cursor-ordered permutation of the entries of its newest retained rows. */
  lemma ReplayIsNewest(s: Stream, limit: nat, query: Query)
    requires s.trimmed <= |s.rows|
    ensures Sorted(ReplayOf(s, limit, query)) && multiset(ReplayOf(s, limit, query)) == NewestOf(s, limit, query)
  {
    hide WindowOf, Replayed, Parsed, Sorted;
    WindowIsNewest(s, limit, query);
    ReplayIsSortedPermutation(WindowOf(s, limit, query), query);
  }

  /** And so are the merged replays. */
  lemma {:induction false} MergedIsNewest(
    streams: map<Partition, Stream>, parts: seq<Partition>, limit: nat, queries: Partition -> Query)
    requires Holds(streams)
    ensures multiset(Merged(streams, parts, limit, queries)) == NewestOfAll(streams, parts, limit, queries)
  {
    hide ReplayOf, NewestOf, Sorted;
    if parts != [] {
      MergedIsNewest(streams, parts[..|parts| - 1], limit, queries);
      ReplayIsNewest(streams[parts[|parts| - 1]], limit, queries(parts[|parts| - 1]));
    }
  }

  /** The replays of several partitions, one after the other. */
  function Merged(streams: map<Partition, Stream>, parts: seq<Partition>, limit: nat, queries: Partition -> Query)
    : seq<Entry>
    requires Holds(streams)
  {
    if parts == [] then []
    else
      Merged(streams, parts[..|parts| - 1], limit, queries)
      + ReplayOf(streams[parts[|parts| - 1]], limit, queries(parts[|parts| - 1]))
  }

  /** The tails of several partitions, one after the other. */
  function Gathered(streams: map<Partition, Stream>, seeks: map<Partition, nat>, parts: seq<Partition>, count: nat)
    : seq<Entry>
    requires Holds(streams) && forall p :: p in parts ==> p in seeks
  {
    if parts == [] then []
    else
      Gathered(streams, seeks, parts[..|parts| - 1], count)
      + Parsed(Tail(streams[parts[|parts| - 1]], seeks[parts[|parts| - 1]], count))
  }

  /** Where tailing starts in each partition. */
  function StartingSeeks(
    streams: map<Partition, Stream>, parts: seq<Partition>, limit: nat, queries: Partition -> Query)
    : map<Partition, nat>
    requires Holds(streams)
  {
    map p | p in parts :: SeekOf(ReplayOf(streams[p], limit, queries(p)))
  }

  /** Seek ids of the partitions that had something to read. */
  function Advanced(streams: map<Partition, Stream>, seeks: map<Partition, nat>, parts: seq<Partition>, count: nat)
    : map<Partition, nat>
    requires Holds(streams) && forall p :: p in parts ==> p in seeks
  {
    map p | p in parts && Tail(streams[p], seeks[p], count) != [] ::
      SeekAfter(Tail(streams[p], seeks[p], count), seeks[p])
  }

  lemma ParsedOneMore(rows: seq<Row>, i: nat)
    requires i < |rows|
    ensures Parsed(rows[..i + 1]) == Parsed(rows[..i]) + if WellFormed(rows[i]) then [EntryOf(rows[i])] else []
  {
    assert rows[..i + 1] == rows[..i] + [rows[i]];
    ParsedAppend(rows[..i], [rows[i]]);
    assert [rows[i]][1..] == [];
  }

  class Backplane {
    var counter: nat
    var streams: map<Partition, Stream>

    constructor ()
      ensures counter == 0 && Holds(streams) && forall p: Partition :: streams[p] == Stream([], 0)
    {
      counter := 0;
      var none := Stream([], 0);
      streams := map[Critical := none, Control := none, Live := none];
      new;
      forall p: Partition ensures p in streams && streams[p] == none {
        match p case Critical => case Control => case Live =>
      }
    }

    /** Draws a cursor, then appends; an append that fails leaves the cursor used up. */
    method Publish(message: string, isObject: string -> bool, render: (string, nat) -> string,
                   p: Partition, id: nat, trimTo: nat, fault: Fault) returns (r: Published)
      requires Holds(streams) && CanAppend(streams[p], id, trimTo)
      modifies this
      ensures Holds(streams)
      ensures r == if Stripped(message) == "" then Rejected
                   else if fault == Unavailable then Dropped
                   else if !isObject(message) then Rejected
                   else if fault == NoFault then Sent else Dropped
      ensures counter == old(counter) + if r == Sent || (r == Dropped && fault == AppendFails) then 1 else 0
      ensures var row := Row(id, counter, Some(render(message, counter)));
              streams == if r == Sent then old(streams)[p := Appended(old(streams)[p], row, trimTo)] else old(streams)
    {
      if Stripped(message) == "" { return Rejected; }
      if fault == Unavailable { return Dropped; }
      if !isObject(message) { return Rejected; }
      if fault == CursorFails { return Dropped; }
      counter := counter + 1;
      if fault == AppendFails { return Dropped; }
      var s := streams[p];
      streams := streams[p := Stream(s.rows + [Row(id, counter, Some(render(message, counter)))], trimTo)];
      return Sent;
    }

    /** Replays the newest rows of one partition; when no query is answered there are none. */
    method LoadPartitionEntries(p: Partition, limit: nat, query: Query) returns (out: seq<Entry>)
      requires Holds(streams)
      ensures out == ReplayOf(streams[p], limit, query)
      ensures Sorted(out) && multiset(out) == NewestOf(streams[p], limit, query)
    {
      ReplayIsNewest(streams[p], limit, query);
      hide WindowOf, Sorted, NewestOf;
      var rows := InQueryOrder(WindowOf(streams[p], limit, query), query);
      out := [];
      for i := 0 to |rows|
        invariant out == Parsed(rows[..i])
      {
        ParsedOneMore(rows, i);
        if WellFormed(rows[i]) {
          out := out + [EntryOf(rows[i])];
        }
      }
      assert rows[..|rows|] == rows;
      out := SortByCursor(out);
    }

    /** Replays each partition in turn. */
    method ReadWindows(parts: seq<Partition>, limit: nat, queries: Partition -> Query)
      returns (merged: seq<Entry>, seeks: map<Partition, nat>)
      requires Holds(streams)
      ensures merged == Merged(streams, parts, limit, queries)
      ensures seeks == StartingSeeks(streams, parts, limit, queries)
    {
      hide Replayed, SeekOf, Parsed, WindowOf, ReplayOf, StartingSeeks;
      merged := [];
      var zeros: map<Partition, nat> := map p | p in parts :: 0;
      seeks := zeros;
      NoStart(zeros, streams, limit, queries);
      for k := 0 to |parts|
        invariant merged == Merged(streams, parts[..k], limit, queries)
        invariant seeks == zeros + StartingSeeks(streams, parts[..k], limit, queries)
      {
        assert parts[..k + 1][..k] == parts[..k];
        var entries := LoadPartitionEntries(parts[k], limit, queries(parts[k]));
        OneMoreStart(streams, parts[..k + 1], limit, queries);
        if entries != [] {
          seeks := seeks[parts[k] := entries[|entries| - 1].id];
          SeekOfLast(entries);
        } else {
          NothingToSeek(zeros, streams, parts, k, limit, queries);
        }
        merged := merged + entries;
      }
      assert parts[..|parts|] == parts;
      AllStarts(zeros, streams, parts, limit, queries);
    }

    method LoadReplayState(partitions: seq<Partition>, maxEvents: int, queries: Partition -> Query)
      returns (replay: Replay, seeks: map<Partition, nat>)
      requires Holds(streams)
      ensures replay.entries == SortByCursor(Merged(streams, Normalized(partitions), Max(1, maxEvents), queries))
      ensures Sorted(replay.entries)
      ensures multiset(replay.entries) == NewestOfAll(streams, Normalized(partitions), Max(1, maxEvents), queries)
      ensures seeks == StartingSeeks(streams, Normalized(partitions), Max(1, maxEvents), queries)
      ensures if replay.entries == [] then replay.earliest == replay.latest == 0
              else replay.earliest == replay.entries[0].cursor
                   && replay.latest == replay.entries[|replay.entries| - 1].cursor
    {
      hide StartingSeeks, Merged, SortByCursor, NewestOfAll;
      MergedIsNewest(streams, Normalized(partitions), Max(1, maxEvents), queries);
      var merged: seq<Entry>;
      merged, seeks := ReadWindows(Normalized(partitions), Max(1, maxEvents), queries);
      SortIsStablePermutation(merged);
      merged := SortByCursor(merged);
      replay := if merged == [] then Replay([], 0, 0)
                else Replay(merged, merged[0].cursor, merged[|merged| - 1].cursor);
    }

    /** The rows one read takes from one partition. */
    method ReadPartition(p: Partition, seek: nat, limit: nat) returns (entries: seq<Entry>, last: Option<nat>)
      requires Holds(streams)
      ensures entries == Parsed(Tail(streams[p], seek, limit))
      ensures last == if Tail(streams[p], seek, limit) == [] then None
                      else Some(SeekAfter(Tail(streams[p], seek, limit), seek))
    {
      var rows := Tail(streams[p], seek, limit);
      entries, last := [], None;
      for i := 0 to |rows|
        invariant entries == Parsed(rows[..i])
        invariant last == if i == 0 then None else Some(rows[i - 1].id)
      {
        ParsedOneMore(rows, i);
        last := Some(rows[i].id);
        if WellFormed(rows[i]) {
          entries := entries + [EntryOf(rows[i])];
        }
      }
      assert rows[..|rows|] == rows;
    }

    /** Reads on from the seek ids: up to `count` rows of each requested partition. */
    method ReadStream(parts: seq<Partition>, seeks: map<Partition, nat>, count: int)
      returns (out: seq<Entry>, advanced: map<Partition, nat>)
      requires Holds(streams) && Distinct(parts) && forall p :: p in parts ==> p in seeks
      ensures out == SortByCursor(Gathered(streams, seeks, parts, Max(1, count)))
      ensures Sorted(out) && multiset(out) == multiset(Gathered(streams, seeks, parts, Max(1, count)))
      ensures advanced == Advanced(streams, seeks, parts, Max(1, count))
    {
      hide Parsed, Tail, SeekAfter;
      var limit := Max(1, count);
      out, advanced := [], map[];
      for k := 0 to |parts|
        invariant out == Gathered(streams, seeks, parts[..k], limit)
        invariant advanced == Advanced(streams, seeks, parts[..k], limit)
      {
        assert parts[..k + 1][..k] == parts[..k];
        OneMoreAdvance(streams, seeks, parts[..k + 1], limit);
        var entries, last := ReadPartition(parts[k], seeks[parts[k]], limit);
        out := out + entries;
        if last.Some? {
          advanced := advanced[parts[k] := last.value];
        }
      }
      assert parts[..|parts|] == parts;
      SortIsStablePermutation(out);
      out := SortByCursor(out);
    }
  }

  lemma SeekOfLast(entries: seq<Entry>)
    requires entries != []
    ensures SeekOf(entries) == entries[|entries| - 1].id
  {
  }

  lemma OneMoreStart(streams: map<Partition, Stream>, parts: seq<Partition>, limit: nat, queries: Partition -> Query)
    requires Holds(streams) && parts != []
    ensures var p := parts[|parts| - 1];
            StartingSeeks(streams, parts, limit, queries)
            == StartingSeeks(streams, parts[..|parts| - 1], limit, queries)
               [p := SeekOf(ReplayOf(streams[p], limit, queries(p)))]
  {
    hide ReplayOf, SeekOf;
    assert parts == parts[..|parts| - 1] + [parts[|parts| - 1]];
  }

  lemma NoStart(zeros: map<Partition, nat>, streams: map<Partition, Stream>, limit: nat, queries: Partition -> Query)
    requires Holds(streams)
    ensures zeros + StartingSeeks(streams, [], limit, queries) == zeros
  {
  }

  lemma AllStarts(zeros: map<Partition, nat>, streams: map<Partition, Stream>, parts: seq<Partition>,
                  limit: nat, queries: Partition -> Query)
    requires Holds(streams) && forall p :: p in zeros ==> p in parts
    ensures zeros + StartingSeeks(streams, parts, limit, queries) == StartingSeeks(streams, parts, limit, queries)
  {
    hide ReplayOf, SeekOf;
  }

  lemma NothingToSeek(zeros: map<Partition, nat>, streams: map<Partition, Stream>, parts: seq<Partition>, k: nat,
                      limit: nat, queries: Partition -> Query)
    requires Holds(streams) && k < |parts| && forall p :: p in parts ==> p in zeros && zeros[p] == 0
    requires ReplayOf(streams[parts[k]], limit, queries(parts[k])) == []
    ensures zeros + StartingSeeks(streams, parts[..k], limit, queries)[parts[k] := 0]
            == zeros + StartingSeeks(streams, parts[..k], limit, queries)
    ensures SeekOf(ReplayOf(streams[parts[k]], limit, queries(parts[k]))) == 0
  {
    hide ReplayOf;
  }

  lemma OneMoreAdvance(streams: map<Partition, Stream>, seeks: map<Partition, nat>, parts: seq<Partition>, count: nat)
    requires Holds(streams) && parts != [] && forall p :: p in parts ==> p in seeks
    ensures var p := parts[|parts| - 1];
            var rows := Tail(streams[p], seeks[p], count);
            var before := Advanced(streams, seeks, parts[..|parts| - 1], count);
            Advanced(streams, seeks, parts, count)
            == if rows == [] then before else before[p := SeekAfter(rows, seeks[p])]
  {
    hide Tail, SeekAfter;
    assert parts == parts[..|parts| - 1] + [parts[|parts| - 1]];
  }

  // ----- one call is a run of the protocol's steps -----

  function ReadEach(parts: seq<Partition>, count: nat): seq<Step> {
    if parts == [] then [] else ReadEach(parts[..|parts| - 1], count) + [Read(parts[|parts| - 1], count)]
  }

  /** What reading several partitions at once comes to. */
  ghost predicate ReadsAs(st: State, parts: seq<Partition>, count: nat, after: State)
    requires Holds(st.log.streams) && forall p :: p in parts ==> p in st.reader.seeks
  {
    && after.log == st.log && after.reader.loads == st.reader.loads
    && after.reader.got == st.reader.got + multiset(Gathered(st.log.streams, st.reader.seeks, parts, count))
    && after.reader.seeks == st.reader.seeks + Advanced(st.log.streams, st.reader.seeks, parts, count)
  }

  /** Advancing the last partition after the others. */
  lemma AdvanceMerges(streams: map<Partition, Stream>, seeks: map<Partition, nat>, parts: seq<Partition>, count: nat)
    requires Holds(streams) && parts != [] && parts[|parts| - 1] !in parts[..|parts| - 1]
    requires forall p :: p in parts ==> p in seeks
    ensures var p, front := parts[|parts| - 1], seeks + Advanced(streams, seeks, parts[..|parts| - 1], count);
            && front.Keys == seeks.Keys && front[p] == seeks[p]
            && front[p := SeekAfter(Tail(streams[p], seeks[p], count), seeks[p])]
               == seeks + Advanced(streams, seeks, parts, count)
  {
    hide Tail;
    OneMoreAdvance(streams, seeks, parts, count);
  }

  lemma ReadAfterFront(st: State, before: State, parts: seq<Partition>, count: nat)
    requires Holds(st.log.streams) && st.reader.loads.Keys == st.reader.seeks.Keys && count >= 1
    requires parts != [] && parts[|parts| - 1] !in parts[..|parts| - 1]
    requires forall p :: p in parts ==> p in st.reader.seeks
    requires ReadsAs(st, parts[..|parts| - 1], count, before)
    ensures var step := Read(parts[|parts| - 1], count);
            LegalRun(before, [step]) && ReadsAs(st, parts, count, Run(before, [step]))
  {
    var p := parts[|parts| - 1];
    AdvanceMerges(st.log.streams, st.reader.seeks, parts, count);
    hide Tail, Parsed, LegalRun, Run, Exec, Legal, Advanced;
    ReadExec(before, p, count);
    RunOne(before, Read(p, count));
  }

  /** A call that reads several partitions is one tail step in each of them. */
  lemma {:induction false} ReadStreamIsReads(st: State, parts: seq<Partition>, count: nat)
    requires Complete(st.log) && st.reader.loads.Keys == st.reader.seeks.Keys && count >= 1
    requires Distinct(parts) && forall p :: p in parts ==> p in st.reader.seeks
    ensures Holds(st.log.streams) && LegalRun(st, ReadEach(parts, count))
    ensures ReadsAs(st, parts, count, Run(st, ReadEach(parts, count)))
    decreases |parts|
  {
    if parts == [] {
      assert st.reader.seeks + Advanced(st.log.streams, st.reader.seeks, [], count) == st.reader.seeks;
    } else {
      hide ReadsAs, LegalRun, Run;
      var front, p := parts[..|parts| - 1], parts[|parts| - 1];
      ReadStreamIsReads(st, front, count);
      ReadAfterFront(st, Run(st, ReadEach(front, count)), parts, count);
      RunAppend(st, ReadEach(front, count), [Read(p, count)]);
    }
  }

  function LoadEach(parts: seq<Partition>, limit: nat, queries: Partition -> Query): seq<Step> {
    if parts == [] then []
    else LoadEach(parts[..|parts| - 1], limit, queries) + [Load(parts[|parts| - 1], limit, queries(parts[|parts| - 1]))]
  }

  /** What replaying several partitions at once comes to. */
  ghost predicate LoadsAs(st: State, parts: seq<Partition>, limit: nat, queries: Partition -> Query, after: State)
    requires Holds(st.log.streams)
  {
    && after.log == st.log && after.reader.loads.Keys == after.reader.seeks.Keys == (set p | p in parts)
    && after.reader.got == st.reader.got + multiset(Merged(st.log.streams, parts, limit, queries))
    && after.reader.seeks == StartingSeeks(st.log.streams, parts, limit, queries)
  }

  lemma LoadAfterFront(
    st: State, before: State, parts: seq<Partition>, limit: nat, queries: Partition -> Query)
    requires Holds(st.log.streams) && limit >= 1
    requires parts != [] && parts[|parts| - 1] !in parts[..|parts| - 1]
    requires LoadsAs(st, parts[..|parts| - 1], limit, queries, before)
    ensures var p := parts[|parts| - 1];
            && LegalRun(before, [Load(p, limit, queries(p))])
            && LoadsAs(st, parts, limit, queries, Run(before, [Load(p, limit, queries(p))]))
  {
    hide Replayed, SeekOf, WindowOf, LegalRun, Run, StartingSeeks;
    var p := parts[|parts| - 1];
    assert parts == parts[..|parts| - 1] + [p];
    OneMoreStart(st.log.streams, parts, limit, queries);
    RunOne(before, Load(p, limit, queries(p)));
  }

  /** A call that replays several partitions is one load step in each of them. */
  lemma {:induction false} LoadReplayStateIsLoads(
    st: State, parts: seq<Partition>, limit: nat, queries: Partition -> Query)
    requires Complete(st.log) && st.reader.loads == map[] && st.reader.seeks == map[] && limit >= 1 && Distinct(parts)
    ensures Holds(st.log.streams) && LegalRun(st, LoadEach(parts, limit, queries))
    ensures LoadsAs(st, parts, limit, queries, Run(st, LoadEach(parts, limit, queries)))
    decreases |parts|
  {
    if parts == [] {
      assert StartingSeeks(st.log.streams, [], limit, queries) == map[];
    } else {
      hide LoadsAs, LegalRun, Run;
      var front, p := parts[..|parts| - 1], parts[|parts| - 1];
      LoadReplayStateIsLoads(st, front, limit, queries);
      LoadAfterFront(st, Run(st, LoadEach(front, limit, queries)), parts, limit, queries);
      RunAppend(st, LoadEach(front, limit, queries), [Load(p, limit, queries(p))]);
    }
  }
}
