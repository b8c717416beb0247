/**
 The realtime backplane: publishers draw a cursor from a shared counter and append to one of three
 trimmed stream logs; a reader replays the newest rows of its partitions and then tails them.
 */
module Portal {
  import opened Common

  datatype Partition = Critical | Control | Live

  /** A stream row: its log id, what its cursor field reads as, and its envelope when that is text. */
  datatype Row = Row(id: nat, cursor: nat, envelope: Option<string>)

  datatype Entry = Entry(id: nat, cursor: nat, message: string)

  /** Every row ever appended; the first `trimmed` of them are gone. */
  datatype Stream = Stream(rows: seq<Row>, trimmed: nat)

  /** How a replay fetched its rows: newest first, or all of them oldest first when that failed, or not at all. */
  datatype Query = NewestFirst | OldestFirst | Unanswered

  datatype Replay = Replay(entries: seq<Entry>, earliest: nat, latest: nat)

  /** Log ids are positive and strictly increase. */
  ghost predicate Ordered(s: Stream) {
    && s.trimmed <= |s.rows|
    && (forall i :: 0 <= i < |s.rows| ==> s.rows[i].id > 0)
    && (forall i, j :: 0 <= i < j < |s.rows| ==> s.rows[i].id < s.rows[j].id)
  }

  function LastId(s: Stream): nat {
    if s.rows == [] then 0 else s.rows[|s.rows| - 1].id
  }

  /** Appends a row; afterwards the first `trimTo` rows are gone. */
  function Appended(s: Stream, row: Row, trimTo: nat): Stream {
    Stream(s.rows + [row], trimTo)
  }

  // ----- rows and entries -----

  /** The characters that stripping a text removes. */
  predicate IsSpace(c: char) {
    var code := c as int;
    || 0x09 <= code <= 0x0D || 0x1C <= code <= 0x20 || code == 0x85 || code == 0xA0 || code == 0x1680
    || 0x2000 <= code <= 0x200A || code == 0x2028 || code == 0x2029 || code == 0x202F || code == 0x205F
    || code == 0x3000
  }

  function Stripped(text: string): string {
    if text == "" then ""
    else if IsSpace(text[0]) then Stripped(text[1..])
    else if IsSpace(text[|text| - 1]) then Stripped(text[..|text| - 1])
    else text
  }

  ghost predicate AllSpaces(text: string) {
    forall i :: 0 <= i < |text| ==> IsSpace(text[i])
  }

  /** Stripping removes the spaces around a text and nothing else. */
  lemma {:induction false} StrippedMeans(text: string) returns (front: string, back: string)
    ensures text == front + Stripped(text) + back && AllSpaces(front) && AllSpaces(back)
    ensures var core := Stripped(text);
            core != "" ==> !IsSpace(core[0]) && !IsSpace(core[|core| - 1])
    decreases |text|
  {
    front, back := "", "";
    hide IsSpace;
    if text == "" {
    } else if IsSpace(text[0]) {
      front, back := StrippedMeans(text[1..]);
      front := [text[0]] + front;
    } else if IsSpace(text[|text| - 1]) {
      front, back := StrippedMeans(text[..|text| - 1]);
      back := back + [text[|text| - 1]];
      assert text == text[..|text| - 1] + [text[|text| - 1]];
    }
  }

  predicate WellFormed(row: Row) {
    row.envelope.Some? && Stripped(row.envelope.value) != "" && row.cursor > 0
  }

  /** A row yields an entry exactly when its envelope is text that is not blank and its cursor is positive. */
  lemma WellFormedExactly(row: Row)
    ensures WellFormed(row) <==> row.cursor > 0 && row.envelope.Some? && !AllSpaces(row.envelope.value)
  {
    if row.envelope.Some? {
      var text := row.envelope.value;
      var front, back := StrippedMeans(text);
      var core := Stripped(text);
      if core == "" {
        forall i | 0 <= i < |text| ensures IsSpace(text[i]) {
          assert text[i] == if i < |front| then front[i] else back[i - |front|];
        }
      } else {
        assert text[|front|] == core[0];
      }
    }
  }

  function EntryOf(row: Row): Entry
    requires WellFormed(row)
  {
    Entry(row.id, row.cursor, Stripped(row.envelope.value))
  }

  /** The entries of the well-formed rows, in row order. */
  function Parsed(rows: seq<Row>): seq<Entry> {
    if rows == [] then []
    else if WellFormed(rows[0]) then [EntryOf(rows[0])] + Parsed(rows[1..])
    else Parsed(rows[1..])
  }

  function Reversed(rows: seq<Row>): (r: seq<Row>)
    ensures |r| == |rows|
  {
    if rows == [] then [] else Reversed(rows[1..]) + [rows[0]]
  }

  // ----- stable sorting by cursor -----

  function Inserted(e: Entry, sorted: seq<Entry>): seq<Entry> {
    if sorted == [] || e.cursor <= sorted[0].cursor then [e] + sorted
    else [sorted[0]] + Inserted(e, sorted[1..])
  }

  function SortByCursor(entries: seq<Entry>): seq<Entry> {
    if entries == [] then [] else Inserted(entries[0], SortByCursor(entries[1..]))
  }

  ghost predicate Sorted(entries: seq<Entry>) {
    forall i, j :: 0 <= i < j < |entries| ==> entries[i].cursor <= entries[j].cursor
  }

  /** The entries carrying one cursor, in order. */
  ghost function Sharing(entries: seq<Entry>, cursor: nat): seq<Entry> {
    if entries == [] then []
    else if entries[0].cursor == cursor then [entries[0]] + Sharing(entries[1..], cursor)
    else Sharing(entries[1..], cursor)
  }

  lemma {:induction false} InsertedPermutes(e: Entry, sorted: seq<Entry>)
    ensures multiset(Inserted(e, sorted)) == multiset{e} + multiset(sorted)
  {
    if sorted != [] && e.cursor > sorted[0].cursor {
      InsertedPermutes(e, sorted[1..]);
      assert sorted == [sorted[0]] + sorted[1..];
    }
  }

  lemma {:induction false} InsertedSorts(e: Entry, sorted: seq<Entry>)
    requires Sorted(sorted)
    ensures Sorted(Inserted(e, sorted))
  {
    if sorted != [] && e.cursor > sorted[0].cursor {
      InsertedSorts(e, sorted[1..]);
      InsertedPermutes(e, sorted[1..]);
      var rest := Inserted(e, sorted[1..]);
      forall k | 0 <= k < |rest| ensures sorted[0].cursor <= rest[k].cursor {
        assert rest[k] in multiset(rest);
      }
    }
  }

  lemma {:induction false} InsertedStable(e: Entry, sorted: seq<Entry>, c: nat)
    ensures Sharing(Inserted(e, sorted), c) == (if e.cursor == c then [e] else []) + Sharing(sorted, c)
  {
    if sorted == [] || e.cursor <= sorted[0].cursor {
      assert ([e] + sorted)[1..] == sorted;
    } else {
      InsertedStable(e, sorted[1..], c);
      var rest := Inserted(e, sorted[1..]);
      assert ([sorted[0]] + rest)[1..] == rest;
      if e.cursor == c {
        assert sorted[0].cursor != c;
      }
    }
  }

  /** Sorting is a cursor-ordered permutation that keeps rows with the same cursor in their order. */
  lemma {:induction false} SortIsStablePermutation(entries: seq<Entry>)
    ensures Sorted(SortByCursor(entries))
    ensures multiset(SortByCursor(entries)) == multiset(entries)
    ensures forall c :: Sharing(SortByCursor(entries), c) == Sharing(entries, c)
  {
    if entries != [] {
      var rest := SortByCursor(entries[1..]);
      SortIsStablePermutation(entries[1..]);
      InsertedSorts(entries[0], rest);
      InsertedPermutes(entries[0], rest);
      assert entries == [entries[0]] + entries[1..];
      forall c ensures Sharing(SortByCursor(entries), c) == Sharing(entries, c) {
        InsertedStable(entries[0], rest, c);
      }
    }
  }

  // ----- replay and tail of one partition -----

  /** A window holds the newest `limit` retained rows, or none when no query was answered. */
  function WindowStart(s: Stream, limit: nat, query: Query): nat {
    if query.Unanswered? then s.trimmed else Max(s.trimmed, |s.rows| - limit)
  }

  function WindowEnd(s: Stream, query: Query): nat {
    if query.Unanswered? then s.trimmed else |s.rows|
  }

  function WindowOf(s: Stream, limit: nat, query: Query): seq<Row>
    requires s.trimmed <= |s.rows|
  {
    s.rows[WindowStart(s, limit, query)..WindowEnd(s, query)]
  }

  predicate Holds(streams: map<Partition, Stream>) {
    forall p: Partition :: p in streams && streams[p].trimmed <= |streams[p].rows|
  }

  /** Rows in the order the query hands them over. */
  function InQueryOrder(rows: seq<Row>, query: Query): seq<Row> {
    if query.OldestFirst? then rows else Reversed(rows)
  }

  /** The replay of a window of rows. */
  function Replayed(rows: seq<Row>, query: Query): seq<Entry> {
    SortByCursor(Parsed(InQueryOrder(rows, query)))
  }

  /**
   The window of an answered query is the last `limit` rows of the log, or all that are retained if
   there are fewer; without an answer there is no window.
   */
  lemma WindowIsNewest(s: Stream, limit: nat, query: Query)
    requires s.trimmed <= |s.rows|
    ensures query == Unanswered ==> WindowOf(s, limit, query) == [] && Replayed(WindowOf(s, limit, query), query) == []
    ensures query != Unanswered ==>
              WindowOf(s, limit, query) == s.rows[|s.rows| - Min(limit, |s.rows| - s.trimmed)..]
  {
  }

  /** Where tailing starts after a replay. */
  function SeekOf(entries: seq<Entry>): nat {
    if entries == [] then 0 else entries[|entries| - 1].id
  }

  /** First retained position with an id beyond `seek`. */
  function FirstAfter(rows: seq<Row>, from: nat, seek: nat): (f: nat)
    requires from <= |rows|
    ensures from <= f <= |rows|
    ensures f < |rows| ==> rows[f].id > seek
    ensures forall i :: from <= i < f ==> rows[i].id <= seek
    decreases |rows| - from
  {
    if from == |rows| || rows[from].id > seek then from else FirstAfter(rows, from + 1, seek)
  }

  /** The rows one read takes from a partition. */
  function Tail(s: Stream, seek: nat, count: nat): seq<Row>
    requires s.trimmed <= |s.rows|
  {
    var f := FirstAfter(s.rows, s.trimmed, seek);
    s.rows[f..Min(f + count, |s.rows|)]
  }

  function SeekAfter(rows: seq<Row>, seek: nat): nat {
    if rows == [] then seek else rows[|rows| - 1].id
  }

  lemma {:induction false} ParsedAppend(a: seq<Row>, b: seq<Row>)
    ensures Parsed(a + b) == Parsed(a) + Parsed(b)
  {
    if a == [] {
      assert a + b == b;
    } else {
      assert (a + b)[1..] == a[1..] + b;
      ParsedAppend(a[1..], b);
    }
  }

  /** Reading the rows backwards yields the same entries. */
  lemma {:induction false} ReversedSameEntries(rows: seq<Row>)
    ensures multiset(Parsed(Reversed(rows))) == multiset(Parsed(rows))
  {
    if rows != [] {
      ReversedSameEntries(rows[1..]);
      ParsedAppend(Reversed(rows[1..]), [rows[0]]);
      assert [rows[0]][1..] == [];
      assert Parsed([rows[0]]) == if WellFormed(rows[0]) then [EntryOf(rows[0])] else [];
      assert Parsed(rows) == Parsed([rows[0]]) + Parsed(rows[1..]);
    }
  }

  /** A replay is a cursor-ordered permutation of the entries in its window. */
  lemma ReplayIsSortedPermutation(rows: seq<Row>, query: Query)
    ensures Sorted(Replayed(rows, query))
    ensures multiset(Replayed(rows, query)) == multiset(Parsed(rows))
  {
    SortIsStablePermutation(Parsed(InQueryOrder(rows, query)));
    ReversedSameEntries(rows);
  }

  lemma {:induction false} ParsedFrom(rows: seq<Row>, e: Entry) returns (k: nat)
    requires e in Parsed(rows)
    ensures k < |rows| && WellFormed(rows[k]) && EntryOf(rows[k]) == e
  {
    if WellFormed(rows[0]) && EntryOf(rows[0]) == e {
      k := 0;
    } else {
      k := ParsedFrom(rows[1..], e);
      k := k + 1;
    }
  }

  lemma {:induction false} ParsedHas(rows: seq<Row>, k: nat)
    requires k < |rows| && WellFormed(rows[k])
    ensures EntryOf(rows[k]) in Parsed(rows)
  {
    if k > 0 {
      ParsedHas(rows[1..], k - 1);
    }
  }

  /** An entry is parsed once from the one row that carries its cursor, and never otherwise. */
  lemma {:induction false} ParsedTimes(rows: seq<Row>, e: Entry, at: int)
    requires forall k :: 0 <= k < |rows| && k != at ==> rows[k].cursor != e.cursor
    requires 0 <= at < |rows| ==> WellFormed(rows[at]) && EntryOf(rows[at]) == e
    ensures multiset(Parsed(rows))[e] == if 0 <= at < |rows| then 1 else 0
  {
    if rows != [] {
      ParsedTimes(rows[1..], e, at - 1);
    }
  }

  /** Tailing starts at a row with the largest cursor of the window, or at the very beginning when it holds no entry. */
  lemma SeekIsLargestCursor(rows: seq<Row>, query: Query) returns (k: nat)
    ensures (forall i :: 0 <= i < |rows| ==> !WellFormed(rows[i])) ==> SeekOf(Replayed(rows, query)) == 0
    ensures (exists i :: 0 <= i < |rows| && WellFormed(rows[i])) ==>
              && k < |rows| && WellFormed(rows[k]) && SeekOf(Replayed(rows, query)) == rows[k].id
              && (forall i :: 0 <= i < |rows| && WellFormed(rows[i]) ==> rows[i].cursor <= rows[k].cursor)
  {
    ReplayIsSortedPermutation(rows, query);
    var entries := Replayed(rows, query);
    k := 0;
    if entries != [] {
      assert entries[|entries| - 1] in multiset(Parsed(rows));
      k := ParsedFrom(rows, entries[|entries| - 1]);
    }
    forall i | 0 <= i < |rows| && WellFormed(rows[i])
      ensures entries != [] && rows[i].cursor <= entries[|entries| - 1].cursor
    {
      ParsedHas(rows, i);
      assert EntryOf(rows[i]) in multiset(entries);
    }
  }
}
