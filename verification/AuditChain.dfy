/**
 The hash-linked audit log as a value: rows in the order of their unique sequence number, the
 chain head, and the checkpoints that stand for pruned ranges.

 Keyed hashing is symbolic: signing builds a datatype constructor from the signed message, so two
 signatures are equal exactly when the messages are. `Blank` stands for NULL and for the empty
 string, which the code never tells apart.
 */
module AuditChain {
  import opened Common

  datatype Hash =
    | Blank
    | Text(text: string)
    | EventMac(event: EventPayload, eventPrev: Hash)
    | CheckpointMac(seal: CheckpointPayload, sealPrev: Hash)

  datatype EventPayload = EventPayload(num: int, id: string, createdAt: int, body: string)

  datatype CheckpointPayload =
    CheckpointPayload(createdAt: int, fromSeq: int, toSeq: int, prunedCount: int, lastEventHash: Hash)

  datatype Event =
    Event(num: int, id: string, createdAt: int, body: string, prev: Hash, hash: Hash)

  datatype Checkpoint =
    Checkpoint(payload: CheckpointPayload, prev: Hash, hash: Hash)

  datatype Head = Head(num: int, hash: Hash, chainFrom: int)

  datatype Store = Store(rows: seq<Event>, head: Option<Head>, checkpoints: seq<Checkpoint>)

  datatype Reason = PrevHashMismatch | EventHashMismatch | MissingPredecessor | SeqGap

  datatype ChainBreak = ChainBreak(num: int, id: string, reason: Reason)

  datatype ChainPage = ChainPage(checked: nat, lastSeq: int, breaks: seq<ChainBreak>, exhausted: bool)

  function Payload(e: Event): EventPayload {
    EventPayload(e.num, e.id, e.createdAt, e.body)
  }

  function SignEvent(e: Event): Hash {
    EventMac(Payload(e), e.prev)
  }

  /** The head as `locked_head` finds or creates it. */
  function HeadOf(s: Store): Head {
    match s.head
    case Some(h) => h
    case None => Head(0, Blank, 1)
  }

  function Floor(s: Store): int {
    var from := HeadOf(s).chainFrom;
    if from == 0 then 1 else from
  }

  /** Rows are read through the unique index on the sequence number. */
  ghost predicate Sorted(rows: seq<Event>) {
    forall i, j :: 0 <= i < j < |rows| ==> rows[i].num < rows[j].num
  }

  // ----- appending -----

  function Linked(s: Store, id: string, createdAt: int, body: string): Event {
    var head := HeadOf(s);
    var blank := Event(head.num + 1, id, createdAt, body, head.hash, Blank);
    blank.(hash := SignEvent(blank))
  }

  function Append(s: Store, id: string, createdAt: int, body: string): Store {
    var row := Linked(s, id, createdAt, body);
    Store(s.rows + [row], Some(Head(row.num, row.hash, HeadOf(s).chainFrom)), s.checkpoints)
  }

  // ----- pruning -----

  /** The first `batch` rows older than the cutoff, in sequence order. */
  function Selected(rows: seq<Event>, cutoff: int, batch: nat): seq<Event> {
    if rows == [] || batch == 0 then []
    else if rows[0].createdAt < cutoff then [rows[0]] + Selected(rows[1..], cutoff, batch - 1)
    else Selected(rows[1..], cutoff, batch)
  }

  function Without(rows: seq<Event>, gone: set<string>): seq<Event> {
    if rows == [] then []
    else if rows[0].id in gone then Without(rows[1..], gone)
    else [rows[0]] + Without(rows[1..], gone)
  }

  /** The checkpoint with the greatest end; the earliest stored one on a tie. */
  function LatestCheckpoint(cs: seq<Checkpoint>): Option<Checkpoint> {
    if cs == [] then None
    else
      match LatestCheckpoint(cs[..|cs| - 1])
      case None => Some(cs[|cs| - 1])
      case Some(best) =>
        if cs[|cs| - 1].payload.toSeq > best.payload.toSeq then Some(cs[|cs| - 1]) else Some(best)
  }

  function Sealed(cs: seq<Checkpoint>, payload: CheckpointPayload): Checkpoint {
    var prev := match LatestCheckpoint(cs) case Some(c) => c.hash case None => Blank;
    Checkpoint(payload, prev, CheckpointMac(payload, prev))
  }

  function Ids(rows: seq<Event>): set<string> {
    set e | e in rows :: e.id
  }

  function Prune(s: Store, cutoff: int, batch: nat, sealedAt: int): Store {
    var sel := Selected(s.rows, cutoff, batch);
    if sel == [] then s
    else
      var last := sel[|sel| - 1];
      var payload := CheckpointPayload(sealedAt, sel[0].num, last.num, |sel|, last.hash);
      Store(Without(s.rows, Ids(sel)), s.head, s.checkpoints + [Sealed(s.checkpoints, payload)])
  }

  // ----- verification -----

  /** Index of the first row numbered above `after`. */
  function FirstAfter(rows: seq<Event>, after: int): (k: nat)
    ensures k <= |rows|
    ensures forall i :: 0 <= i < k ==> rows[i].num <= after
    ensures Sorted(rows) ==> forall i :: k <= i < |rows| ==> rows[i].num > after
  {
    if rows == [] || rows[0].num > after then 0
    else
      1 + FirstAfter(rows[1..], after)
  }

  function PageRows(s: Store, after: int, limit: nat): seq<Event> {
    var k := FirstAfter(s.rows, after);
    s.rows[k..Min(k + limit, |s.rows|)]
  }

  function FindRow(rows: seq<Event>, num: int): Option<Event> {
    if rows == [] then None else if rows[0].num == num then Some(rows[0]) else FindRow(rows[1..], num)
  }

  function FindCheckpoint(cs: seq<Checkpoint>, toSeq: int): Option<Checkpoint> {
    if cs == [] then None
    else if cs[0].payload.toSeq == toSeq then Some(cs[0])
    else FindCheckpoint(cs[1..], toSeq)
  }

  /** What the first row of a page must point back to; `None` when nothing vouches for it. */
  function Predecessor(s: Store, first: Event): Option<Hash> {
    if first.num <= Floor(s) then Some(Blank)
    else
      match FindRow(s.rows, first.num - 1)
      case Some(row) => Some(row.hash)
      case None =>
        match FindCheckpoint(s.checkpoints, first.num - 1)
        case Some(c) => Some(c.payload.lastEventHash)
        case None => None
  }

  function RowBreaks(e: Event, expectedPrev: Hash, expectedSeq: int): seq<ChainBreak> {
    (if e.num != expectedSeq then [ChainBreak(e.num, e.id, SeqGap)] else [])
    + (if e.prev != expectedPrev then [ChainBreak(e.num, e.id, PrevHashMismatch)] else [])
    + (if SignEvent(e) != e.hash then [ChainBreak(e.num, e.id, EventHashMismatch)] else [])
  }

  /** Breaks in the first `n` rows of a page whose first row is expected to point to `anchor`. */
  function BreaksIn(page: seq<Event>, anchor: Hash, n: nat): seq<ChainBreak>
    requires n <= |page|
  {
    if n == 0 then []
    else if n == 1 then RowBreaks(page[0], anchor, page[0].num)
    else BreaksIn(page, anchor, n - 1) + RowBreaks(page[n - 1], page[n - 2].hash, page[n - 2].num + 1)
  }

  function PageReport(s: Store, after: int, limit: nat): ChainPage {
    var start := Max(after, Floor(s) - 1);
    var page := PageRows(s, start, limit);
    if page == [] then ChainPage(0, start, [], true)
    else
      var breaks :=
        match Predecessor(s, page[0])
        case Some(anchor) => BreaksIn(page, anchor, |page|)
        case None =>
          [ChainBreak(page[0].num, page[0].id, MissingPredecessor)] + BreaksIn(page, page[0].prev, |page|);
      ChainPage(|page|, page[|page| - 1].num, breaks, |page| < limit)
  }

  function Flagged(breaks: seq<ChainBreak>): set<int> {
    set b | b in breaks :: b.num
  }

  datatype Walked = Walked(visited: seq<Event>, breaks: seq<ChainBreak>)

  /** Page after page until one is not full; page number `k` asks for `limits(k)` rows. */
  function Walk(s: Store, after: int, limits: nat -> nat, k: nat): Walked
    requires Sorted(s.rows)
    requires forall j: nat :: limits(j) >= 1
    decreases |s.rows| - FirstAfter(s.rows, Max(after, Floor(s) - 1))
  {
    var start := Max(after, Floor(s) - 1);
    var page := PageReport(s, after, limits(k));
    var rows := PageRows(s, start, limits(k));
    if page.exhausted then Walked(rows, page.breaks)
    else
      assert page.lastSeq == rows[|rows| - 1].num > start;
      assert FirstAfter(s.rows, page.lastSeq) > FirstAfter(s.rows, start) + |rows| - 1;
      var rest := Walk(s, page.lastSeq, limits, k + 1);
      Walked(rows + rest.visited, page.breaks + rest.breaks)
  }
}
