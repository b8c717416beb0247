/** Which rows a retention pass takes, how many, and what it seals, read off the stored rows. */
module AuditRetention {
  import opened Common
  import opened AuditChain
  import opened AuditRuns

  predicate Due(e: Event, cutoff: int) {
    e.createdAt < cutoff
  }

  /** How many of the first `n` rows are older than the cutoff. */
  function DueBefore(rows: seq<Event>, n: nat, cutoff: int): nat
    requires n <= |rows|
  {
    if n == 0 then 0 else DueBefore(rows, n - 1, cutoff) + if Due(rows[n - 1], cutoff) then 1 else 0
  }

  /** The row is due, and fewer than `batch` due rows come before it. */
  predicate Taken(rows: seq<Event>, cutoff: int, batch: nat, i: nat)
    requires i < |rows|
  {
    Due(rows[i], cutoff) && DueBefore(rows, i, cutoff) < batch
  }

  lemma {:induction false} DueFromFront(rows: seq<Event>, n: nat, cutoff: int)
    requires 0 < n <= |rows|
    ensures DueBefore(rows, n, cutoff)
            == (if Due(rows[0], cutoff) then 1 else 0) + DueBefore(rows[1..], n - 1, cutoff)
  {
    if n > 1 {
      DueFromFront(rows, n - 1, cutoff);
      assert rows[1..][n - 2] == rows[n - 1];
    }
  }

  lemma {:induction false} DueGrows(rows: seq<Event>, i: nat, j: nat, cutoff: int)
    requires i <= j <= |rows|
    ensures DueBefore(rows, i, cutoff) <= DueBefore(rows, j, cutoff)
  {
    if i < j {
      DueGrows(rows, i, j - 1, cutoff);
    }
  }

  /** A taken row is selected in its place among the due ones. */
  lemma {:induction false} TakenIsSelected(rows: seq<Event>, cutoff: int, batch: nat, i: nat)
    requires i < |rows| && Taken(rows, cutoff, batch, i)
    ensures DueBefore(rows, i, cutoff) < |Selected(rows, cutoff, batch)|
    ensures Selected(rows, cutoff, batch)[DueBefore(rows, i, cutoff)] == rows[i]
  {
    if i > 0 {
      DueFromFront(rows, i, cutoff);
      TakenIsSelected(rows[1..], cutoff, if Due(rows[0], cutoff) then batch - 1 else batch, i - 1);
    }
  }

  /** Every selected row is a taken one. */
  lemma {:induction false} SelectedIsTaken(rows: seq<Event>, cutoff: int, batch: nat, k: nat) returns (i: nat)
    requires k < |Selected(rows, cutoff, batch)|
    ensures i < |rows| && Taken(rows, cutoff, batch, i) && DueBefore(rows, i, cutoff) == k
    ensures Selected(rows, cutoff, batch)[k] == rows[i]
  {
    if Due(rows[0], cutoff) && k == 0 {
      i := 0;
    } else {
      var due := if Due(rows[0], cutoff) then 1 else 0;
      var rest := SelectedIsTaken(rows[1..], cutoff, batch - due, k - due);
      i := rest + 1;
      DueFromFront(rows, i, cutoff);
    }
  }

  lemma {:induction false} SelectedCount(rows: seq<Event>, cutoff: int, batch: nat)
    ensures |Selected(rows, cutoff, batch)| == Min(batch, DueBefore(rows, |rows|, cutoff))
  {
    if rows != [] && batch != 0 {
      DueFromFront(rows, |rows|, cutoff);
      SelectedCount(rows[1..], cutoff, if Due(rows[0], cutoff) then batch - 1 else batch);
    }
  }

  lemma {:induction false} WithoutOther(rows: seq<Event>, gone: set<string>, id: string)
    requires forall e :: e in rows ==> e.id != id
    ensures Without(rows, gone + {id}) == Without(rows, gone)
  {
    if rows != [] {
      assert rows[0] in rows;
      WithoutOther(rows[1..], gone, id);
    }
  }

  lemma FrontIdOnce(rows: seq<Event>)
    requires DistinctIds(rows) && rows != []
    ensures DistinctIds(rows[1..]) && forall e :: e in rows[1..] ==> e.id != rows[0].id
  {
    forall e | e in rows[1..] ensures e.id != rows[0].id {
      var j :| 0 <= j < |rows[1..]| && rows[1..][j] == e;
      assert rows[j + 1] == e;
    }
  }

  /** As many rows go as were selected. */
  lemma {:induction false} SelectedGo(rows: seq<Event>, cutoff: int, batch: nat)
    requires DistinctIds(rows)
    ensures |Without(rows, Ids(Selected(rows, cutoff, batch)))| == |rows| - |Selected(rows, cutoff, batch)|
  {
    var sel := Selected(rows, cutoff, batch);
    if rows == [] || batch == 0 {
      assert Ids(sel) == {};
      WithoutNothing(rows, {});
    } else if Due(rows[0], cutoff) {
      var rest := Selected(rows[1..], cutoff, batch - 1);
      FrontIdOnce(rows);
      SelectedGo(rows[1..], cutoff, batch - 1);
      assert Ids(sel) == Ids(rest) + {rows[0].id};
      WithoutOther(rows[1..], Ids(rest), rows[0].id);
    } else {
      FrontIdOnce(rows);
      SelectedGo(rows[1..], cutoff, batch);
      SelectedFacts(rows[1..], cutoff, batch);
      assert rows[0].id !in Ids(sel);
    }
  }

  /**
   A prune deletes a row exactly when it is older than the cutoff and fewer than `batch` such rows
   come before it in sequence.
   */
  lemma PruneTakesExactly(s: Store, cutoff: int, batch: nat, sealedAt: int, i: nat)
    requires DistinctIds(s.rows) && i < |s.rows|
    ensures s.rows[i] !in Prune(s, cutoff, batch, sealedAt).rows <==> Taken(s.rows, cutoff, batch, i)
  {
    var sel := Selected(s.rows, cutoff, batch);
    SelectedFacts(s.rows, cutoff, batch);
    WithoutMembers(s.rows, Ids(sel));
    DeletedIffSelected(s.rows, sel, s.rows[i]);
    hide Selected, Without, Taken;
    if Taken(s.rows, cutoff, batch, i) {
      TakenIsSelected(s.rows, cutoff, batch, i);
    }
    if s.rows[i] in sel {
      var k :| 0 <= k < |sel| && sel[k] == s.rows[i];
      var j := SelectedIsTaken(s.rows, cutoff, batch, k);
      SameId(s.rows, i, j);
    }
  }

  lemma SameId(rows: seq<Event>, i: nat, j: nat)
    requires DistinctIds(rows) && i < |rows| && j < |rows| && rows[i] == rows[j]
    ensures i == j
  {
  }

  /** A prune deletes as many rows as are due, up to its batch. */
  lemma PruneCounts(s: Store, cutoff: int, batch: nat, sealedAt: int)
    requires DistinctIds(s.rows)
    ensures |s.rows| - |Prune(s, cutoff, batch, sealedAt).rows| == Min(batch, DueBefore(s.rows, |s.rows|, cutoff))
  {
    SelectedCount(s.rows, cutoff, batch);
    SelectedGo(s.rows, cutoff, batch);
  }

  /** A prune that takes something adds one checkpoint over its first to its last row, and otherwise changes nothing. */
  lemma PruneSeals(s: Store, cutoff: int, batch: nat, sealedAt: int) returns (first: nat, last: nat)
    ensures var n, after := Min(batch, DueBefore(s.rows, |s.rows|, cutoff)), Prune(s, cutoff, batch, sealedAt);
            if n == 0 then after == s
            else
              && after.head == s.head
              && first < |s.rows| && Due(s.rows[first], cutoff) && DueBefore(s.rows, first, cutoff) == 0
              && last < |s.rows| && Due(s.rows[last], cutoff) && DueBefore(s.rows, last, cutoff) == n - 1
              && |after.checkpoints| == |s.checkpoints| + 1 && after.checkpoints[..|s.checkpoints|] == s.checkpoints
              && after.checkpoints[|s.checkpoints|].payload
                 == CheckpointPayload(sealedAt, s.rows[first].num, s.rows[last].num, n, s.rows[last].hash)
  {
    SelectedCount(s.rows, cutoff, batch);
    var sel := Selected(s.rows, cutoff, batch);
    first, last := 0, 0;
    if sel != [] {
      first := SelectedIsTaken(s.rows, cutoff, batch, 0);
      last := SelectedIsTaken(s.rows, cutoff, batch, |sel| - 1);
    }
  }
}
