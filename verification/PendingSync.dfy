/**
 The retry walk over checkout sessions that completed unpaid: keyset pages, a cursor kept
 between rounds, and a backlog that other workers change between any two pages.
 */
module PendingSync {
  import opened Wrappers
  import opened Text

  datatype Row = Row(createdAt: int, sessionId: string)

  /** The keyset order (created_at, event_id). */
  predicate Before(a: Row, b: Row) {
    a.createdAt < b.createdAt || (a.createdAt == b.createdAt && Less(a.sessionId, b.sessionId))
  }

  predicate Past(after: Option<Row>, r: Row) {
    after.None? || Before(after.value, r)
  }

  lemma BeforeTransitive(a: Row, b: Row, c: Row)
    requires Before(a, b) && Before(b, c)
    ensures Before(a, c)
  {
    if a.createdAt == b.createdAt == c.createdAt {
      LessTransitive(a.sessionId, b.sessionId, c.sessionId);
    }
  }

  lemma BeforeTotal(a: Row, b: Row)
    ensures Before(a, b) || a == b || Before(b, a)
    ensures !Before(a, a)
  {
    LessTotal(a.sessionId, b.sessionId);
    LessIrreflexive(a.sessionId);
  }

  ghost predicate Ascending(rows: seq<Row>) {
    forall i, j :: 0 <= i < j < |rows| ==> Before(rows[i], rows[j])
  }

  lemma AscendingIsOnce(rows: seq<Row>, i: nat, j: nat)
    requires Ascending(rows) && i < |rows| && j < |rows| && rows[i] == rows[j]
    ensures i == j
  {
    BeforeTotal(rows[i], rows[i]);
  }

  lemma AscendingAppend(a: seq<Row>, b: seq<Row>)
    requires Ascending(a) && Ascending(b)
    requires a != [] ==> forall r :: r in b ==> Before(a[|a| - 1], r)
    ensures Ascending(a + b)
  {
    forall i, j | 0 <= i < j < |a + b|
      ensures Before((a + b)[i], (a + b)[j])
    {
      assert |a| <= j ==> b[j - |a|] in b;
      if i < |a| - 1 && |a| <= j {
        BeforeTransitive(a[i], a[|a| - 1], b[j - |a|]);
      }
    }
  }

  /** `rows` is the ordered page of at most `limit` rows of the backlog that follow `after`. */
  ghost predicate IsPage(backlog: set<Row>, after: Option<Row>, limit: nat, rows: seq<Row>) {
    && Ascending(rows)
    && |rows| <= limit
    && (forall r :: r in rows ==> r in backlog && Past(after, r))
    && (forall r :: r in backlog && Past(after, r) && r !in rows ==>
          |rows| == limit && forall q :: q in rows ==> Before(q, r))
  }

  method Least(rows: set<Row>) returns (least: Row)
    requires rows != {}
    ensures least in rows && forall r :: r in rows && r != least ==> Before(least, r)
  {
    least :| least in rows;
    var rest := rows - {least};
    while rest != {}
      invariant least in rows && rest <= rows
      invariant forall r :: r in rows - rest && r != least ==> Before(least, r)
      decreases rest
    {
      var r :| r in rest;
      BeforeTotal(least, r);
      if Before(r, least) {
        forall q | q in rows - rest && q != least
          ensures Before(r, q)
        {
          BeforeTransitive(r, least, q);
        }
        least := r;
      }
      rest := rest - {r};
    }
  }

  /** What a query sees: the pending rows, the sessions that have a license, and the time. */
  datatype View = View(pending: set<Row>, licensed: set<string>, now: int)

  /** Thirty days, in microseconds. */
  const MAX_AGE: int := 2_592_000_000_000

  /** A license, not a claim, ends a pending session; so does its age. */
  predicate Waiting(view: View, r: Row) {
    r in view.pending && r.createdAt > view.now - MAX_AGE && r.sessionId !in view.licensed
  }

  function Backlog(view: View): set<Row> {
    set r | r in view.pending && Waiting(view, r)
  }

  /**
   Younger than thirty days, unlicensed, and after the cursor: later, or at the same time with a greater session
   id.
   */
  predicate Listable(view: View, after: Option<Row>, r: Row) {
    && r in view.pending && view.now - r.createdAt < 30 * 24 * 3600 * 1_000_000 && r.sessionId !in view.licensed
    && (after == None || after.value.createdAt < r.createdAt
        || (after.value.createdAt == r.createdAt && Less(after.value.sessionId, r.sessionId)))
  }

  /** The listing query. */
  method ListPendingCheckoutSessions(view: View, after: Option<Row>, limit: nat) returns (rows: seq<Row>)
    ensures IsPage(Backlog(view), after, limit, rows)
  {
    rows := [];
    var rest := set r | r in view.pending && Waiting(view, r) && Past(after, r);
    while |rows| < limit && rest != {}
      invariant |rows| <= limit && Ascending(rows)
      invariant forall r :: r in rows ==> r in Backlog(view) && Past(after, r)
      invariant forall r :: r in Backlog(view) && Past(after, r) <==> r in rest || r in rows
      invariant forall q, r :: q in rows && r in rest ==> Before(q, r)
      decreases rest
    {
      var least := Least(rest);
      BeforeTotal(least, least);
      rows := rows + [least];
      rest := rest - {least};
    }
  }

  /** What a page holds: listable rows only, and all of them unless it is full. */
  lemma PageIsListable(view: View, after: Option<Row>, limit: nat, rows: seq<Row>)
    requires IsPage(Backlog(view), after, limit, rows)
    ensures forall r :: r in rows ==> Listable(view, after, r)
    ensures forall r :: Listable(view, after, r) && r !in rows ==> |rows| == limit
  {
    forall r
      ensures Listable(view, after, r) <==> r in Backlog(view) && Past(after, r)
    {
    }
  }

  class PendingWalk {
    /** What each listing query sees; None when the query fails. */
    const views: nat -> Option<View>
    var queries: nat
    var pendingAfter: Option<Row>
    /** Every session handed to syncPendingSession, in order. */
    var visited: seq<Row>
    ghost var walkFrom: nat
    ghost var firstQuery: nat
    ghost var failed: bool

    /** The row is in every backlog the current walk's queries saw. */
    ghost predicate Throughout(r: Row, from: nat, to: nat)
      reads this
    {
      forall q :: from <= q < to && views(q).Some? ==> r in Backlog(views(q).value)
    }

    /** Everything up to the cursor that was there throughout has been visited in this walk. */
    ghost predicate Covered(after: Option<Row>)
      requires walkFrom <= |visited|
      reads this
    {
      forall r :: after.Some? && !Past(after, r) && Throughout(r, firstQuery, queries) ==> r in visited[walkFrom..]
    }

    /** A walk no query of which failed has gone strictly upwards, to the cursor. */
    ghost predicate Upwards(after: Option<Row>)
      requires walkFrom <= |visited|
      reads this
    {
      && Ascending(visited[walkFrom..])
      && (after.None? ==> |visited| == walkFrom)
      && (after.Some? ==> |visited| > walkFrom && visited[|visited| - 1] == after.value)
    }

    ghost predicate Valid()
      reads this
    {
      && walkFrom <= |visited|
      && firstQuery <= queries
      && Covered(pendingAfter)
      && (!failed ==> Upwards(pendingAfter))
    }

    constructor (views: nat -> Option<View>)
      ensures Valid() && this.views == views && visited == [] && pendingAfter.None? && queries == 0
    {
      this.views := views;
      queries, pendingAfter, visited := 0, None, [];
      walkFrom, firstQuery, failed := 0, 0, false;
    }

    lemma PageCovers(after: Option<Row>, backlog: set<Row>, limit: nat, rows: seq<Row>, r: Row)
      requires IsPage(backlog, after, limit, rows) && rows != []
      requires r in backlog && !Before(rows[|rows| - 1], r)
      ensures (after.Some? && !Past(after, r)) || r in rows
    {
    }

    /**
     One round of the walk. `finished` means the walk reached the end of the backlog: then every row
     that was there throughout the walk has been visited, and exactly once unless a query failed.
     */
    method SyncPendingCheckouts(pendingBatchLimit: nat) returns (finished: bool)
      requires Valid()
      modifies this
      ensures Valid()
      ensures old(visited) <= visited && queries >= old(queries)
      ensures |visited| - |old(visited)| < if pendingBatchLimit == 0 then 1100
                else pendingBatchLimit + (if pendingBatchLimit < 100 then pendingBatchLimit else 100)
      ensures finished ==> pendingAfter.None?
      ensures finished ==> walkFrom == |visited| && firstQuery == queries && !failed
      ensures finished ==> forall r :: Throughout(r, old(firstQuery), queries) ==> r in visited[old(walkFrom)..]
      ensures finished && !old(failed) ==> Ascending(visited[old(walkFrom)..])
      ensures !finished ==> walkFrom == old(walkFrom) && firstQuery == old(firstQuery)
      ensures !finished && (forall q :: old(queries) <= q < queries ==> views(q).Some?) ==> failed == old(failed)
    {
      var pageSize, maxPerRound := 100, 1000;
      if pendingBatchLimit > 0 {
        maxPerRound := pendingBatchLimit;
        if pageSize > maxPerRound {
          pageSize := maxPerRound;
        }
      }
      var after := pendingAfter;
      var seen := 0;
      while seen < maxPerRound
        invariant old(visited) <= visited && seen == |visited| - |old(visited)|
        invariant seen < maxPerRound + pageSize
        invariant walkFrom == old(walkFrom) && firstQuery == old(firstQuery) && failed == old(failed)
        invariant queries >= old(queries) && pendingAfter == old(pendingAfter)
        invariant forall q :: old(queries) <= q < queries ==> views(q).Some?
        invariant Covered(after) && Covered(pendingAfter)
        invariant !failed ==> Upwards(after)
      {
        var listed := views(queries);
        queries := queries + 1;
        if listed.None? {
          failed := true;
          return false;
        }
        var rows := ListPendingCheckoutSessions(listed.value, after, pageSize);
        if |rows| == 0 {
          assert forall r :: r in Backlog(listed.value) ==> !Past(after, r);
          pendingAfter := None;
          walkFrom, firstQuery, failed := |visited|, queries, false;
          return true;
        }
        ghost var last := rows[|rows| - 1];
        ghost var walked := visited[walkFrom..];
        if !failed {
          AscendingAppend(walked, rows);
        }
        visited := visited + rows;
        assert visited[walkFrom..] == walked + rows;
        forall r | !Before(last, r) && Throughout(r, firstQuery, queries)
          ensures r in visited[walkFrom..]
        {
          assert r in Backlog(views(queries - 1).value);
          PageCovers(after, Backlog(listed.value), pageSize, rows, r);
          assert Throughout(r, firstQuery, queries - 1);
        }
        seen := seen + |rows|;
        after := Some(rows[|rows| - 1]);
      }
      pendingAfter := after;
      return false;
    }
  }
}
