/** The transactional outbox table and the worker's poll cycle. */
module Outbox {
  import opened Text

  /** event_id, which is unique: it stands for the row. */
  type EventId = string

  datatype Status = Pending | Claimed | Published | Failed

  datatype Row = Row(status: Status, attempts: nat, claimedAt: Option<int>, createdAt: int)

  type Table = map<EventId, Row>

  /** INSERT ... ON CONFLICT (event_id) DO NOTHING */
  function Inserted(t: Table, id: EventId, now: int): Table {
    if id in t then t else t[id := Row(Pending, 0, None, now)]
  }

  /** Pending, or claimed under a lease that has run out. */
  predicate Claimable(r: Row, now: int, leaseMs: nat) {
    r.status.Pending? || (r.status.Claimed? && r.claimedAt.Some? && r.claimedAt.value < now - leaseMs)
  }

  function ClaimableIds(t: Table, now: int, leaseMs: nat): set<EventId> {
    set id | id in t && Claimable(t[id], now, leaseMs)
  }

  function ClaimedBy(t: Table, ids: set<EventId>, now: int): Table {
    map id | id in t :: if id in ids then t[id].(status := Claimed, claimedAt := Some(now)) else t[id]
  }

  function PublishedRow(r: Row): Row { r.(status := Published, claimedAt := None) }

  function FailedRow(r: Row, maxAttempts: int): Row {
    Row(if r.attempts + 1 >= maxAttempts then Failed else Pending, r.attempts + 1, None, r.createdAt)
  }

  /** Marking a row that is not there updates nothing. */
  function MarkedPublished(t: Table, id: EventId): Table {
    if id in t then t[id := PublishedRow(t[id])] else t
  }

  function MarkedFailed(t: Table, id: EventId, maxAttempts: int): Table {
    if id in t then t[id := FailedRow(t[id], maxAttempts)] else t
  }

  function Range(ids: seq<EventId>): set<EventId> { set id | id in ids }

  /** The claim takes the oldest claimable rows, as many as the limit allows. */
  ghost predicate OldestFirst(t: Table, ids: seq<EventId>, limit: nat, now: int, leaseMs: nat) {
    var open := ClaimableIds(t, now, leaseMs);
    && Distinct(ids) && (forall id :: id in ids ==> id in open)
    && |ids| == Min(limit, |open|)
    && forall id, other :: id in ids && other in open && other !in ids ==> t[id].createdAt <= t[other].createdAt
  }

  /** The rows taken so far, oldest first, and the claimable ones left. */
  ghost predicate Taken(t: Table, ids: seq<EventId>, open: set<EventId>, now: int, leaseMs: nat) {
    var all := ClaimableIds(t, now, leaseMs);
    && Distinct(ids) && |ids| + |open| == |all|
    && (forall id :: id in ids ==> id in all) && open == all - Range(ids)
    && forall id, other :: id in ids && other in open ==> t[id].createdAt <= t[other].createdAt
  }

  lemma TakeNext(t: Table, ids: seq<EventId>, open: set<EventId>, next: EventId, now: int, leaseMs: nat)
    requires Taken(t, ids, open, now, leaseMs) && next in open
    requires forall id :: id in open ==> t[next].createdAt <= t[id].createdAt
    ensures Taken(t, ids + [next], open - {next}, now, leaseMs)
  {
    assert Range(ids + [next]) == Range(ids) + {next};
  }

  lemma AllTaken(t: Table, ids: seq<EventId>, open: set<EventId>, limit: nat, now: int, leaseMs: nat)
    requires Taken(t, ids, open, now, leaseMs) && |ids| <= limit && (|ids| == limit || open == {})
    ensures OldestFirst(t, ids, limit, now, leaseMs)
  {
  }

  class OutboxStore {
    var rows: Table

    constructor ()
      ensures rows == map[]
    {
      rows := map[];
    }

    method InsertEvent(id: EventId, now: int)
      modifies this
      ensures rows == Inserted(old(rows), id, now)
    {
      if id !in rows { rows := rows[id := Row(Pending, 0, None, now)]; }
    }

    method ClaimBatch(limit: nat, leaseMs: nat, now: int) returns (ids: seq<EventId>)
      modifies this
      ensures OldestFirst(old(rows), ids, limit, now, leaseMs)
      ensures rows == ClaimedBy(old(rows), Range(ids), now)
    {
      var open := ClaimableIds(rows, now, leaseMs);
      ids := [];
      while |ids| < limit && open != {}
        invariant rows == old(rows) && |ids| <= limit
        invariant Taken(rows, ids, open, now, leaseMs)
        decreases |open|
      {
        var next := Oldest(open);
        TakeNext(rows, ids, open, next, now, leaseMs);
        ids := ids + [next];
        open := open - {next};
      }
      AllTaken(rows, ids, open, limit, now, leaseMs);
      rows := ClaimedBy(rows, Range(ids), now);
    }

    method Oldest(open: set<EventId>) returns (id: EventId)
      requires open != {} && forall i :: i in open ==> i in rows
      ensures id in open && forall i :: i in open ==> rows[id].createdAt <= rows[i].createdAt
    {
      id :| id in open;
      var rest := open - {id};
      while rest != {}
        invariant rest <= open && id in open
        invariant forall i :: i in open && i !in rest ==> rows[id].createdAt <= rows[i].createdAt
        decreases |rest|
      {
        var i :| i in rest;
        if rows[i].createdAt < rows[id].createdAt { id := i; }
        rest := rest - {i};
      }
    }

    method MarkPublished(id: EventId)
      modifies this
      ensures rows == MarkedPublished(old(rows), id)
    {
      if id in rows { rows := rows[id := rows[id].(status := Published, claimedAt := None)]; }
    }

    method MarkFailed(id: EventId, maxAttempts: int)
      modifies this
      ensures rows == MarkedFailed(old(rows), id, maxAttempts)
    {
      if id in rows {
        var r := rows[id];
        var status := if r.attempts + 1 >= maxAttempts then Failed else Pending;
        rows := rows[id := Row(status, r.attempts + 1, None, r.createdAt)];
      }
    }
  }

  // ---------- who waits ----------

  /** The claimable rows at least as old as this one. */
  function NotNewer(t: Table, id: EventId, now: int, leaseMs: nat): set<EventId>
    requires id in t
  {
    set o | o in t && o != id && Claimable(t[o], now, leaseMs) && t[o].createdAt <= t[id].createdAt
  }

  function Older(t: Table, id: EventId, now: int, leaseMs: nat): set<EventId>
    requires id in t
  {
    set o | o in t && Claimable(t[o], now, leaseMs) && t[o].createdAt < t[id].createdAt
  }

  lemma {:induction false} DistinctSize(ids: seq<EventId>)
    requires Distinct(ids)
    ensures |Range(ids)| == |ids|
  {
    if ids != [] {
      var init, last := ids[..|ids| - 1], ids[|ids| - 1];
      DistinctSize(init);
      assert ids == init + [last];
      assert Range(ids) == Range(init) + {last};
    }
  }

  /** A claimable row waits only for older ones: it is claimed when fewer rows than the batch holds
      are at least as old, and when it is claimed fewer than that are older. */
  lemma ClaimedByAge(t: Table, ids: seq<EventId>, limit: nat, now: int, leaseMs: nat, id: EventId)
    requires OldestFirst(t, ids, limit, now, leaseMs) && id in ClaimableIds(t, now, leaseMs)
    ensures |NotNewer(t, id, now, leaseMs)| < limit ==> id in ids
    ensures id in ids ==> |Older(t, id, now, leaseMs)| < limit
  {
    DistinctSize(ids);
    var all := ClaimableIds(t, now, leaseMs);
    if id !in ids {
      SubsetSize(Range(ids) + {id}, all);
      assert |Range(ids) + {id}| == |ids| + 1;
      SubsetSize(Range(ids), NotNewer(t, id, now, leaseMs));
    } else {
      SubsetSize(Older(t, id, now, leaseMs) + {id}, Range(ids));
      assert |Older(t, id, now, leaseMs) + {id}| == |Older(t, id, now, leaseMs)| + 1;
    }
  }

  // ---------- one poll ----------

  /** How one claimed row went: delivered and marked; thrown, by the broker or by the published
      mark, and marked failed; or thrown with the failed mark lost as well. */
  datatype Outcome = Delivered | Thrown | Unmarked

  function After(t: Table, id: EventId, outcome: Outcome, maxAttempts: int): Table {
    match outcome
    case Delivered => MarkedPublished(t, id)
    case Thrown => MarkedFailed(t, id, maxAttempts)
    case Unmarked => t
  }

  /** The table after the rows of a batch went as told, in order. */
  function Marked(t: Table, ids: seq<EventId>, outcome: EventId -> Outcome, maxAttempts: int): Table {
    if ids == [] then t
    else
      var init, id := ids[..|ids| - 1], ids[|ids| - 1];
      After(Marked(t, init, outcome, maxAttempts), id, outcome(id), maxAttempts)
  }

  function Deliveries(ids: seq<EventId>, outcome: EventId -> Outcome): nat {
    if ids == [] then 0
    else Deliveries(ids[..|ids| - 1], outcome) + if outcome(ids[|ids| - 1]).Delivered? then 1 else 0
  }

  /** pollOutboxOnce: claim, then publish and mark row by row; a claim that throws claims nothing. */
  method PollOutboxOnce(store: OutboxStore, claims: bool, outcome: EventId -> Outcome, maxAttempts: int,
      batchSize: nat, leaseMs: nat, now: int)
    returns (ids: seq<EventId>, published: nat, failed: nat)
    modifies store
    ensures !claims ==> ids == [] && store.rows == old(store.rows)
    ensures claims ==> OldestFirst(old(store.rows), ids, batchSize, now, leaseMs)
    ensures store.rows == Marked(ClaimedBy(old(store.rows), Range(ids), now), ids, outcome, maxAttempts)
    ensures published == Deliveries(ids, outcome) && published + failed == |ids|
  {
    ids, published, failed := [], 0, 0;
    if claims { ids := store.ClaimBatch(batchSize, leaseMs, now); }
    ghost var start := store.rows;
    assert start == ClaimedBy(old(store.rows), Range(ids), now);
    for i := 0 to |ids|
      invariant store.rows == Marked(start, ids[..i], outcome, maxAttempts)
      invariant published == Deliveries(ids[..i], outcome) && published + failed == i
    {
      assert ids[..i + 1][..i] == ids[..i];
      if outcome(ids[i]).Delivered? {
        store.MarkPublished(ids[i]);
        published := published + 1;
      } else {
        if outcome(ids[i]).Thrown? { store.MarkFailed(ids[i], maxAttempts); }
        failed := failed + 1;
      }
    }
    assert ids[..|ids|] == ids;
  }

  // ---------- the queue drains ----------

  function Backlog(t: Table): set<EventId> {
    set id | id in t && (t[id].status.Pending? || t[id].status.Claimed?)
  }

  /** One poll in which the broker accepts everything. */
  ghost predicate CleanPoll(t: Table, t': Table, batchSize: nat, leaseMs: nat, now: int) {
    exists ids :: OldestFirst(t, ids, batchSize, now, leaseMs)
      && t' == Marked(ClaimedBy(t, Range(ids), now), ids, (_: EventId) => Delivered, 1)
  }

  lemma {:induction false} MarkedAll(t: Table, ids: seq<EventId>)
    requires forall id :: id in ids ==> id in t
    ensures var t' := Marked(t, ids, (_: EventId) => Delivered, 1);
      t'.Keys == t.Keys && forall id :: id in t ==>
        if id in ids then t'[id].status == Published else t'[id] == t[id]
  {
    if ids != [] {
      var init := ids[..|ids| - 1];
      assert ids == init + [ids[|ids| - 1]];
      MarkedAll(t, init);
    }
  }

  lemma PollShrinks(t: Table, t': Table, batchSize: nat, leaseMs: nat, now: int)
    requires CleanPoll(t, t', batchSize, leaseMs, now) && Backlog(t) == ClaimableIds(t, now, leaseMs)
    ensures |Backlog(t')| == |Backlog(t)| - Min(batchSize, |Backlog(t)|)
    ensures Backlog(t') <= Backlog(t) && t'.Keys == t.Keys
    ensures forall id :: id in Backlog(t') ==> t'[id] == t[id]
  {
    var ids :| OldestFirst(t, ids, batchSize, now, leaseMs)
      && t' == Marked(ClaimedBy(t, Range(ids), now), ids, (_: EventId) => Delivered, 1);
    Polled(t, t', ids, now);
    DistinctSize(ids);
    assert Range(ids) <= Backlog(t);
  }

  /** Delivering a batch takes exactly the batch off the backlog. */
  lemma Polled(t: Table, t': Table, ids: seq<EventId>, now: int)
    requires t' == Marked(ClaimedBy(t, Range(ids), now), ids, (_: EventId) => Delivered, 1)
    requires forall id :: id in ids ==> id in t
    ensures t'.Keys == t.Keys && Backlog(t') == Backlog(t) - Range(ids)
    ensures forall id :: id in Backlog(t') ==> t'[id] == t[id]
  {
    var claimed := ClaimedBy(t, Range(ids), now);
    assert claimed.Keys == t.Keys;
    MarkedAll(claimed, ids);
    forall id ensures id in Backlog(t') <==> id in Backlog(t) && id !in Range(ids) {
    }
  }

  /** When every waiting row is claimable, each clean poll at or after that time takes a full
      batch off the backlog, so ceil(backlog / batchSize) polls leave nothing. */
  lemma {:induction false} PollsDrain(tables: seq<Table>, times: seq<int>, batchSize: nat, leaseMs: nat)
    requires |tables| == |times| + 1 && batchSize >= 1
    requires forall i :: 0 <= i < |times| ==> CleanPoll(tables[i], tables[i + 1], batchSize, leaseMs, times[i])
    requires forall i, j :: 0 <= i < j < |times| ==> times[i] <= times[j]
    requires times != [] ==> Backlog(tables[0]) == ClaimableIds(tables[0], times[0], leaseMs)
    ensures |Backlog(tables[|times|])| ==
      (if |times| * batchSize < |Backlog(tables[0])| then |Backlog(tables[0])| - |times| * batchSize else 0)
  {
    if times != [] {
      PollShrinks(tables[0], tables[1], batchSize, leaseMs, times[0]);
      var ts, ks := tables[1..], times[1..];
      if ks != [] {
        assert times[0] <= times[1];
        forall id | id in Backlog(ts[0]) ensures id in ClaimableIds(ts[0], ks[0], leaseMs) {
          assert id in ClaimableIds(tables[0], times[0], leaseMs);
        }
        assert Backlog(ts[0]) == ClaimableIds(ts[0], ks[0], leaseMs);
      }
      forall i | 0 <= i < |ks| ensures CleanPoll(ts[i], ts[i + 1], batchSize, leaseMs, ks[i]) {
        assert CleanPoll(tables[i + 1], tables[i + 2], batchSize, leaseMs, times[i + 1]);
      }
      PollsDrain(ts, ks, batchSize, leaseMs);
      MoreBatches(|ks|, batchSize);
    }
  }

  lemma MoreBatches(n: nat, b: nat)
    ensures (n + 1) * b == n * b + b
  {
  }
}
