/** Rate-limit counters kept in each region and merged through one shared table. */
module Crdt {
  import opened Text
  import opened Buckets

  // ---------- the merge ----------

  /** Later windows above earlier ones, larger counts above smaller within a window. */
  predicate Below(a: Bucket, b: Bucket) {
    a.resetAt < b.resetAt || (a.resetAt == b.resetAt && a.count <= b.count)
  }

  /** The upsert: a newer window replaces, the same window takes the greater count, an older
      one changes nothing. */
  function Upserted(row: Option<Bucket>, b: Bucket): Bucket {
    if row.None? then b
    else if row.value.resetAt <= b.resetAt then
      Bucket(if row.value.resetAt < b.resetAt then b.count else Max(row.value.count, b.count), b.resetAt)
    else row.value
  }

  /** What the region keeps: the count the upsert returned, when it returned one. */
  function Adopted(row: Option<Bucket>, b: Bucket): Bucket {
    if row.Some? && row.value.resetAt > b.resetAt then b else Bucket(Upserted(row, b).count, b.resetAt)
  }

  function RowAfter(writes: seq<Bucket>): Option<Bucket> {
    if writes == [] then None
    else Some(Upserted(RowAfter(writes[..|writes| - 1]), writes[|writes| - 1]))
  }

  /** The shared row is the greatest of everything ever written to it. */
  lemma {:induction false} RowIsGreatest(writes: seq<Bucket>)
    requires writes != []
    ensures RowAfter(writes).value in writes
    ensures forall b :: b in writes ==> Below(b, RowAfter(writes).value)
  {
    var init, last := writes[..|writes| - 1], writes[|writes| - 1];
    if init != [] { RowIsGreatest(init); }
    forall b | b in writes ensures Below(b, RowAfter(writes).value) {
      if b != last { assert b in init; }
    }
    if init != [] {
      assert RowAfter(writes).value == last || RowAfter(writes) == RowAfter(init);
      assert RowAfter(init).value in init;
    }
  }

  /** So neither order nor repetition of the writes matters. */
  lemma OrderDoesNotMatter(a: seq<Bucket>, b: seq<Bucket>)
    requires forall x :: x in a <==> x in b
    ensures RowAfter(a) == RowAfter(b)
  {
    assert b != [] ==> b[0] in b;
    if a != [] {
      assert a[0] in b;
      RowIsGreatest(a);
      RowIsGreatest(b);
    }
  }

  // ---------- convergence ----------

  /** One bucket in every region and in the table; a degraded region does not sync. */
  datatype Bucketful = Bucketful(locals: seq<Bucket>, degraded: set<nat>, row: Option<Bucket>)

  function SyncOne(s: Bucketful, i: nat): Bucketful {
    if i >= |s.locals| || i in s.degraded then s
    else s.(locals := s.locals[i := Adopted(s.row, s.locals[i])], row := Some(Upserted(s.row, s.locals[i])))
  }

  function SyncAll(s: Bucketful, order: seq<nat>): Bucketful {
    if order == [] then s else SyncOne(SyncAll(s, order[..|order| - 1]), order[|order| - 1])
  }

  predicate OneWindow(s: Bucketful, resetAt: int) {
    && (forall i :: 0 <= i < |s.locals| ==> s.locals[i].resetAt == resetAt)
    && (s.row.Some? ==> s.row.value.resetAt <= resetAt)
  }

  predicate Round(order: seq<nat>, regions: nat) { forall i :: 0 <= i < regions ==> i in order }

  predicate InRow(s: Bucketful, resetAt: int, count: nat) { s.row == Some(Bucket(count, resetAt)) }

  /** The greatest count that the row, or a region that still syncs, holds for the window. */
  function Greatest(s: Bucketful, resetAt: int): (m: nat)
    ensures forall i :: 0 <= i < |s.locals| && i !in s.degraded ==> s.locals[i].count <= m
    ensures s.row.Some? && s.row.value.resetAt == resetAt ==> s.row.value.count <= m
    ensures m == 0 || (exists i :: 0 <= i < |s.locals| && i !in s.degraded && s.locals[i].count == m)
      || InRow(s, resetAt, m)
    decreases |s.locals|
  {
    if s.locals == [] then (if s.row.Some? && s.row.value.resetAt == resetAt then s.row.value.count else 0)
    else
      var n := |s.locals| - 1;
      var rest := s.(locals := s.locals[..n]);
      var m := if n in s.degraded then Greatest(rest, resetAt) else Max(Greatest(rest, resetAt), s.locals[n].count);
      assert forall i :: 0 <= i < n ==> s.locals[i] == rest.locals[i];
      m
  }

  /** After some syncs the row holds at least what the regions that synced had, nothing that
      syncs exceeds the greatest count, and degraded regions are as they were. */
  ghost predicate Midway(s: Bucketful, t: Bucketful, order: seq<nat>, resetAt: int) {
    && OneWindow(t, resetAt) && |t.locals| == |s.locals| && t.degraded == s.degraded
    && (forall i :: 0 <= i < |s.locals| ==>
          if i in s.degraded then t.locals[i] == s.locals[i]
          else s.locals[i].count <= t.locals[i].count <= Greatest(s, resetAt))
    && (t.row.Some? && t.row.value.resetAt == resetAt ==> t.row.value.count <= Greatest(s, resetAt))
    && (forall i :: i in order && i < |s.locals| && i !in s.degraded ==>
          t.row.Some? && t.row.value.resetAt == resetAt && s.locals[i].count <= t.row.value.count)
    && (s.row.Some? && s.row.value.resetAt == resetAt ==>
          t.row.Some? && t.row.value.resetAt == resetAt && s.row.value.count <= t.row.value.count)
  }

  lemma {:induction false} FirstRound(s: Bucketful, order: seq<nat>, resetAt: int)
    requires OneWindow(s, resetAt)
    ensures Midway(s, SyncAll(s, order), order, resetAt)
  {
    if order != [] {
      var init, last := order[..|order| - 1], order[|order| - 1];
      FirstRound(s, init, resetAt);
      assert order == init + [last];
    }
  }

  lemma {:induction false} SecondRound(s: Bucketful, order: seq<nat>, resetAt: int, m: nat)
    requires OneWindow(s, resetAt) && InRow(s, resetAt, m)
    requires forall i :: 0 <= i < |s.locals| && i !in s.degraded ==> s.locals[i].count <= m
    ensures var t := SyncAll(s, order);
      && t.row == s.row && t.degraded == s.degraded && |t.locals| == |s.locals|
      && (forall i :: 0 <= i < |s.locals| ==>
            t.locals[i] == if i in order && i !in s.degraded then Bucket(m, resetAt) else s.locals[i])
  {
    if order != [] {
      SecondRound(s, order[..|order| - 1], resetAt, m);
      assert order == order[..|order| - 1] + [order[|order| - 1]];
    }
  }

  /** While no region syncs, nothing moves. */
  lemma {:induction false} NobodySyncs(s: Bucketful, order: seq<nat>)
    requires forall i :: 0 <= i < |s.locals| ==> i in s.degraded
    ensures SyncAll(s, order) == s
  {
    if order != [] { NobodySyncs(s, order[..|order| - 1]); }
  }

  /** Once increments stop, two rounds in which every region has its turn, in any order and any
      number of times, bring the row to the greatest count of the window among row and regions
      that sync; and a region ends where the row does exactly when it is not degraded or its
      count already was that. */
  lemma TwoRoundsConverge(s: Bucketful, first: seq<nat>, second: seq<nat>, resetAt: int)
    requires OneWindow(s, resetAt)
    requires Round(first, |s.locals|) && Round(second, |s.locals|)
    requires exists i :: 0 <= i < |s.locals| && i !in s.degraded
    ensures var t := SyncAll(SyncAll(s, first), second); var m := Greatest(s, resetAt);
      && InRow(t, resetAt, m) && |t.locals| == |s.locals|
      && forall i :: 0 <= i < |t.locals| ==>
           (t.row == Some(t.locals[i]) <==> i !in s.degraded || s.locals[i].count == m)
  {
    var mid, m := SyncAll(s, first), Greatest(s, resetAt);
    FirstRound(s, first, resetAt);
    var i :| 0 <= i < |s.locals| && i !in s.degraded;
    assert i in first;
    assert InRow(mid, resetAt, m);
    SecondRound(mid, second, resetAt, m);
  }

  // ---------- the store of one region ----------

  function Incremented(local: Store, id: string, amount: nat, resetAt: int, now: int): Store {
    local[id := Bucket((if id in local && local[id].resetAt > now then local[id].count else 0) + amount, resetAt)]
  }

  function Lookup(s: Store, id: string): Option<Bucket> { if id in s then Some(s[id]) else None }

  function SyncedRows(local: Store, rows: Store, id: string): Store
    requires id in local
  {
    rows[id := Upserted(Lookup(rows, id), local[id])]
  }

  function SyncedLocal(local: Store, rows: Store, id: string): Store
    requires id in local
  {
    local[id := Adopted(Lookup(rows, id), local[id])]
  }

  /** What get answers; `remote` is false when the table is not asked or does not answer. */
  function Got(local: Store, rows: Store, id: string, now: int, remote: bool): Option<Bucket> {
    var mine := Lookup(local, id);
    var shared := if remote then Lookup(rows, id) else None;
    if mine.None? || mine.value.resetAt <= now then
      if shared.Some? && shared.value.resetAt >= now then shared else mine
    else if shared.Some? && shared.value.resetAt == mine.value.resetAt then
      Some(Bucket(Max(mine.value.count, shared.value.count), mine.value.resetAt))
    else mine
  }

  function Swept(s: Store, now: int): Store { map id | id in s && s[id].resetAt > now :: s[id] }

  /** One bucket's turn in the sync loop: expired ones are skipped. */
  function Turn(s: (Store, Store), id: string, now: int): (Store, Store)
    requires id in s.0
  {
    if s.0[id].resetAt <= now then s else (SyncedLocal(s.0, s.1, id), SyncedRows(s.0, s.1, id))
  }

  function Turns(s: (Store, Store), ids: seq<string>, now: int): (t: (Store, Store))
    requires forall id :: id in ids ==> id in s.0
    ensures t.0.Keys == s.0.Keys
  {
    if ids == [] then s else Turn(Turns(s, ids[..|ids| - 1], now), ids[|ids| - 1], now)
  }

  /** A sweep changes no count: increments and reads take a bucket for gone exactly when it would go. */
  lemma SweepChangesNothing(local: Store, rows: Store, id: string, amount: nat, resetAt: int, now: int)
    ensures Incremented(Swept(local, now), id, amount, resetAt, now)[id] ==
      Incremented(local, id, amount, resetAt, now)[id]
    ensures id in Swept(local, now) <==> id in local && now < local[id].resetAt
    ensures id in Swept(local, now) ==> Swept(local, now)[id] == local[id]
  {
  }

  /** The table's bucket is read one second longer than a region's own: in the second its window ends. */
  lemma RowLastsLonger(local: Store, rows: Store, id: string, now: int)
    requires id !in Swept(local, now) && id !in local && id in rows
    ensures Got(local, rows, id, now, true).Some? <==> now <= rows[id].resetAt
    ensures id in Swept(rows, now) <==> now < rows[id].resetAt
  {
  }

  class SharedTable {
    var rows: Store

    constructor ()
      ensures rows == map[]
    {
      rows := map[];
    }

    /** The upsert and its RETURNING clause. */
    method Upsert(id: string, b: Bucket) returns (count: Option<nat>)
      modifies this
      ensures rows == old(rows)[id := Upserted(Lookup(old(rows), id), b)]
      ensures count.Some? <==> !(id in old(rows) && old(rows)[id].resetAt > b.resetAt)
      ensures count.Some? ==> count.value == rows[id].count
    {
      if id !in rows {
        rows := rows[id := b];
      } else if rows[id].resetAt <= b.resetAt {
        var merged := if rows[id].resetAt < b.resetAt then b.count else Max(rows[id].count, b.count);
        rows := rows[id := Bucket(merged, b.resetAt)];
      } else {
        assert rows == rows[id := rows[id]];
        return None;
      }
      count := Some(rows[id].count);
    }
  }

  class CrdtRateLimitStore {
    const maxSize: nat
    var local: Store
    var degraded: bool

    constructor (maxSize: nat)
      ensures local == map[] && !degraded && this.maxSize == maxSize
    {
      this.maxSize, local, degraded := maxSize, map[], false;
    }

    method Increment(id: string, amount: nat, resetAt: int, now: int) returns (r: Bucket, gone: set<string>)
      modifies this`local
      ensures var counted := Incremented(old(local), id, amount, resetAt, now);
        Sheds(counted, gone, maxSize) && local == counted - gone && r == counted[id]
    {
      var count := amount;
      if id in local && local[id].resetAt > now { count := local[id].count + amount; }
      r := Bucket(count, resetAt);
      local := local[id := r];
      gone := ShedOldest(local, maxSize);
      local := local - gone;
    }

    /** One bucket's turn in the sync loop; `answers` says whether the database does. */
    method SyncBucket(table: SharedTable, id: string, now: int, answers: bool)
      requires id in local && !degraded
      modifies this, table
      ensures local.Keys == old(local.Keys)
      ensures degraded == (old(local[id].resetAt) > now && !answers)
      ensures (local, table.rows) ==
        if degraded then (old(local), old(table.rows)) else Turn((old(local), old(table.rows)), id, now)
    {
      var mine := local[id];
      if mine.resetAt <= now { return; }
      if !answers { degraded := true; return; }
      var count := table.Upsert(id, mine);
      if count.Some? {
        local := local[id := Bucket(count.value, mine.resetAt)];
      } else {
        assert local == local[id := mine];
      }
    }

    /** The sync loop, which ends at the first statement the database does not answer; the
        buckets in `done` had their turn. */
    method Sync(table: SharedTable, now: int, answers: string -> bool) returns (done: seq<string>)
      modifies this, table
      ensures forall id :: id in done ==> id in old(local)
      ensures (local, table.rows) == Turns((old(local), old(table.rows)), done, now)
      ensures old(degraded) ==> degraded && done == []
      ensures !old(degraded) && !degraded ==> forall id :: id in old(local) ==> id in done
    {
      done := [];
      if degraded { return; }
      ghost var start := (local, table.rows);
      var todo := local.Keys;
      while todo != {}
        invariant todo <= local.Keys && !degraded
        invariant forall id :: id in done ==> id in start.0
        invariant forall id :: id in start.0 ==> id in done || id in todo
        invariant (local, table.rows) == Turns(start, done, now)
        decreases todo
      {
        var id :| id in todo;
        SyncBucket(table, id, now, answers(id));
        if degraded { return; }
        todo := todo - {id};
        assert (done + [id])[..|done|] == done;
        done := done + [id];
      }
      degraded := false;
    }

    method Get(table: SharedTable, id: string, now: int, answers: bool) returns (r: Option<Bucket>)
      modifies this`degraded
      ensures r == Got(local, table.rows, id, now, !old(degraded) && answers)
      ensures degraded == (old(degraded) || !answers)
    {
      var mine := if id in local then Some(local[id]) else None;
      if degraded { return mine; }
      if !answers { degraded := true; return mine; }
      r := mine;
      if id in table.rows {
        var shared := table.rows[id];
        if mine.None? || mine.value.resetAt <= now {
          if shared.resetAt >= now { r := Some(shared); }
        } else if shared.resetAt == mine.value.resetAt {
          r := Some(Bucket(Max(mine.value.count, shared.count), mine.value.resetAt));
        }
      }
    }

    method Sweep(table: SharedTable, now: int, answers: bool)
      modifies this, table
      ensures local == Swept(old(local), now)
      ensures table.rows == if !old(degraded) && answers then Swept(old(table.rows), now) else old(table.rows)
      ensures degraded == (old(degraded) || !answers)
    {
      local := map id | id in local && local[id].resetAt > now :: local[id];
      if degraded { return; }
      if answers {
        table.rows := map id | id in table.rows && table.rows[id].resetAt > now :: table.rows[id];
      } else {
        degraded := true;
      }
    }
  }
}
