/** Whole runs of the outbox: settlement transactions, any number of pollers that claim,
    publish, mark, lose answers and crash at any step, one clock. */
module OutboxRuns {
  import opened Text
  import opened Outbox
  import S = Settlements
  import T = SettlementTables

  type PollId = nat

  /** What the poller knows of a claimed row: nothing yet; the broker acknowledged it; or an
      exception sent it to the failure path. */
  datatype Progress = Holding | Sent | Refused

  /** One poll: when it claimed, and the rows it has still to finish. */
  datatype Poll = Poll(claimedAt: int, held: map<EventId, Progress>)

  datatype Config = Config(leaseMs: nat, maxAttempts: int)

  /** `accepted` counts what the broker took in; `faults` counts crashes between publish and
      mark, acknowledgements that were lost and published marks that failed. */
  datatype World = World(
    tables: T.Tables<string>, rows: Table, polls: map<PollId, Poll>,
    accepted: map<EventId, nat>, faults: map<EventId, nat>, now: int)

  datatype Step =
    | Save(key: S.Key, record: S.Record)
    | Settle(key: S.Key, details: S.Details<string>, event: Option<EventId>, commits: bool)
    | Claim(p: PollId, limit: nat, ids: seq<EventId>)
    | Publish(p: PollId, id: EventId)
    | PublishThrows(p: PollId, id: EventId, took: bool)      // with the event taken in, or not
    | MarkPublished(p: PollId, id: EventId)
    | MarkPublishedThrows(p: PollId, id: EventId, applied: bool) // with the update applied, or not
    | MarkFailed(p: PollId, id: EventId)
    | MarkFailedThrows(p: PollId, id: EventId)
    | Crash(p: PollId)
    | Tick(ms: nat)

  const START := World(T.Tables([], map[]), map[], map[], map[], map[], 0)

  function Count(m: map<EventId, nat>, id: EventId): nat { if id in m then m[id] else 0 }

  function Bump(m: map<EventId, nat>, id: EventId): map<EventId, nat> { m[id := Count(m, id) + 1] }

  predicate Holds(w: World, p: PollId, id: EventId, progress: Progress) {
    p in w.polls && id in w.polls[p].held && w.polls[p].held[id] == progress
  }

  function Learnt(w: World, p: PollId, id: EventId, progress: Progress): World
    requires p in w.polls
  {
    w.(polls := w.polls[p := w.polls[p].(held := w.polls[p].held[id := progress])])
  }

  function Finished(w: World, p: PollId, id: EventId): World
    requires p in w.polls
  {
    w.(polls := w.polls[p := w.polls[p].(held := w.polls[p].held - {id})])
  }

  /** The crash is a fault of each row it leaves published and unmarked. */
  function Crashed(faults: map<EventId, nat>, held: map<EventId, Progress>): map<EventId, nat> {
    map id | id in faults.Keys + held.Keys ::
      Count(faults, id) + if id in held && held[id].Sent? then 1 else 0
  }

  /** None when the step is not enabled. */
  ghost function Do(c: Config, w: World, s: Step): Option<World> {
    match s
    case Save(key, record) => Some(w.(tables := T.SaveStatement(w.tables, key, record, w.now)))
    case Settle(key, d, event, commits) =>
      if !commits then Some(w)
      else
        var w' := w.(tables := T.UpdateStatement(w.tables, key, S.ToSettled, d, w.now));
        Some(if key in w.tables.projections && event.Some?
             then w'.(rows := Inserted(w.rows, event.value, w.now)) else w')
    case Claim(p, limit, ids) =>
      if p in w.polls || !OldestFirst(w.rows, ids, limit, w.now, c.leaseMs) then None
      else Some(w.(rows := ClaimedBy(w.rows, Range(ids), w.now),
                   polls := w.polls[p := Poll(w.now, map id | id in Range(ids) :: Holding)]))
    case Publish(p, id) =>
      if !Holds(w, p, id, Holding) then None
      else Some(Learnt(w.(accepted := Bump(w.accepted, id)), p, id, Sent))
    case PublishThrows(p, id, took) =>
      if !Holds(w, p, id, Holding) then None
      else
        var w' := if took then w.(accepted := Bump(w.accepted, id), faults := Bump(w.faults, id)) else w;
        Some(Learnt(w', p, id, Refused))
    case MarkPublished(p, id) =>
      if !Holds(w, p, id, Sent) then None
      else Some(Finished(w.(rows := MarkedPublished(w.rows, id)), p, id))
    case MarkPublishedThrows(p, id, applied) =>
      if !Holds(w, p, id, Sent) then None
      else
        var rows := if applied then MarkedPublished(w.rows, id) else w.rows;
        Some(Learnt(w.(rows := rows, faults := Bump(w.faults, id)), p, id, Refused))
    case MarkFailed(p, id) =>
      if !Holds(w, p, id, Refused) then None
      else Some(Finished(w.(rows := MarkedFailed(w.rows, id, c.maxAttempts)), p, id))
    case MarkFailedThrows(p, id) =>
      if !Holds(w, p, id, Refused) then None else Some(Finished(w, p, id))
    case Crash(p) =>
      if p !in w.polls then None
      else Some(w.(polls := w.polls - {p}, faults := Crashed(w.faults, w.polls[p].held)))
    case Tick(ms) => Some(w.(now := w.now + ms))
  }

  ghost function After(c: Config, w: World, steps: seq<Step>): Option<World>
    decreases |steps|
  {
    if steps == [] then Some(w)
    else match Do(c, w, steps[0])
      case None => None
      case Some(next) => After(c, next, steps[1..])
  }

  // ---------- no notification is lost: every run ----------

  predicate RowFits(c: Config, r: Row, accepted: nat, now: int) {
    match r.status
    case Published => accepted >= 1
    case Failed => r.attempts >= c.maxAttempts
    case Claimed => r.claimedAt.Some? && r.claimedAt.value <= now
    case Pending => true
  }

  ghost predicate SentAccepted(w: World) {
    forall p, id :: Holds(w, p, id, Sent) ==> Count(w.accepted, id) >= 1
  }

  /** What a row says is so, and every unfinished row can be claimed once its lease is over. */
  ghost predicate Sound(c: Config, w: World) {
    && (forall id :: id in w.rows ==> RowFits(c, w.rows[id], Count(w.accepted, id), w.now))
    && SentAccepted(w)
  }

  lemma RowsSound(c: Config, w: World, s: Step)
    requires Sound(c, w) && Do(c, w, s).Some? && !s.Claim?
    ensures var w' := Do(c, w, s).value;
      forall id :: id in w'.rows ==> RowFits(c, w'.rows[id], Count(w'.accepted, id), w'.now)
  {
  }

  lemma SentSound(c: Config, w: World, s: Step)
    requires SentAccepted(w) && Do(c, w, s).Some?
    ensures SentAccepted(Do(c, w, s).value)
  {
    var w' := Do(c, w, s).value;
    forall p, id | Holds(w', p, id, Sent) ensures Count(w'.accepted, id) >= 1 {
      if !Holds(w, p, id, Sent) { assert s == Publish(p, id); }
    }
  }

  lemma OnlyForward(c: Config, w: World, s: Step)
    requires Do(c, w, s).Some?
    ensures w.rows.Keys <= Do(c, w, s).value.rows.Keys && w.now <= Do(c, w, s).value.now
  {
  }

  lemma StepSound(c: Config, w: World, s: Step)
    requires Sound(c, w) && Do(c, w, s).Some?
    ensures Sound(c, Do(c, w, s).value)
    ensures w.rows.Keys <= Do(c, w, s).value.rows.Keys && w.now <= Do(c, w, s).value.now
  {
    SentSound(c, w, s);
    OnlyForward(c, w, s);
    if !s.Claim? { RowsSound(c, w, s); }
  }

  lemma {:induction false} RunSound(c: Config, w: World, steps: seq<Step>)
    requires Sound(c, w) && After(c, w, steps).Some?
    ensures Sound(c, After(c, w, steps).value)
    ensures w.rows.Keys <= After(c, w, steps).value.rows.Keys && w.now <= After(c, w, steps).value.now
    decreases |steps|
  {
    if steps != [] {
      StepSound(c, w, steps[0]);
      RunSound(c, Do(c, w, steps[0]).value, steps[1..]);
    }
  }

  lemma {:induction false} AfterAppend(c: Config, w: World, a: seq<Step>, b: seq<Step>)
    ensures After(c, w, a + b) ==
      match After(c, w, a) case None => None case Some(mid) => After(c, mid, b)
    decreases |a|
  {
    if a == [] {
      assert a + b == b;
    } else {
      assert (a + b)[1..] == a[1..] + b && (a + b)[0] == a[0];
      if Do(c, w, a[0]).Some? { AfterAppend(c, Do(c, w, a[0]).value, a[1..], b); }
    }
  }

  /** A settlement committed with an event leaves a row for good, whatever any poller does
      before or after: published only once the broker accepted it, failed only after
      maxAttempts, otherwise claimable now or when the lease is over. And a transaction that
      rolls back leaves neither settlement nor row. */
  lemma NoNotificationLost(c: Config, before: seq<Step>, key: S.Key, d: S.Details<string>, id: EventId,
      later: seq<Step>)
    requires After(c, START, before + [Settle(key, d, Some(id), true)] + later).Some?
    requires After(c, START, before).Some? && key in After(c, START, before).value.tables.projections
    ensures var settled := After(c, START, before + [Settle(key, d, Some(id), true)]);
      settled.Some? && key in settled.value.tables.projections
      && settled.value.tables.projections[key].projection.state == S.Settled
      && id in settled.value.rows
    ensures var w := After(c, START, before + [Settle(key, d, Some(id), true)] + later).value;
      && id in w.rows
      && (w.rows[id].status.Published? ==> Count(w.accepted, id) >= 1)
      && (w.rows[id].status.Failed? ==> w.rows[id].attempts >= c.maxAttempts)
      && (w.rows[id].status.Pending? ==> Claimable(w.rows[id], w.now, c.leaseMs))
      && (w.rows[id].status.Claimed? ==> forall t :: t > w.now + c.leaseMs ==> Claimable(w.rows[id], t, c.leaseMs))
    ensures Do(c, After(c, START, before).value, Settle(key, d, Some(id), false)) == After(c, START, before)
  {
    var settle := [Settle(key, d, Some(id), true)];
    var prior := After(c, START, before).value;
    AfterAppend(c, START, before, settle);
    AfterAppend(c, START, before + settle, later);
    assert After(c, Do(c, prior, settle[0]).value, settle[1..]) == Do(c, prior, settle[0]);
    RunSound(c, START, before);
    StepSound(c, prior, settle[0]);
    RunSound(c, Do(c, prior, settle[0]).value, later);
  }

  // ---------- the queue drains: runs of clean polls ----------

  /** The poll publishes and marks each row of its batch. */
  function Deliveries(p: PollId, ids: seq<EventId>): seq<Step> {
    if ids == [] then []
    else
      var id := ids[|ids| - 1];
      Deliveries(p, ids[..|ids| - 1]) + [Publish(p, id), MarkPublished(p, id)]
  }

  /** A wait, then a poll that claims `ids`. */
  datatype Round = Round(wait: nat, p: PollId, ids: seq<EventId>)

  function Polled(r: Round, limit: nat): seq<Step> {
    [Tick(r.wait)] + ([Claim(r.p, limit, r.ids)] + Deliveries(r.p, r.ids))
  }

  function Rounds(rounds: seq<Round>, limit: nat): seq<Step> {
    if rounds == [] then [] else Polled(rounds[0], limit) + Rounds(rounds[1..], limit)
  }

  lemma DeliverOne(c: Config, w: World, p: PollId, id: EventId) returns (w': World)
    requires Holds(w, p, id, Holding)
    ensures After(c, w, [Publish(p, id), MarkPublished(p, id)]) == Some(w')
    ensures w'.rows == MarkedPublished(w.rows, id) && w'.now == w.now
    ensures p in w'.polls && w'.polls[p].held == w.polls[p].held - {id}
  {
    var sent := Do(c, w, Publish(p, id)).value;
    w' := Do(c, sent, MarkPublished(p, id)).value;
    var steps := [Publish(p, id), MarkPublished(p, id)];
    assert steps[1..] == [MarkPublished(p, id)] && steps[1..][1..] == [];
    assert After(c, w', steps[1..][1..]) == Some(w');
    assert After(c, sent, steps[1..]) == Some(w');
  }

  lemma {:induction false} DeliversBatch(c: Config, w: World, p: PollId, ids: seq<EventId>) returns (w': World)
    requires Distinct(ids) && forall id :: id in ids ==> Holds(w, p, id, Holding)
    ensures After(c, w, Deliveries(p, ids)) == Some(w')
    ensures w'.rows == Marked(w.rows, ids, (_: EventId) => Delivered, 1) && w'.now == w.now
    ensures p in w.polls ==> p in w'.polls && w'.polls[p].held == w.polls[p].held - Range(ids)
  {
    if ids == [] {
      w' := w;
      assert p in w.polls ==> w.polls[p].held - Range(ids) == w.polls[p].held;
    } else {
      var init, last := ids[..|ids| - 1], ids[|ids| - 1];
      assert ids == init + [last];
      assert Holds(w, p, last, Holding);
      var mid := DeliversBatch(c, w, p, init);
      assert last !in init && last !in Range(init);
      w' := DeliverOne(c, mid, p, last);
      AfterAppend(c, w, Deliveries(p, init), [Publish(p, last), MarkPublished(p, last)]);
      assert Range(ids) == Range(init) + {last};
    }
  }

  /** One round is one clean poll of the table, at the time it claims. */
  lemma RoundIsCleanPoll(c: Config, w: World, r: Round, limit: nat) returns (w': World)
    requires After(c, w, Polled(r, limit)).Some?
    ensures After(c, w, Polled(r, limit)) == Some(w') && w'.now == w.now + r.wait
    ensures CleanPoll(w.rows, w'.rows, limit, c.leaseMs, w'.now)
  {
    var later := Do(c, w, Tick(r.wait)).value;
    var claim, rest := Claim(r.p, limit, r.ids), Deliveries(r.p, r.ids);
    assert Polled(r, limit)[1..] == [claim] + rest;
    assert ([claim] + rest)[1..] == rest;
    assert After(c, later, [claim] + rest).Some?;
    var claimed := Do(c, later, claim).value;
    w' := DeliversBatch(c, claimed, r.p, r.ids);
    assert OldestFirst(w.rows, r.ids, limit, w'.now, c.leaseMs);
  }

  /** Every waiting row could be claimed at this time. */
  ghost predicate AllOpen(c: Config, w: World, t: int) { Backlog(w.rows) == ClaimableIds(w.rows, t, c.leaseMs) }

  lemma RoundShrinks(c: Config, w: World, r: Round, limit: nat, wait: nat) returns (w': World)
    requires After(c, w, Polled(r, limit)).Some? && AllOpen(c, w, w.now + r.wait)
    ensures After(c, w, Polled(r, limit)) == Some(w') && AllOpen(c, w', w'.now + wait)
    ensures |Backlog(w'.rows)| == |Backlog(w.rows)| - Min(limit, |Backlog(w.rows)|) && w'.rows.Keys == w.rows.Keys
  {
    w' := RoundIsCleanPoll(c, w, r, limit);
    PollShrinks(w.rows, w'.rows, limit, c.leaseMs, w'.now);
    forall id | id in Backlog(w'.rows) ensures id in ClaimableIds(w'.rows, w'.now + wait, c.leaseMs) {
      assert id in ClaimableIds(w.rows, w'.now, c.leaseMs);
    }
  }

  /** What is left of a backlog after this many batches. */
  function Left(total: nat, batches: nat, limit: nat): nat {
    if batches * limit < total then total - batches * limit else 0
  }

  lemma LeftAfter(total: nat, n: nat, limit: nat)
    ensures Left(total - Min(limit, total), n, limit) == Left(total, n + 1, limit)
  {
    MoreBatches(n, limit);
  }

  lemma {:induction false} RoundsShrink(c: Config, w: World, rounds: seq<Round>, limit: nat)
    requires After(c, w, Rounds(rounds, limit)).Some?
    requires rounds != [] ==> AllOpen(c, w, w.now + rounds[0].wait)
    ensures var w' := After(c, w, Rounds(rounds, limit)).value;
      && w'.rows.Keys == w.rows.Keys
      && |Backlog(w'.rows)| == Left(|Backlog(w.rows)|, |rounds|, limit)
    decreases |rounds|
  {
    if rounds != [] {
      var r, rest := rounds[0], rounds[1..];
      AfterAppend(c, w, Polled(r, limit), Rounds(rest, limit));
      var w' := RoundShrinks(c, w, r, limit, if rest == [] then 0 else rest[0].wait);
      RoundsShrink(c, w', rest, limit);
      LeftAfter(|Backlog(w.rows)|, |rest|, limit);
    }
  }

  /** After any run, however it went: rounds of claim, publish and mark, the first of them once
      every lease is over, with a broker that accepts and no new events, empty the queue exactly
      when their batches add up to the backlog, and lose no row. */
  lemma QueueDrains(c: Config, steps: seq<Step>, rounds: seq<Round>, batchSize: nat)
    requires After(c, START, steps).Some?
    requires After(c, After(c, START, steps).value, Rounds(rounds, batchSize)).Some?
    requires rounds != [] ==> rounds[0].wait > c.leaseMs
    ensures var w := After(c, START, steps).value; var w' := After(c, w, Rounds(rounds, batchSize)).value;
      (Backlog(w'.rows) == {} <==> |rounds| * batchSize >= |Backlog(w.rows)|) && w'.rows.Keys == w.rows.Keys
  {
    RunSound(c, START, steps);
    var w := After(c, START, steps).value;
    if rounds != [] { assert AllOpen(c, w, w.now + rounds[0].wait); }
    RoundsShrink(c, w, rounds, batchSize);
  }

  // ---------- lease exclusivity: orderly runs ----------

  predicate Live(c: Config, w: World, p: PollId) {
    p in w.polls && w.now <= w.polls[p].claimedAt + c.leaseMs
  }

  /** The poll that acts, if the step is a poller's own. */
  function Actor(s: Step): Option<PollId> {
    match s
    case Publish(p, _) => Some(p)
    case PublishThrows(p, _, _) => Some(p)
    case MarkPublished(p, _) => Some(p)
    case MarkPublishedThrows(p, _, _) => Some(p)
    case MarkFailed(p, _) => Some(p)
    case MarkFailedThrows(p, _) => Some(p)
    case _ => None
  }

  /** A poller acts within its lease or never again, and an update that throws did nothing. */
  predicate OrderlyStep(c: Config, w: World, s: Step) {
    && (Actor(s).Some? ==> Live(c, w, Actor(s).value))
    && (s.MarkPublishedThrows? ==> !s.applied)
  }

  ghost predicate Orderly(c: Config, w: World, steps: seq<Step>)
    decreases |steps|
  {
    steps == [] ||
    (OrderlyStep(c, w, steps[0]) && match Do(c, w, steps[0])
     case None => false
     case Some(next) => Orderly(c, next, steps[1..]))
  }

  /** A live holder's claim is the one on the row; so no row has two. */
  ghost predicate Leased(c: Config, w: World) {
    && (forall p :: p in w.polls ==> w.polls[p].claimedAt <= w.now)
    && (forall p, id :: Live(c, w, p) && id in w.polls[p].held ==>
          id in w.rows && w.rows[id].status.Claimed? && w.rows[id].claimedAt == Some(w.polls[p].claimedAt))
    && (forall p, q, id :: Live(c, w, p) && Live(c, w, q) && id in w.polls[p].held && id in w.polls[q].held
          ==> p == q)
  }

  /** The polls that published a row and have not marked it. */
  function Unmarked(w: World, id: EventId): set<PollId> { set p | p in w.polls && Holds(w, p, id, Sent) }

  ghost predicate Paid(w: World, id: EventId) {
    Count(w.accepted, id) <= Count(w.faults, id) + |Unmarked(w, id)|
      + if id in w.rows && w.rows[id].status.Published? then 1 else 0
  }

  /** Rows held by polls that were live, and no one else's, are as they were. */
  ghost predicate HeldAlike(c: Config, w: World, w': World) {
    && (forall p :: p in w'.polls ==>
          p in w.polls && w'.polls[p].claimedAt == w.polls[p].claimedAt
          && w'.polls[p].held.Keys <= w.polls[p].held.Keys)
    && (forall p, id :: p in w'.polls && id in w'.polls[p].held && Live(c, w, p) && id in w.rows ==>
          id in w'.rows && w'.rows[id] == w.rows[id])
  }

  lemma StillLive(c: Config, w: World, w': World, p: PollId)
    requires HeldAlike(c, w, w') && w.now <= w'.now && Live(c, w', p)
    ensures Live(c, w, p) && w'.polls[p].held.Keys <= w.polls[p].held.Keys
  {
  }

  /** Polls only finish rows, and rows still held by a live poll do not change. */
  lemma LeasedFrame(c: Config, w: World, w': World)
    requires Leased(c, w) && w.now <= w'.now && HeldAlike(c, w, w')
    ensures Leased(c, w')
  {
    forall p, id | Live(c, w', p) && id in w'.polls[p].held
      ensures id in w'.rows && w'.rows[id].status.Claimed? && w'.rows[id].claimedAt == Some(w'.polls[p].claimedAt)
    {
      StillLive(c, w, w', p);
      assert id in w.polls[p].held;
    }
    forall p, q, id | Live(c, w', p) && Live(c, w', q) && id in w'.polls[p].held && id in w'.polls[q].held
      ensures p == q
    {
      StillLive(c, w, w', p);
      StillLive(c, w, w', q);
      assert id in w.polls[p].held && id in w.polls[q].held;
    }
  }

  /** A row a live poll holds is not claimable, so the claim leaves it alone. */
  lemma ClaimLeaves(c: Config, w: World, p: PollId, limit: nat, ids: seq<EventId>, q: PollId, id: EventId)
    requires Leased(c, w) && Do(c, w, Claim(p, limit, ids)).Some?
    requires Live(c, w, q) && id in w.polls[q].held
    ensures id !in ids && Do(c, w, Claim(p, limit, ids)).value.rows[id] == w.rows[id]
  {
    assert !Claimable(w.rows[id], w.now, c.leaseMs);
  }

  lemma ClaimLeased(c: Config, w: World, p: PollId, limit: nat, ids: seq<EventId>)
    requires Leased(c, w) && Do(c, w, Claim(p, limit, ids)).Some?
    ensures Leased(c, Do(c, w, Claim(p, limit, ids)).value)
  {
    var w' := Do(c, w, Claim(p, limit, ids)).value;
    forall q, id | Live(c, w', q) && id in w'.polls[q].held
      ensures id in w'.rows && w'.rows[id].status.Claimed? && w'.rows[id].claimedAt == Some(w'.polls[q].claimedAt)
      ensures q == p <==> id in ids
    {
      if q != p {
        assert Live(c, w, q) && id in w.polls[q].held;
        ClaimLeaves(c, w, p, limit, ids, q, id);
      }
    }
    forall q, r, id | Live(c, w', q) && Live(c, w', r) && id in w'.polls[q].held && id in w'.polls[r].held
      ensures q == r
    {
      if q != p && r != p {
        assert Live(c, w, q) && Live(c, w, r) && id in w.polls[q].held && id in w.polls[r].held;
      }
    }
  }

  lemma StepLeased(c: Config, w: World, s: Step)
    requires Leased(c, w) && OrderlyStep(c, w, s) && Do(c, w, s).Some?
    ensures Leased(c, Do(c, w, s).value)
  {
    if s.Claim? {
      ClaimLeased(c, w, s.p, s.limit, s.ids);
    } else {
      OnlyForward(c, w, s);
      StepHeldAlike(c, w, s);
      LeasedFrame(c, w, Do(c, w, s).value);
    }
  }

  lemma StepHeldAlike(c: Config, w: World, s: Step)
    requires Leased(c, w) && OrderlyStep(c, w, s) && Do(c, w, s).Some? && !s.Claim?
    ensures HeldAlike(c, w, Do(c, w, s).value)
  {
    if s.MarkPublished? || s.MarkFailed? {
      MarkHeldAlike(c, w, s);
    } else {
      OthersHeldAlike(c, w, s);
    }
  }

  /** The row a live poll marks is no other live poll's. */
  lemma MarkHeldAlike(c: Config, w: World, s: Step)
    requires Leased(c, w) && OrderlyStep(c, w, s) && Do(c, w, s).Some? && (s.MarkPublished? || s.MarkFailed?)
    ensures HeldAlike(c, w, Do(c, w, s).value)
  {
    var w' := Do(c, w, s).value;
    forall q, id | q in w'.polls && id in w'.polls[q].held && Live(c, w, q) && id in w.rows
      ensures id in w'.rows && w'.rows[id] == w.rows[id]
    {
      assert q in w.polls && id in w.polls[q].held;
      assert q != s.p ==> id != s.id;
    }
  }

  lemma OthersHeldAlike(c: Config, w: World, s: Step)
    requires OrderlyStep(c, w, s) && Do(c, w, s).Some? && !s.Claim? && !s.MarkPublished? && !s.MarkFailed?
    ensures HeldAlike(c, w, Do(c, w, s).value)
  {
  }

  // ---------- at most one acceptance a fault ----------

  lemma SetDrop(a: set<PollId>, b: set<PollId>, p: PollId)
    requires a == b - {p}
    ensures |a| == |b| - if p in b then 1 else 0
  {
    if p in b { assert b == a + {p}; } else { assert a == b; }
  }

  lemma SameBut(a: set<PollId>, b: set<PollId>, p: PollId)
    requires forall q :: q != p ==> (q in a <==> q in b)
    ensures |b| - |a| == (if p in b then 1 else 0) - if p in a then 1 else 0
  {
    assert a - {p} == b - {p};
    SetDrop(a - {p}, a, p);
    SetDrop(b - {p}, b, p);
  }

  /** Only poll `p` moved. */
  lemma UnmarkedFrame(w: World, w': World, p: PollId, id: EventId)
    requires w.polls - {p} == w'.polls - {p}
    ensures |Unmarked(w', id)| - |Unmarked(w, id)|
      == (if Holds(w', p, id, Sent) then 1 else 0) - if Holds(w, p, id, Sent) then 1 else 0
  {
    forall q | q != p ensures q in Unmarked(w, id) <==> q in Unmarked(w', id) {
      assert q in (w.polls - {p}).Keys <==> q in (w'.polls - {p}).Keys;
      if q in w.polls { assert (w.polls - {p})[q] == (w'.polls - {p})[q]; }
    }
    SameBut(Unmarked(w, id), Unmarked(w', id), p);
  }

  function One(b: bool): nat { if b then 1 else 0 }

  predicate IsPublished(w: World, id: EventId) { id in w.rows && w.rows[id].status.Published? }

  /** Acceptances are paid for by faults, unmarked publishes and the published mark. */
  lemma PaidMoves(w: World, w': World, p: PollId, id: EventId)
    requires Paid(w, id) && w.polls - {p} == w'.polls - {p}
    requires Count(w'.accepted, id) - Count(w.accepted, id) <= Count(w'.faults, id) - Count(w.faults, id)
        + One(Holds(w', p, id, Sent)) - One(Holds(w, p, id, Sent))
        + One(IsPublished(w', id)) - One(IsPublished(w, id))
    ensures Paid(w', id)
  {
    UnmarkedFrame(w, w', p, id);
  }

  lemma PollsBut(polls: map<PollId, Poll>, p: PollId, poll: Poll)
    ensures polls[p := poll] - {p} == polls - {p}
    ensures (polls - {p}) - {p} == polls - {p}
  {
  }

  lemma PublishPaid(c: Config, w: World, s: Step, id: EventId)
    requires (s.Publish? || s.PublishThrows?) && Do(c, w, s).Some? && Paid(w, id)
    ensures Paid(Do(c, w, s).value, id)
  {
    var w' := Do(c, w, s).value;
    PollsBut(w.polls, s.p, w'.polls[s.p]);
    PaidMoves(w, w', s.p, id);
  }

  /** A live poll holds only claimed rows, so the mark that publishes one is the first. */
  lemma MarkPaid(c: Config, w: World, s: Step, id: EventId)
    requires (s.MarkPublished? || s.MarkPublishedThrows? || s.MarkFailed? || s.MarkFailedThrows?)
    requires Leased(c, w) && OrderlyStep(c, w, s) && Do(c, w, s).Some? && Paid(w, id)
    ensures Paid(Do(c, w, s).value, id)
  {
    var w' := Do(c, w, s).value;
    assert w.rows[s.id].status.Claimed?;
    PollsBut(w.polls, s.p, w'.polls[s.p]);
    PaidMoves(w, w', s.p, id);
  }

  lemma ClaimPaid(c: Config, w: World, p: PollId, limit: nat, ids: seq<EventId>, id: EventId)
    requires Do(c, w, Claim(p, limit, ids)).Some? && Paid(w, id)
    ensures Paid(Do(c, w, Claim(p, limit, ids)).value, id)
  {
    var w' := Do(c, w, Claim(p, limit, ids)).value;
    PollsBut(w.polls, p, w'.polls[p]);
    PaidMoves(w, w', p, id);
  }

  lemma CrashPaid(c: Config, w: World, p: PollId, id: EventId)
    requires Do(c, w, Crash(p)).Some? && Paid(w, id)
    ensures Paid(Do(c, w, Crash(p)).value, id)
  {
    var w' := Do(c, w, Crash(p)).value;
    PollsBut(w.polls, p, Poll(0, map[]));
    PaidMoves(w, w', p, id);
  }

  lemma StepPaid(c: Config, w: World, s: Step, id: EventId)
    requires Leased(c, w) && OrderlyStep(c, w, s) && Do(c, w, s).Some? && Paid(w, id)
    ensures Paid(Do(c, w, s).value, id)
  {
    if s.Claim? {
      ClaimPaid(c, w, s.p, s.limit, s.ids, id);
    } else if s.Crash? {
      CrashPaid(c, w, s.p, id);
    } else if s.Publish? || s.PublishThrows? {
      PublishPaid(c, w, s, id);
    } else if Actor(s).Some? {
      MarkPaid(c, w, s, id);
    } else {
      assert Unmarked(Do(c, w, s).value, id) == Unmarked(w, id);
    }
  }

  /** In an orderly step a published or failed row stays as it is. */
  lemma StepFinal(c: Config, w: World, s: Step, id: EventId)
    requires Leased(c, w) && OrderlyStep(c, w, s) && Do(c, w, s).Some?
    requires id in w.rows && (w.rows[id].status.Published? || w.rows[id].status.Failed?)
    ensures id in Do(c, w, s).value.rows && Do(c, w, s).value.rows[id] == w.rows[id]
  {
    if s.MarkPublished? || s.MarkFailed? {
      assert Live(c, w, s.p) && s.id in w.polls[s.p].held;
    }
  }

  lemma {:induction false} OrderlyRun(c: Config, w: World, steps: seq<Step>, id: EventId)
    requires Leased(c, w) && Orderly(c, w, steps) && Paid(w, id)
    ensures After(c, w, steps).Some? && Leased(c, After(c, w, steps).value) && Paid(After(c, w, steps).value, id)
    ensures id in w.rows && (w.rows[id].status.Published? || w.rows[id].status.Failed?) ==>
      id in After(c, w, steps).value.rows && After(c, w, steps).value.rows[id] == w.rows[id]
    decreases |steps|
  {
    if steps != [] {
      StepLeased(c, w, steps[0]);
      StepPaid(c, w, steps[0], id);
      if id in w.rows && (w.rows[id].status.Published? || w.rows[id].status.Failed?) {
        StepFinal(c, w, steps[0], id);
      }
      OrderlyRun(c, Do(c, w, steps[0]).value, steps[1..], id);
    }
  }

  /** The polls whose lease ran out between publishing a row and marking it. */
  function Lapsed(c: Config, w: World, id: EventId): set<PollId> {
    set p | p in w.polls && Holds(w, p, id, Sent) && !Live(c, w, p)
  }

  /** Over every orderly run: no row has two live holders, what is published or failed stays
      so, and the broker accepts an event at most once more than the crashes, lost
      acknowledgements, failed marks and lapses that came between a publish and its mark. */
  lemma LeaseExclusivity(c: Config, steps: seq<Step>, later: seq<Step>, id: EventId)
    requires Orderly(c, START, steps) && After(c, START, steps).Some?
    requires Orderly(c, After(c, START, steps).value, later)
    ensures var w := After(c, START, steps).value;
      && (forall p, q :: Live(c, w, p) && Live(c, w, q) && id in w.polls[p].held && id in w.polls[q].held ==> p == q)
      && Count(w.accepted, id) <= 1 + Count(w.faults, id) + |Lapsed(c, w, id)|
    ensures var w := After(c, START, steps).value; var end := After(c, w, later);
      id in w.rows && (w.rows[id].status.Published? || w.rows[id].status.Failed?) ==>
        end.Some? && id in end.value.rows && end.value.rows[id] == w.rows[id]
  {
    OrderlyRun(c, START, steps, id);
    var w := After(c, START, steps).value;
    OrderlyRun(c, w, later, id);
    var unmarked, lapsed := Unmarked(w, id), Lapsed(c, w, id);
    if p :| p in unmarked && Live(c, w, p) {
      assert unmarked == lapsed + {p};
    } else {
      assert unmarked == lapsed;
    }
  }

  // ---------- and why the lease is needed ----------

  lemma Snoc(c: Config, steps: seq<Step>, w: World, s: Step)
    requires After(c, START, steps) == Some(w) && Do(c, w, s).Some?
    ensures After(c, START, steps + [s]) == Do(c, w, s)
  {
    AfterAppend(c, START, steps, [s]);
    assert After(c, Do(c, w, s).value, [s][1..]) == Do(c, w, s);
  }

  lemma ClaimAlone(c: Config, w: World, p: PollId, id: EventId)
    requires w.rows.Keys == {id} && Claimable(w.rows[id], w.now, c.leaseMs) && p !in w.polls
    ensures Do(c, w, Claim(p, 1, [id])).Some?
    ensures var w' := Do(c, w, Claim(p, 1, [id])).value;
      && w'.rows == map[id := w.rows[id].(status := Claimed, claimedAt := Some(w.now))]
      && w'.polls.Keys == w.polls.Keys + {p} && Holds(w', p, id, Holding) && w'.now == w.now
      && w'.polls[p].claimedAt == w.now
      && (forall q :: q in w.polls ==> w'.polls[q] == w.polls[q])
  {
    assert ClaimableIds(w.rows, w.now, c.leaseMs) == {id};
    assert Range([id]) == {id};
  }

  /** One settlement, initiated and settled, with its event. */
  lemma OneRow(c: Config, id: EventId) returns (steps: seq<Step>, w: World)
    ensures After(c, START, steps) == Some(w) && w.rows == map[id := Row(Pending, 0, None, 0)] && w.polls == map[]
  {
    var save := Save("", S.Record("", "", None, None, None, None, None, None));
    var settle := Settle("", S.Details(None, None, None, S.NoResponse), Some(id), true);
    Snoc(c, [], START, save);
    var saved := Do(c, START, save).value;
    Snoc(c, [] + [save], saved, settle);
    steps, w := [] + [save] + [settle], Do(c, saved, settle).value;
  }

  /** A poll claims the only row and fails to publish it. */
  lemma PublishFails(c: Config, id: EventId) returns (steps: seq<Step>, w: World)
    ensures After(c, START, steps) == Some(w) && w.polls.Keys == {1} && Holds(w, 1, id, Refused)
    ensures w.polls[1].claimedAt == w.now && w.rows.Keys == {id}
    ensures w.rows[id].status.Claimed? && w.rows[id].claimedAt == Some(w.now)
  {
    var steps0, w0 := OneRow(c, id);
    ClaimAlone(c, w0, 1, id);
    Snoc(c, steps0, w0, Claim(1, 1, [id]));
    var steps1, w1 := steps0 + [Claim(1, 1, [id])], Do(c, w0, Claim(1, 1, [id])).value;
    Snoc(c, steps1, w1, PublishThrows(1, id, false));
    steps, w := steps1 + [PublishThrows(1, id, false)], Do(c, w1, PublishThrows(1, id, false)).value;
  }

  /** And its lease runs out. */
  lemma LeaseRunsOut(c: Config, id: EventId) returns (steps: seq<Step>, w: World)
    ensures After(c, START, steps) == Some(w) && w.polls.Keys == {1} && Holds(w, 1, id, Refused)
    ensures w.rows.Keys == {id} && Claimable(w.rows[id], w.now, c.leaseMs) && !Live(c, w, 1)
  {
    var before, mid := PublishFails(c, id);
    Snoc(c, before, mid, Tick(c.leaseMs + 1));
    steps, w := before + [Tick(c.leaseMs + 1)], Do(c, mid, Tick(c.leaseMs + 1)).value;
  }

  /** A second poll claims the row again, publishes and marks it. */
  lemma AnotherPublishes(c: Config, id: EventId) returns (steps: seq<Step>, w: World)
    ensures After(c, START, steps) == Some(w) && Holds(w, 1, id, Refused) && !Live(c, w, 1) && IsPublished(w, id)
  {
    var steps1, w1 := LeaseRunsOut(c, id);
    ClaimAlone(c, w1, 2, id);
    Snoc(c, steps1, w1, Claim(2, 1, [id]));
    var steps2, w2 := steps1 + [Claim(2, 1, [id])], Do(c, w1, Claim(2, 1, [id])).value;
    Snoc(c, steps2, w2, Publish(2, id));
    var steps3, w3 := steps2 + [Publish(2, id)], Do(c, w2, Publish(2, id)).value;
    Snoc(c, steps3, w3, MarkPublished(2, id));
    steps, w := steps3 + [MarkPublished(2, id)], Do(c, w3, MarkPublished(2, id)).value;
  }

  /** The row is published and a poll that may still mark it is about. */
  predicate InHand(w: World, id: EventId) { exists p :: p in w.polls && id in w.polls[p].held }

  /** A claim takes no published row, so a row nobody holds stays published. */
  lemma {:induction false} StaysPublished(c: Config, w: World, steps: seq<Step>, id: EventId)
    requires IsPublished(w, id) && !InHand(w, id) && After(c, w, steps).Some?
    ensures IsPublished(After(c, w, steps).value, id)
    decreases |steps|
  {
    if steps != [] {
      StepStaysPublished(c, w, steps[0], id);
      StaysPublished(c, Do(c, w, steps[0]).value, steps[1..], id);
    }
  }

  lemma StepStaysPublished(c: Config, w: World, s: Step, id: EventId)
    requires IsPublished(w, id) && !InHand(w, id) && Do(c, w, s).Some?
    ensures IsPublished(Do(c, w, s).value, id) && !InHand(Do(c, w, s).value, id)
  {
    var w' := Do(c, w, s).value;
    forall p | p in w'.polls ensures id !in w'.polls[p].held {
      if p in w.polls { assert id !in w.polls[p].held; }
    }
  }

  /** A poll that holds a row can come to mark it failed, whatever the row has become. */
  lemma HolderUndoes(c: Config, w: World, p: PollId, id: EventId) returns (steps: seq<Step>)
    requires IsPublished(w, id) && p in w.polls && id in w.polls[p].held
    ensures After(c, w, steps).Some? && !IsPublished(After(c, w, steps).value, id)
  {
    var refuse := match w.polls[p].held[id]
      case Holding => [PublishThrows(p, id, false)]
      case Sent => [MarkPublishedThrows(p, id, true)]
      case Refused => [];
    if refuse != [] {
      var first := Do(c, w, refuse[0]).value;
      assert refuse[1..] == [] && After(c, first, refuse[1..]) == Some(first);
    }
    var refused := After(c, w, refuse).value;
    var late := MarkFailed(p, id);
    AfterAppend(c, w, refuse, [late]);
    assert [late][1..] == [] && After(c, Do(c, refused, late).value, []).Some?;
    steps := refuse + [late];
  }

  /** With no guard on the status of a mark, a published row is final exactly when no poll has
      it in hand: not one within its lease either, which may publish again, or have its own
      published mark applied and yet reported as failed, and then mark it failed. */
  lemma PublishedFinalExactly(c: Config, w: World, id: EventId)
    requires IsPublished(w, id)
    ensures (forall steps :: After(c, w, steps).Some? ==> IsPublished(After(c, w, steps).value, id))
      <==> forall p :: p in w.polls ==> id !in w.polls[p].held
  {
    if InHand(w, id) {
      var p :| p in w.polls && id in w.polls[p].held;
      var steps := HolderUndoes(c, w, p, id);
      assert After(c, w, steps).Some?;
    } else {
      forall steps | After(c, w, steps).Some? ensures IsPublished(After(c, w, steps).value, id) {
        StaysPublished(c, w, steps, id);
      }
    }
  }

  // ---------- no notification without a settlement ----------

  /** Step `i` of the run committed this event, with a settlement that had been initiated. */
  ghost predicate Committed(c: Config, steps: seq<Step>, i: int, id: EventId) {
    0 <= i < |steps| && steps[i].Settle? && steps[i].event == Some(id) && steps[i].commits
    && After(c, START, steps[..i]).Some? && steps[i].key in After(c, START, steps[..i]).value.tables.projections
  }

  lemma CommittedStays(c: Config, init: seq<Step>, s: Step, i: int, id: EventId)
    requires Committed(c, init, i, id)
    ensures Committed(c, init + [s], i, id)
  {
    assert (init + [s])[..i] == init[..i] && (init + [s])[i] == init[i];
  }

  lemma NewRow(c: Config, w: World, s: Step, id: EventId)
    requires Do(c, w, s).Some? && id in Do(c, w, s).value.rows && id !in w.rows
    ensures s.Settle? && s.event == Some(id) && s.commits && s.key in w.tables.projections
  {
  }

  /** In every run an event is in the table only if a settlement that had been initiated was
      committed with it. */
  lemma {:induction false} EventsAreCommitted(c: Config, steps: seq<Step>, id: EventId)
    requires After(c, START, steps).Some? && id in After(c, START, steps).value.rows
    ensures exists i :: Committed(c, steps, i, id)
  {
    if steps != [] {
      var init, s := steps[..|steps| - 1], steps[|steps| - 1];
      assert steps == init + [s];
      AfterPrefix(c, START, init, s);
      var w := After(c, START, init).value;
      if id in w.rows {
        EventsAreCommitted(c, init, id);
        var i :| Committed(c, init, i, id);
        CommittedStays(c, init, s, i, id);
      } else {
        NewRow(c, w, s, id);
        assert steps[..|init|] == init && Committed(c, steps, |init|, id);
      }
    }
  }

  // ---------- how often a row may fail ----------

  /** The failed marks of a row in a run. */
  function Failures(steps: seq<Step>, id: EventId): nat {
    if steps == [] then 0
    else
      var last := steps[|steps| - 1];
      Failures(steps[..|steps| - 1], id) + if last.MarkFailed? && last.id == id then 1 else 0
  }

  ghost predicate HeldExist(w: World) { forall p, id :: p in w.polls && id in w.polls[p].held ==> id in w.rows }

  lemma StepHeldExist(c: Config, w: World, s: Step)
    requires HeldExist(w) && Do(c, w, s).Some?
    ensures HeldExist(Do(c, w, s).value)
  {
    OnlyForward(c, w, s);
    var w' := Do(c, w, s).value;
    forall p, id | p in w'.polls && id in w'.polls[p].held ensures id in w'.rows {
      if s.Claim? && s.p == p { assert id in Range(s.ids) && id in ClaimableIds(w.rows, w.now, c.leaseMs); }
    }
  }

  lemma StepAttempts(c: Config, w: World, s: Step, id: EventId)
    requires HeldExist(w) && Do(c, w, s).Some?
    ensures var w' := Do(c, w, s).value; var one := if s.MarkFailed? && s.id == id then 1 else 0;
      && (id in w'.rows ==>
            w'.rows[id].attempts == (if id in w.rows then w.rows[id].attempts else 0) + one)
      && (id !in w.rows ==> one == 0) && (id in w.rows ==> id in w'.rows)
  {
    OnlyForward(c, w, s);
  }

  lemma {:induction false} AttemptsCount(c: Config, steps: seq<Step>, id: EventId)
    requires After(c, START, steps).Some?
    ensures var w := After(c, START, steps).value;
      HeldExist(w) && (if id in w.rows then w.rows[id].attempts else 0) == Failures(steps, id)
  {
    if steps != [] {
      var init, s := steps[..|steps| - 1], steps[|steps| - 1];
      assert steps == init + [s];
      AfterPrefix(c, START, init, s);
      AttemptsCount(c, init, id);
      var mid := After(c, START, init).value;
      StepHeldExist(c, mid, s);
      StepAttempts(c, mid, s, id);
    }
  }

  lemma {:induction false} AfterPrefix(c: Config, w: World, steps: seq<Step>, s: Step)
    requires After(c, w, steps + [s]).Some?
    ensures After(c, w, steps).Some? && After(c, w, steps + [s]) == Do(c, After(c, w, steps).value, s)
    decreases |steps|
  {
    if steps == [] {
      assert [] + [s] == [s] && [s][1..] == [];
    } else {
      assert (steps + [s])[0] == steps[0] && (steps + [s])[1..] == steps[1..] + [s];
      AfterPrefix(c, Do(c, w, steps[0]).value, steps[1..], s);
    }
  }

  /** In every run a failed mark ends a row exactly when it is at least the maxAttempts-th, and else
      leaves it to be claimed again at once. */
  lemma FailsAfterExactly(c: Config, steps: seq<Step>, p: PollId, id: EventId)
    requires After(c, START, steps + [MarkFailed(p, id)]).Some?
    ensures var w := After(c, START, steps + [MarkFailed(p, id)]).value;
      && id in w.rows && w.rows[id].attempts == Failures(steps, id) + 1
      && (w.rows[id].status.Failed? <==> Failures(steps, id) + 1 >= c.maxAttempts)
      && (Claimable(w.rows[id], w.now, c.leaseMs) <==> Failures(steps, id) + 1 < c.maxAttempts)
  {
    AfterPrefix(c, START, steps, MarkFailed(p, id));
    AttemptsCount(c, steps, id);
  }

  predicate IsFailed(w: World, id: EventId) { id in w.rows && w.rows[id].status.Failed? }

  /** A poll may still mark the row published. */
  predicate MayPublish(w: World, p: PollId, id: EventId) { Holds(w, p, id, Holding) || Holds(w, p, id, Sent) }

  /** A poll whose publish failed only marks a failed row failed again. */
  lemma StepStaysFailed(c: Config, w: World, s: Step, id: EventId)
    requires Sound(c, w) && IsFailed(w, id) && Do(c, w, s).Some? && forall p :: !MayPublish(w, p, id)
    ensures IsFailed(Do(c, w, s).value, id) && forall p :: !MayPublish(Do(c, w, s).value, p, id)
  {
    var w' := Do(c, w, s).value;
    forall p ensures !MayPublish(w', p, id) {
      assert !MayPublish(w, p, id);
      if s.Claim? && s.p == p { assert id !in Range(s.ids); }
    }
    if s.MarkPublished? || s.MarkPublishedThrows? { assert !MayPublish(w, s.p, id); }
    assert RowFits(c, w.rows[id], Count(w.accepted, id), w.now);
  }

  lemma {:induction false} StaysFailed(c: Config, w: World, steps: seq<Step>, id: EventId)
    requires Sound(c, w) && IsFailed(w, id) && After(c, w, steps).Some? && forall p :: !MayPublish(w, p, id)
    ensures IsFailed(After(c, w, steps).value, id)
    decreases |steps|
  {
    if steps != [] {
      StepSound(c, w, steps[0]);
      StepStaysFailed(c, w, steps[0], id);
      StaysFailed(c, Do(c, w, steps[0]).value, steps[1..], id);
    }
  }

  lemma HolderPublishes(c: Config, w: World, p: PollId, id: EventId) returns (steps: seq<Step>)
    requires IsFailed(w, id) && MayPublish(w, p, id)
    ensures After(c, w, steps).Some? && !IsFailed(After(c, w, steps).value, id)
  {
    var publish := if Holds(w, p, id, Holding) then [Publish(p, id)] else [];
    if publish != [] {
      var first := Do(c, w, publish[0]).value;
      assert publish[1..] == [] && After(c, first, publish[1..]) == Some(first);
    }
    var sent := After(c, w, publish).value;
    var mark := MarkPublished(p, id);
    AfterAppend(c, w, publish, [mark]);
    assert [mark][1..] == [] && After(c, Do(c, sent, mark).value, []).Some?;
    steps := publish + [mark];
  }

  /** A failed row is final exactly when no poll holds it whose publish has not failed: such a poll
      may yet publish it, while one whose publish did fail only marks it failed again. */
  lemma FailedFinalExactly(c: Config, w: World, id: EventId)
    requires Sound(c, w) && IsFailed(w, id)
    ensures (forall steps :: After(c, w, steps).Some? ==> IsFailed(After(c, w, steps).value, id))
      <==> forall p :: p in w.polls ==> !MayPublish(w, p, id)
  {
    if p :| p in w.polls && MayPublish(w, p, id) {
      var steps := HolderPublishes(c, w, p, id);
      assert After(c, w, steps).Some?;
    } else {
      forall p ensures !MayPublish(w, p, id) {
      }
      forall steps | After(c, w, steps).Some? ensures IsFailed(After(c, w, steps).value, id) {
        StaysFailed(c, w, steps, id);
      }
    }
  }

  /** With no guard on the status, a poller that marks a failure after its lease takes a
      published row back. */
  lemma LateMarkUndoesPublished(c: Config, id: EventId)
    ensures exists steps, w, late ::
      After(c, START, steps) == Some(w) && IsPublished(w, id)
      && !OrderlyStep(c, w, late) && Do(c, w, late).Some? && !IsPublished(Do(c, w, late).value, id)
  {
    var steps, w := AnotherPublishes(c, id);
    var late := MarkFailed(1, id);
    assert After(c, START, steps) == Some(w) && IsPublished(w, id)
      && !OrderlyStep(c, w, late) && Do(c, w, late).Some? && !IsPublished(Do(c, w, late).value, id);
  }
}
