/** The Postgres settlement store: hand-written upserts that must agree, row by row, with
    the fold over the event log. One SQL statement is one step. */
module SettlementTables {
  import opened Text
  import opened Settlements

  /** A row of settlement_events, in the order of the serial id. */
  datatype EventRow<R> = EventRow(key: Key, event: Event<R>)

  datatype Row<R> = Row(projection: Projection<R>, version: nat)

  datatype Tables<R> = Tables(events: seq<EventRow<R>>, projections: map<Key, Row<R>>)

  // ---------- the statements ----------

  /** COALESCE(MAX(seq), 0) over the rows of one key. */
  function MaxNumber<R>(rows: seq<EventRow<R>>, key: Key): nat {
    if rows == [] then 0
    else
      var before := MaxNumber(rows[..|rows| - 1], key);
      var last := rows[|rows| - 1];
      if last.key == key && last.event.number > before then last.event.number else before
  }

  function NextEvent<R>(t: Tables<R>, key: Key, kind: EventType, payload: Payload<R>, now: int): EventRow<R> {
    EventRow(key, Event(kind, payload, MaxNumber(t.events, key) + 1, now))
  }

  /** `details.response ? JSON.stringify(details.response) : null` */
  function Bound<R>(r: Response<R>): Response<R> { if r.Given? then r else NoResponse }

  /** save: append SettlementInitiated, insert the projection or overwrite all but its key
      and creation time. */
  function SaveStatement<R>(t: Tables<R>, key: Key, r: Record, now: int): Tables<R> {
    var row := NextEvent(t, key, Initiated, InitialPayload(key, r), now);
    var n := row.event.number;
    var inserted := Row(Projection(key, r.network, r.scheme, r.payer, r.payTo, r.asset, r.amount, Submitted,
      r.txHash, None, None, NoResponse, r.keyId, now, now), n);
    Tables(t.events + [row], t.projections[key :=
      if key in t.projections then
        var prior := t.projections[key];
        Row(prior.projection.(
          network := r.network, scheme := r.scheme, payer := r.payer, payTo := r.payTo, asset := r.asset,
          amount := r.amount, state := Submitted, txHash := r.txHash, errorReason := None,
          errorMessage := None, response := NoResponse, keyId := r.keyId, updatedAt := now), n)
      else inserted])
  }

  /** updateState, and the first statement of settleAndEnqueue. */
  function UpdateStatement<R>(t: Tables<R>, key: Key, outcome: Outcome, d: Details<R>, now: int): Tables<R> {
    if key !in t.projections then t
    else
      var row := NextEvent(t, key, KindOf(outcome), OutcomePayload(key, d), now);
      var prior := t.projections[key].projection;
      Tables(t.events + [row], t.projections[key := Row(prior.(
        state := StateOf(KindOf(outcome)),
        txHash := Else(d.txHash, prior.txHash),
        errorReason := Else(d.errorReason, prior.errorReason),
        errorMessage := Else(d.errorMessage, prior.errorMessage),
        response := ElseResponse(Bound(d.response), prior.response),
        updatedAt := now), row.event.number)])
  }

  /** The events of one key, in id order. */
  function Stream<R>(rows: seq<EventRow<R>>, key: Key): seq<Event<R>> {
    if rows == [] then []
    else
      var last := rows[|rows| - 1];
      Stream(rows[..|rows| - 1], key) + if last.key == key then [last.event] else []
  }

  function InsertByNumber<R>(e: Event<R>, es: seq<Event<R>>): seq<Event<R>> {
    if es == [] then [e]
    else
      var last := es[|es| - 1];
      if last.number <= e.number then es + [e] else InsertByNumber(e, es[..|es| - 1]) + [last]
  }

  /** ORDER BY seq ASC */
  function ByNumber<R>(es: seq<Event<R>>): seq<Event<R>> {
    if es == [] then [] else InsertByNumber(es[|es| - 1], ByNumber(es[..|es| - 1]))
  }

  function EventLog<R>(t: Tables<R>, key: Key): seq<Event<R>> { ByNumber(Stream(t.events, key)) }

  /** rebuildProjection: replay the log and overwrite the row. */
  function RebuildStatement<R>(t: Tables<R>, key: Key): Tables<R> {
    var log := EventLog(t, key);
    match Project(log)
    case None => t
    case Some(p) =>
      t.(projections := t.projections[p.key := Row(p.(response := Bound(p.response)), |log|)])
  }

  class PostgresSettlementStore<R> {
    var events: seq<EventRow<R>>
    var projections: map<Key, Row<R>>

    ghost function State(): Tables<R>
      reads this
    {
      Tables(events, projections)
    }

    constructor ()
      ensures State() == Tables([], map[])
    {
      events, projections := [], map[];
    }

    method Get(key: Key) returns (r: Option<Row<R>>)
      ensures r == if key in projections then Some(projections[key]) else None
    {
      r := if key in projections then Some(projections[key]) else None;
    }

    /** The sequence number the CTE gives the next event of a key. */
    method NextNumber(key: Key) returns (n: nat)
      ensures n == MaxNumber(events, key) + 1
    {
      n := 0;
      for i := 0 to |events|
        invariant n == MaxNumber(events[..i], key)
      {
        assert events[..i + 1][..i] == events[..i];
        if events[i].key == key && events[i].event.number > n { n := events[i].event.number; }
      }
      assert events[..|events|] == events;
      n := n + 1;
    }

    method Save(key: Key, r: Record, now: int)
      modifies this
      ensures State() == SaveStatement(old(State()), key, r, now)
    {
      var n := NextNumber(key);
      events := events + [EventRow(key, Event(Initiated, InitialPayload(key, r), n, now))];
      var created := if key in projections then projections[key].projection.createdAt else now;
      var rowKey := if key in projections then projections[key].projection.key else key;
      projections := projections[key := Row(Projection(rowKey, r.network, r.scheme, r.payer, r.payTo, r.asset,
        r.amount, Submitted, r.txHash, None, None, NoResponse, r.keyId, created, now), n)];
    }

    method UpdateState(key: Key, outcome: Outcome, d: Details<R>, now: int) returns (updated: bool)
      modifies this
      ensures State() == UpdateStatement(old(State()), key, outcome, d, now)
      ensures updated == (key in old(projections))
    {
      if key !in projections { return false; }
      var n := NextNumber(key);
      events := events + [EventRow(key, Event(KindOf(outcome), OutcomePayload(key, d), n, now))];
      var p := projections[key].projection;
      p := p.(state := StateOf(KindOf(outcome)), updatedAt := now);
      if d.txHash.Some? { p := p.(txHash := d.txHash); }
      if d.errorReason.Some? { p := p.(errorReason := d.errorReason); }
      if d.errorMessage.Some? { p := p.(errorMessage := d.errorMessage); }
      if d.response.Given? { p := p.(response := d.response); }
      projections := projections[key := Row(p, n)];
      updated := true;
    }

    method RebuildProjection(key: Key)
      modifies this
      ensures State() == RebuildStatement(old(State()), key)
    {
      var log := EventLog(Tables(events, projections), key);
      var projection := ProjectSettlement(log);
      if projection.Some? {
        var p := projection.value;
        var response := if p.response.Given? then p.response else NoResponse;
        projections := projections[p.key := Row(p.(response := response), |log|)];
      }
    }
  }

  // ---------- the read model is the fold ----------

  ghost predicate Numbered<R>(stream: seq<Event<R>>, key: Key) {
    forall i :: 0 <= i < |stream| ==>
      stream[i].number == i + 1 && stream[i].payload.key == key && stream[i].kind != Unrecognised
  }

  /** One key: the log is numbered 1..n and the row is its projection, at version n. */
  ghost predicate Agrees<R>(t: Tables<R>, key: Key) {
    var stream := Stream(t.events, key);
    && Numbered(stream, key)
    && (key in t.projections <==> stream != [])
    && (key in t.projections ==>
          && Project(stream) == Some(t.projections[key].projection)
          && t.projections[key].version == |stream|
          && t.projections[key].projection.key == key
          && !t.projections[key].projection.response.Falsy?)
  }

  ghost predicate Consistent<R>(t: Tables<R>) {
    forall key :: Agrees(t, key)
  }

  lemma {:induction false} MaxIsLength<R>(rows: seq<EventRow<R>>, key: Key)
    requires Numbered(Stream(rows, key), key)
    ensures MaxNumber(rows, key) == |Stream(rows, key)|
  {
    if rows != [] {
      var init, last := rows[..|rows| - 1], rows[|rows| - 1];
      assert forall i :: 0 <= i < |Stream(init, key)| ==> Stream(init, key)[i] == Stream(rows, key)[i];
      MaxIsLength(init, key);
      if last.key == key { assert Stream(rows, key)[|Stream(init, key)|] == last.event; }
    }
  }

  lemma StreamSnoc<R>(rows: seq<EventRow<R>>, row: EventRow<R>, key: Key)
    ensures Stream(rows + [row], key) == Stream(rows, key) + if row.key == key then [row.event] else []
  {
    assert (rows + [row])[..|rows|] == rows;
  }

  /** A new event of `key` whose row is the fold of the longer log leaves everything in
      agreement; other keys are not touched. */
  lemma OthersAgree<R>(t: Tables<R>, row: EventRow<R>, updated: Row<R>, other: Key)
    requires Agrees(t, other) && other != row.key
    ensures Agrees(Tables(t.events + [row], t.projections[row.key := updated]), other)
  {
    StreamSnoc(t.events, row, other);
    assert Stream(t.events, other) + [] == Stream(t.events, other);
  }

  lemma OwnAgrees<R>(t: Tables<R>, row: EventRow<R>, updated: Row<R>)
    requires Agrees(t, row.key) && row.event.payload.key == row.key && row.event.kind != Unrecognised
    requires row.event.number == MaxNumber(t.events, row.key) + 1
    requires updated.version == row.event.number && updated.projection.key == row.key
    requires !updated.projection.response.Falsy?
    requires ApplyEvent(Project(Stream(t.events, row.key)), row.event) == Some(updated.projection)
    ensures Agrees(Tables(t.events + [row], t.projections[row.key := updated]), row.key)
  {
    StreamSnoc(t.events, row, row.key);
    MaxIsLength(t.events, row.key);
    ProjectSnoc(Stream(t.events, row.key), row.event);
  }

  lemma ExtendAgrees<R>(t: Tables<R>, row: EventRow<R>, updated: Row<R>, other: Key)
    requires Consistent(t) && row.event.payload.key == row.key && row.event.kind != Unrecognised
    requires row.event.number == MaxNumber(t.events, row.key) + 1
    requires updated.version == row.event.number && updated.projection.key == row.key
    requires !updated.projection.response.Falsy?
    requires ApplyEvent(Project(Stream(t.events, row.key)), row.event) == Some(updated.projection)
    ensures Agrees(Tables(t.events + [row], t.projections[row.key := updated]), other)
  {
    assert Agrees(t, row.key) && Agrees(t, other);
    if other == row.key { OwnAgrees(t, row, updated); } else { OthersAgree(t, row, updated, other); }
  }

  lemma SaveKeeps<R>(t: Tables<R>, key: Key, r: Record, now: int)
    requires Consistent(t)
    ensures Consistent(SaveStatement(t, key, r, now))
  {
    assert Agrees(t, key);
    var row := NextEvent(t, key, Initiated, InitialPayload<R>(key, r), now);
    var updated := SaveStatement(t, key, r, now).projections[key];
    forall other ensures Agrees(SaveStatement(t, key, r, now), other) {
      ExtendAgrees(t, row, updated, other);
    }
  }

  /** An update keeps read model and log together exactly when its response is null or
      something JavaScript holds true. */
  lemma UpdateKeepsExactly<R>(t: Tables<R>, key: Key, outcome: Outcome, d: Details<R>, now: int)
    requires Consistent(t) && key in t.projections
    ensures Consistent(UpdateStatement(t, key, outcome, d, now)) <==> !d.response.Falsy?
  {
    assert Agrees(t, key);
    var t' := UpdateStatement(t, key, outcome, d, now);
    var row := NextEvent(t, key, KindOf(outcome), OutcomePayload(key, d), now);
    if d.response.Falsy? {
      StreamSnoc(t.events, row, key);
      ProjectSnoc(Stream(t.events, key), row.event);
      assert Project(Stream(t'.events, key)).value.response == d.response;
      assert !Agrees(t', key);
    } else {
      forall other ensures Agrees(t', other) {
        ExtendAgrees(t, row, t'.projections[key], other);
      }
    }
  }

  lemma {:induction false} SortedAlready<R>(stream: seq<Event<R>>, key: Key)
    requires Numbered(stream, key)
    ensures ByNumber(stream) == stream
  {
    if stream != [] {
      var init := stream[..|stream| - 1];
      SortedAlready(init, key);
      assert stream == init + [stream[|stream| - 1]];
    }
  }

  /** Rebuilding a row from its log changes nothing. */
  lemma RebuildChangesNothing<R>(t: Tables<R>, key: Key)
    requires Consistent(t)
    ensures RebuildStatement(t, key) == t
  {
    assert Agrees(t, key);
    SortedAlready(Stream(t.events, key), key);
    if key in t.projections {
      assert t.projections[key := t.projections[key]] == t.projections;
    }
  }

  // ---------- whole runs, against the memory store ----------

  datatype Op<R> =
    | Save(key: Key, record: Record)
    | Update(key: Key, outcome: Outcome, details: Details<R>)
    | Rebuild(key: Key)

  /** Each store reads its own clock. */
  datatype Call<R> = Call(op: Op<R>, dbNow: int, memoryNow: int)

  function TablesAfter<R>(calls: seq<Call<R>>): Tables<R> {
    if calls == [] then Tables([], map[])
    else
      var t, c := TablesAfter(calls[..|calls| - 1]), calls[|calls| - 1];
      match c.op
      case Save(key, r) => SaveStatement(t, key, r, c.dbNow)
      case Update(key, outcome, d) => UpdateStatement(t, key, outcome, d, c.dbNow)
      case Rebuild(key) => RebuildStatement(t, key)
  }

  function LogsAfter<R>(calls: seq<Call<R>>): Logs<R> {
    if calls == [] then map[]
    else
      var logs, c := LogsAfter(calls[..|calls| - 1]), calls[|calls| - 1];
      match c.op
      case Save(key, r) => Saved(logs, key, r, c.memoryNow)
      case Update(key, outcome, d) => Updated(logs, key, outcome, d, c.memoryNow)
      case Rebuild(key) => logs
  }

  predicate Truthful<R>(c: Call<R>) { c.op.Update? ==> !c.op.details.response.Falsy? }

  /** The same events in the same order, whatever the clocks said. */
  ghost predicate SameEvents<R>(a: seq<Event<R>>, b: seq<Event<R>>) {
    |a| == |b| && forall i :: 0 <= i < |a| ==> a[i].(recordedAt := 0) == b[i].(recordedAt := 0)
  }

  function Timeless<R>(p: Option<Projection<R>>): Option<Projection<R>> {
    match p case None => None case Some(q) => Some(q.(createdAt := 0, updatedAt := 0))
  }

  lemma {:induction false} SameEventsSameProjection<R>(a: seq<Event<R>>, b: seq<Event<R>>)
    requires SameEvents(a, b)
    ensures Timeless(Project(a)) == Timeless(Project(b))
  {
    if a != [] {
      var n := |a| - 1;
      assert SameEvents(a[..n], b[..n]);
      SameEventsSameProjection(a[..n], b[..n]);
      assert a[n].(recordedAt := 0) == b[n].(recordedAt := 0);
      assert a[n].kind == b[n].kind && a[n].payload == b[n].payload;
    }
  }

  ghost predicate Mirrors<R>(t: Tables<R>, logs: Logs<R>) {
    forall key :: (key in logs <==> key in t.projections) && SameEvents(Stream(t.events, key), LogOf(logs, key))
  }

  lemma ExtendMirrors<R>(t: Tables<R>, logs: Logs<R>, key: Key, kind: EventType, payload: Payload<R>,
      row: Row<R>, dbNow: int, memoryNow: int)
    requires Consistent(t) && Mirrors(t, logs)
    ensures Mirrors(Tables(t.events + [NextEvent(t, key, kind, payload, dbNow)], t.projections[key := row]),
      Appended(logs, key, kind, payload, memoryNow))
  {
    assert Agrees(t, key);
    MaxIsLength(t.events, key);
    var e := NextEvent(t, key, kind, payload, dbNow);
    var t' := Tables(t.events + [e], t.projections[key := row]);
    var logs' := Appended(logs, key, kind, payload, memoryNow);
    forall k ensures (k in logs' <==> k in t'.projections) && SameEvents(Stream(t'.events, k), LogOf(logs', k)) {
      StreamSnoc(t.events, e, k);
      assert SameEvents(Stream(t.events, k), LogOf(logs, k));
    }
  }

  lemma {:induction false} RunsAgree<R>(calls: seq<Call<R>>)
    requires forall i :: 0 <= i < |calls| ==> Truthful(calls[i])
    ensures Consistent(TablesAfter(calls)) && Mirrors(TablesAfter(calls), LogsAfter(calls))
  {
    if calls != [] {
      var init, c := calls[..|calls| - 1], calls[|calls| - 1];
      RunsAgree(init);
      var t, logs := TablesAfter(init), LogsAfter(init);
      match c.op
      case Save(key, r) =>
        SaveKeeps(t, key, r, c.dbNow);
        ExtendMirrors(t, logs, key, Initiated, InitialPayload(key, r),
          SaveStatement(t, key, r, c.dbNow).projections[key], c.dbNow, c.memoryNow);
      case Update(key, outcome, d) =>
        if key in t.projections {
          UpdateKeepsExactly(t, key, outcome, d, c.dbNow);
          ExtendMirrors(t, logs, key, KindOf(outcome), OutcomePayload(key, d),
            UpdateStatement(t, key, outcome, d, c.dbNow).projections[key], c.dbNow, c.memoryNow);
        }
      case Rebuild(key) => RebuildChangesNothing(t, key);
    }
  }

  /** After any calls on any keys, with responses null or truthy: every row is the
      projection of its log, numbered 1..n at version n, rows exist exactly for non-empty
      logs, rebuilding changes nothing, and both stores answer get alike up to time. */
  lemma ReadModelIsTheFold<R>(calls: seq<Call<R>>, key: Key)
    requires forall i :: 0 <= i < |calls| ==> Truthful(calls[i])
    ensures var t := TablesAfter(calls); var log := EventLog(t, key);
      && (forall i :: 0 <= i < |log| ==> log[i].number == i + 1)
      && (key in t.projections <==> log != [])
      && (key in t.projections ==>
            Project(log) == Some(t.projections[key].projection) && t.projections[key].version == |log|)
      && RebuildStatement(t, key) == t
    ensures var t := TablesAfter(calls);
      Timeless(if key in t.projections then Some(t.projections[key].projection) else None)
        == Timeless(Got(LogsAfter(calls), key))
  {
    RunsAgree(calls);
    var t, logs := TablesAfter(calls), LogsAfter(calls);
    assert Agrees(t, key);
    SortedAlready(Stream(t.events, key), key);
    RebuildChangesNothing(t, key);
    assert SameEvents(Stream(t.events, key), LogOf(logs, key));
    SameEventsSameProjection(Stream(t.events, key), LogOf(logs, key));
  }
}
