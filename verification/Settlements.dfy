/** Settlement events, the one fold that says what a settlement looks like, and the
    process-local store that reads through it. */
module Settlements {
  import opened Text

  type Key = string

  datatype State = Submitted | Settled | Failed | Unknown

  /** The states a settlement is moved to after it was initiated. */
  datatype Outcome = ToSettled | ToFailed | ToUnknown

  datatype EventType = Initiated | SettledEvent | FailedEvent | UnknownEvent | Unrecognised

  /** A JSON response: null, a value JavaScript holds false, or anything else. */
  datatype Response<R> = NoResponse | Falsy(code: int) | Given(value: R)

  datatype Payload<R> = Payload(
    key: Key, network: string, scheme: string, payer: Option<string>, payTo: Option<string>,
    asset: Option<string>, amount: Option<string>, txHash: Option<string>, keyId: Option<string>,
    errorReason: Option<string>, errorMessage: Option<string>, response: Response<R>)

  datatype Event<R> = Event(kind: EventType, payload: Payload<R>, number: nat, recordedAt: int)

  datatype Projection<R> = Projection(
    key: Key, network: string, scheme: string, payer: Option<string>, payTo: Option<string>,
    asset: Option<string>, amount: Option<string>, state: State, txHash: Option<string>,
    errorReason: Option<string>, errorMessage: Option<string>, response: Response<R>,
    keyId: Option<string>, createdAt: int, updatedAt: int)

  /** What save is given, with absent network and scheme already read as ''. */
  datatype Record = Record(
    network: string, scheme: string, payer: Option<string>, payTo: Option<string>,
    asset: Option<string>, amount: Option<string>, txHash: Option<string>, keyId: Option<string>)

  datatype Details<R> = Details(
    txHash: Option<string>, errorReason: Option<string>, errorMessage: Option<string>, response: Response<R>)

  // ---------- the fold ----------

  /** a ?? b */
  function Else<T>(a: Option<T>, b: Option<T>): Option<T> { if a.Some? then a else b }

  function ElseResponse<R>(a: Response<R>, b: Response<R>): Response<R> { if a.NoResponse? then b else a }

  function StateOf(kind: EventType): State
    requires kind != Unrecognised
  {
    match kind
    case Initiated => Submitted
    case SettledEvent => Settled
    case FailedEvent => Failed
    case UnknownEvent => Unknown
  }

  function KindOf(outcome: Outcome): EventType {
    match outcome case ToSettled => SettledEvent case ToFailed => FailedEvent case ToUnknown => UnknownEvent
  }

  /** What a terminal event starts from when nothing was initiated. */
  function Seed<R>(e: Event<R>): Projection<R> {
    Projection(e.payload.key, "", "", None, None, None, None, Submitted, None, None, None, NoResponse,
      None, e.recordedAt, e.recordedAt)
  }

  function ApplyEvent<R>(previous: Option<Projection<R>>, e: Event<R>): Option<Projection<R>> {
    var p := e.payload;
    if e.kind == Unrecognised then previous
    else if e.kind == Initiated then
      Some(Projection(p.key, p.network, p.scheme, p.payer, p.payTo, p.asset, p.amount, Submitted, p.txHash,
        None, None, NoResponse, p.keyId,
        if previous.Some? then previous.value.createdAt else e.recordedAt, e.recordedAt))
    else
      var base := if previous.Some? then previous.value else Seed(e);
      Some(base.(
        state := StateOf(e.kind),
        txHash := Else(p.txHash, base.txHash),
        errorReason := Else(p.errorReason, base.errorReason),
        errorMessage := Else(p.errorMessage, base.errorMessage),
        response := ElseResponse(p.response, base.response),
        updatedAt := e.recordedAt))
  }

  function Project<R>(events: seq<Event<R>>): Option<Projection<R>> {
    if events == [] then None
    else ApplyEvent(Project(events[..|events| - 1]), events[|events| - 1])
  }

  /** projectSettlement, folding event by event. */
  method ProjectSettlement<R>(events: seq<Event<R>>) returns (projection: Option<Projection<R>>)
    ensures projection == Project(events)
  {
    projection := None;
    for i := 0 to |events|
      invariant projection == Project(events[..i])
    {
      assert events[..i + 1][..i] == events[..i];
      projection := ApplyEvent(projection, events[i]);
    }
    assert events[..|events|] == events;
  }

  lemma ProjectSnoc<R>(events: seq<Event<R>>, e: Event<R>)
    ensures Project(events + [e]) == ApplyEvent(Project(events), e)
  {
    assert (events + [e])[..|events|] == events;
  }

  // ---------- what the fold says, read off the events ----------

  /** Event `i` is the last that the fold knows. */
  ghost predicate LastKnown<R>(events: seq<Event<R>>, i: int) {
    && 0 <= i < |events| && events[i].kind != Unrecognised
    && forall j :: i < j < |events| ==> events[j].kind == Unrecognised
  }

  /** Event `i` is an outcome that no initiation followed. */
  ghost predicate Stands<R>(events: seq<Event<R>>, i: int) {
    && 0 <= i < |events| && events[i].kind in {SettledEvent, FailedEvent, UnknownEvent}
    && forall j :: i < j < |events| ==> events[j].kind != Initiated
  }

  ghost predicate LastReason<R>(events: seq<Event<R>>, i: int, reason: string) {
    && Stands(events, i) && events[i].payload.errorReason == Some(reason)
    && forall j :: i < j && Stands(events, j) ==> events[j].payload.errorReason.None?
  }

  ghost predicate LastResponse<R(!new)>(events: seq<Event<R>>, i: int, response: Response<R>) {
    && Stands(events, i) && events[i].payload.response == response
    && forall j :: i < j && Stands(events, j) ==> events[j].payload.response.NoResponse?
  }

  /** The last reason that a standing outcome gave. */
  ghost predicate SaysReason<R>(events: seq<Event<R>>, reason: Option<string>) {
    match reason
    case None => forall i :: Stands(events, i) ==> events[i].payload.errorReason.None?
    case Some(x) => exists i :: LastReason(events, i, x)
  }

  /** The last response that a standing outcome gave, null counting as none. */
  ghost predicate SaysResponse<R(!new)>(events: seq<Event<R>>, response: Response<R>) {
    if response.NoResponse? then forall i :: Stands(events, i) ==> events[i].payload.response.NoResponse?
    else exists i :: LastResponse(events, i, response)
  }

  /** The last known event gives the state, and the time of the last change. */
  ghost predicate SaysWhen<R>(events: seq<Event<R>>, p: Projection<R>) {
    exists i :: LastKnown(events, i) && p.updatedAt == events[i].recordedAt && SaysState(events[i].kind, p.state)
  }

  predicate SaysState(kind: EventType, state: State) {
    match kind
    case Initiated => state == Submitted
    case SettledEvent => state == Settled
    case FailedEvent => state == Failed
    case UnknownEvent => state == Unknown
    case Unrecognised => false
  }

  ghost predicate FirstKnown<R>(events: seq<Event<R>>, i: int) {
    && 0 <= i < |events| && events[i].kind != Unrecognised
    && forall j :: 0 <= j < i ==> events[j].kind == Unrecognised
  }

  /** The first known event gives the time the settlement is there since. */
  ghost predicate SaysSince<R>(events: seq<Event<R>>, at: int) {
    exists i :: FirstKnown(events, i) && at == events[i].recordedAt
  }

  ghost predicate LastInitiated<R>(events: seq<Event<R>>, i: int) {
    && 0 <= i < |events| && events[i].kind == Initiated
    && forall j :: i < j < |events| ==> events[j].kind != Initiated
  }

  /** Who and what is as last initiated; nothing is known of a settlement nobody initiated. */
  ghost predicate SaysWhat<R>(events: seq<Event<R>>, p: Projection<R>) {
    && (forall i :: LastInitiated(events, i) ==>
          var q := events[i].payload;
          && p.key == q.key && p.network == q.network && p.scheme == q.scheme && p.payer == q.payer
          && p.payTo == q.payTo && p.asset == q.asset && p.amount == q.amount && p.keyId == q.keyId)
    && ((forall i :: 0 <= i < |events| ==> events[i].kind != Initiated) ==>
          && p.network == "" && p.scheme == "" && p.payer == None && p.payTo == None && p.asset == None
          && p.amount == None && p.keyId == None)
  }

  /** Initiated last, or an outcome since. */
  ghost predicate Counts<R>(events: seq<Event<R>>, i: int) { Stands(events, i) || LastInitiated(events, i) }

  ghost predicate LastHash<R>(events: seq<Event<R>>, i: int, hash: string) {
    && Counts(events, i) && events[i].payload.txHash == Some(hash)
    && forall j :: i < j && Counts(events, j) ==> events[j].payload.txHash.None?
  }

  ghost predicate SaysHash<R>(events: seq<Event<R>>, hash: Option<string>) {
    match hash
    case None => forall i :: Counts(events, i) ==> events[i].payload.txHash.None?
    case Some(x) => exists i :: LastHash(events, i, x)
  }

  lemma InitiatedSnoc<R>(events: seq<Event<R>>, e: Event<R>, i: int)
    ensures LastInitiated(events + [e], i) <==>
      if e.kind == Initiated then i == |events| else LastInitiated(events, i)
  {
    var all := events + [e];
    if 0 <= i < |events| {
      assert all[i] == events[i] && all[|events|] == e;
      assert forall j :: i < j < |events| ==> all[j] == events[j];
    }
  }

  lemma CountsSnoc<R>(events: seq<Event<R>>, e: Event<R>, i: int)
    ensures Counts(events + [e], i) <==>
      if i == |events| then e.kind != Unrecognised else Counts(events, i) && e.kind != Initiated
  {
    StandsSnoc(events, e, i);
    InitiatedSnoc(events, e, i);
  }

  lemma WhatSnoc<R>(events: seq<Event<R>>, e: Event<R>)
    requires Project(events + [e]).Some? && (Project(events).Some? ==> SaysWhat(events, Project(events).value))
    requires Project(events).None? ==> forall i :: 0 <= i < |events| ==> events[i].kind == Unrecognised
    ensures SaysWhat(events + [e], Project(events + [e]).value)
  {
    var all := events + [e];
    ProjectSnoc(events, e);
    assert all[|events|] == e && forall j :: 0 <= j < |events| ==> all[j] == events[j];
    forall i ensures LastInitiated(all, i) <==>
      if e.kind == Initiated then i == |events| else LastInitiated(events, i)
    {
      InitiatedSnoc(events, e, i);
    }
  }

  lemma HashSnoc<R>(events: seq<Event<R>>, e: Event<R>, hash: Option<string>)
    requires SaysHash(events, hash)
    ensures SaysHash(events + [e],
      if e.kind == Initiated then e.payload.txHash
      else if e.kind != Unrecognised && e.payload.txHash.Some? then e.payload.txHash else hash)
  {
    var all := events + [e];
    forall i ensures Counts(all, i) <==>
      if i == |events| then e.kind != Unrecognised else Counts(events, i) && e.kind != Initiated
    {
      CountsSnoc(events, e, i);
    }
    assert all[|events|] == e && forall j :: 0 <= j < |events| ==> all[j] == events[j];
    if e.kind != Unrecognised && e.payload.txHash.Some? {
      assert LastHash(all, |events|, e.payload.txHash.value);
    } else if e.kind != Initiated && hash.Some? {
      var i :| LastHash(events, i, hash.value);
      assert LastHash(all, i, hash.value);
    }
  }

  lemma StandsSnoc<R>(events: seq<Event<R>>, e: Event<R>, i: int)
    ensures Stands(events + [e], i) <==>
      if i == |events| then e.kind in {SettledEvent, FailedEvent, UnknownEvent}
      else Stands(events, i) && e.kind != Initiated
  {
    if 0 <= i < |events| {
      assert (events + [e])[i] == events[i] && (events + [e])[|events|] == e;
      assert forall j :: i < j < |events| ==> (events + [e])[j] == events[j];
    }
  }

  lemma ReasonSnoc<R>(events: seq<Event<R>>, e: Event<R>, reason: Option<string>)
    requires SaysReason(events, reason)
    ensures SaysReason(events + [e],
      if e.kind == Initiated then None
      else if e.kind != Unrecognised && e.payload.errorReason.Some? then e.payload.errorReason else reason)
  {
    var all := events + [e];
    forall i ensures Stands(all, i) <==>
      if i == |events| then e.kind in {SettledEvent, FailedEvent, UnknownEvent}
      else Stands(events, i) && e.kind != Initiated
    {
      StandsSnoc(events, e, i);
    }
    if e.kind != Initiated && (e.kind == Unrecognised || e.payload.errorReason.None?) && reason.Some? {
      var i :| LastReason(events, i, reason.value);
      assert LastReason(all, i, reason.value);
    } else if e.kind != Initiated && e.kind != Unrecognised && e.payload.errorReason.Some? {
      assert LastReason(all, |events|, e.payload.errorReason.value);
    }
  }

  lemma ResponseSnoc<R(!new)>(events: seq<Event<R>>, e: Event<R>, response: Response<R>)
    requires SaysResponse(events, response)
    ensures SaysResponse(events + [e],
      if e.kind == Initiated then NoResponse
      else if e.kind != Unrecognised && !e.payload.response.NoResponse? then e.payload.response else response)
  {
    var all := events + [e];
    forall i ensures Stands(all, i) <==>
      if i == |events| then e.kind in {SettledEvent, FailedEvent, UnknownEvent}
      else Stands(events, i) && e.kind != Initiated
    {
      StandsSnoc(events, e, i);
    }
    if e.kind != Initiated && (e.kind == Unrecognised || e.payload.response.NoResponse?) && !response.NoResponse? {
      var i :| LastResponse(events, i, response);
      assert LastResponse(all, i, response);
    } else if e.kind != Initiated && e.kind != Unrecognised && !e.payload.response.NoResponse? {
      assert LastResponse(all, |events|, e.payload.response);
    }
  }

  lemma SinceSnoc<R>(events: seq<Event<R>>, e: Event<R>)
    requires e.kind != Unrecognised && Project(events).Some? && SaysSince(events, Project(events).value.createdAt)
    ensures SaysSince(events + [e], Project(events + [e]).value.createdAt)
  {
    ProjectSnoc(events, e);
    SinceStays(events, e, Project(events).value.createdAt);
  }

  lemma SinceStays<R>(events: seq<Event<R>>, e: Event<R>, at: int)
    requires SaysSince(events, at)
    ensures SaysSince(events + [e], at)
  {
    var i :| FirstKnown(events, i) && at == events[i].recordedAt;
    assert forall j :: 0 <= j < |events| ==> (events + [e])[j] == events[j];
    assert FirstKnown(events + [e], i);
  }

  lemma SinceFirst<R>(events: seq<Event<R>>, e: Event<R>)
    requires e.kind != Unrecognised && forall i :: 0 <= i < |events| ==> events[i].kind == Unrecognised
    requires Project(events).None?
    ensures SaysSince(events + [e], Project(events + [e]).value.createdAt)
  {
    ProjectSnoc(events, e);
    assert forall j :: 0 <= j < |events| ==> (events + [e])[j] == events[j];
    assert FirstKnown(events + [e], |events|);
  }

  lemma WhenSnoc<R>(events: seq<Event<R>>, e: Event<R>)
    requires e.kind != Unrecognised
    ensures SaysWhen(events + [e], Project(events + [e]).value)
  {
    ProjectSnoc(events, e);
    assert LastKnown(events + [e], |events|) && (events + [e])[|events|] == e;
  }

  lemma WhenStays<R>(events: seq<Event<R>>, e: Event<R>, p: Projection<R>)
    requires e.kind == Unrecognised && SaysWhen(events, p)
    ensures SaysWhen(events + [e], p)
  {
    var all := events + [e];
    assert forall j :: 0 <= j < |events| ==> all[j] == events[j];
    var i :| LastKnown(events, i) && p.updatedAt == events[i].recordedAt && SaysState(events[i].kind, p.state);
    assert LastKnown(all, i) && all[i] == events[i];
  }

  /** The fold has a record exactly when it knows an event; then the last one gives the state,
      and hash, reason and response are the last ones given since the settlement was last initiated,
      which says who pays what to whom. */
  lemma {:induction false} FoldSays<R(!new)>(events: seq<Event<R>>)
    ensures Project(events).None? <==> forall i :: 0 <= i < |events| ==> events[i].kind == Unrecognised
    ensures Project(events).Some? ==>
      var p := Project(events).value;
      && SaysWhen(events, p) && SaysSince(events, p.createdAt) && SaysWhat(events, p) && SaysHash(events, p.txHash)
      && SaysReason(events, p.errorReason) && SaysResponse(events, p.response)
    ensures Project(events).None? ==>
      SaysHash(events, None) && SaysReason(events, None) && SaysResponse(events, NoResponse)
  {
    if events != [] {
      var init, e := events[..|events| - 1], events[|events| - 1];
      assert events == init + [e];
      FoldSays(init);
      var was := Project(init);
      ReasonSnoc(init, e, if was.Some? then was.value.errorReason else None);
      HashSnoc(init, e, if was.Some? then was.value.txHash else None);
      if Project(events).Some? { WhatSnoc(init, e); }
      ResponseSnoc(init, e, if was.Some? then was.value.response else NoResponse);
      if e.kind != Unrecognised {
        WhenSnoc(init, e);
        if was.Some? { SinceSnoc(init, e); } else { SinceFirst(init, e); }
      } else if was.Some? {
        WhenStays(init, e, was.value);
        SinceStays(init, e, was.value.createdAt);
      }
    }
  }

  // ---------- the payloads the stores write ----------

  function InitialPayload<R>(key: Key, r: Record): Payload<R> {
    Payload(key, r.network, r.scheme, r.payer, r.payTo, r.asset, r.amount, r.txHash, r.keyId,
      None, None, NoResponse)
  }

  function OutcomePayload<R>(key: Key, d: Details<R>): Payload<R> {
    Payload(key, "", "", None, None, None, None, d.txHash, None, d.errorReason, d.errorMessage, d.response)
  }

  // ---------- the memory store ----------

  type Logs<R> = map<Key, seq<Event<R>>>

  function LogOf<R>(logs: Logs<R>, key: Key): seq<Event<R>> { if key in logs then logs[key] else [] }

  function Appended<R>(logs: Logs<R>, key: Key, kind: EventType, payload: Payload<R>, now: int): Logs<R> {
    var stream := LogOf(logs, key);
    logs[key := stream + [Event(kind, payload, |stream| + 1, now)]]
  }

  function Saved<R>(logs: Logs<R>, key: Key, record: Record, now: int): Logs<R> {
    Appended(logs, key, Initiated, InitialPayload(key, record), now)
  }

  /** An update of a settlement nobody initiated changes nothing. */
  function Updated<R>(logs: Logs<R>, key: Key, outcome: Outcome, details: Details<R>, now: int): Logs<R> {
    if key !in logs then logs
    else Appended(logs, key, KindOf(outcome), OutcomePayload(key, details), now)
  }

  function Got<R>(logs: Logs<R>, key: Key): Option<Projection<R>> { Project(LogOf(logs, key)) }

  class MemorySettlementStore<R> {
    var events: Logs<R>

    constructor ()
      ensures events == map[]
    {
      events := map[];
    }

    method Append(key: Key, kind: EventType, payload: Payload<R>, now: int)
      modifies this
      ensures events == Appended(old(events), key, kind, payload, now)
    {
      var stream := if key in events then events[key] else [];
      events := events[key := stream + [Event(kind, payload, |stream| + 1, now)]];
    }

    method Get(key: Key) returns (r: Option<Projection<R>>)
      ensures r == Got(events, key)
    {
      if key !in events || events[key] == [] { return None; }
      r := ProjectSettlement(events[key]);
    }

    method Save(key: Key, record: Record, now: int) returns (r: Option<Projection<R>>)
      modifies this
      ensures events == Saved(old(events), key, record, now)
      ensures r == Got(events, key)
    {
      Append(key, Initiated, InitialPayload(key, record), now);
      r := Get(key);
    }

    method UpdateState(key: Key, outcome: Outcome, details: Details<R>, now: int) returns (r: Option<Projection<R>>)
      modifies this
      ensures events == Updated(old(events), key, outcome, details, now)
      ensures r == if key in old(events) then Got(events, key) else None
    {
      if key !in events { return None; }
      Append(key, KindOf(outcome), OutcomePayload(key, details), now);
      r := Get(key);
    }

    /** There is no transaction to share, so the caller publishes the event itself. */
    method SettleAndEnqueue(key: Key, details: Details<R>, now: int)
      returns (atomicallyEnqueued: bool, r: Option<Projection<R>>)
      modifies this
      ensures !atomicallyEnqueued && events == Updated(old(events), key, ToSettled, details, now)
      ensures r == if key in old(events) then Got(events, key) else None
    {
      r := UpdateState(key, ToSettled, details, now);
      atomicallyEnqueued := false;
    }
  }
}
