/** What a recorded outcome says, and what the next request with its key is told. */
module SettleReplies {
  import opened Text
  import opened Settlements
  import opened Idempotency
  import opened SettleHandler
  import T = SettleTheorems

  // ---------- a recorded outcome is replayed ----------

  lemma ReasonOnce(events: seq<Event<Result>>, a: Option<string>, b: Option<string>)
    requires SaysReason(events, a) && SaysReason(events, b)
    ensures a == b
  {
    if a.Some? && b.Some? {
      var i :| LastReason(events, i, a.value);
      var j :| LastReason(events, j, b.value);
      assert i == j;
    }
  }

  lemma ResponseOnce(events: seq<Event<Result>>, a: Response<Result>, b: Response<Result>)
    requires SaysResponse(events, a) && SaysResponse(events, b)
    ensures a == b
  {
    if !a.NoResponse? && !b.NoResponse? {
      var i :| LastResponse(events, i, a);
      var j :| LastResponse(events, j, b);
      assert i == j;
    }
  }

  /** The last event and the standing reason and response of a log. */
  ghost predicate Records(log: seq<Event<Result>>, kind: EventType, reason: Option<string>,
      response: Response<Result>)
  {
    log != [] && kind != Unrecognised && log[|log| - 1].kind == kind && SaysReason(log, reason)
    && SaysResponse(log, response)
  }

  lemma RecordsProject(log: seq<Event<Result>>, kind: EventType, reason: Option<string>, response: Response<Result>)
    requires Records(log, kind, reason, response)
    ensures var p := Project(log);
      p.Some? && p.value.errorReason == reason && p.value.response == response
      && p.value.state == match kind
         case Initiated => Submitted
         case SettledEvent => Settled
         case FailedEvent => Failed
         case UnknownEvent => Unknown
  {
    FoldSays(log);
    var p := Project(log).value;
    ReasonOnce(log, p.errorReason, reason);
    ResponseOnce(log, p.response, response);
    assert LastKnown(log, |log| - 1);
  }

  /** The reasons after which a retry settles anew. */
  const ANEW := {"rate_limited", "catalog_rate_limited", "soroban_rpc_unreachable", "lock_timeout", "request_timeout"}

  /** What the caller is told of this record; None when its request settles anew. */
  ghost predicate Told(kind: EventType, reason: Option<string>, response: Response<Result>, reply: Option<Reply>) {
    match kind
    case SettledEvent => (if response.Given? then reply == Some(Sent(response.value))
                          else reply.Some? && reply.value.SettledWithout?)
    case FailedEvent =>
      if reason.Some? && reason.value in ANEW then reply == None
      else if response.Given? then reply == Some(Sent(response.value))
      else reply == Some(FailureWithout(if reason.Some? then reason.value else ""))
    case _ => reply == Some(OutcomeUnknown)
  }

  /** The handler has its reply and will not go on, or goes on to save. */
  predicate GoesBy(me: Handler, reply: Option<Reply>) {
    match reply
    case Some(x) => me.phase.Over? && me.front == Replied(x)
    case None => me.phase.ToSave? && me.front.Waiting?
  }

  /** A caller's retry is told what the events of its key say, whatever else goes on: the recorded
      response where there is one, an unknown outcome where none was recorded; only a failure that
      may be retried, a record of another caller or no record lets it settle. */
  lemma ReadTells(w: World, h: Id, owned: bool, kind: EventType, reason: Option<string>, response: Response<Result>)
    requires h in w.handlers && w.handlers[h].phase.Arrived? && w.handlers[h].front.Waiting?
    requires Records(LogOf(w.logs, w.handlers[h].storeKey), kind, reason, response)
    ensures Do(w, Read(h, owned)).Some?
    ensures var w' := Do(w, Read(h, owned)).value;
      && w' == w.(handlers := w'.handlers) && h in w'.handlers && w'.handlers - {h} == w.handlers - {h}
      && exists reply :: GoesBy(w'.handlers[h], reply)
           && if owned then Told(kind, reason, response, reply) else reply == None
  {
    RecordsProject(LogOf(w.logs, w.handlers[h].storeKey), kind, reason, response);
    var p := Got(w.logs, w.handlers[h].storeKey).value;
    var reply := if owned then StoredReply(p) else None;
    assert GoesBy(Do(w, Read(h, owned)).value.handlers[h], reply);
  }

  lemma {:induction false} ReplyStays(w: World, h: Id, reply: Reply, steps: seq<Step>)
    requires h in w.handlers && GoesBy(w.handlers[h], Some(reply)) && After(w, steps).Some?
    ensures h in After(w, steps).value.handlers && GoesBy(After(w, steps).value.handlers[h], Some(reply))
    decreases |steps|
  {
    if steps != [] { ReplyStays(Do(w, steps[0]).value, h, reply, steps[1..]); }
  }

  /** In every timely run: a retry whose record ends settled, or failed for good, with a response is
      replied that response, which is the one result there is; it never settles, whatever follows. */
  lemma RecordedIsReplayed(steps: seq<Step>, h: Id, kind: EventType, reason: Option<string>, r: Result, more: seq<Step>)
    requires Timely(START, steps) && After(START, steps).Some?
    requires var w := After(START, steps).value;
      && h in w.handlers && w.handlers[h].phase.Arrived?
      && Records(LogOf(w.logs, w.handlers[h].storeKey), kind, reason, Given(r))
      && (kind == SettledEvent || (kind == FailedEvent && (reason.Some? ==> reason.value !in ANEW)))
    ensures var w := After(START, steps).value;
      && w.results == [r] && Do(w, Read(h, true)).Some?
      && (After(Do(w, Read(h, true)).value, more).Some? ==>
            var end := After(Do(w, Read(h, true)).value, more).value;
            h in end.handlers && end.handlers[h].phase.Over? && end.handlers[h].front == Replied(Sent(r)))
  {
    assert Inv(START);
    T.RunKeeps(START, steps);
    var w := After(START, steps).value;
    assert HandlerFits(w, w.handlers[h]);
    ReadTells(w, h, true, kind, reason, Given(r));
    var log := LogOf(w.logs, w.handlers[h].storeKey);
    assert forall i :: 0 <= i < |log| ==> Honest(w, log[i]);
    T.ProjectHonest(w, log);
    RecordsProject(log, kind, reason, Given(r));
    var next := Do(w, Read(h, true)).value;
    if After(next, more).Some? { ReplyStays(next, h, Sent(r), more); }
  }

  // ---------- what is recorded ----------

  /** An event as a settlement's outcome leaves it. */
  predicate Truthful(w: World, e: Event<Result>) {
    var p := e.payload;
    match e.kind
    case Initiated => p.errorReason.None? && p.response.NoResponse?
    case SettledEvent => p.response.Given? && p.response.value.success && p.response.value in w.results
    case FailedEvent =>
      if p.response.Given? then !p.response.value.success && p.response.value in w.results
      else p.response.NoResponse? && p.errorReason.Some? && p.errorReason != Some(UNKNOWN_REASON)
    case UnknownEvent => p.response.NoResponse? && p.errorReason == Some(UNKNOWN_REASON)
    case Unrecognised => false
  }

  /** The log has this result's event. */
  ghost predicate HasOutcome(log: seq<Event<Result>>, r: Result) {
    exists i :: 0 <= i < |log| && log[i].payload.response == Given(r)
      && log[i].kind == if r.success then SettledEvent else FailedEvent
  }

  ghost predicate Kept(w: World, me: Handler) {
    && (me.phase !in {Arrived, ToSave} && !me.front.Replied? ==> me.storeKey in w.logs)
    && (me.phase.Returned? ==> me.phase.r in w.results && me.storeKey in w.logs)
    && (me.phase in {ToBegin, Claimed, Calling} ==> me.storeKey in w.logs)
    && (me.phase.Logged? || me.phase.Finished? ==> HasOutcome(LogOf(w.logs, me.storeKey), me.phase.r))
    && (me.phase in {Arrived, ToSave, ToBegin} ==> me.front.Waiting?)
    && (me.front.Released? ==> me.storeKey in w.logs)
  }

  ghost predicate AllTruthful(w: World) {
    && (forall k :: k in w.logs ==> w.logs[k] != [] && forall i :: 0 <= i < |w.logs[k]| ==> Truthful(w, w.logs[k][i]))
    && (forall h :: h in w.handlers ==> Kept(w, w.handlers[h]))
  }

  lemma OutcomeStays(log: seq<Event<Result>>, e: Event<Result>, r: Result)
    requires HasOutcome(log, r)
    ensures HasOutcome(log + [e], r)
  {
    var i :| 0 <= i < |log| && log[i].payload.response == Given(r)
      && log[i].kind == if r.success then SettledEvent else FailedEvent;
    assert (log + [e])[i] == log[i];
  }

  /** One event more, and one handler moved on. */
  lemma EventKeeps(w: World, h: Id, me: Handler, kind: EventType, payload: Payload<Result>, now: int)
    requires AllTruthful(w) && h in w.handlers && me.storeKey == w.handlers[h].storeKey
    requires var e := Event(kind, payload, |LogOf(w.logs, me.storeKey)| + 1, now); Truthful(w, e)
    requires var w' := w.(logs := Appended(w.logs, me.storeKey, kind, payload, now), handlers := w.handlers[h := me]);
      Kept(w', me)
    ensures AllTruthful(w.(logs := Appended(w.logs, me.storeKey, kind, payload, now), handlers := w.handlers[h := me]))
  {
    var log := LogOf(w.logs, me.storeKey);
    var e := Event(kind, payload, |log| + 1, now);
    var w' := w.(logs := w.logs[me.storeKey := log + [e]], handlers := w.handlers[h := me]);
    forall k, i | k in w'.logs && 0 <= i < |w'.logs[k]| ensures Truthful(w', w'.logs[k][i]) {
      if k == me.storeKey && i == |log| { assert w'.logs[k][i] == e; } else { assert Truthful(w, w.logs[k][i]); }
    }
    forall k | k in w'.handlers ensures Kept(w', w'.handlers[k]) {
      if k != h {
        var other := w.handlers[k];
        assert Kept(w, other);
        if other.storeKey == me.storeKey && (other.phase.Logged? || other.phase.Finished?) {
          OutcomeStays(log, e, other.phase.r);
        }
      }
    }
  }

  lemma LogTruthful(w: World, h: Id, d: Details<Result>, now: int)
    requires AllTruthful(w) && Do(w, Log(h, d, now)).Some?
    ensures AllTruthful(Do(w, Log(h, d, now)).value)
  {
    var me := w.handlers[h];
    assert Kept(w, me);
    var r := me.phase.r;
    var kind := if r.success then SettledEvent else FailedEvent;
    var payload := OutcomePayload(me.storeKey, d.(response := Given(r)));
    var log := LogOf(w.logs, me.storeKey);
    var e := Event(kind, payload, |log| + 1, now);
    assert (log + [e])[|log|] == e && HasOutcome(log + [e], r);
    EventKeeps(w, h, me.(phase := Logged(r)), kind, payload, now);
  }

  lemma SaveTruthful(w: World, h: Id, record: Record, now: int)
    requires AllTruthful(w) && Do(w, Save(h, record, now)).Some?
    ensures AllTruthful(Do(w, Save(h, record, now)).value)
  {
    var me := w.handlers[h];
    assert Kept(w, me);
    EventKeeps(w, h, me.(phase := ToBegin), Initiated, InitialPayload(me.storeKey, record), now);
  }

  lemma NoteTruthful(w: World, h: Id, d: Details<Result>, now: int)
    requires AllTruthful(w) && Do(w, Note(h, d, now)).Some?
    ensures AllTruthful(Do(w, Note(h, d, now)).value)
  {
    var me := w.handlers[h];
    assert Kept(w, me);
    var reason := me.front.reason;
    var details := d.(errorReason := Some(reason), response := NoResponse);
    var me' := me.(front := Replied(FailureWithout(reason)));
    var payload := OutcomePayload(me.storeKey, details);
    var kind := if reason == UNKNOWN_REASON then UnknownEvent else FailedEvent;
    if me.phase.Logged? || me.phase.Finished? {
      OutcomeStays(LogOf(w.logs, me.storeKey), Event(kind, payload, |LogOf(w.logs, me.storeKey)| + 1, now), me.phase.r);
    }
    EventKeeps(w, h, me', kind, payload, now);
  }

  lemma ReturnTruthful(w: World, h: Id, r: Result)
    requires AllTruthful(w) && Do(w, Return(h, r)).Some?
    ensures AllTruthful(Do(w, Return(h, r)).value)
  {
    var w' := Do(w, Return(h, r)).value;
    assert Kept(w, w.handlers[h]);
    forall k, i | k in w'.logs && 0 <= i < |w'.logs[k]| ensures Truthful(w', w'.logs[k][i]) {
      assert Truthful(w, w.logs[k][i]);
    }
    forall k | k in w'.handlers ensures Kept(w', w'.handlers[k]) {
      if k != h { assert Kept(w, w.handlers[k]); }
    }
  }

  /** Logs and results stay; one handler moves on. */
  lemma OneMoves(w: World, w': World, h: Id, me: Handler)
    requires AllTruthful(w) && w'.logs == w.logs && w'.results == w.results && w'.handlers == w.handlers[h := me]
    requires Kept(w', me)
    ensures AllTruthful(w')
  {
    forall k, i | k in w'.logs && 0 <= i < |w'.logs[k]| ensures Truthful(w', w'.logs[k][i]) {
      assert Truthful(w, w.logs[k][i]);
    }
    forall k | k in w'.handlers ensures Kept(w', w'.handlers[k]) {
      if k != h { assert Kept(w, w.handlers[k]); }
    }
  }

  lemma StepTruthful(w: World, s: Step)
    requires AllTruthful(w) && Do(w, s).Some?
    ensures AllTruthful(Do(w, s).value)
  {
    match s
    case Save(h, record, now) => SaveTruthful(w, h, record, now);
    case Log(h, d, now) => LogTruthful(w, h, d, now);
    case Note(h, d, now) => NoteTruthful(w, h, d, now);
    case Return(h, r) => ReturnTruthful(w, h, r);
    case Arrive(h, _) => OneMoves(w, Do(w, s).value, h, Do(w, s).value.handlers[h]);
    case _ =>
      assert Kept(w, w.handlers[s.h]);
      OneMoves(w, Do(w, s).value, s.h, Do(w, s).value.handlers[s.h]);
  }

  lemma {:induction false} RunTruthful(w: World, steps: seq<Step>)
    requires AllTruthful(w) && After(w, steps).Some?
    ensures AllTruthful(After(w, steps).value)
    decreases |steps|
  {
    if steps != [] {
      StepTruthful(w, steps[0]);
      RunTruthful(Do(w, steps[0]).value, steps[1..]);
    }
  }

  /** In every run, timely or not: each event tells what happened, successes as settled, results
      without success as failed, errors by their reason, submissions without a result as unknown;
      and each result that was recorded has its event. */
  lemma RecordsTellTheTruth(steps: seq<Step>)
    requires After(START, steps).Some?
    ensures var w := After(START, steps).value;
      && (forall k, i :: k in w.logs && 0 <= i < |w.logs[k]| ==> Truthful(w, w.logs[k][i]))
      && (forall h :: h in w.handlers && (w.handlers[h].phase.Logged? || w.handlers[h].phase.Finished?) ==>
            HasOutcome(LogOf(w.logs, w.handlers[h].storeKey), w.handlers[h].phase.r))
  {
    RunTruthful(START, steps);
    var w := After(START, steps).value;
    forall h | h in w.handlers && (w.handlers[h].phase.Logged? || w.handlers[h].phase.Finished?)
      ensures HasOutcome(LogOf(w.logs, w.handlers[h].storeKey), w.handlers[h].phase.r)
    {
      assert Kept(w, w.handlers[h]);
    }
  }

  // ---------- one request settles, and the next is told ----------

  lemma Claims(w: World, h: Id, record: Record, now: int) returns (run: seq<Step>, w': World)
    requires h in w.handlers && w.handlers[h].phase.ToSave? && w.handlers[h].front.Waiting? && w.claim.None?
    ensures run == [Save(h, record, now), Begin(h)] && After(w, run) == Some(w')
    ensures w'.claim == Some(Pending) && w'.results == w.results && w'.handlers.Keys == w.handlers.Keys
    ensures w'.handlers[h] == w.handlers[h].(phase := Claimed)
    ensures LogOf(w'.logs, w.handlers[h].storeKey) != []
  {
    run := T.Step1(w, [], Save(h, record, now));
    run := T.Step1(w, run, Begin(h));
    w' := After(w, run).value;
  }

  lemma Calls(w: World, h: Id, r: Result) returns (run: seq<Step>, w': World)
    requires h in w.handlers && w.handlers[h].phase.Claimed?
    ensures run == [Call(h), Submit(h), Return(h, r)] && After(w, run) == Some(w')
    ensures w'.claim == w.claim && w'.logs == w.logs && w'.results == w.results + [r]
    ensures w'.handlers.Keys == w.handlers.Keys
    ensures w'.handlers[h] == w.handlers[h].(phase := Returned(r), submitted := true)
  {
    run := T.Step1(w, [], Call(h));
    run := T.Step1(w, run, Submit(h));
    run := T.Step1(w, run, Return(h, r));
    w' := After(w, run).value;
  }

  lemma Ends(w: World, h: Id, r: Result, d: Details<Result>, now: int) returns (run: seq<Step>, w': World)
    requires h in w.handlers && w.handlers[h].phase == Returned(r) && w.handlers[h].front.Waiting?
    requires LogOf(w.logs, w.handlers[h].storeKey) != []
    ensures run == [Log(h, d, now), Complete(h), Answer(h)] && After(w, run) == Some(w')
    ensures w'.claim == Some(Completed(200, r)) && w'.results == w.results
    ensures w'.handlers.Keys == w.handlers.Keys && w'.handlers[h].front == Replied(Sent(r))
    ensures LastSays(LogOf(w'.logs, w.handlers[h].storeKey), r)
  {
    run := T.Step1(w, [], Log(h, d, now));
    run := T.Step1(w, run, Complete(h));
    run := T.Step1(w, run, Answer(h));
    w' := After(w, run).value;
  }

  /** The steps of a request that nothing comes between, from its save to its answer. */
  function Undisturbed(h: Id, record: Record, r: Result, d: Details<Result>, now: int): seq<Step> {
    [Save(h, record, now), Begin(h)] + [Call(h), Submit(h), Return(h, r)] + [Log(h, d, now), Complete(h), Answer(h)]
  }

  lemma UndisturbedRuns(w: World, h: Id, record: Record, r: Result, d: Details<Result>, now: int) returns (end: World)
    requires h in w.handlers && w.handlers[h].phase.ToSave? && w.handlers[h].front.Waiting? && w.claim.None?
    ensures After(w, Undisturbed(h, record, r, d, now)) == Some(end)
    ensures end.claim == Some(Completed(200, r)) && end.results == w.results + [r]
    ensures h in end.handlers && end.handlers[h].front == Replied(Sent(r))
    ensures LastSays(LogOf(end.logs, w.handlers[h].storeKey), r)
  {
    var a, w1 := Claims(w, h, record, now);
    var b, w2 := Calls(w1, h, r);
    var c, w3 := Ends(w2, h, r, d, now);
    T.RunConcat(w, a, b);
    T.RunConcat(w, a + b, c);
    end := w3;
  }

  /** The last event is this result's. */
  predicate LastSays(log: seq<Event<Result>>, r: Result) {
    && log != [] && log[|log| - 1].payload.response == Given(r)
    && log[|log| - 1].kind == if r.success then SettledEvent else FailedEvent
  }

  /** Where nobody holds the claim, a request may settle, and is then told the result, with the one
      event that says so; and whoever claims the key after it is told the same. */
  lemma SettlesOnceAndTells(w: World, h: Id, record: Record, r: Result, d: Details<Result>, now: int)
    requires h in w.handlers && w.handlers[h].phase.ToSave? && w.handlers[h].front.Waiting? && w.claim.None?
    ensures After(w, Undisturbed(h, record, r, d, now)).Some?
    ensures var end := After(w, Undisturbed(h, record, r, d, now)).value;
      && end.results == w.results + [r] && h in end.handlers && end.handlers[h].front == Replied(Sent(r))
      && LastSays(LogOf(end.logs, w.handlers[h].storeKey), r)
      && (forall k :: k in end.handlers && end.handlers[k].phase.ToBegin? ==>
            Do(end, Begin(k)).Some? && GoesBy(Do(end, Begin(k)).value.handlers[k], Some(Sent(r))))
  {
    var end := UndisturbedRuns(w, h, record, r, d, now);
  }

  /** And while it does, whoever else claims the key is told of a conflict. */
  lemma OthersConflict(w: World, h: Id, k: Id)
    requires Inv(w) && h in w.handlers && Owns(w.handlers[h]) && k in w.handlers && w.handlers[k].phase.ToBegin?
    ensures Do(w, Begin(k)).Some? && GoesBy(Do(w, Begin(k)).value.handlers[k], Some(Conflict409))
    ensures Do(w, Begin(k)).value.results == w.results
  {
    assert HandlerFits(w, w.handlers[h]);
  }

  /** An error without a response leaves the response there was. */
  lemma ErrorRecords(log: seq<Event<Result>>, e: Event<Result>, reason: string) returns (response: Response<Result>)
    requires e.kind in {FailedEvent, UnknownEvent} && e.payload.errorReason == Some(reason)
    requires e.payload.response.NoResponse?
    ensures Records(log + [e], e.kind, Some(reason), response)
  {
    FoldSays(log);
    var p := Project(log);
    response := if p.Some? then p.value.response else NoResponse;
    ReasonSnoc(log, e, if p.Some? then p.value.errorReason else None);
    ResponseSnoc(log, e, response);
  }

  lemma NotedRecords(w: World, h: Id, d: Details<Result>, now: int)
    returns (kind: EventType, response: Response<Result>)
    requires Do(w, Note(h, d, now)).Some? && w.handlers[h].storeKey in w.logs
    ensures kind == if w.handlers[h].front.reason == UNKNOWN_REASON then UnknownEvent else FailedEvent
    ensures var noted := Do(w, Note(h, d, now)).value; var reason := w.handlers[h].front.reason;
      && noted.handlers[h].front == Replied(FailureWithout(reason))
      && noted.handlers - {h} == w.handlers - {h}
      && Records(LogOf(noted.logs, w.handlers[h].storeKey), kind, Some(reason), response)
  {
    var key, reason := w.handlers[h].storeKey, w.handlers[h].front.reason;
    var log := w.logs[key];
    kind := if reason == UNKNOWN_REASON then UnknownEvent else FailedEvent;
    var details := d.(errorReason := Some(reason), response := NoResponse);
    var e := Event(kind, OutcomePayload(key, details), |log| + 1, now);
    response := ErrorRecords(log, e, reason);
    assert LogOf(Do(w, Note(h, d, now)).value.logs, key) == log + [e];
  }

  /** What the catch block notes last decides for the retry: after a submission without a result it
      is told so, and never settles; after another error it settles anew where that may be. */
  lemma NoteDecides(w: World, h: Id, d: Details<Result>, now: int, k: Id)
    requires AllTruthful(w) && Do(w, Note(h, d, now)).Some? && k in w.handlers && k != h
    requires w.handlers[k].phase.Arrived? && w.handlers[k].storeKey == w.handlers[h].storeKey
    ensures var reason := w.handlers[h].front.reason; var noted := Do(w, Note(h, d, now)).value;
      && Do(noted, Read(k, true)).Some?
      && noted.handlers[h].front == Replied(FailureWithout(reason))
      && var me := Do(noted, Read(k, true)).value.handlers[k];
         if reason == UNKNOWN_REASON then GoesBy(me, Some(OutcomeUnknown))
         else (me.phase.ToSave? <==> reason in ANEW)
  {
    assert Kept(w, w.handlers[h]) && Kept(w, w.handlers[k]);
    var kind, response := NotedRecords(w, h, d, now);
    var noted := Do(w, Note(h, d, now)).value;
    ReadTells(noted, k, true, kind, Some(w.handlers[h].front.reason), response);
  }

  /** An error before anything settled frees the claim and is what the caller is told; the handler
      does not go on, and the key may be claimed again. */
  lemma ErrorFreesClaim(w: World, h: Id, reason: string, d: Details<Result>, now: int) returns (run: seq<Step>)
    requires h in w.handlers && w.handlers[h].phase in {Claimed, Calling} && w.handlers[h].front.Waiting?
    requires w.claim == Some(Pending) && reason != UNKNOWN_REASON
    ensures run == [Throw(h, reason), Release(h), Note(h, d, now)] && After(w, run).Some?
    ensures var end := After(w, run).value;
      && end.claim.None? && end.results == w.results
      && h in end.handlers && GoesBy(end.handlers[h], Some(FailureWithout(reason)))
  {
    run := T.Step1(w, [], Throw(h, reason));
    run := T.Step1(w, run, Release(h));
    run := T.Step1(w, run, Note(h, d, now));
  }

  /** A completed claim is never free again, in any run, so the key never settles again. */
  lemma {:induction false} CompletedStays(w: World, steps: seq<Step>)
    requires w.claim.Some? && w.claim.value.Completed? && After(w, steps).Some?
    ensures var end := After(w, steps).value; end.claim.Some? && end.claim.value.Completed?
    decreases |steps|
  {
    if steps != [] { CompletedStays(Do(w, steps[0]).value, steps[1..]); }
  }
}
