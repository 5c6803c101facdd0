/** Any number of `POST /settle` handlers with one Idempotency-Key, interleaved at every
    await. The facilitator is an oracle that throws only when it did not settle. */
module SettleHandler {
  import opened Text
  import opened Settlements
  import opened Idempotency

  type Id = nat

  /** The object facilitator.settle resolved with. */
  datatype Result = Result(success: bool, id: int)

  datatype Reply =
    | Sent(result: Result)             // a result object, fresh, stored or replayed
    | SettledWithout(txHash: Option<string>) // a success put together from a record without response
    | Conflict409
    | OutcomeUnknown
    | FailureWithout(reason: string)

  /** Where settleOnce, and what comes before it, has got to; Over when it will not go on. */
  datatype Phase =
    | Arrived | ToSave | ToBegin | Claimed | Calling | Returned(r: Result) | Logged(r: Result)
    | Finished(r: Result) | Over

  /** Where the handler around it has got to. */
  datatype Front = Waiting | Failing(reason: string) | Released(reason: string) | Replied(reply: Reply)

  datatype Handler = Handler(storeKey: Settlements.Key, phase: Phase, front: Front, submitted: bool)

  /** `results` is every result a facilitator call has returned, in order. */
  datatype World = World(
    claim: Option<Claim<Result>>, logs: Logs<Result>, handlers: map<Id, Handler>, results: seq<Result>)

  const START := World(None, map[], map[], [])

  const UNKNOWN_REASON := "submitted_outcome_unknown"
  const TIMEOUT_REASON := "request_timeout"

  predicate Retryable(reason: Option<string>) {
    reason in {Some("rate_limited"), Some("catalog_rate_limited"), Some("soroban_rpc_unreachable"),
               Some("lock_timeout"), Some("request_timeout")}
  }

  /** What an existing record answers; None when the handler goes on to settle. */
  function StoredReply(p: Projection<Result>): Option<Reply> {
    match p.state
    case Settled => Some(if p.response.Given? then Sent(p.response.value) else SettledWithout(p.txHash))
    case Submitted => Some(OutcomeUnknown)
    case Unknown => Some(OutcomeUnknown)
    case Failed =>
      if Retryable(p.errorReason) then None
      else if p.response.Given? then Some(Sent(p.response.value))
      else Some(FailureWithout(if p.errorReason.Some? then p.errorReason.value else ""))
  }

  datatype Step =
    | Arrive(h: Id, storeKey: Settlements.Key)
    | Read(h: Id, owned: bool)            // settlementStore.get
    | Save(h: Id, record: Record, now: int) // settlementStore.save
    | Begin(h: Id)                        // idempotency.begin
    | Call(h: Id)                         // facilitator.settle starts
    | Submit(h: Id)                       // its sendTransaction goes out
    | Return(h: Id, result: Result)       // facilitator.settle resolves
    | Throw(h: Id, reason: string)        // lock or facilitator throws, nothing settled
    | Log(h: Id, details: Details<Result>, now: int) // settleAndEnqueue or updateState
    | Complete(h: Id)                     // idempotency.complete
    | Answer(h: Id)                       // the handler replies with the result
    | Timeout(h: Id)                      // the request timer wins the race
    | Release(h: Id)                      // idempotency.fail in the catch block
    | Note(h: Id, details: Details<Result>, now: int) // updateState in the catch block

  function Put(w: World, h: Id, handler: Handler): World { w.(handlers := w.handlers[h := handler]) }

  /** The state a failure is recorded under. */
  function FailureOutcome(reason: string): Outcome { if reason == UNKNOWN_REASON then ToUnknown else ToFailed }

  /** One atomic segment between awaits; None when the step is not enabled. */
  function Do(w: World, s: Step): Option<World> {
    if s.Arrive? then
      if s.h in w.handlers then None
      else Some(Put(w, s.h, Handler(s.storeKey, Arrived, Waiting, false)))
    else if s.h !in w.handlers then None
    else
      var me := w.handlers[s.h];
      match s
      case Read(h, owned) =>
        if me.phase != Arrived then None
        else
          var p := Got(w.logs, me.storeKey);
          var reply := if p.Some? && owned then StoredReply(p.value) else None;
          Some(if reply.Some? then Put(w, h, me.(phase := Over, front := Replied(reply.value)))
               else Put(w, h, me.(phase := ToSave)))
      case Save(h, record, now) =>
        if me.phase != ToSave then None
        else Some(Put(w.(logs := Saved(w.logs, me.storeKey, record, now)), h, me.(phase := ToBegin)))
      case Begin(h) =>
        if me.phase != ToBegin then None
        else
          (match BeginAnswer(w.claim)
           case Owner => Some(Put(w.(claim := Some(Pending)), h, me.(phase := Claimed)))
           case Conflict => Some(Put(w, h, me.(phase := Over, front := Replied(Conflict409))))
           case Replayed(_, r) => Some(Put(w, h, me.(phase := Over, front := Replied(Sent(r))))))
      case Call(h) =>
        if me.phase != Claimed then None else Some(Put(w, h, me.(phase := Calling)))
      case Submit(h) =>
        if me.phase != Calling then None else Some(Put(w, h, me.(submitted := true)))
      case Return(h, r) =>
        if me.phase != Calling || (r.success && !me.submitted) then None
        else Some(Put(w.(results := w.results + [r]), h, me.(phase := Returned(r))))
      case Throw(h, reason) =>
        if (me.phase != Claimed && me.phase != Calling) || reason == UNKNOWN_REASON then None
        else Some(Put(w, h, me.(phase := Over, front := if me.front.Waiting? then Failing(reason) else me.front)))
      case Log(h, d, now) =>
        if !me.phase.Returned? then None
        else
          var r := me.phase.r;
          var outcome := if r.success then ToSettled else ToFailed;
          Some(Put(w.(logs := Updated(w.logs, me.storeKey, outcome, d.(response := Given(r)), now)),
                   h, me.(phase := Logged(r))))
      case Complete(h) =>
        if !me.phase.Logged? then None
        else Some(Put(w.(claim := Some(Completed(200, me.phase.r))), h, me.(phase := Finished(me.phase.r))))
      case Answer(h) =>
        if !me.phase.Finished? || !me.front.Waiting? then None
        else Some(Put(w, h, me.(front := Replied(Sent(me.phase.r)))))
      case Timeout(h) =>
        if !me.front.Waiting? || me.phase in {Arrived, ToSave, ToBegin, Over} || me.phase.Finished? then None
        else Some(Put(w, h, me.(front := Failing(if me.submitted then UNKNOWN_REASON else TIMEOUT_REASON))))
      case Release(h) =>
        if !me.front.Failing? then None
        else
          var claim := if me.front.reason == UNKNOWN_REASON then w.claim else AfterFail(w.claim);
          Some(Put(w.(claim := claim), h, me.(front := Released(me.front.reason))))
      case Note(h, d, now) =>
        if !me.front.Released? then None
        else
          var details := d.(errorReason := Some(me.front.reason), response := NoResponse);
          Some(Put(w.(logs := Updated(w.logs, me.storeKey, FailureOutcome(me.front.reason), details, now)),
                   h, me.(front := Replied(FailureWithout(me.front.reason)))))
  }

  /** A timeout while no transaction of the request has been submitted. */
  predicate EarlyTimeout(w: World, s: Step) {
    s.Timeout? && s.h in w.handlers && !w.handlers[s.h].submitted
  }

  function After(w: World, steps: seq<Step>): Option<World>
    decreases |steps|
  {
    if steps == [] then Some(w)
    else match Do(w, steps[0])
      case None => None
      case Some(next) => After(next, steps[1..])
  }

  /** A run in which every timeout comes after its request's submission. */
  predicate Timely(w: World, steps: seq<Step>)
    decreases |steps|
  {
    steps == [] ||
    (!EarlyTimeout(w, steps[0]) && match Do(w, steps[0])
     case None => false
     case Some(next) => Timely(next, steps[1..]))
  }

  // ---------- the invariant ----------

  /** The handler holds the claim: it may still settle, or has and is not yet recorded. */
  predicate Owns(me: Handler) {
    me.phase in {Claimed, Calling} || me.phase.Returned? || me.phase.Logged?
    || (me.phase.Over? && me.front.Failing? && me.front.reason != UNKNOWN_REASON)
  }

  predicate Honest(w: World, e: Event<Result>) {
    && (e.payload.response.Given? ==> e.payload.response.value in w.results)
    && !e.payload.response.Falsy?
    && (e.kind == SettledEvent ==> e.payload.response.Given?)
    && e.kind != Unrecognised
  }

  predicate HonestReply(w: World, reply: Reply) {
    match reply
    case Sent(r) => r in w.results
    case SettledWithout(_) => false
    case _ => true
  }

  ghost predicate LogsHonest(w: World) {
    forall k :: k in w.logs ==> w.logs[k] != [] && forall i :: 0 <= i < |w.logs[k]| ==> Honest(w, w.logs[k][i])
  }

  predicate HandlerFits(w: World, me: Handler) {
    && (me.phase.Returned? || me.phase.Logged? ==> w.results == [me.phase.r])
    && (me.phase in {Claimed, Calling} ==> w.results == [])
    && (Owns(me) ==> w.claim == Some(Pending))
    && (me.phase.Finished? ==> w.results == [me.phase.r])
    && (me.front.Replied? ==> HonestReply(w, me.front.reply))
    && (me.front.Failing? && me.front.reason != UNKNOWN_REASON ==> me.phase.Over? && w.results == [])
    && (me.phase in {Arrived, ToSave, ToBegin} ==> me.front.Waiting?)
    && (me.phase !in {Arrived, ToSave} && !me.front.Replied? ==> me.storeKey in w.logs)
  }

  ghost predicate Inv(w: World) {
    && |w.results| <= 1
    && (w.claim.None? ==> w.results == [])
    && (w.claim.Some? && w.claim.value.Completed? ==> w.results == [w.claim.value.response])
    && LogsHonest(w)
    && (forall h :: h in w.handlers ==> HandlerFits(w, w.handlers[h]))
    && (forall h, k :: h in w.handlers && k in w.handlers && Owns(w.handlers[h]) && Owns(w.handlers[k]) ==> h == k)
    && (w.results != [] && w.claim == Some(Pending) ==>
          exists h :: h in w.handlers && (w.handlers[h].phase.Returned? || w.handlers[h].phase.Logged?))
  }
}
