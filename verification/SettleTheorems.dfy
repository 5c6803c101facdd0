/** At most one settlement per Idempotency-Key, over every interleaving; and exactly which
    timeouts would break it. */
module SettleTheorems {
  import opened Text
  import opened Settlements
  import opened Idempotency
  import opened SettleHandler

  // ---------- records carry only results that were returned ----------

  lemma {:induction false} ProjectHonest(w: World, events: seq<Event<Result>>)
    requires forall i :: 0 <= i < |events| ==> Honest(w, events[i])
    ensures match Project(events)
      case None => events == []
      case Some(p) =>
        && !p.response.Falsy?
        && (p.response.Given? ==> p.response.value in w.results)
        && (p.state == Settled ==> p.response.Given?)
  {
    if events != [] {
      ProjectHonest(w, events[..|events| - 1]);
      assert Honest(w, events[|events| - 1]);
    }
  }

  lemma AppendHonest(w: World, key: Settlements.Key, kind: EventType, payload: Payload<Result>, now: int)
    requires LogsHonest(w)
    requires var e := Event(kind, payload, |LogOf(w.logs, key)| + 1, now); Honest(w, e)
    ensures LogsHonest(w.(logs := Appended(w.logs, key, kind, payload, now)))
  {
    var e := Event(kind, payload, |LogOf(w.logs, key)| + 1, now);
    var w' := w.(logs := Appended(w.logs, key, kind, payload, now));
    forall k, i | k in w'.logs && 0 <= i < |w'.logs[k]| ensures Honest(w', w'.logs[k][i]) {
      if k == key && i == |LogOf(w.logs, key)| {
        assert w'.logs[k][i] == e;
      } else {
        assert w'.logs[k][i] == w.logs[k][i] && Honest(w, w.logs[k][i]);
      }
    }
  }

  // ---------- frames ----------

  /** One handler moves on; claim and results stay. */
  lemma Moves(w: World, w': World, h: Id, me: Handler)
    requires Inv(w) && w'.claim == w.claim && w'.results == w.results && LogsHonest(w')
    requires w.logs.Keys <= w'.logs.Keys
    requires w'.handlers == w.handlers[h := me]
    requires HandlerFits(w', me)
    requires Owns(me) ==> h in w.handlers && Owns(w.handlers[h])
    requires h in w.handlers && (w.handlers[h].phase.Returned? || w.handlers[h].phase.Logged?)
      ==> me.phase.Returned? || me.phase.Logged?
    ensures Inv(w')
  {
    forall k | k in w'.handlers ensures HandlerFits(w', w'.handlers[k]) {
      if k != h { assert HandlerFits(w, w.handlers[k]); }
    }
    if w'.results != [] && w'.claim == Some(Pending) {
      var k :| k in w.handlers && (w.handlers[k].phase.Returned? || w.handlers[k].phase.Logged?);
      assert k in w'.handlers && (w'.handlers[k].phase.Returned? || w'.handlers[k].phase.Logged?);
    }
  }

  // ---------- each step ----------

  lemma ReadKeeps(w: World, h: Id, owned: bool)
    requires Inv(w) && Do(w, Read(h, owned)).Some?
    ensures Inv(Do(w, Read(h, owned)).value)
  {
    var me := w.handlers[h];
    assert HandlerFits(w, me);
    var w' := Do(w, Read(h, owned)).value;
    var log := LogOf(w.logs, me.storeKey);
    assert forall i :: 0 <= i < |log| ==> Honest(w, log[i]);
    ProjectHonest(w, log);
    Moves(w, w', h, w'.handlers[h]);
  }

  lemma SaveKeeps(w: World, h: Id, record: Record, now: int)
    requires Inv(w) && Do(w, Save(h, record, now)).Some?
    ensures Inv(Do(w, Save(h, record, now)).value)
  {
    var me := w.handlers[h];
    assert HandlerFits(w, me);
    var w' := Do(w, Save(h, record, now)).value;
    AppendHonest(w, me.storeKey, Initiated, InitialPayload(me.storeKey, record), now);
    Moves(w, w', h, w'.handlers[h]);
  }

  lemma BeginKeeps(w: World, h: Id)
    requires Inv(w) && Do(w, Begin(h)).Some?
    ensures Inv(Do(w, Begin(h)).value)
  {
    var me := w.handlers[h];
    assert HandlerFits(w, me);
    var w' := Do(w, Begin(h)).value;
    if w.claim.None? {
      forall k | k in w'.handlers ensures HandlerFits(w', w'.handlers[k]) {
        if k != h { assert HandlerFits(w, w.handlers[k]); }
      }
      forall k | k in w'.handlers && k != h ensures !Owns(w'.handlers[k]) {
        assert HandlerFits(w, w.handlers[k]);
      }
    } else {
      Moves(w, w', h, w'.handlers[h]);
    }
  }

  lemma ReturnKeeps(w: World, h: Id, r: Result)
    requires Inv(w) && Do(w, Return(h, r)).Some?
    ensures Inv(Do(w, Return(h, r)).value)
  {
    var me := w.handlers[h];
    assert HandlerFits(w, me) && Owns(me);
    var w' := Do(w, Return(h, r)).value;
    forall k, i | k in w'.logs && 0 <= i < |w'.logs[k]| ensures Honest(w', w'.logs[k][i]) {
      assert Honest(w, w.logs[k][i]);
    }
    forall k | k in w'.handlers ensures HandlerFits(w', w'.handlers[k]) {
      if k != h {
        assert HandlerFits(w, w.handlers[k]) && !Owns(w.handlers[k]);
      }
    }
    assert w'.handlers[h].phase.Returned?;
  }

  lemma CompleteKeeps(w: World, h: Id)
    requires Inv(w) && Do(w, Complete(h)).Some?
    ensures Inv(Do(w, Complete(h)).value)
  {
    var me := w.handlers[h];
    assert HandlerFits(w, me) && Owns(me);
    var w' := Do(w, Complete(h)).value;
    forall k | k in w'.handlers ensures HandlerFits(w', w'.handlers[k]) {
      if k != h { assert HandlerFits(w, w.handlers[k]) && !Owns(w.handlers[k]); }
    }
  }

  lemma ReleaseKeeps(w: World, h: Id)
    requires Inv(w) && Do(w, Release(h)).Some?
    ensures Inv(Do(w, Release(h)).value)
  {
    var me := w.handlers[h];
    assert HandlerFits(w, me);
    var w' := Do(w, Release(h)).value;
    if me.front.reason == UNKNOWN_REASON {
      Moves(w, w', h, w'.handlers[h]);
    } else {
      assert Owns(me) && w'.claim.None?;
      forall k | k in w'.handlers ensures HandlerFits(w', w'.handlers[k]) {
        if k != h { assert HandlerFits(w, w.handlers[k]) && !Owns(w.handlers[k]); }
      }
    }
  }

  lemma LogKeeps(w: World, h: Id, d: Details<Result>, now: int)
    requires Inv(w) && Do(w, Log(h, d, now)).Some?
    ensures Inv(Do(w, Log(h, d, now)).value)
  {
    var me := w.handlers[h];
    assert HandlerFits(w, me);
    var w' := Do(w, Log(h, d, now)).value;
    var r := me.phase.r;
    var outcome := if r.success then ToSettled else ToFailed;
    if me.storeKey in w.logs {
      AppendHonest(w, me.storeKey, KindOf(outcome), OutcomePayload(me.storeKey, d.(response := Given(r))), now);
    }
    Moves(w, w', h, w'.handlers[h]);
  }

  lemma NoteKeeps(w: World, h: Id, d: Details<Result>, now: int)
    requires Inv(w) && Do(w, Note(h, d, now)).Some?
    ensures Inv(Do(w, Note(h, d, now)).value)
  {
    var me := w.handlers[h];
    assert HandlerFits(w, me);
    var w' := Do(w, Note(h, d, now)).value;
    var details := d.(errorReason := Some(me.front.reason), response := NoResponse);
    if me.storeKey in w.logs {
      AppendHonest(w, me.storeKey, KindOf(FailureOutcome(me.front.reason)), OutcomePayload(me.storeKey, details), now);
    }
    Moves(w, w', h, w'.handlers[h]);
  }

  lemma QuietKeeps(w: World, s: Step)
    requires Inv(w) && Do(w, s).Some? && !EarlyTimeout(w, s)
    requires s.Arrive? || s.Call? || s.Submit? || s.Throw? || s.Answer? || s.Timeout?
    ensures Inv(Do(w, s).value)
  {
    var w' := Do(w, s).value;
    if s.h in w.handlers { assert HandlerFits(w, w.handlers[s.h]); }
    Moves(w, w', s.h, w'.handlers[s.h]);
  }

  lemma StepKeeps(w: World, s: Step)
    requires Inv(w) && Do(w, s).Some? && !EarlyTimeout(w, s)
    ensures Inv(Do(w, s).value)
  {
    match s
    case Read(h, owned) => ReadKeeps(w, h, owned);
    case Save(h, record, now) => SaveKeeps(w, h, record, now);
    case Begin(h) => BeginKeeps(w, h);
    case Return(h, r) => ReturnKeeps(w, h, r);
    case Log(h, d, now) => LogKeeps(w, h, d, now);
    case Complete(h) => CompleteKeeps(w, h);
    case Release(h) => ReleaseKeeps(w, h);
    case Note(h, d, now) => NoteKeeps(w, h, d, now);
    case _ => QuietKeeps(w, s);
  }

  lemma {:induction false} RunKeeps(w: World, steps: seq<Step>)
    requires Inv(w) && Timely(w, steps)
    ensures After(w, steps).Some? && Inv(After(w, steps).value)
    decreases |steps|
  {
    if steps != [] {
      StepKeeps(w, steps[0]);
      RunKeeps(Do(w, steps[0]).value, steps[1..]);
    }
  }

  /** Whatever the interleaving, with every timeout after its submission: at most one call
      runs at a time, at most one ever returns, none runs after that, and every reply that
      carries a result carries that one; no success is put together from anything else. */
  lemma AtMostOneSettlement(steps: seq<Step>)
    requires Timely(START, steps)
    ensures After(START, steps).Some?
    ensures var w := After(START, steps).value;
      && |w.results| <= 1
      && (forall h, k ::
            h in w.handlers && k in w.handlers && w.handlers[h].phase.Calling? && w.handlers[k].phase.Calling?
            ==> h == k)
      && (w.results != [] ==> forall h :: h in w.handlers ==> w.handlers[h].phase !in {Claimed, Calling})
      && (forall h :: h in w.handlers && w.handlers[h].front.Replied? ==>
            !w.handlers[h].front.reply.SettledWithout? &&
            (w.handlers[h].front.reply.Sent? ==> w.results == [w.handlers[h].front.reply.result]))
  {
    assert Inv(START);
    RunKeeps(START, steps);
    var w := After(START, steps).value;
    forall h | h in w.handlers && w.handlers[h].front.Replied?
      ensures !w.handlers[h].front.reply.SettledWithout?
      ensures w.handlers[h].front.reply.Sent? ==> w.results == [w.handlers[h].front.reply.result]
    {
      assert HandlerFits(w, w.handlers[h]);
    }
    forall h | h in w.handlers && w.results != [] ensures w.handlers[h].phase !in {Claimed, Calling} {
      assert HandlerFits(w, w.handlers[h]);
    }
  }

  // ---------- one early timeout is enough to lose it ----------

  lemma {:induction false} RunSnoc(w: World, steps: seq<Step>, s: Step, next: World)
    requires After(w, steps).Some? && Do(After(w, steps).value, s) == Some(next)
    ensures After(w, steps + [s]) == Some(next)
    decreases |steps|
  {
    if steps == [] {
      assert steps + [s] == [s] && [s][1..] == [];
    } else {
      assert (steps + [s])[1..] == steps[1..] + [s];
      RunSnoc(Do(w, steps[0]).value, steps[1..], s, next);
    }
  }

  predicate NoTimeouts(steps: seq<Step>) { forall i :: 0 <= i < |steps| ==> !steps[i].Timeout? }

  lemma Step1(w: World, steps: seq<Step>, s: Step) returns (more: seq<Step>)
    requires After(w, steps).Some? && Do(After(w, steps).value, s).Some?
    ensures more == steps + [s] && After(w, more) == Do(After(w, steps).value, s)
    ensures NoTimeouts(steps) && !s.Timeout? ==> NoTimeouts(more)
  {
    more := steps + [s];
    RunSnoc(w, steps, s, Do(After(w, steps).value, s).value);
  }

  lemma {:induction false} Above(ids: set<Id>) returns (bound: Id)
    ensures forall i :: i in ids ==> i < bound
  {
    if ids == {} {
      bound := 0;
    } else {
      var i :| i in ids;
      var b := Above(ids - {i});
      bound := if i >= b then i + 1 else b;
      forall j | j in ids ensures j < bound {
        assert j == i || j in ids - {i};
      }
    }
  }

  const SOME_RECORD := Record("", "", None, None, None, None, None, None)
  const NO_DETAILS: Details<Result> := Details(None, None, None, NoResponse)

  /** A world where the claim is free although handler h may still settle or has settled. */
  ghost predicate Exposed(w: World, h: Id) {
    && w.claim.None? && h in w.handlers
    && (w.handlers[h].phase in {Claimed, Calling} || w.results != [])
    && w.handlers[h].storeKey in w.logs
    && (var p := Got(w.logs, w.handlers[h].storeKey);
        p.Some? && p.value.state == Failed && p.value.errorReason == Some(TIMEOUT_REASON))
  }

  /** After an early timeout the catch block frees the claim and records a retryable failure. */
  lemma EarlyTimeoutExposes(w: World, h: Id) returns (steps: seq<Step>)
    requires Inv(w) && EarlyTimeout(w, Timeout(h)) && Do(w, Timeout(h)).Some?
    ensures After(w, [Timeout(h)] + steps).Some? && Exposed(After(w, [Timeout(h)] + steps).value, h)
    ensures NoTimeouts(steps)
  {
    steps := [Release(h), Note(h, NO_DETAILS, 0)];
    var run := EarlyRelease(w, h);
    var w2 := After(w, run).value;
    run := Step1(w, run, Note(h, NO_DETAILS, 0));
    assert run == [Timeout(h)] + steps;
    NoteRecords(w2, h);
  }

  lemma EarlyRelease(w: World, h: Id) returns (run: seq<Step>)
    requires Inv(w) && EarlyTimeout(w, Timeout(h)) && Do(w, Timeout(h)).Some?
    ensures run == [Timeout(h), Release(h)] && After(w, run).Some?
    ensures var w2 := After(w, run).value;
      && h in w2.handlers && w2.handlers[h].front == Released(TIMEOUT_REASON)
      && w2.handlers[h].storeKey == w.handlers[h].storeKey && w2.handlers[h].storeKey in w2.logs
      && w2.claim.None? && (w2.handlers[h].phase in {Claimed, Calling} || w2.results != [])
  {
    assert HandlerFits(w, w.handlers[h]) && Owns(w.handlers[h]);
    run := Step1(w, [], Timeout(h));
    run := Step1(w, run, Release(h));
  }

  /** The catch block's note leaves the record failed, for the timeout. */
  lemma NoteRecords(w: World, h: Id)
    requires Do(w, Note(h, NO_DETAILS, 0)).Some? && w.handlers[h].front == Released(TIMEOUT_REASON)
    requires w.handlers[h].storeKey in w.logs
    ensures var w' := Do(w, Note(h, NO_DETAILS, 0)).value; var key := w.handlers[h].storeKey;
      && w'.claim == w.claim && w'.results == w.results && key in w'.logs
      && h in w'.handlers && w'.handlers[h].phase == w.handlers[h].phase && w'.handlers[h].storeKey == key
      && var p := Got(w'.logs, key);
        p.Some? && p.value.state == Failed && p.value.errorReason == Some(TIMEOUT_REASON)
  {
    var w', key := Do(w, Note(h, NO_DETAILS, 0)).value, w.handlers[h].storeKey;
    var details := NO_DETAILS.(errorReason := Some(TIMEOUT_REASON));
    var e := Event(FailedEvent, OutcomePayload(key, details), |w.logs[key]| + 1, 0);
    assert w'.logs[key] == w.logs[key] + [e];
    ProjectSnoc(w.logs[key], e);
  }

  /** From such a world a retry by the same caller settles a second time. */
  lemma ExposedSettlesTwice(w: World, h: Id) returns (steps: seq<Step>)
    requires Exposed(w, h)
    ensures After(w, steps).Some? && |After(w, steps).value.results| >= 2 && NoTimeouts(steps)
    ensures w.handlers[h].phase in {Claimed, Calling} ==>
      var rs := After(w, steps).value.results; rs[|rs| - 2].success && rs[|rs| - 1].success
  {
    steps := [];
    if w.handlers[h].phase in {Claimed, Calling} {
      if w.handlers[h].phase.Claimed? { steps := Step1(w, steps, Call(h)); }
      steps := Step1(w, steps, Submit(h));
      steps := Step1(w, steps, Return(h, Result(true, 1)));
    }
    var x := After(w, steps).value;
    var more := RetrySettles(x, w.handlers[h].storeKey);
    RunConcat(w, steps, more);
    steps := steps + more;
  }

  lemma {:induction false} RunConcat(w: World, a: seq<Step>, b: seq<Step>)
    requires After(w, a).Some?
    ensures After(w, a + b) == After(After(w, a).value, b)
    decreases |a|
  {
    if a == [] {
      assert a + b == b;
    } else {
      assert (a + b)[1..] == a[1..] + b;
      RunConcat(Do(w, a[0]).value, a[1..], b);
    }
  }

  lemma RetrySettles(x: World, key: Settlements.Key) returns (steps: seq<Step>)
    requires x.claim.None?
    requires var p := Got(x.logs, key);
      p.Some? && p.value.state == Failed && p.value.errorReason == Some(TIMEOUT_REASON)
    ensures After(x, steps).Some? && After(x, steps).value.results == x.results + [Result(true, 2)]
    ensures NoTimeouts(steps)
  {
    var k := Above(x.handlers.Keys);
    assert k !in x.handlers;
    steps := Step1(x, [], Arrive(k, key));
    steps := Step1(x, steps, Read(k, true));
    steps := Step1(x, steps, Save(k, SOME_RECORD, 0));
    var w := After(x, steps).value;
    assert w.claim.None? && k in w.handlers && w.handlers[k].phase == ToBegin && w.results == x.results;
    var more := FreeClaimSettles(w, k);
    RunConcat(x, steps, more);
    steps := steps + more;
  }

  lemma FreeClaimSettles(w: World, k: Id) returns (steps: seq<Step>)
    requires w.claim.None? && k in w.handlers && w.handlers[k].phase == ToBegin
    ensures After(w, steps).Some? && After(w, steps).value.results == w.results + [Result(true, 2)]
    ensures NoTimeouts(steps)
  {
    steps := Step1(w, [], Begin(k));
    steps := Step1(w, steps, Call(k));
    steps := Step1(w, steps, Submit(k));
    steps := Step1(w, steps, Return(k, Result(true, 2)));
  }

  /** Every timely run followed by one early timeout goes on, with no more timeouts, to a run in
      which two calls return. */
  lemma EarlyTimeoutBreaks(steps: seq<Step>, h: Id) returns (more: seq<Step>)
    requires Timely(START, steps)
    requires After(START, steps).Some? && EarlyTimeout(After(START, steps).value, Timeout(h))
    requires Do(After(START, steps).value, Timeout(h)).Some?
    ensures After(START, steps + [Timeout(h)] + more).Some?
    ensures |After(START, steps + [Timeout(h)] + more).value.results| >= 2 && NoTimeouts(more)
  {
    assert Inv(START);
    RunKeeps(START, steps);
    more := BreaksFrom(After(START, steps).value, h);
    RunConcat(START, steps, [Timeout(h)] + more);
    Assoc(steps, [Timeout(h)], more);
  }

  lemma BreaksFrom(w: World, h: Id) returns (more: seq<Step>)
    requires Inv(w) && EarlyTimeout(w, Timeout(h)) && Do(w, Timeout(h)).Some?
    ensures After(w, [Timeout(h)] + more).Some? && |After(w, [Timeout(h)] + more).value.results| >= 2
    ensures NoTimeouts(more)
  {
    var a := EarlyTimeoutExposes(w, h);
    var b := ExposedSettlesTwice(After(w, [Timeout(h)] + a).value, h);
    more := a + b;
    RunConcat(w, [Timeout(h)] + a, b);
    Assoc([Timeout(h)], a, b);
  }

  lemma {:induction false} QuietIsTimely(w: World, steps: seq<Step>)
    requires After(w, steps).Some? && NoTimeouts(steps)
    ensures Timely(w, steps)
    decreases |steps|
  {
    if steps != [] { QuietIsTimely(Do(w, steps[0]).value, steps[1..]); }
  }

  lemma {:induction false} TimelyConcat(w: World, a: seq<Step>, b: seq<Step>)
    requires Timely(w, a) && After(w, a).Some? && Timely(After(w, a).value, b)
    ensures Timely(w, a + b)
    decreases |a|
  {
    if a == [] {
      assert a + b == b;
    } else {
      assert (a + b)[1..] == a[1..] + b && (a + b)[0] == a[0];
      TimelyConcat(Do(w, a[0]).value, a[1..], b);
    }
  }

  /** After `steps` and `s` the run goes on, timely again. */
  ghost predicate GoesOn(steps: seq<Step>, s: Step, more: seq<Step>) {
    && After(START, steps + [s]).Some? && After(START, steps + [s] + more).Some?
    && Timely(After(START, steps + [s]).value, more)
  }

  lemma TimelyGoesOn(steps: seq<Step>, s: Step, more: seq<Step>)
    requires Timely(START, steps) && After(START, steps).Some? && !EarlyTimeout(After(START, steps).value, s)
    requires GoesOn(steps, s, more)
    ensures |After(START, steps + [s] + more).value.results| <= 1
  {
    var w := After(START, steps).value;
    RunConcat(START, steps, [s]);
    assert [s][1..] == [] && Timely(Do(w, s).value, [s][1..]);
    TimelyConcat(START, steps, [s]);
    TimelyConcat(START, steps + [s], more);
    AtMostOneSettlement(steps + [s] + more);
  }

  /** A step of a timely run leaves every timely way on with at most one settlement exactly
      when it is no timeout before its request's submission. */
  lemma EarlyTimeoutsExactly(steps: seq<Step>, s: Step)
    requires Timely(START, steps) && After(START, steps).Some? && Do(After(START, steps).value, s).Some?
    ensures (forall more :: GoesOn(steps, s, more) ==> |After(START, steps + [s] + more).value.results| <= 1)
      <==> !EarlyTimeout(After(START, steps).value, s)
  {
    if EarlyTimeout(After(START, steps).value, s) {
      var more := EarlyTimeoutBreaks(steps, s.h);
      assert s == Timeout(s.h);
      RunConcat(START, steps, [s]);
      assert [s][1..] == [];
      var w := After(START, steps + [s]).value;
      RunConcat(START, steps + [s], more);
      QuietIsTimely(w, more);
      assert GoesOn(steps, s, more);
    } else {
      forall more | GoesOn(steps, s, more) ensures |After(START, steps + [s] + more).value.results| <= 1 {
        TimelyGoesOn(steps, s, more);
      }
    }
  }
}
