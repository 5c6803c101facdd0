/** Every interleaving of calls to one host: dials, sleeps, gates and records in any order. */
module BreakerRuns {
  import opened RpcBreaker
  import opened Text

  type CallId = nat

  datatype Phase = Dialing | Sleeping(until: int) | Over

  datatype Call = Call(isProtected: bool, attempt: nat, deadline: Option<int>, phase: Phase)

  datatype World = World(breaker: Breaker, calls: map<CallId, Call>, now: int)

  datatype Step =
    | Arrive(id: CallId, isProtected: bool, deadlineMs: Option<nat>)
    | Answer(id: CallId)                                // a dial gets a response
    | Break(id: CallId, retryable: bool, random: real)  // or an error before one
    | Wake(id: CallId)
    | Tick(ms: nat)

  function Start(now: int): World { World(FRESH, map[], now) }

  function Put(w: World, id: CallId, c: Call): World { w.(calls := w.calls[id := c]) }

  /** None when the step is not enabled. */
  function Do(cfg: Config, w: World, s: Step): Option<World> {
    match s
    case Arrive(id, isProtected, deadlineMs) =>
      if id in w.calls then None
      else if !isProtected && !Passes(cfg, w.breaker, w.now) then
        Some(Put(w, id, Call(isProtected, 0, Deadline(w.now, deadlineMs), Over)))
      else
        var phase := if cfg.attempts == 0 then Over else Dialing;
        Some(Put(w.(breaker := if isProtected then w.breaker else Gated(cfg, w.breaker, w.now)), id,
                 Call(isProtected, Min(1, cfg.attempts), Deadline(w.now, deadlineMs), phase)))
    case Answer(id) =>
      if id !in w.calls || !w.calls[id].phase.Dialing? then None
      else
        var turn := TurnOf(cfg, Answered(0), w.calls[id].attempt, w.breaker, w.now, w.calls[id].deadline);
        Some(Put(w.(breaker := turn.breaker), id, w.calls[id].(phase := Over)))
    case Break(id, retryable, random) =>
      if id !in w.calls || !w.calls[id].phase.Dialing? then None
      else
        var c := w.calls[id];
        var turn := TurnOf(cfg, Broke(0, retryable, random, 0), c.attempt, w.breaker, w.now, c.deadline);
        Some(Put(w.(breaker := turn.breaker), id,
                 c.(phase := if turn.Leaves? then Over else Sleeping(turn.sleep.until))))
    case Wake(id) =>
      if id !in w.calls || !w.calls[id].phase.Sleeping? || w.now < w.calls[id].phase.until then None
      else
        var c := w.calls[id];
        Some(Put(w, id, if Reached(c.deadline, w.now) then c.(phase := Over)
                        else c.(attempt := c.attempt + 1, phase := Dialing)))
    case Tick(ms) => Some(w.(now := w.now + ms))
  }

  function After(cfg: Config, w: World, steps: seq<Step>): Option<World>
    decreases |steps|
  {
    if steps == [] then Some(w)
    else match Do(cfg, w, steps[0])
      case None => None
      case Some(next) => After(cfg, next, steps[1..])
  }

  function Limit(cfg: Config): nat { if cfg.threshold > 1 then cfg.threshold else 1 }

  ghost predicate CallFits(cfg: Config, c: Call) {
    && c.attempt <= cfg.attempts
    && (!c.phase.Over? ==> c.attempt >= 1)
    && (c.phase.Sleeping? ==> c.attempt < cfg.attempts && !Overshoots(c.deadline, c.phase.until))
  }

  ghost predicate Inv(cfg: Config, w: World) {
    && (w.breaker.state != Closed <==> w.breaker.failures >= Limit(cfg))
    && (w.breaker.state.HalfOpen? ==> w.breaker.probeInFlight)
    && (w.breaker.state.Closed? ==> !w.breaker.probeInFlight)
    && (w.breaker.state.Open? ==> w.breaker.openedAt <= w.now)
    && forall id :: id in w.calls ==> CallFits(cfg, w.calls[id])
  }

  lemma StepKeeps(cfg: Config, w: World, s: Step)
    requires Inv(cfg, w) && Do(cfg, w, s).Some?
    ensures Inv(cfg, Do(cfg, w, s).value)
  {
  }

  lemma {:induction false} RunKeeps(cfg: Config, w: World, steps: seq<Step>)
    requires Inv(cfg, w) && After(cfg, w, steps).Some?
    ensures Inv(cfg, After(cfg, w, steps).value)
    decreases |steps|
  {
    if steps != [] {
      StepKeeps(cfg, w, steps[0]);
      RunKeeps(cfg, Do(cfg, w, steps[0]).value, steps[1..]);
    }
  }

  /** The retryable failures of a run since its last response. */
  function SinceResponse(steps: seq<Step>): nat {
    if steps == [] then 0
    else
      var last := steps[|steps| - 1];
      if last.Answer? then 0
      else SinceResponse(steps[..|steps| - 1]) + if last.Break? && last.retryable then 1 else 0
  }

  lemma {:induction false} AfterSnoc(cfg: Config, w: World, steps: seq<Step>, s: Step)
    ensures After(cfg, w, steps + [s]) ==
      match After(cfg, w, steps) case None => None case Some(mid) => Do(cfg, mid, s)
    decreases |steps|
  {
    if steps == [] {
      assert [] + [s] == [s];
      assert [s][1..] == [];
    } else {
      assert (steps + [s])[1..] == steps[1..] + [s] && (steps + [s])[0] == steps[0];
      if Do(cfg, w, steps[0]).Some? { AfterSnoc(cfg, Do(cfg, w, steps[0]).value, steps[1..], s); }
    }
  }

  lemma {:induction false} CountsFailures(cfg: Config, now: int, steps: seq<Step>)
    requires After(cfg, Start(now), steps).Some?
    ensures After(cfg, Start(now), steps).value.breaker.failures == SinceResponse(steps)
  {
    if steps != [] {
      var init, last := steps[..|steps| - 1], steps[|steps| - 1];
      AfterSnoc(cfg, Start(now), init, last);
      assert init + [last] == steps;
      CountsFailures(cfg, now, init);
    }
  }

  /** In every interleaving the breaker is not closed exactly when at least max(1, threshold)
      retryable failures came since the last response; a half-open one has its probe marked;
      and no call has made more than `attempts` dials or sleeps past its deadline. */
  lemma OpensExactly(cfg: Config, now: int, steps: seq<Step>)
    requires After(cfg, Start(now), steps).Some?
    ensures var w := After(cfg, Start(now), steps).value;
      && (w.breaker.state != Closed <==> SinceResponse(steps) >= Limit(cfg))
      && (w.breaker.state.HalfOpen? ==> w.breaker.probeInFlight)
      && (w.breaker.state.Closed? ==> !w.breaker.probeInFlight)
      && forall id :: id in w.calls ==>
           w.calls[id].attempt <= cfg.attempts
           && (w.calls[id].phase.Sleeping? ==> !Overshoots(w.calls[id].deadline, w.calls[id].phase.until))
  {
    RunKeeps(cfg, Start(now), steps);
    CountsFailures(cfg, now, steps);
    var w := After(cfg, Start(now), steps).value;
    forall id | id in w.calls ensures CallFits(cfg, w.calls[id]) {
    }
  }

  // ---------- the rate while a host does not answer ----------

  predicate Admits(cfg: Config, w: World, s: Step) {
    s.Arrive? && s.id !in w.calls && !s.isProtected && Passes(cfg, w.breaker, w.now)
  }

  /** When unprotected calls were let through. */
  function Admissions(cfg: Config, w: World, steps: seq<Step>): seq<int>
    decreases |steps|
  {
    if steps == [] then []
    else
      match Do(cfg, w, steps[0])
      case None => []
      case Some(next) =>
        (if Admits(cfg, w, steps[0]) then [w.now] else []) + Admissions(cfg, next, steps[1..])
  }

  /** The earliest an unprotected call may pass while no response comes. */
  function Earliest(cfg: Config, w: World): int {
    if w.breaker.state.Open? then w.breaker.openedAt + cfg.cooldownMs else w.now + cfg.cooldownMs
  }

  /** From an opened breaker on, with no response, unprotected calls pass at least a cooldown
      after the opening and a cooldown apart. */
  lemma {:induction false} AdmissionsApart(cfg: Config, w: World, steps: seq<Step>)
    requires Inv(cfg, w) && w.breaker.state != Closed && After(cfg, w, steps).Some?
    requires forall s :: s in steps ==> !s.Answer?
    ensures var a := Admissions(cfg, w, steps);
      && (a != [] ==> a[0] >= Earliest(cfg, w))
      && forall i :: 0 < i < |a| ==> a[i] >= a[i - 1] + cfg.cooldownMs
    decreases |steps|
  {
    if steps != [] {
      var s, next := steps[0], Do(cfg, w, steps[0]).value;
      StepKeeps(cfg, w, s);
      AdmissionsApart(cfg, next, steps[1..]);
      var rest := Admissions(cfg, next, steps[1..]);
      EarliestMoves(cfg, w, s);
      if Admits(cfg, w, s) {
        assert Admissions(cfg, w, steps) == [w.now] + rest;
      } else {
        assert Admissions(cfg, w, steps) == [] + rest;
        assert [] + rest == rest;
      }
    }
  }

  /** Without a response the breaker stays open or probing and the earliest time never goes
      back; an admission comes no earlier and puts it a cooldown off. */
  lemma EarliestMoves(cfg: Config, w: World, s: Step)
    requires Inv(cfg, w) && w.breaker.state != Closed && Do(cfg, w, s).Some? && !s.Answer?
    ensures var next := Do(cfg, w, s).value;
      && next.breaker.state != Closed && Earliest(cfg, next) >= Earliest(cfg, w)
      && (Admits(cfg, w, s) ==> w.now >= Earliest(cfg, w) && Earliest(cfg, next) == w.now + cfg.cooldownMs)
  {
  }

  /** The step opens the breaker: a failure that reaches the threshold, or a probe's. */
  predicate Opens(cfg: Config, w: World, s: Step) {
    Do(cfg, w, s).Some? && !w.breaker.state.Open? && Do(cfg, w, s).value.breaker.state.Open?
  }

  lemma {:induction false} AdmissionsAfter(cfg: Config, w: World, steps: seq<Step>)
    requires Inv(cfg, w) && w.breaker.state != Closed && After(cfg, w, steps).Some?
    requires forall s :: s in steps ==> !s.Answer?
    ensures forall at :: at in Admissions(cfg, w, steps) ==> at >= Earliest(cfg, w)
    decreases |steps|
  {
    if steps != [] {
      StepKeeps(cfg, w, steps[0]);
      EarliestMoves(cfg, w, steps[0]);
      AdmissionsAfter(cfg, Do(cfg, w, steps[0]).value, steps[1..]);
    }
  }

  /** Without a response or an admission an open breaker stays as it was opened. */
  lemma {:induction false} StaysOpen(cfg: Config, w: World, steps: seq<Step>)
    requires w.breaker.state.Open? && After(cfg, w, steps).Some? && Admissions(cfg, w, steps) == []
    requires forall s :: s in steps ==> !s.Answer?
    ensures var b := After(cfg, w, steps).value.breaker; b.state.Open? && b.openedAt == w.breaker.openedAt
    decreases |steps|
  {
    if steps != [] {
      assert |Admissions(cfg, w, steps)| ==
        (if Admits(cfg, w, steps[0]) then 1 else 0) + |Admissions(cfg, Do(cfg, w, steps[0]).value, steps[1..])|;
      StaysOpen(cfg, Do(cfg, w, steps[0]).value, steps[1..]);
    }
  }

  /** A breaker that opens in a run, at the time the clock then shows, lets no unprotected call
      through until a cooldown is over, whatever fails or sleeps, unless a response comes; and it
      lets the first one through exactly from then on. */
  lemma OpenedWaitsExactly(cfg: Config, now: int, before: seq<Step>, s: Step, later: seq<Step>)
    requires After(cfg, Start(now), before).Some? && Opens(cfg, After(cfg, Start(now), before).value, s)
    requires After(cfg, Do(cfg, After(cfg, Start(now), before).value, s).value, later).Some?
    requires forall x :: x in later ==> !x.Answer?
    ensures var mid := After(cfg, Start(now), before).value; var next := Do(cfg, mid, s).value;
      var end := After(cfg, next, later).value;
      && (forall at :: at in Admissions(cfg, next, later) ==> at >= mid.now + cfg.cooldownMs)
      && (Admissions(cfg, next, later) == [] ==>
            (Passes(cfg, end.breaker, end.now) <==> end.now >= mid.now + cfg.cooldownMs))
  {
    RunKeeps(cfg, Start(now), before);
    var mid := After(cfg, Start(now), before).value;
    StepKeeps(cfg, mid, s);
    var next := Do(cfg, mid, s).value;
    assert next.breaker.openedAt == mid.now;
    AdmissionsAfter(cfg, next, later);
    if Admissions(cfg, next, later) == [] { StaysOpen(cfg, next, later); }
  }

  lemma {:induction false} SpacedSpan(a: seq<int>, gap: int)
    requires a != [] && gap > 0 && forall i :: 0 < i < |a| ==> a[i] >= a[i - 1] + gap
    ensures a[|a| - 1] >= a[0] + (|a| - 1) * gap
  {
    if |a| > 1 {
      var n := |a| - 1;
      SpacedSpan(a[..n], gap);
      assert (n - 1) * gap + gap == n * gap;
    }
  }

  /** So in any span of T there are at most 1 + T / cooldown of them. */
  lemma AdmissionRate(cfg: Config, now: int, before: seq<Step>, steps: seq<Step>)
    requires cfg.cooldownMs > 0 && After(cfg, Start(now), before).Some?
    requires var w := After(cfg, Start(now), before).value; w.breaker.state != Closed && After(cfg, w, steps).Some?
    requires forall s :: s in steps ==> !s.Answer?
    ensures var a := Admissions(cfg, After(cfg, Start(now), before).value, steps);
      a != [] ==> |a| <= 1 + (a[|a| - 1] - a[0]) / cfg.cooldownMs
  {
    RunKeeps(cfg, Start(now), before);
    var w := After(cfg, Start(now), before).value;
    AdmissionsApart(cfg, w, steps);
    var a := Admissions(cfg, w, steps);
    if a != [] {
      SpacedSpan(a, cfg.cooldownMs);
      AtLeastMultiple(a[|a| - 1] - a[0], |a| - 1, cfg.cooldownMs);
    }
  }

  lemma Larger(a: int, b: int, n: int)
    requires n > 0 && a * n > b * n
    ensures a > b
  {
  }

  lemma AtLeastMultiple(x: int, k: nat, n: int)
    requires n > 0 && x >= k * n
    ensures x / n >= k
  {
    var q := x / n;
    assert (q + 1) * n == q * n + n;
    Larger(q + 1, k, n);
  }

  // ---------- when a half-open breaker recovers ----------

  /** The call is dialing, or will dial again when its sleep is over. */
  predicate WillDial(w: World, c: Call) {
    c.phase.Dialing?
    || (c.phase.Sleeping? && !Reached(c.deadline, if w.now > c.phase.until then w.now else c.phase.until))
  }

  /** No call arrives that bypasses the gate. */
  predicate Unprotected(steps: seq<Step>) { forall s :: s in steps && s.Arrive? ==> !s.isProtected }

  predicate Awaited(w: World) { exists id :: id in w.calls && WillDial(w, w.calls[id]) }

  lemma StaysUnawaited(cfg: Config, w: World, s: Step)
    requires Inv(cfg, w) && w.breaker.state.HalfOpen? && !Awaited(w) && Do(cfg, w, s).Some?
    requires s.Arrive? ==> !s.isProtected
    ensures Do(cfg, w, s).value.breaker == w.breaker && !Awaited(Do(cfg, w, s).value) && !Admits(cfg, w, s)
  {
    var w' := Do(cfg, w, s).value;
    forall id | id in w'.calls ensures !WillDial(w', w'.calls[id]) {
      if id in w.calls { assert !WillDial(w, w.calls[id]); }
    }
  }

  /** With no dial to come, a half-open breaker refuses unprotected calls for good. */
  lemma {:induction false} StaysHalfOpen(cfg: Config, w: World, steps: seq<Step>)
    requires Inv(cfg, w) && w.breaker.state.HalfOpen? && !Awaited(w) && After(cfg, w, steps).Some?
    requires Unprotected(steps)
    ensures After(cfg, w, steps).value.breaker == w.breaker && Admissions(cfg, w, steps) == []
    decreases |steps|
  {
    if steps != [] {
      assert steps[0] in steps;
      StaysUnawaited(cfg, w, steps[0]);
      StepKeeps(cfg, w, steps[0]);
      StaysHalfOpen(cfg, Do(cfg, w, steps[0]).value, steps[1..]);
    }
  }

  /** A dial to come may be answered. */
  lemma AwaitedRecovers(cfg: Config, w: World, id: CallId) returns (steps: seq<Step>)
    requires id in w.calls && WillDial(w, w.calls[id])
    ensures After(cfg, w, steps).Some? && After(cfg, w, steps).value.breaker.state == Closed
    ensures forall s :: s in steps ==> !s.Arrive?
  {
    var c := w.calls[id];
    if c.phase.Dialing? {
      steps := [] + [Answer(id)];
      AfterSnoc(cfg, w, [], Answer(id));
    } else {
      var wait := Tick(if c.phase.until > w.now then c.phase.until - w.now else 0);
      steps := [wait, Wake(id), Answer(id)];
      var later := Do(cfg, w, wait).value;
      ThreeSteps(cfg, w, steps, later, Do(cfg, later, Wake(id)).value);
    }
  }

  /** A run without new protected calls that leaves the half-open state. */
  predicate Recovery(cfg: Config, w: World, steps: seq<Step>) {
    Unprotected(steps) && After(cfg, w, steps).Some? && !After(cfg, w, steps).value.breaker.state.HalfOpen?
  }

  /** From a half-open breaker some run without new protected calls recovers exactly when a
      dial is under way or to come: its own probe's, or that of a call let through before. */
  lemma RecoversExactly(cfg: Config, w: World)
    requires Inv(cfg, w) && w.breaker.state.HalfOpen?
    ensures (exists steps :: Recovery(cfg, w, steps))
      <==> exists id :: id in w.calls && WillDial(w, w.calls[id])
  {
    if id :| id in w.calls && WillDial(w, w.calls[id]) {
      var steps := AwaitedRecovers(cfg, w, id);
      assert Recovery(cfg, w, steps);
    } else {
      forall steps ensures !Recovery(cfg, w, steps) {
        if Unprotected(steps) && After(cfg, w, steps).Some? { StaysHalfOpen(cfg, w, steps); }
      }
    }
  }

  /** So from any opened breaker with no dial to come but the probe's own: once the probe ends in
      an error that is not retryable, which records nothing, no unprotected call ever passes. */
  lemma ProbeErrorSticks(cfg: Config, w: World, id: CallId, wait: nat, random: real, later: seq<Step>)
    requires Inv(cfg, w) && w.breaker.state.Open? && !Awaited(w) && id !in w.calls && cfg.attempts >= 1
    requires w.now + wait - w.breaker.openedAt >= cfg.cooldownMs
    requires Unprotected(later)
    ensures var probe := [Tick(wait), Arrive(id, false, None), Break(id, false, random)];
      After(cfg, w, probe).Some? && After(cfg, w, probe).value.breaker.state.HalfOpen?
      && (After(cfg, After(cfg, w, probe).value, later).Some? ==>
            After(cfg, After(cfg, w, probe).value, later).value.breaker.state.HalfOpen?
            && Admissions(cfg, After(cfg, w, probe).value, later) == [])
  {
    var probe := [Tick(wait), Arrive(id, false, None), Break(id, false, random)];
    var w1 := Do(cfg, w, probe[0]).value;
    StepKeeps(cfg, w, probe[0]);
    var w2 := Do(cfg, w1, probe[1]).value;
    StepKeeps(cfg, w1, probe[1]);
    var w3 := Do(cfg, w2, probe[2]).value;
    StepKeeps(cfg, w2, probe[2]);
    ThreeSteps(cfg, w, probe, w1, w2);
    forall i | i in w3.calls ensures !WillDial(w3, w3.calls[i]) {
      if i in w.calls { assert !WillDial(w, w.calls[i]); }
    }
    if After(cfg, w3, later).Some? { StaysHalfOpen(cfg, w3, later); }
  }

  lemma ThreeSteps(cfg: Config, w: World, steps: seq<Step>, w1: World, w2: World)
    requires |steps| == 3 && Do(cfg, w, steps[0]) == Some(w1) && Do(cfg, w1, steps[1]) == Some(w2)
    ensures After(cfg, w, steps) == Do(cfg, w2, steps[2])
  {
    var rest := steps[1..];
    var last := rest[1..];
    assert After(cfg, w, steps) == After(cfg, w1, rest);
    assert After(cfg, w1, rest) == After(cfg, w2, last);
    assert last[0] == steps[2] && last[1..] == [];
    if Do(cfg, w2, last[0]).Some? {
      var end := Do(cfg, w2, last[0]).value;
      assert After(cfg, end, last[1..]) == Some(end);
    }
  }

  // ---------- which dials the gate sees ----------

  /** The step begins a dial of an unprotected call. */
  predicate BeginsUnprotectedDial(cfg: Config, w: World, s: Step) {
    && (s.Arrive? || s.Wake?) && Do(cfg, w, s).Some?
    && var c := Do(cfg, w, s).value.calls[s.id]; !c.isProtected && c.phase.Dialing?
  }

  /** While the gate refuses, the dials that begin are exactly the redials of calls let through
      before: no arrival dials, and every sleeper that is due and within its deadline does. */
  lemma UngatedDialsExactly(cfg: Config, w: World, s: Step)
    requires !Passes(cfg, w.breaker, w.now)
    ensures BeginsUnprotectedDial(cfg, w, s) <==>
      s.Wake? && s.id in w.calls && !w.calls[s.id].isProtected && w.calls[s.id].phase.Sleeping?
      && w.now >= w.calls[s.id].phase.until && !Reached(w.calls[s.id].deadline, w.now)
  {
  }

  /** A reachable world in which the step begins a dial that the gate would refuse. */
  predicate Ungated(cfg: Config, steps: seq<Step>, w: World, s: Step) {
    After(cfg, Start(0), steps) == Some(w) && !Passes(cfg, w.breaker, w.now) && BeginsUnprotectedDial(cfg, w, s)
  }

  /** `n` calls have arrived and failed once at time 0; all of them sleep. */
  ghost predicate Failing(cfg: Config, w: World, n: nat) {
    && w.now == 0 && w.breaker.failures == n && Inv(cfg, w)
    && (w.breaker.state.Open? ==> w.breaker.openedAt == 0) && !w.breaker.state.HalfOpen?
    && (forall id: CallId :: id in w.calls <==> id < n)
    && (forall id: CallId :: id < n ==> w.calls[id] == Call(false, 1, None, Sleeping(Backoff(cfg, 1, 0.0))))
  }

  lemma {:induction false} CallsFail(cfg: Config, n: nat) returns (steps: seq<Step>, w: World)
    requires cfg.attempts >= 2 && n <= Limit(cfg)
    ensures After(cfg, Start(0), steps) == Some(w) && Failing(cfg, w, n)
  {
    if n == 0 {
      steps, w := [], Start(0);
    } else {
      var before, mid := CallsFail(cfg, n - 1);
      var arrive, fails := Arrive(n - 1, false, None), Break(n - 1, true, 0.0);
      var dialing := Do(cfg, mid, arrive).value;
      AfterSnoc(cfg, Start(0), before, arrive);
      AfterSnoc(cfg, Start(0), before + [arrive], fails);
      StepKeeps(cfg, mid, arrive);
      StepKeeps(cfg, dialing, fails);
      steps, w := before + [arrive] + [fails], Do(cfg, dialing, fails).value;
      assert dialing.calls[n - 1] == Call(false, 1, None, Dialing);
      assert w.calls == mid.calls[n - 1 := Call(false, 1, None, Sleeping(Backoff(cfg, 1, 0.0)))];
    }
  }

  /** The gate is run before a call, not before each of its dials: some run begins a dial while
      the gate refuses exactly when calls are retried at all. */
  lemma GateMissesDialsExactly(cfg: Config)
    ensures (exists steps, w, s :: Ungated(cfg, steps, w, s)) <==> cfg.attempts >= 2
  {
    if cfg.attempts >= 2 {
      var before, mid := CallsFail(cfg, Limit(cfg));
      var delay := Backoff(cfg, 1, 0.0);
      BackoffBounds(cfg, 1, 0.0);
      var ms := if cfg.cooldownMs > delay then cfg.cooldownMs else delay;
      var n := Limit(cfg);
      var late := Do(cfg, mid, Tick(ms)).value;
      AfterSnoc(cfg, Start(0), before, Tick(ms));
      var probe := Arrive(n, false, None);
      var steps, w := before + [Tick(ms)] + [probe], Do(cfg, late, probe).value;
      AfterSnoc(cfg, Start(0), before + [Tick(ms)], probe);
      assert w.calls[0] == mid.calls[0];
      assert Ungated(cfg, steps, w, Wake(0));
    } else {
      forall steps, w, s ensures !Ungated(cfg, steps, w, s) {
        if Ungated(cfg, steps, w, s) {
          RunKeeps(cfg, Start(0), steps);
          UngatedDialsExactly(cfg, w, s);
        }
      }
    }
  }
}
