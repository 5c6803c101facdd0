/** One host's circuit breaker, the backoff, and the retry loop of one call. */
module RpcBreaker {
  import Bits
  import opened Text

  datatype State = Closed | Open | HalfOpen

  datatype Breaker = Breaker(state: State, failures: nat, openedAt: int, probeInFlight: bool)

  /** The jitter option: off, on, or a number that is the bound itself. */
  datatype Jitter = Off | On | Bound(ms: int)

  datatype Config = Config(
    attempts: nat, threshold: int, cooldownMs: int, baseDelayMs: nat, maxDelayMs: nat, jitter: Jitter, maxJitterMs: nat)

  const FRESH := Breaker(Closed, 0, 0, false)

  /** Retryable failures count; the threshold, or any failure of a probe, opens. */
  function Failed(cfg: Config, b: Breaker, now: int): Breaker {
    var n := b.(failures := b.failures + 1);
    if (b.state.HalfOpen? || n.failures >= cfg.threshold) && !b.state.Open? then
      n.(openedAt := now, state := Open)
    else n
  }

  function Succeeded(b: Breaker): Breaker { b.(state := Closed, failures := 0, probeInFlight := false) }

  predicate Passes(cfg: Config, b: Breaker, now: int) {
    match b.state
    case Open => now - b.openedAt >= cfg.cooldownMs
    case HalfOpen => !b.probeInFlight
    case Closed => true
  }

  /** An open breaker that lets a call pass makes it the probe. */
  function Gated(cfg: Config, b: Breaker, now: int): Breaker {
    if b.state.Open? && Passes(cfg, b, now) then b.(state := HalfOpen, probeInFlight := true) else b
  }

  class HostBreaker {
    var state: State
    var consecutiveFailures: nat
    var openedAt: int
    var probeInFlight: bool

    function Value(): Breaker
      reads this
    {
      Breaker(state, consecutiveFailures, openedAt, probeInFlight)
    }

    constructor ()
      ensures Value() == FRESH
    {
      state, consecutiveFailures, openedAt, probeInFlight := Closed, 0, 0, false;
    }

    method Gate(cfg: Config, now: int) returns (passes: bool)
      modifies this
      ensures passes == Passes(cfg, old(Value()), now) && Value() == Gated(cfg, old(Value()), now)
    {
      if state == Open {
        if now - openedAt < cfg.cooldownMs { return false; }
        state := HalfOpen;
        probeInFlight := true;
        return true;
      }
      if state == HalfOpen && probeInFlight { return false; }
      return true;
    }

    method RecordFailure(cfg: Config, now: int)
      modifies this
      ensures Value() == Failed(cfg, old(Value()), now)
    {
      consecutiveFailures := consecutiveFailures + 1;
      if state == HalfOpen || consecutiveFailures >= cfg.threshold {
        if state != Open {
          openedAt := now;
          state := Open;
        }
      }
    }

    method RecordSuccess()
      modifies this
      ensures Value() == Succeeded(old(Value()))
    {
      if state != Closed { state := Closed; }
      consecutiveFailures := 0;
      probeInFlight := false;
    }
  }

  // ---------- backoff ----------

  function ExpDelay(cfg: Config, attempt: int): nat {
    Min(cfg.maxDelayMs, cfg.baseDelayMs * Bits.Pow2((if attempt > 1 then attempt else 1) - 1))
  }

  /** The first step is the base, each next one twice the last, until the cap. */
  lemma ExpDelayDoubles(cfg: Config, attempt: nat)
    requires attempt >= 1
    ensures ExpDelay(cfg, 1) == Min(cfg.maxDelayMs, cfg.baseDelayMs)
    ensures ExpDelay(cfg, attempt + 1) == Min(cfg.maxDelayMs, 2 * ExpDelay(cfg, attempt))
  {
    var step := cfg.baseDelayMs * Bits.Pow2(attempt - 1);
    assert cfg.baseDelayMs * (2 * Bits.Pow2(attempt - 1)) == 2 * step;
  }

  function JitterBound(cfg: Config, exp: nat): int {
    match cfg.jitter
    case Off => 0
    case On => Min(exp, cfg.maxJitterMs)
    case Bound(ms) => ms
  }

  function WithJitter(exp: nat, maxDelayMs: nat, bound: int, random: real): int {
    var jitter := if bound > 0 then (random * bound as real).Floor else 0;
    if exp + jitter < maxDelayMs then exp + jitter else maxDelayMs
  }

  /** `random` is the generator's draw, at least 0 and below 1. */
  function Backoff(cfg: Config, attempt: int, random: real): int {
    var exp := ExpDelay(cfg, attempt);
    if cfg.jitter.Off? || cfg.jitter == Bound(0) then exp
    else WithJitter(exp, cfg.maxDelayMs, JitterBound(cfg, exp), random)
  }

  lemma JitterBelow(random: real, bound: nat)
    requires 0.0 <= random < 1.0 && bound > 0
    ensures 0 <= (random * bound as real).Floor < bound
  {
    assert random * bound as real < 1.0 * bound as real;
  }

  lemma JitterBounds(exp: nat, maxDelayMs: nat, bound: int, random: real)
    requires 0.0 <= random < 1.0 && exp <= maxDelayMs
    ensures exp <= WithJitter(exp, maxDelayMs, bound, random) <= maxDelayMs
    ensures var delay := WithJitter(exp, maxDelayMs, bound, random); delay == exp || delay < exp + bound
  {
    if bound > 0 { JitterBelow(random, bound); }
  }

  /** A delay is its step, or less than a jitter above it, and never above the cap: the jitter is
      at most the step and maxJitterMs, unless the option is a number, which then bounds it alone. */
  lemma BackoffBounds(cfg: Config, attempt: int, random: real)
    requires 0.0 <= random < 1.0
    ensures ExpDelay(cfg, attempt) <= Backoff(cfg, attempt, random) <= cfg.maxDelayMs
    ensures Backoff(cfg, attempt, random) == ExpDelay(cfg, attempt)
      || Backoff(cfg, attempt, random) < ExpDelay(cfg, attempt) + JitterBound(cfg, ExpDelay(cfg, attempt))
    ensures cfg.jitter.On? ==>
      JitterBound(cfg, ExpDelay(cfg, attempt)) <= cfg.maxJitterMs
      && JitterBound(cfg, ExpDelay(cfg, attempt)) <= ExpDelay(cfg, attempt)
  {
    var exp := ExpDelay(cfg, attempt);
    JitterBounds(exp, cfg.maxDelayMs, JitterBound(cfg, exp), random);
  }

  lemma Drawn(j: nat, bound: nat) returns (random: real)
    requires j < bound
    ensures 0.0 <= random < 1.0 && (random * bound as real).Floor == j
  {
    random := j as real / bound as real;
    assert random * bound as real == j as real;
  }

  /** And every delay in that range is drawn: the step and any whole number of ms below the jitter,
      up to the cap. */
  lemma EveryDelayIsDrawn(cfg: Config, attempt: int, j: nat) returns (random: real)
    requires match cfg.jitter
      case Off => j == 0
      case On => j == 0 || (j < ExpDelay(cfg, attempt) && j < cfg.maxJitterMs)
      case Bound(ms) => j == 0 || j < ms
    ensures 0.0 <= random < 1.0 && Backoff(cfg, attempt, random) == Min(cfg.maxDelayMs, ExpDelay(cfg, attempt) + j)
  {
    var exp := ExpDelay(cfg, attempt);
    var bound := JitterBound(cfg, exp);
    if bound > 0 {
      random := Drawn(j, bound);
    } else {
      random := 0.0;
    }
  }

  // ---------- the retry loop of one call ----------

  /** What one dial meets: an answer, or an error before one; how long it took, the backoff
      draw, and how late the sleep after it would wake. */
  datatype Dial = Answered(tookMs: nat) | Broke(tookMs: nat, retryable: bool, random: real, lateMs: nat)

  datatype Sleep = Sleep(from: int, until: int)

  datatype Outcome = Response | Error | Refused

  /** `dials` is how many were made, `sleeps` the sleeps begun. */
  datatype Ended = Ended(outcome: Outcome, dials: nat, sleeps: seq<Sleep>, breaker: Breaker, now: int)

  predicate Reached(deadline: Option<int>, now: int) { deadline.Some? && now >= deadline.value }

  predicate Overshoots(deadline: Option<int>, until: int) { deadline.Some? && until > deadline.value }

  /** How an attempt leaves the loop, or where it sleeps before the next. */
  datatype Turn = Leaves(outcome: Outcome, breaker: Breaker, now: int) | Sleeps(sleep: Sleep, breaker: Breaker)

  function TurnOf(cfg: Config, dial: Dial, attempt: nat, b: Breaker, now: int, deadline: Option<int>): Turn {
    match dial
    case Answered(took) => Leaves(Response, Succeeded(b), now + took)
    case Broke(took, retryable, random, _) =>
      var at := now + took;
      var until := at + Backoff(cfg, attempt, random);
      if !retryable then Leaves(Error, b, at)
      else if attempt == cfg.attempts || Reached(deadline, at) || Overshoots(deadline, until) then
        Leaves(Error, Failed(cfg, b, at), at)
      else Sleeps(Sleep(at, until), Failed(cfg, b, at))
  }

  function Late(dial: Dial): nat { if dial.Broke? then dial.lateMs else 0 }

  function Slept(before: seq<Sleep>, rest: Ended): Ended { rest.(sleeps := before + rest.sleeps) }

  /** The loop from attempt `attempt`, no other call in between. */
  function Attempts(cfg: Config, meets: nat -> Dial, attempt: nat, b: Breaker, now: int, deadline: Option<int>): Ended
    requires 1 <= attempt <= cfg.attempts + 1
    decreases cfg.attempts + 1 - attempt
  {
    if attempt > cfg.attempts || (attempt > 1 && Reached(deadline, now)) then Ended(Error, attempt - 1, [], b, now)
    else
      match TurnOf(cfg, meets(attempt), attempt, b, now, deadline)
      case Leaves(outcome, b', at) => Ended(outcome, attempt, [], b', at)
      case Sleeps(sleep, b') =>
        Slept([sleep], Attempts(cfg, meets, attempt + 1, b', sleep.until + Late(meets(attempt)), deadline))
  }

  function Deadline(now: int, deadlineMs: Option<nat>): Option<int> {
    if deadlineMs.Some? && deadlineMs.value > 0 then Some(now + deadlineMs.value) else None
  }

  /** One call on an otherwise idle host: the gate unless it carries a sendTransaction, then
      the loop. */
  function Fetched(cfg: Config, meets: nat -> Dial, isProtected: bool, b: Breaker, now: int,
      deadlineMs: Option<nat>): Ended
  {
    if !isProtected && !Passes(cfg, b, now) then Ended(Refused, 0, [], b, now)
    else Attempts(cfg, meets, 1, if isProtected then b else Gated(cfg, b, now), now, Deadline(now, deadlineMs))
  }

  method Try(cfg: Config, dial: Dial, attempt: nat, b: HostBreaker, now: int, deadline: Option<int>)
    returns (turn: Turn)
    modifies b
    ensures turn == TurnOf(cfg, dial, attempt, old(b.Value()), now, deadline)
    ensures b.Value() == turn.breaker
  {
    match dial {
      case Answered(took) =>
        b.RecordSuccess();
        turn := Leaves(Response, b.Value(), now + took);
      case Broke(took, retryable, random, _) =>
        var at := now + took;
        if !retryable { return Leaves(Error, b.Value(), at); }
        b.RecordFailure(cfg, at);
        if attempt == cfg.attempts || Reached(deadline, at) { return Leaves(Error, b.Value(), at); }
        var until := at + Backoff(cfg, attempt, random);
        if Overshoots(deadline, until) { return Leaves(Error, b.Value(), at); }
        turn := Sleeps(Sleep(at, until), b.Value());
    }
  }

  method Loop(cfg: Config, meets: nat -> Dial, b: HostBreaker, start: int, deadline: Option<int>)
    returns (outcome: Outcome, dials: nat, sleeps: seq<Sleep>, now: int)
    modifies b
    ensures Ended(outcome, dials, sleeps, b.Value(), now) == Attempts(cfg, meets, 1, old(b.Value()), start, deadline)
  {
    outcome, dials, sleeps, now := Error, 0, [], start;
    ghost var whole := Attempts(cfg, meets, 1, b.Value(), now, deadline);
    var attempt := 1;
    while attempt <= cfg.attempts && (attempt == 1 || !Reached(deadline, now))
      invariant 1 <= attempt <= cfg.attempts + 1 && dials == attempt - 1 && outcome == Error
      invariant whole == Slept(sleeps, Attempts(cfg, meets, attempt, b.Value(), now, deadline))
      decreases cfg.attempts + 1 - attempt
    {
      dials := attempt;
      var turn := Try(cfg, meets(attempt), attempt, b, now, deadline);
      match turn {
        case Leaves(o, _, at) =>
          assert sleeps + [] == sleeps;
          return o, dials, sleeps, at;
        case Sleeps(sleep, _) =>
          now := sleep.until + Late(meets(attempt));
          Assoc(sleeps, [sleep], Attempts(cfg, meets, attempt + 1, b.Value(), now, deadline).sleeps);
          sleeps := sleeps + [sleep];
          attempt := attempt + 1;
      }
    }
    assert sleeps + [] == sleeps;
  }

  method RetryingFetch(cfg: Config, meets: nat -> Dial, isProtected: bool, b: HostBreaker, start: int,
      deadlineMs: Option<nat>)
    returns (outcome: Outcome, dials: nat, sleeps: seq<Sleep>, now: int)
    modifies b
    ensures Ended(outcome, dials, sleeps, b.Value(), now) ==
      Fetched(cfg, meets, isProtected, old(b.Value()), start, deadlineMs)
  {
    if !isProtected {
      var passes := b.Gate(cfg, start);
      if !passes { return Refused, 0, [], start; }
    }
    outcome, dials, sleeps, now := Loop(cfg, meets, b, start, Deadline(start, deadlineMs));
  }

  /** A call makes at most `attempts` dials, one more than its sleeps at most; no sleep is
      begun that would end past the deadline; and it answers only if its last dial did, all
      before it having broken retryably. */
  lemma {:induction false} AttemptsBounded(cfg: Config, meets: nat -> Dial, attempt: nat, b: Breaker, now: int,
      deadline: Option<int>)
    requires 1 <= attempt <= cfg.attempts + 1
    ensures var e := Attempts(cfg, meets, attempt, b, now, deadline);
      && attempt - 1 <= e.dials <= cfg.attempts
      && |e.sleeps| <= e.dials - (attempt - 1) <= |e.sleeps| + 1
      && (forall i :: 0 <= i < |e.sleeps| ==> !Overshoots(deadline, e.sleeps[i].until))
      && (e.outcome.Response? <==> e.dials >= attempt && meets(e.dials).Answered?)
      && (forall k :: attempt <= k < e.dials ==> meets(k).Broke? && meets(k).retryable)
      && !e.outcome.Refused?
    decreases cfg.attempts + 1 - attempt
  {
    if attempt <= cfg.attempts && (attempt == 1 || !Reached(deadline, now)) {
      var turn := TurnOf(cfg, meets(attempt), attempt, b, now, deadline);
      if turn.Sleeps? {
        AttemptsBounded(cfg, meets, attempt + 1, turn.breaker, turn.sleep.until + Late(meets(attempt)), deadline);
      }
    }
  }

  lemma FetchBounded(cfg: Config, meets: nat -> Dial, isProtected: bool, b: Breaker, now: int, deadlineMs: Option<nat>)
    ensures var e := Fetched(cfg, meets, isProtected, b, now, deadlineMs);
      && e.dials <= cfg.attempts
      && (forall i :: 0 <= i < |e.sleeps| ==> !Overshoots(Deadline(now, deadlineMs), e.sleeps[i].until))
      && (e.outcome.Refused? <==> !isProtected && !Passes(cfg, b, now))
      && (e.outcome.Refused? ==> e.dials == 0 && e.breaker == b)
      && (e.outcome.Response? <==> e.dials >= 1 && meets(e.dials).Answered?)
  {
    AttemptsBounded(cfg, meets, 1, if isProtected then b else Gated(cfg, b, now), now, Deadline(now, deadlineMs));
  }

  /** The last dial's error is not to be retried, was the last allowed, or leaves no time. */
  predicate GaveUp(cfg: Config, meets: nat -> Dial, e: Ended, deadline: Option<int>) {
    e.dials >= 1 && meets(e.dials).Broke? &&
    (|| !meets(e.dials).retryable || e.dials == cfg.attempts
     || (deadline.Some? &&
           (e.now >= deadline.value || e.now + Backoff(cfg, e.dials, meets(e.dials).random) > deadline.value)))
  }

  /** The sleep after an attempt begins before the deadline, lasts its backoff, and ends in time. */
  predicate Paced(cfg: Config, dial: Dial, attempt: nat, sleep: Sleep, deadline: Option<int>) {
    && dial.Broke? && sleep.until - sleep.from == Backoff(cfg, attempt, dial.random)
    && (deadline.Some? ==> sleep.from < deadline.value && sleep.until <= deadline.value)
  }

  ghost predicate AllPaced(cfg: Config, meets: nat -> Dial, attempt: nat, sleeps: seq<Sleep>, deadline: Option<int>) {
    forall i :: 0 <= i < |sleeps| ==> Paced(cfg, meets(attempt + i), attempt + i, sleeps[i], deadline)
  }

  lemma PacedMore(cfg: Config, meets: nat -> Dial, attempt: nat, sleep: Sleep, rest: seq<Sleep>, deadline: Option<int>)
    requires Paced(cfg, meets(attempt), attempt, sleep, deadline) && AllPaced(cfg, meets, attempt + 1, rest, deadline)
    ensures AllPaced(cfg, meets, attempt, [sleep] + rest, deadline)
  {
    forall i | 0 <= i < |[sleep] + rest|
      ensures Paced(cfg, meets(attempt + i), attempt + i, ([sleep] + rest)[i], deadline)
    {
      if i > 0 { assert Paced(cfg, meets(attempt + 1 + (i - 1)), attempt + 1 + (i - 1), rest[i - 1], deadline); }
    }
  }

  /** Each sleep is paced; and a call gives up on a failure that could be retried only at its last
      attempt or for its deadline, which the failure, the sleep after it or the waking would pass. */
  lemma {:induction false} GivesUpExactly(cfg: Config, meets: nat -> Dial, attempt: nat, b: Breaker, now: int,
      deadline: Option<int>)
    requires 1 <= attempt <= cfg.attempts
    requires attempt > 1 ==> deadline.None? || now < deadline.value
    ensures var e := Attempts(cfg, meets, attempt, b, now, deadline);
      AllPaced(cfg, meets, attempt, e.sleeps, deadline) && (e.outcome.Error? ==> GaveUp(cfg, meets, e, deadline))
    decreases cfg.attempts + 1 - attempt
  {
    var turn := TurnOf(cfg, meets(attempt), attempt, b, now, deadline);
    if turn.Sleeps? {
      var woken := turn.sleep.until + Late(meets(attempt));
      var rest := Attempts(cfg, meets, attempt + 1, turn.breaker, woken, deadline);
      if !Reached(deadline, woken) { GivesUpExactly(cfg, meets, attempt + 1, turn.breaker, woken, deadline); }
      PacedMore(cfg, meets, attempt, turn.sleep, rest.sleeps, deadline);
    }
  }

  /** A call without a deadline, or with one of 0 ms, gives up only on an error that is not to be
      retried or after all its attempts; one with a deadline never sleeps past so many ms. */
  lemma DeadlineExactly(cfg: Config, meets: nat -> Dial, isProtected: bool, b: Breaker, now: int,
      deadlineMs: Option<nat>)
    requires cfg.attempts >= 1
    ensures var e := Fetched(cfg, meets, isProtected, b, now, deadlineMs);
      && (deadlineMs in {None, Some(0)} && e.outcome.Error? ==>
            e.dials >= 1 && meets(e.dials).Broke? && (!meets(e.dials).retryable || e.dials == cfg.attempts))
      && (deadlineMs.Some? && deadlineMs.value > 0 ==> forall i :: 0 <= i < |e.sleeps| ==>
            e.sleeps[i].from < now + deadlineMs.value && e.sleeps[i].until <= now + deadlineMs.value)
  {
    GivesUpExactly(cfg, meets, 1, if isProtected then b else Gated(cfg, b, now), now, Deadline(now, deadlineMs));
    var e := Fetched(cfg, meets, isProtected, b, now, deadlineMs);
    if deadlineMs.Some? && deadlineMs.value > 0 {
      forall i | 0 <= i < |e.sleeps|
        ensures e.sleeps[i].from < now + deadlineMs.value && e.sleeps[i].until <= now + deadlineMs.value
      {
        assert Paced(cfg, meets(1 + i), 1 + i, e.sleeps[i], Deadline(now, deadlineMs));
      }
    }
  }
}
