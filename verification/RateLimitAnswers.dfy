/** What checks answer and records leave, against the log of what was recorded. */
module RateLimitAnswers {
  import opened Buckets
  import opened RateLimit
  import opened RateLimitRuns
  import opened Text

  /** The answer to `amount` more where `recorded` is recorded: allowed exactly within the limit,
      with what is then left, until the end of the window that `now` is in. */
  predicate Answers(d: Decision, windowSec: nat, limit: nat, recorded: nat, amount: nat, now: nat)
    requires windowSec > 0
  {
    && (d.allowed <==> recorded + amount <= limit) && d.limit == limit
    && d.remaining == (if recorded + amount <= limit then limit - recorded - amount else 0)
    && d.resetAt % windowSec == 0 && d.resetAt - windowSec <= now < d.resetAt
  }

  lemma WindowEnds(now: nat, windowSec: nat)
    requires windowSec > 0
    ensures var end := WindowStart(now, windowSec) + windowSec; end % windowSec == 0 && end - windowSec <= now < end
  {
    WindowHolds(now, windowSec);
    var q := now / windowSec;
    assert WindowStart(now, windowSec) == q * windowSec;
    RateLimitRuns.OneMore(q, windowSec);
    Multiple(q + 1, windowSec);
  }

  lemma Multiple(q: nat, n: nat)
    requires n > 0
    ensures (q * n) % n == 0
  {
    QuotientIs(q * n, q, n);
  }

  /** Where the store agrees with the log, a check answers by the log. */
  lemma CheckAnswers(c: Counter, w: World, limit: nat, amount: nat)
    requires c.windowSec > 0 && Agrees(c, w)
    ensures var recorded := WindowSum(w.log, c, w.now);
      Answers(Checked(w.store, c, w.now, limit, amount), c.windowSec, limit, recorded, amount, w.now)
    ensures Checked(w.store, c, w.now, limit, amount).reason.None?
  {
    WindowHolds(w.now, c.windowSec);
    WindowEnds(w.now, c.windowSec);
  }

  /** After any run in which live buckets fit, a check is allowed exactly when what was recorded in
      its counter's window and what it asks for are within the limit. */
  lemma ChecksExactly(cfg: Config, c: Counter, m: nat, a: nat, steps: seq<Step>, limit: nat, amount: nat)
    requires c.windowSec > 0 && m >= 1 && AllowedRun(cfg, c, m, a, START, steps)
    ensures After(cfg, START, steps).Some?
    ensures var w := After(cfg, START, steps).value;
      Answers(Checked(w.store, c, w.now, limit, amount), c.windowSec, limit, WindowSum(w.log, c, w.now), amount, w.now)
  {
    StartInv(cfg, c, m, a);
    RunKeeps(cfg, c, m, a, START, steps);
    CheckAnswers(c, After(cfg, START, steps).value, limit, amount);
  }

  function At(w: World, s: Store, now: nat): World { w.(store := s, now := now) }

  /** The store still agrees after a sweep and some time. */
  lemma LaterAgrees(c: Counter, w: World, s: Store, now: nat)
    requires c.windowSec > 0 && Agrees(c, w) && now >= w.now && s == Swept(w.store, w.now)
    ensures Agrees(c, At(w, s, now))
  {
    SweptAgrees(c, w);
    TickAgrees(c, w.(store := s), now - w.now);
  }

  /** The four clock readings, none before the world's or the one before it. */
  predicate InOrder(w: World, t: Times) { w.now <= t.minute <= t.hour <= t.day <= t.fee }

  ghost predicate AgreesAll(w: World, owner: string) {
    Agrees(Counter(owner, Settle, 60), w) && Agrees(Counter(owner, Settle, 3600), w)
    && Agrees(Counter(owner, Settle, 86400), w) && Agrees(Counter(owner, Fee, 86400), w)
  }

  lemma LaterAgreesAll(w: World, owner: string, s: Store, now: nat)
    requires AgreesAll(w, owner) && now >= w.now && s == Swept(w.store, w.now)
    ensures AgreesAll(At(w, s, now), owner)
  {
    LaterAgrees(Counter(owner, Settle, 60), w, s, now);
    LaterAgrees(Counter(owner, Settle, 3600), w, s, now);
    LaterAgrees(Counter(owner, Settle, 86400), w, s, now);
    LaterAgrees(Counter(owner, Fee, 86400), w, s, now);
  }

  lemma TickAgreesAll(w: World, owner: string, now: nat)
    requires AgreesAll(w, owner) && now >= w.now
    ensures AgreesAll(w.(now := now), owner)
  {
    TickAgrees(Counter(owner, Settle, 60), w, now - w.now);
    TickAgrees(Counter(owner, Settle, 3600), w, now - w.now);
    TickAgrees(Counter(owner, Settle, 86400), w, now - w.now);
    TickAgrees(Counter(owner, Fee, 86400), w, now - w.now);
  }

  predicate Exceeds(d: Decision, limit: nat, reason: string) { d.limit == limit && d.reason == Some(reason) }

  /** A settlement is allowed exactly when one more fits the minute, the hour and the day, and the
      greatest fee the day's ceiling; the answer is then that of the least remaining of the first
      three, and else that of the first that does not fit, a refused fee by its own reason. */
  lemma SettleAllowedExactly(w: World, owner: string, limits: Limits, maxFee: nat, t: Times)
    requires AgreesAll(w, owner) && InOrder(w, t)
    ensures var d := SettleChecked(w.store, owner, limits, maxFee, t);
      var minute := WindowSum(w.log, Counter(owner, Settle, 60), t.minute);
      var hour := WindowSum(w.log, Counter(owner, Settle, 3600), t.hour);
      var day := WindowSum(w.log, Counter(owner, Settle, 86400), t.day);
      var fee := WindowSum(w.log, Counter(owner, Fee, 86400), t.fee);
      && (d.allowed <==> minute + 1 <= limits.settleRpm && hour + 1 <= limits.settleRph
                         && day + 1 <= limits.settleRpd && fee + maxFee <= limits.feeSpd)
      && (d.allowed ==> d.remaining == Min(Min(limits.settleRpm - minute, limits.settleRph - hour),
                                           limits.settleRpd - day) - 1)
      && (!d.allowed ==>
            if minute + 1 > limits.settleRpm then Exceeds(d, limits.settleRpm, "rate_limit_exceeded")
            else if hour + 1 > limits.settleRph then Exceeds(d, limits.settleRph, "rate_limit_exceeded")
            else if day + 1 > limits.settleRpd then Exceeds(d, limits.settleRpd, "rate_limit_exceeded")
            else Exceeds(d, limits.feeSpd, "fee_ceiling_exceeded"))
  {
    var w0 := w.(now := t.minute);
    TickAgreesAll(w, owner, t.minute);
    var w1 := At(w0, Swept(w0.store, t.minute), t.hour);
    LaterAgreesAll(w0, owner, w1.store, t.hour);
    var w2 := At(w1, Swept(w1.store, t.hour), t.day);
    LaterAgreesAll(w1, owner, w2.store, t.day);
    var w3 := At(w2, Swept(w2.store, t.day), t.fee);
    LaterAgreesAll(w2, owner, w3.store, t.fee);
    CheckAnswers(Counter(owner, Settle, 60), w0, limits.settleRpm, 1);
    CheckAnswers(Counter(owner, Settle, 3600), w1, limits.settleRph, 1);
    CheckAnswers(Counter(owner, Settle, 86400), w2, limits.settleRpd, 1);
    CheckAnswers(Counter(owner, Fee, 86400), w3, limits.feeSpd, maxFee);
  }

  lemma VerifyAllowedExactly(w: World, owner: string, limits: Limits)
    requires Agrees(Counter(owner, Verify, 60), w)
    ensures var d := VerifyChecked(w.store, owner, limits, w.now);
      Answers(d, 60, limits.verifyRpm, WindowSum(w.log, Counter(owner, Verify, 60), w.now), 1, w.now)
      && d.reason == if d.allowed then None else Some("rate_limit_exceeded")
  {
    CheckAnswers(Counter(owner, Verify, 60), w, limits.verifyRpm, 1);
  }

  /** A record at `now` that sheds nothing live. */
  predicate Recordable(maxSize: nat, s: Store, c: Counter, now: nat, amount: nat, gone: set<string>)
    requires c.windowSec > 0
  {
    Sheds(Bumped(s, c, now, amount), gone, maxSize) && |Live(Bumped(s, c, now, amount), now)| <= maxSize
  }

  /** The world one record later. */
  function Recorded(w: World, d: Counter, now: nat, amount: nat, gone: set<string>): World
    requires d.windowSec > 0
  {
    World(Bumped(w.store, d, now, amount) - gone, w.tickets, w.log + [Entry(d, now, amount)], now)
  }

  lemma RecordedAgrees(cfg: Config, c: Counter, w: World, d: Counter, now: nat, amount: nat, gone: set<string>)
    requires c.windowSec > 0 && d.windowSec > 0 && Agrees(c, w) && now >= w.now
    requires Recordable(cfg.maxSize, w.store, d, now, amount, gone)
    ensures Agrees(c, Recorded(w, d, now, amount, gone))
  {
    TickAgrees(c, w, now - w.now);
    RecordAgrees(cfg, c, w.(now := now), d, amount, gone, w.tickets);
  }

  /** The counters of a settlement, recorded in the minute, the hour and the day. */
  function Counted(w: World, owner: string, t: Times, gone: Shed): World {
    var w1 := Recorded(w, Counter(owner, Settle, 60), t.minute, 1, gone.minute);
    var w2 := Recorded(w1, Counter(owner, Settle, 3600), t.hour, 1, gone.hour);
    Recorded(w2, Counter(owner, Settle, 86400), t.day, 1, gone.day)
  }

  /** No record of the settlement sheds a live bucket. */
  ghost predicate SettleFits(maxSize: nat, w: World, owner: string, fee: nat, t: Times, gone: Shed) {
    var w1 := Recorded(w, Counter(owner, Settle, 60), t.minute, 1, gone.minute);
    var w2 := Recorded(w1, Counter(owner, Settle, 3600), t.hour, 1, gone.hour);
    && Recordable(maxSize, w.store, Counter(owner, Settle, 60), t.minute, 1, gone.minute)
    && Recordable(maxSize, w1.store, Counter(owner, Settle, 3600), t.hour, 1, gone.hour)
    && Recordable(maxSize, w2.store, Counter(owner, Settle, 86400), t.day, 1, gone.day)
    && (fee > 0 ==>
          Recordable(maxSize, Counted(w, owner, t, gone).store, Counter(owner, Fee, 86400), t.fee, fee, gone.fee))
  }

  lemma CountedLog(w: World, owner: string, t: Times, gone: Shed)
    ensures Counted(w, owner, t, gone).log == w.log + CountEntries(owner, t)
    ensures Counted(w, owner, t, gone).now == t.day && Counted(w, owner, t, gone).tickets == w.tickets
  {
  }

  lemma CountedAgrees(cfg: Config, c: Counter, w: World, owner: string, fee: nat, t: Times, gone: Shed)
    requires c.windowSec > 0 && Agrees(c, w) && InOrder(w, t) && SettleFits(cfg.maxSize, w, owner, fee, t, gone)
    ensures Agrees(c, Counted(w, owner, t, gone))
  {
    var w1 := Recorded(w, Counter(owner, Settle, 60), t.minute, 1, gone.minute);
    RecordedAgrees(cfg, c, w, Counter(owner, Settle, 60), t.minute, 1, gone.minute);
    var w2 := Recorded(w1, Counter(owner, Settle, 3600), t.hour, 1, gone.hour);
    RecordedAgrees(cfg, c, w1, Counter(owner, Settle, 3600), t.hour, 1, gone.hour);
    RecordedAgrees(cfg, c, w2, Counter(owner, Settle, 86400), t.day, 1, gone.day);
  }

  /** One in each of the three windows. */
  function CountEntries(owner: string, t: Times): seq<Entry> {
    [Entry(Counter(owner, Settle, 60), t.minute, 1), Entry(Counter(owner, Settle, 3600), t.hour, 1),
     Entry(Counter(owner, Settle, 86400), t.day, 1)]
  }

  function FeeEntries(owner: string, fee: nat, t: Times): seq<Entry> {
    if fee > 0 then [Entry(Counter(owner, Fee, 86400), t.fee, fee)] else []
  }

  /** A recorded settlement is in the log once for the minute, the hour and the day, and its fee,
      where there is one, in the day's fees; every counter's bucket agrees with that log. */
  lemma SettleRecordedAgrees(cfg: Config, c: Counter, w: World, owner: string, fee: nat, t: Times, gone: Shed)
    requires c.windowSec > 0 && Agrees(c, w) && InOrder(w, t) && SettleFits(cfg.maxSize, w, owner, fee, t, gone)
    ensures Agrees(c, World(SettleRecorded(w.store, owner, fee, t, gone), w.tickets,
      w.log + (CountEntries(owner, t) + FeeEntries(owner, fee, t)), if fee > 0 then t.fee else t.day))
  {
    var counted := Counted(w, owner, t, gone);
    CountedAgrees(cfg, c, w, owner, fee, t, gone);
    CountedLog(w, owner, t, gone);
    Assoc(w.log, CountEntries(owner, t), FeeEntries(owner, fee, t));
    if fee > 0 {
      RecordedAgrees(cfg, c, counted, Counter(owner, Fee, 86400), t.fee, fee, gone.fee);
    } else {
      assert CountEntries(owner, t) + [] == CountEntries(owner, t);
    }
  }

  /** A sweep removes exactly the buckets that a read does not see, and so changes no answer. */
  lemma SweepsWhatGetHides(s: Store, id: string, now: int)
    ensures id in RateLimit.Swept(s, now) <==> RateLimit.Got(s, id, now).Some?
    ensures RateLimit.Got(RateLimit.Swept(s, now), id, now) == RateLimit.Got(s, id, now)
    ensures RateLimit.Got(s, id, now).Some? ==> RateLimit.Got(s, id, now).value.resetAt > now
  {
  }

  /** Increments of one bucket, each of so much at such a time. */
  datatype Count = Count(amount: nat, resetAt: int, now: int)

  function Counts(s: Store, id: string, counts: seq<Count>): Store {
    if counts == [] then s
    else
      var last := counts[|counts| - 1];
      RateLimit.Incremented(Counts(s, id, counts[..|counts| - 1]), id, last.amount, last.resetAt, last.now)
  }

  function Amounts(counts: seq<Count>): nat {
    if counts == [] then 0 else Amounts(counts[..|counts| - 1]) + counts[|counts| - 1].amount
  }

  /** A bucket begun anew counts all that comes before the end it was begun with, whatever ends the
      later increments ask for. */
  lemma {:induction false} WindowIsFixed(s: Store, id: string, counts: seq<Count>)
    requires counts != [] && RateLimit.Got(s, id, counts[0].now).None?
    requires forall c :: c in counts ==> c.now < counts[0].resetAt
    ensures id in Counts(s, id, counts)
    ensures Counts(s, id, counts)[id] == Bucket(Amounts(counts), counts[0].resetAt)
  {
    var init := counts[..|counts| - 1];
    assert counts[|counts| - 1] in counts;
    if init == [] {
      assert counts == [counts[0]];
    } else {
      assert forall c :: c in init ==> c in counts;
      WindowIsFixed(s, id, init);
    }
  }
}
