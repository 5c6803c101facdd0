/** The in-process bucket store and the limiter that checks and records through it. */
module RateLimit {
  import opened Buckets
  import opened Decimals
  import opened Text

  datatype Kind = Verify | Settle | Fee | CatalogWrite | CatalogRead

  function Name(k: Kind): string {
    match k
    case Verify => "verify"
    case Settle => "settle"
    case Fee => "fee"
    case CatalogWrite => "catalog"
    case CatalogRead => "catalog_read"
  }

  /** One fixed-window counter of one caller. */
  datatype Counter = Counter(owner: string, kind: Kind, windowSec: nat)

  function WindowStart(now: nat, windowSec: nat): nat
    requires windowSec > 0
  {
    now - now % windowSec
  }

  function BucketId(c: Counter, start: nat): string {
    c.owner + ":" + Name(c.kind) + ":" + Decimal(start) + ":" + Decimal(c.windowSec)
  }

  /** Whatever the owner's text, an IPv6 address included, an id names one counter and window. */
  lemma BucketIdInjective(c: Counter, start: nat, d: Counter, begin: nat)
    requires BucketId(c, start) == BucketId(d, begin)
    ensures c == d && start == begin
  {
    NoColon(c.windowSec);
    NoColon(d.windowSec);
    NoColon(start);
    NoColon(begin);
    LastColon(c.owner + ":" + Name(c.kind) + ":" + Decimal(start), Decimal(c.windowSec),
      d.owner + ":" + Name(d.kind) + ":" + Decimal(begin), Decimal(d.windowSec));
    LastColon(c.owner + ":" + Name(c.kind), Decimal(start), d.owner + ":" + Name(d.kind), Decimal(begin));
    LastColon(c.owner, Name(c.kind), d.owner, Name(d.kind));
    DecimalInjective(c.windowSec, d.windowSec);
    DecimalInjective(start, begin);
  }

  // ---------- the store ----------

  function Got(s: Store, id: string, now: int): Option<Bucket> {
    if id in s && s[id].resetAt > now then Some(s[id]) else None
  }

  /** A live bucket grows and keeps its end; an expired or missing one starts over. */
  function Incremented(s: Store, id: string, amount: nat, resetAt: int, now: int): Store {
    s[id := if Got(s, id, now).Some? then Bucket(s[id].count + amount, s[id].resetAt) else Bucket(amount, resetAt)]
  }

  function Swept(s: Store, now: int): Store { map id | id in s && s[id].resetAt > now :: s[id] }

  class MemoryStore {
    var buckets: Store
    const maxSize: nat

    constructor (maxSize: nat)
      ensures buckets == map[] && this.maxSize == maxSize
    {
      buckets := map[];
      this.maxSize := maxSize;
    }

    method Get(id: string, now: int) returns (r: Option<Bucket>)
      ensures r == Got(buckets, id, now)
    {
      if id !in buckets || buckets[id].resetAt <= now { return None; }
      r := Some(buckets[id]);
    }

    method Increment(id: string, amount: nat, resetAt: int, now: int) returns (r: Bucket, gone: set<string>)
      modifies this
      ensures var counted := Incremented(old(buckets), id, amount, resetAt, now);
        r == counted[id] && Sheds(counted, gone, maxSize) && buckets == counted - gone
    {
      if id !in buckets || buckets[id].resetAt <= now {
        buckets := buckets[id := Bucket(0, resetAt)];
      }
      r := Bucket(buckets[id].count + amount, buckets[id].resetAt);
      buckets := buckets[id := r];
      assert buckets == Incremented(old(buckets), id, amount, resetAt, now);
      gone := ShedOldest(buckets, maxSize);
      buckets := buckets - gone;
    }

    method Sweep(now: int)
      modifies this
      ensures buckets == Swept(old(buckets), now)
    {
      var todo := buckets.Keys;
      while todo != {}
        invariant todo <= buckets.Keys <= old(buckets).Keys
        invariant forall id :: id in buckets ==> buckets[id] == old(buckets)[id]
        invariant forall id :: id in old(buckets) && id !in todo ==>
          (id in buckets <==> old(buckets)[id].resetAt > now)
        decreases todo
      {
        var id :| id in todo;
        if buckets[id].resetAt <= now { buckets := buckets - {id}; }
        todo := todo - {id};
      }
    }
  }

  // ---------- the limiter ----------

  datatype Limits = Limits(verifyRpm: nat, settleRpm: nat, settleRph: nat, settleRpd: nat, feeSpd: nat)

  datatype Decision = Decision(allowed: bool, limit: nat, remaining: nat, resetAt: int, reason: Option<string>)

  const MINUTE := 60
  const HOUR := 3600
  const DAY := 86400

  function CountOf(b: Option<Bucket>): nat { if b.Some? then b.value.count else 0 }

  function Decided(b: Option<Bucket>, now: nat, windowSec: nat, limit: nat, amount: nat): Decision
    requires windowSec > 0
  {
    var resetAt := if b.Some? then b.value.resetAt else WindowStart(now, windowSec) + windowSec;
    if CountOf(b) + amount > limit then Decision(false, limit, 0, resetAt, None)
    else Decision(true, limit, limit - CountOf(b) - amount, resetAt, None)
  }

  function Checked(s: Store, c: Counter, now: nat, limit: nat, amount: nat): Decision
    requires c.windowSec > 0
  {
    Decided(Got(s, BucketId(c, WindowStart(now, c.windowSec)), now), now, c.windowSec, limit, amount)
  }

  /** The first of a and b with the least allowance left. */
  function Tighter(a: Decision, b: Decision): Decision { if b.remaining < a.remaining then b else a }

  function Refused(d: Decision, reason: string): Decision { d.(reason := Some(reason)) }

  /** The clock readings of the four checks of a settle. */
  datatype Times = Times(minute: nat, hour: nat, day: nat, fee: nat)

  /** checkSettle on the stores its four reads find: counters first, the fee ceiling last. */
  function SettleDecision(minute: Decision, hour: Decision, day: Decision, fee: Decision): (d: Decision)
    ensures d.allowed <==> minute.allowed && hour.allowed && day.allowed && fee.allowed
    ensures d.allowed ==>
      d in {minute, hour, day} && d.remaining <= minute.remaining && d.remaining <= hour.remaining
      && d.remaining <= day.remaining
    ensures !d.allowed ==>
      (d.reason == Some("fee_ceiling_exceeded") <==> minute.allowed && hour.allowed && day.allowed)
  {
    if !minute.allowed then Refused(minute, "rate_limit_exceeded")
    else if !hour.allowed then Refused(hour, "rate_limit_exceeded")
    else if !day.allowed then Refused(day, "rate_limit_exceeded")
    else if !fee.allowed then Refused(fee, "fee_ceiling_exceeded")
    else Tighter(Tighter(minute, hour), day)
  }

  /** checkSettle, with the sweep that goes with each read. */
  function SettleChecked(s0: Store, owner: string, limits: Limits, maxFee: nat, t: Times): Decision {
    var s1 := Swept(s0, t.minute);
    var s2 := Swept(s1, t.hour);
    var s3 := Swept(s2, t.day);
    SettleDecision(
      Checked(s0, Counter(owner, Settle, MINUTE), t.minute, limits.settleRpm, 1),
      Checked(s1, Counter(owner, Settle, HOUR), t.hour, limits.settleRph, 1),
      Checked(s2, Counter(owner, Settle, DAY), t.day, limits.settleRpd, 1),
      Checked(s3, Counter(owner, Fee, DAY), t.fee, limits.feeSpd, maxFee))
  }

  /** checkVerify */
  function VerifyChecked(s: Store, owner: string, limits: Limits, now: nat): Decision {
    var raw := Checked(s, Counter(owner, Verify, MINUTE), now, limits.verifyRpm, 1);
    if raw.allowed then raw else Refused(raw, "rate_limit_exceeded")
  }

  /** What each record of a settlement shed. */
  datatype Shed = Shed(minute: set<string>, hour: set<string>, day: set<string>, fee: set<string>)

  /** recordSettle */
  function SettleRecorded(s: Store, owner: string, fee: nat, t: Times, gone: Shed): Store {
    var s1 := Bumped(s, Counter(owner, Settle, MINUTE), t.minute, 1) - gone.minute;
    var s2 := Bumped(s1, Counter(owner, Settle, HOUR), t.hour, 1) - gone.hour;
    var s3 := Bumped(s2, Counter(owner, Settle, DAY), t.day, 1) - gone.day;
    if fee > 0 then Bumped(s3, Counter(owner, Fee, DAY), t.fee, fee) - gone.fee else s3
  }

  /** The store after `amount` more in the counter's current window, before any shedding. */
  function Bumped(s: Store, c: Counter, now: nat, amount: nat): Store
    requires c.windowSec > 0
  {
    var start := WindowStart(now, c.windowSec);
    Incremented(s, BucketId(c, start), amount, start + c.windowSec, now)
  }

  class RateLimiter {
    const store: MemoryStore
    const limitsOf: string -> Limits

    constructor (store: MemoryStore, limitsOf: string -> Limits)
      ensures this.store == store && this.limitsOf == limitsOf
    {
      this.store, this.limitsOf := store, limitsOf;
    }

    /** The read, and the sweep that goes with it. */
    method Check(c: Counter, now: nat, limit: nat, amount: nat) returns (d: Decision)
      requires c.windowSec > 0
      modifies store
      ensures d == Checked(old(store.buckets), c, now, limit, amount)
      ensures store.buckets == Swept(old(store.buckets), now)
    {
      var bucket := store.Get(BucketId(c, WindowStart(now, c.windowSec)), now);
      store.Sweep(now);
      d := Decided(bucket, now, c.windowSec, limit, amount);
    }

    method Increment(c: Counter, now: nat, amount: nat) returns (b: Bucket, gone: set<string>)
      requires c.windowSec > 0
      modifies store
      ensures var counted := Bumped(old(store.buckets), c, now, amount);
        b == counted[BucketId(c, WindowStart(now, c.windowSec))]
        && Sheds(counted, gone, store.maxSize) && store.buckets == counted - gone
    {
      var start := WindowStart(now, c.windowSec);
      b, gone := store.Increment(BucketId(c, start), amount, start + c.windowSec, now);
    }

    method CheckVerify(owner: string, now: nat) returns (d: Decision)
      modifies store
      ensures d == VerifyChecked(old(store.buckets), owner, limitsOf(owner), now)
      ensures store.buckets == Swept(old(store.buckets), now)
    {
      d := Check(Counter(owner, Verify, MINUTE), now, limitsOf(owner).verifyRpm, 1);
      if !d.allowed { d := d.(reason := Some("rate_limit_exceeded")); }
    }

    method CheckSettle(owner: string, maxFee: nat, t: Times) returns (d: Decision)
      modifies store
      ensures d == SettleChecked(old(store.buckets), owner, limitsOf(owner), maxFee, t)
      ensures var swept := Swept(Swept(Swept(old(store.buckets), t.minute), t.hour), t.day);
        store.buckets == if d.reason == Some("rate_limit_exceeded") then swept else Swept(swept, t.fee)
    {
      var limits := limitsOf(owner);
      var minute := Check(Counter(owner, Settle, MINUTE), t.minute, limits.settleRpm, 1);
      var hour := Check(Counter(owner, Settle, HOUR), t.hour, limits.settleRph, 1);
      var day := Check(Counter(owner, Settle, DAY), t.day, limits.settleRpd, 1);
      var checks := [minute, hour, day];
      for i := 0 to 3
        invariant (i > 0 ==> minute.allowed) && (i > 1 ==> hour.allowed) && (i > 2 ==> day.allowed)
      {
        if !checks[i].allowed { return checks[i].(reason := Some("rate_limit_exceeded")); }
      }
      var fee := Check(Counter(owner, Fee, DAY), t.fee, limits.feeSpd, maxFee);
      if !fee.allowed { return fee.(reason := Some("fee_ceiling_exceeded")); }
      d := if hour.remaining < minute.remaining then hour else minute;
      if day.remaining < d.remaining { d := day; }
    }

    /** Every settlement counts once in each window, its fee in the day's. */
    method RecordSettle(owner: string, fee: nat, t: Times)
      returns (gone: Shed)
      modifies store
      ensures store.buckets == SettleRecorded(old(store.buckets), owner, fee, t, gone)
    {
      var _, minute := Increment(Counter(owner, Settle, MINUTE), t.minute, 1);
      var _, hour := Increment(Counter(owner, Settle, HOUR), t.hour, 1);
      var _, day := Increment(Counter(owner, Settle, DAY), t.day, 1);
      gone := Shed(minute, hour, day, {});
      if fee > 0 {
        var _, feeGone := Increment(Counter(owner, Fee, DAY), t.fee, fee);
        gone := gone.(fee := feeGone);
      }
    }
  }
}
