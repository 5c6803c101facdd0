/** Whole runs of checks and records: any number of callers, interleaved at every await, with
    a bound on how many are between their check and their record. */
module RateLimitRuns {
  import opened Buckets
  import opened RateLimit
  import opened Text

  datatype Config = Config(limitOf: Counter -> nat, maxSize: nat)

  /** A passed check whose record is still to come. */
  datatype Ticket = Ticket(counter: Counter, reserve: nat, held: bool)

  datatype Entry = Entry(counter: Counter, at: nat, amount: nat)

  /** `log` is every record made, which the program does not keep. */
  datatype World = World(store: Store, tickets: seq<Ticket>, log: seq<Entry>, now: nat)

  datatype Step =
    | Check(c: Counter, reserve: nat)              // and it is allowed
    | Refuse(c: Counter, reserve: nat)             // and it is not
    | Record(i: nat, amount: nat, gone: set<string>)
    | Abandon(i: nat)                              // what was checked for did not happen
    | Sweep
    | Tick(sec: nat)

  const START := World(map[], [], [], 0)

  /** None when the step is not enabled; a record is never more than its check reserved. */
  function Do(cfg: Config, w: World, s: Step): Option<World> {
    match s
    case Check(c, reserve) =>
      if c.windowSec == 0 || !Checked(w.store, c, w.now, cfg.limitOf(c), reserve).allowed then None
      else Some(w.(store := Swept(w.store, w.now), tickets := w.tickets + [Ticket(c, reserve, true)]))
    case Refuse(c, reserve) =>
      if c.windowSec == 0 || Checked(w.store, c, w.now, cfg.limitOf(c), reserve).allowed then None
      else Some(w.(store := Swept(w.store, w.now)))
    case Record(i, amount, gone) =>
      if i >= |w.tickets| || !w.tickets[i].held || amount > w.tickets[i].reserve
        || w.tickets[i].counter.windowSec == 0 then None
      else
        var c := w.tickets[i].counter;
        var counted := Bumped(w.store, c, w.now, amount);
        if !Sheds(counted, gone, cfg.maxSize) then None
        else Some(World(counted - gone, w.tickets[i := w.tickets[i].(held := false)],
                        w.log + [Entry(c, w.now, amount)], w.now))
    case Abandon(i) =>
      if i >= |w.tickets| then None else Some(w.(tickets := w.tickets[i := w.tickets[i].(held := false)]))
    case Sweep => Some(w.(store := Swept(w.store, w.now)))
    case Tick(sec) => Some(w.(now := w.now + sec))
  }

  function After(cfg: Config, w: World, steps: seq<Step>): Option<World>
    decreases |steps|
  {
    if steps == [] then Some(w)
    else match Do(cfg, w, steps[0])
      case None => None
      case Some(next) => After(cfg, next, steps[1..])
  }

  /** What was recorded in a counter from one second up to another. */
  function Sum(log: seq<Entry>, c: Counter, from: int, to: int): nat {
    if log == [] then 0
    else
      var e := log[|log| - 1];
      Sum(log[..|log| - 1], c, from, to) + if e.counter == c && from <= e.at < to then e.amount else 0
  }

  function Held(ts: seq<Ticket>, c: Counter): nat {
    if ts == [] then 0
    else Held(ts[..|ts| - 1], c) + if ts[|ts| - 1].counter == c && ts[|ts| - 1].held then 1 else 0
  }

  function HeldSum(ts: seq<Ticket>, c: Counter): nat {
    if ts == [] then 0
    else HeldSum(ts[..|ts| - 1], c) + if ts[|ts| - 1].counter == c && ts[|ts| - 1].held then ts[|ts| - 1].reserve else 0
  }

  /** What one window may hold when `m` callers may be in flight and reserve at most `a` each. */
  function Cap(limit: nat, m: nat, a: nat): nat
    requires m >= 1
  {
    limit + (m - 1) * Min(a, limit)
  }

  /** At most `m` checks of the counter are in flight, each of at most `a`; live buckets fit. */
  predicate Allowed(cfg: Config, c: Counter, m: nat, a: nat, w: World, s: Step) {
    && (s.Check? && s.c == c ==> s.reserve <= a && Held(w.tickets, c) < m)
    && (s.Record? && s.i < |w.tickets| && w.tickets[s.i].counter.windowSec > 0 ==>
          |Live(Bumped(w.store, w.tickets[s.i].counter, w.now, s.amount), w.now)| <= cfg.maxSize)
  }

  ghost predicate AllowedRun(cfg: Config, c: Counter, m: nat, a: nat, w: World, steps: seq<Step>)
    decreases |steps|
  {
    steps == [] ||
    (Allowed(cfg, c, m, a, w, steps[0]) && match Do(cfg, w, steps[0])
     case None => false
     case Some(next) => AllowedRun(cfg, c, m, a, next, steps[1..]))
  }

  // ---------- the store agrees with the log ----------

  /** The current window's bucket is what the log says, and no later window has one. */
  ghost predicate Agrees(c: Counter, w: World)
    requires c.windowSec > 0
  {
    var start := WindowStart(w.now, c.windowSec);
    var id := BucketId(c, start);
    var recorded := Sum(w.log, c, start, start + c.windowSec);
    && (if id in w.store then w.store[id] == Bucket(recorded, start + c.windowSec) else recorded == 0)
    && (forall d, later: nat :: later > w.now ==> BucketId(d, later) !in w.store)
    && (forall e :: e in w.log ==> e.at <= w.now)
  }

  lemma WindowHolds(now: nat, windowSec: nat)
    requires windowSec > 0
    ensures WindowStart(now, windowSec) <= now < WindowStart(now, windowSec) + windowSec
  {
  }

  lemma SumSnoc(log: seq<Entry>, e: Entry, c: Counter, from: int, to: int)
    ensures Sum(log + [e], c, from, to) ==
      Sum(log, c, from, to) + if e.counter == c && from <= e.at < to then e.amount else 0
  {
    assert (log + [e])[..|log|] == log;
  }

  lemma {:induction false} SumBefore(log: seq<Entry>, c: Counter, from: int, to: int)
    requires forall e :: e in log ==> e.at < from
    ensures Sum(log, c, from, to) == 0
  {
    if log != [] {
      SumBefore(log[..|log| - 1], c, from, to);
      assert log[|log| - 1] in log;
    }
  }

  lemma SweptAgrees(c: Counter, w: World)
    requires c.windowSec > 0 && Agrees(c, w)
    ensures Agrees(c, w.(store := Swept(w.store, w.now)))
  {
    WindowHolds(w.now, c.windowSec);
  }

  /** The bucket of the counter's own record grows with the log. */
  lemma OwnRecord(c: Counter, w: World, amount: nat)
    requires c.windowSec > 0 && Agrees(c, w)
    ensures var start := WindowStart(w.now, c.windowSec);
      var counted := Bumped(w.store, c, w.now, amount); var id := BucketId(c, start);
      id in counted && counted[id] ==
        Bucket(Sum(w.log + [Entry(c, w.now, amount)], c, start, start + c.windowSec), start + c.windowSec)
  {
    var start := WindowStart(w.now, c.windowSec);
    WindowHolds(w.now, c.windowSec);
    SumSnoc(w.log, Entry(c, w.now, amount), c, start, start + c.windowSec);
  }

  /** Another counter's record leaves it. */
  lemma OtherRecord(c: Counter, w: World, d: Counter, amount: nat)
    requires c.windowSec > 0 && d.windowSec > 0 && d != c
    ensures var start := WindowStart(w.now, c.windowSec);
      var counted := Bumped(w.store, d, w.now, amount); var id := BucketId(c, start);
      && (id in counted <==> id in w.store) && (id in w.store ==> counted[id] == w.store[id])
      && Sum(w.log + [Entry(d, w.now, amount)], c, start, start + c.windowSec) ==
        Sum(w.log, c, start, start + c.windowSec)
  {
    var start, begin := WindowStart(w.now, c.windowSec), WindowStart(w.now, d.windowSec);
    SumSnoc(w.log, Entry(d, w.now, amount), c, start, start + c.windowSec);
    if BucketId(c, start) == BucketId(d, begin) { BucketIdInjective(c, start, d, begin); }
  }

  lemma NoLaterWindow(s: Store, d: Counter, now: nat, amount: nat, e: Counter, later: nat)
    requires d.windowSec > 0 && later > now && BucketId(e, later) !in s
    ensures BucketId(e, later) !in Bumped(s, d, now, amount)
  {
    var begin := WindowStart(now, d.windowSec);
    WindowHolds(now, d.windowSec);
    if BucketId(e, later) == BucketId(d, begin) { BucketIdInjective(e, later, d, begin); }
  }

  lemma RecordAgrees(cfg: Config, c: Counter, w: World, d: Counter, amount: nat, gone: set<string>, ts: seq<Ticket>)
    requires c.windowSec > 0 && d.windowSec > 0 && Agrees(c, w)
    requires var counted := Bumped(w.store, d, w.now, amount);
      Sheds(counted, gone, cfg.maxSize) && |Live(counted, w.now)| <= cfg.maxSize
    ensures Agrees(c, World(Bumped(w.store, d, w.now, amount) - gone, ts, w.log + [Entry(d, w.now, amount)], w.now))
  {
    var counted := Bumped(w.store, d, w.now, amount);
    WindowHolds(w.now, c.windowSec);
    ShedsLiveExactly(counted, gone, cfg.maxSize, w.now);
    if d == c { OwnRecord(c, w, amount); } else { OtherRecord(c, w, d, amount); }
    forall e, later: nat | later > w.now ensures BucketId(e, later) !in counted {
      NoLaterWindow(w.store, d, w.now, amount, e, later);
    }
  }

  lemma TickAgrees(c: Counter, w: World, sec: nat)
    requires c.windowSec > 0 && Agrees(c, w)
    ensures Agrees(c, w.(now := w.now + sec))
    ensures WindowStart(w.now + sec, c.windowSec) == WindowStart(w.now, c.windowSec)
      || Sum(w.log, c, WindowStart(w.now + sec, c.windowSec), WindowStart(w.now + sec, c.windowSec) + c.windowSec) == 0
  {
    WindowHolds(w.now, c.windowSec);
    WindowHolds(w.now + sec, c.windowSec);
    var start, next := WindowStart(w.now, c.windowSec), WindowStart(w.now + sec, c.windowSec);
    if next > w.now {
      SumBefore(w.log, c, next, next + c.windowSec);
    } else {
      SameWindow(w.now, w.now + sec, c.windowSec);
    }
  }

  /** Two times of which the earlier is not before the later's window are in one window. */
  lemma SameWindow(a: nat, b: nat, windowSec: nat)
    requires windowSec > 0 && a <= b && WindowStart(b, windowSec) <= a
    ensures WindowStart(a, windowSec) == WindowStart(b, windowSec)
  {
    var q := b / windowSec;
    assert WindowStart(b, windowSec) == q * windowSec;
    assert q * windowSec <= a < q * windowSec + windowSec;
    QuotientIs(a, q, windowSec);
  }

  lemma OnlyZero(x: int, n: int)
    requires -n < x * n < n
    ensures x == 0
  {
  }

  lemma QuotientIs(a: int, q: int, n: int)
    requires n > 0 && q * n <= a < q * n + n
    ensures a - a % n == q * n
  {
    var k := a / n;
    Parts(a, k, q, n);
    OnlyZero(k - q, n);
  }

  lemma Parts(a: int, k: int, q: int, n: int)
    requires n > 0 && k == a / n && q * n <= a < q * n + n
    ensures -n < (k - q) * n < n && a - a % n == k * n
  {
    assert (k - q) * n == k * n - q * n;
  }

  // ---------- tickets ----------

  lemma HeldSnoc(ts: seq<Ticket>, t: Ticket, c: Counter)
    ensures Held(ts + [t], c) == Held(ts, c) + if t.counter == c && t.held then 1 else 0
    ensures HeldSum(ts + [t], c) == HeldSum(ts, c) + if t.counter == c && t.held then t.reserve else 0
  {
    assert (ts + [t])[..|ts|] == ts;
  }

  lemma {:induction false} HeldRelease(ts: seq<Ticket>, i: nat, c: Counter)
    requires i < |ts|
    ensures var ts' := ts[i := ts[i].(held := false)]; var mine := ts[i].counter == c && ts[i].held;
      && Held(ts', c) == Held(ts, c) - (if mine then 1 else 0)
      && HeldSum(ts', c) == HeldSum(ts, c) - if mine then ts[i].reserve else 0
  {
    var n := |ts| - 1;
    var ts' := ts[i := ts[i].(held := false)];
    if i == n {
      assert ts'[..n] == ts[..n];
    } else {
      assert ts'[..n] == ts[..n][i := ts[i].(held := false)];
      HeldRelease(ts[..n], i, c);
    }
  }

  ghost predicate Reserves(ts: seq<Ticket>, c: Counter, bound: nat) {
    forall t :: t in ts && t.counter == c && t.held ==> t.reserve <= bound
  }

  lemma {:induction false} HeldSumBound(ts: seq<Ticket>, c: Counter, bound: nat)
    requires Reserves(ts, c, bound)
    ensures HeldSum(ts, c) <= Held(ts, c) * bound
  {
    if ts != [] {
      var init, last := ts[..|ts| - 1], ts[|ts| - 1];
      assert ts == init + [last];
      HeldSumBound(init, c, bound);
      OneMore(Held(init, c), bound);
    }
  }

  lemma OneMore(n: nat, b: nat)
    ensures (n + 1) * b == n * b + b
  {
  }

  lemma Monotone(x: nat, y: nat, b: nat)
    requires x <= y
    ensures x * b <= y * b
  {
  }

  // ---------- no window exceeds its cap ----------

  function WindowSum(log: seq<Entry>, c: Counter, t: nat): nat
    requires c.windowSec > 0
  {
    var start := WindowStart(t, c.windowSec);
    Sum(log, c, start, start + c.windowSec)
  }

  /** Tickets in flight and records made, against a limit. */
  ghost predicate Books(c: Counter, limit: nat, m: nat, a: nat, ts: seq<Ticket>, log: seq<Entry>, now: nat) {
    && c.windowSec > 0 && m >= 1
    && Reserves(ts, c, Min(a, limit)) && Held(ts, c) <= m
    && WindowSum(log, c, now) + HeldSum(ts, c) <= Cap(limit, m, a)
    && (forall t :: WindowSum(log, c, t) <= Cap(limit, m, a))
  }

  ghost predicate Inv(cfg: Config, c: Counter, m: nat, a: nat, w: World) {
    Books(c, cfg.limitOf(c), m, a, w.tickets, w.log, w.now) && Agrees(c, w)
  }

  /** An allowed check found the window's records and its own reservation within the limit. */
  lemma AllowedFits(cfg: Config, c: Counter, w: World, reserve: nat)
    requires c.windowSec > 0 && Agrees(c, w) && Checked(w.store, c, w.now, cfg.limitOf(c), reserve).allowed
    ensures WindowSum(w.log, c, w.now) + reserve <= cfg.limitOf(c)
  {
    WindowHolds(w.now, c.windowSec);
  }

  lemma TicketsAfterCheck(c: Counter, limit: nat, m: nat, a: nat, ts: seq<Ticket>, reserve: nat, recorded: nat)
    requires m >= 1 && Reserves(ts, c, Min(a, limit)) && Held(ts, c) < m && reserve <= a && recorded + reserve <= limit
    ensures var ts' := ts + [Ticket(c, reserve, true)];
      && Reserves(ts', c, Min(a, limit)) && Held(ts', c) <= m
      && recorded + HeldSum(ts', c) <= Cap(limit, m, a)
  {
    var bound := Min(a, limit);
    HeldSnoc(ts, Ticket(c, reserve, true), c);
    HeldSumBound(ts, c, bound);
    Monotone(Held(ts, c), m - 1, bound);
  }

  lemma CheckKeeps(cfg: Config, c: Counter, m: nat, a: nat, w: World, d: Counter, reserve: nat)
    requires Inv(cfg, c, m, a, w) && Do(cfg, w, Check(d, reserve)).Some?
    requires d == c ==> reserve <= a && Held(w.tickets, c) < m
    ensures Inv(cfg, c, m, a, Do(cfg, w, Check(d, reserve)).value)
  {
    SweptAgrees(c, w);
    var ticket := Ticket(d, reserve, true);
    var w' := w.(store := Swept(w.store, w.now), tickets := w.tickets + [ticket]);
    assert Do(cfg, w, Check(d, reserve)) == Some(w');
    assert Agrees(c, w') by { assert Agrees(c, w.(store := w'.store)); }
    if d == c {
      AllowedFits(cfg, c, w, reserve);
      TicketsAfterCheck(c, cfg.limitOf(c), m, a, w.tickets, reserve, WindowSum(w.log, c, w.now));
    } else {
      HeldSnoc(w.tickets, ticket, c);
    }
  }

  lemma ReleaseReserves(ts: seq<Ticket>, i: nat, c: Counter, bound: nat)
    requires i < |ts| && Reserves(ts, c, bound)
    ensures Reserves(ts[i := ts[i].(held := false)], c, bound)
  {
    var ts' := ts[i := ts[i].(held := false)];
    forall t | t in ts' && t.counter == c && t.held ensures t.reserve <= bound {
      var j :| 0 <= j < |ts'| && ts'[j] == t;
      assert j != i && ts[j] == t;
    }
  }

  /** A time whose window the clock is in has the clock's window. */
  lemma InWindow(t: nat, now: nat, windowSec: nat)
    requires windowSec > 0 && WindowStart(t, windowSec) <= now < WindowStart(t, windowSec) + windowSec
    ensures WindowStart(t, windowSec) == WindowStart(now, windowSec)
  {
    assert WindowStart(t, windowSec) == (t / windowSec) * windowSec;
    QuotientIs(now, t / windowSec, windowSec);
  }

  /** A record moves only the window the clock is in. */
  lemma OneWindowMoves(log: seq<Entry>, e: Entry, c: Counter, t: nat)
    requires c.windowSec > 0
    ensures WindowSum(log + [e], c, t) == WindowSum(log, c, t)
      || WindowSum(log + [e], c, t) == WindowSum(log + [e], c, e.at)
    ensures WindowSum(log + [e], c, e.at) == WindowSum(log, c, e.at) + if e.counter == c then e.amount else 0
  {
    var s, start := WindowStart(t, c.windowSec), WindowStart(e.at, c.windowSec);
    WindowHolds(e.at, c.windowSec);
    SumSnoc(log, e, c, s, s + c.windowSec);
    SumSnoc(log, e, c, start, start + c.windowSec);
    if s <= e.at < s + c.windowSec { InWindow(t, e.at, c.windowSec); }
  }

  lemma RecordKeeps(cfg: Config, c: Counter, m: nat, a: nat, w: World, i: nat, amount: nat, gone: set<string>)
    requires Inv(cfg, c, m, a, w) && Do(cfg, w, Record(i, amount, gone)).Some?
    requires |Live(Bumped(w.store, w.tickets[i].counter, w.now, amount), w.now)| <= cfg.maxSize
    ensures Inv(cfg, c, m, a, Do(cfg, w, Record(i, amount, gone)).value)
  {
    RecordAgrees(cfg, c, w, w.tickets[i].counter, amount, gone, w.tickets[i := w.tickets[i].(held := false)]);
    RecordBooks(c, cfg.limitOf(c), m, a, w.tickets, w.log, w.now, i, amount);
  }

  /** What a record adds to its window its ticket gives up. */
  lemma RecordBooks(c: Counter, limit: nat, m: nat, a: nat, ts: seq<Ticket>, log: seq<Entry>, now: nat,
      i: nat, amount: nat)
    requires Books(c, limit, m, a, ts, log, now) && i < |ts| && ts[i].held && amount <= ts[i].reserve
    ensures Books(c, limit, m, a, ts[i := ts[i].(held := false)], log + [Entry(ts[i].counter, now, amount)], now)
  {
    var e := Entry(ts[i].counter, now, amount);
    HeldRelease(ts, i, c);
    ReleaseReserves(ts, i, c, Min(a, limit));
    OneWindowMoves(log, e, c, now);
    WindowsStayBelow(log, e, c, Cap(limit, m, a));
  }

  lemma WindowsStayBelow(log: seq<Entry>, e: Entry, c: Counter, cap: nat)
    requires c.windowSec > 0 && (forall t :: WindowSum(log, c, t) <= cap) && WindowSum(log + [e], c, e.at) <= cap
    ensures forall t :: WindowSum(log + [e], c, t) <= cap
  {
    forall t: nat ensures WindowSum(log + [e], c, t) <= cap {
      OneWindowMoves(log, e, c, t);
    }
  }

  lemma AbandonKeeps(cfg: Config, c: Counter, m: nat, a: nat, w: World, i: nat)
    requires Inv(cfg, c, m, a, w) && i < |w.tickets|
    ensures Inv(cfg, c, m, a, Do(cfg, w, Abandon(i)).value)
  {
    HeldRelease(w.tickets, i, c);
    ReleaseReserves(w.tickets, i, c, Min(a, cfg.limitOf(c)));
  }

  lemma TickKeeps(cfg: Config, c: Counter, m: nat, a: nat, w: World, sec: nat)
    requires Inv(cfg, c, m, a, w)
    ensures Inv(cfg, c, m, a, w.(now := w.now + sec))
  {
    TickAgrees(c, w, sec);
    var bound := Min(a, cfg.limitOf(c));
    HeldSumBound(w.tickets, c, bound);
    Monotone(Held(w.tickets, c), m, bound);
    OneMore(m - 1, bound);
  }

  lemma StepKeeps(cfg: Config, c: Counter, m: nat, a: nat, w: World, s: Step)
    requires Inv(cfg, c, m, a, w) && Do(cfg, w, s).Some? && Allowed(cfg, c, m, a, w, s)
    ensures Inv(cfg, c, m, a, Do(cfg, w, s).value)
  {
    match s
    case Check(d, reserve) => CheckKeeps(cfg, c, m, a, w, d, reserve);
    case Refuse(_, _) => SweptAgrees(c, w);
    case Record(i, amount, gone) => RecordKeeps(cfg, c, m, a, w, i, amount, gone);
    case Abandon(i) => AbandonKeeps(cfg, c, m, a, w, i);
    case Sweep => SweptAgrees(c, w);
    case Tick(sec) => TickKeeps(cfg, c, m, a, w, sec);
  }

  lemma {:induction false} RunKeeps(cfg: Config, c: Counter, m: nat, a: nat, w: World, steps: seq<Step>)
    requires Inv(cfg, c, m, a, w) && AllowedRun(cfg, c, m, a, w, steps)
    ensures After(cfg, w, steps).Some? && Inv(cfg, c, m, a, After(cfg, w, steps).value)
    decreases |steps|
  {
    if steps != [] {
      StepKeeps(cfg, c, m, a, w, steps[0]);
      RunKeeps(cfg, c, m, a, Do(cfg, w, steps[0]).value, steps[1..]);
    }
  }

  lemma {:induction false} TwoWindowsCover(log: seq<Entry>, c: Counter, from: int, start: int, width: nat)
    requires start <= from <= start + width
    ensures Sum(log, c, from, from + width) <=
      Sum(log, c, start, start + width) + Sum(log, c, start + width, start + 2 * width)
  {
    if log != [] { TwoWindowsCover(log[..|log| - 1], c, from, start, width); }
  }

  lemma NextWindow(t: nat, windowSec: nat)
    requires windowSec > 0
    ensures WindowStart(WindowStart(t, windowSec) + windowSec, windowSec) == WindowStart(t, windowSec) + windowSec
  {
    var q := t / windowSec;
    assert WindowStart(t, windowSec) == q * windowSec;
    OneMore(q, windowSec);
    QuotientIs(q * windowSec + windowSec, q + 1, windowSec);
  }

  lemma {:induction false} StartInv(cfg: Config, c: Counter, m: nat, a: nat)
    requires c.windowSec > 0 && m >= 1
    ensures Inv(cfg, c, m, a, START)
  {
  }

  lemma SpanIsBounded(log: seq<Entry>, c: Counter, t: nat, cap: nat)
    requires c.windowSec > 0 && forall u :: WindowSum(log, c, u) <= cap
    ensures Sum(log, c, t, t + c.windowSec) <= 2 * cap
  {
    var start := WindowStart(t, c.windowSec);
    WindowHolds(t, c.windowSec);
    NextWindow(t, c.windowSec);
    TwoWindowsCover(log, c, t, start, c.windowSec);
    assert WindowSum(log, c, t) <= cap && WindowSum(log, c, start + c.windowSec) <= cap;
  }

  /** Over every run in which at most `m` callers of a counter are between check and record,
      each fixed window records at most limit + (m - 1) reservations, and any span as long as
      the window at most twice that. Check and record together, m = 1, is the limit itself. */
  lemma WindowsAreBounded(cfg: Config, c: Counter, m: nat, a: nat, steps: seq<Step>, t: nat)
    requires c.windowSec > 0 && m >= 1 && AllowedRun(cfg, c, m, a, START, steps)
    ensures After(cfg, START, steps).Some?
    ensures var log := After(cfg, START, steps).value.log;
      && WindowSum(log, c, t) <= Cap(cfg.limitOf(c), m, a)
      && Sum(log, c, t, t + c.windowSec) <= 2 * Cap(cfg.limitOf(c), m, a)
    ensures m == 1 ==> Cap(cfg.limitOf(c), m, a) == cfg.limitOf(c)
  {
    StartInv(cfg, c, m, a);
    RunKeeps(cfg, c, m, a, START, steps);
    SpanIsBounded(After(cfg, START, steps).value.log, c, t, Cap(cfg.limitOf(c), m, a));
  }

  // ---------- and the bound is met ----------

  lemma {:induction false} AfterSnoc(cfg: Config, w: World, steps: seq<Step>, s: Step)
    ensures After(cfg, w, steps + [s]) ==
      match After(cfg, w, steps) case None => None case Some(mid) => Do(cfg, mid, s)
    decreases |steps|
  {
    if steps == [] {
      assert [] + [s] == [s];
      assert [s][1..] == [];
    } else {
      assert (steps + [s])[1..] == steps[1..] + [s] && (steps + [s])[0] == steps[0];
      if Do(cfg, w, steps[0]).Some? { AfterSnoc(cfg, Do(cfg, w, steps[0]).value, steps[1..], s); }
    }
  }

  lemma SweptTwice(s: Store, now: int)
    ensures Swept(Swept(s, now), now) == Swept(s, now)
    ensures forall id :: RateLimit.Got(Swept(s, now), id, now) == RateLimit.Got(s, id, now)
  {
  }

  /** `k` tickets of one counter, all held. */
  function Tickets(c: Counter, reserve: nat, k: nat): (ts: seq<Ticket>)
    ensures |ts| == k && forall i :: 0 <= i < k ==> ts[i] == Ticket(c, reserve, true)
  {
    seq(k, _ => Ticket(c, reserve, true))
  }

  /** A check reserves nothing: once allowed, any number of them are. */
  lemma {:induction false} ChecksPass(cfg: Config, w: World, c: Counter, reserve: nat, m: nat)
    returns (steps: seq<Step>, w': World)
    requires m >= 1 && Do(cfg, w, Check(c, reserve)).Some?
    ensures After(cfg, w, steps) == Some(w')
    ensures w' == w.(store := Swept(w.store, w.now), tickets := w.tickets + Tickets(c, reserve, m))
    decreases m
  {
    if m == 1 {
      steps := [] + [Check(c, reserve)];
      AfterSnoc(cfg, w, [], Check(c, reserve));
      assert Tickets(c, reserve, 1) == [Ticket(c, reserve, true)];
    } else {
      var before, mid := ChecksPass(cfg, w, c, reserve, m - 1);
      SweptTwice(w.store, w.now);
      AfterSnoc(cfg, w, before, Check(c, reserve));
      steps := before + [Check(c, reserve)];
      assert Tickets(c, reserve, m) == Tickets(c, reserve, m - 1) + [Ticket(c, reserve, true)];
      Assoc(w.tickets, Tickets(c, reserve, m - 1), [Ticket(c, reserve, true)]);
    }
    w' := After(cfg, w, steps).value;
  }

  /** The counter's current bucket is in the room, with all that is stored. */
  ghost predicate Fits(cfg: Config, w: World, c: Counter, room: set<string>)
    requires c.windowSec > 0
  {
    w.store.Keys <= room && BucketId(c, WindowStart(w.now, c.windowSec)) in room && |room| <= cfg.maxSize
  }

  lemma RecordLands(cfg: Config, w: World, i: nat, c: Counter, reserve: nat, room: set<string>) returns (next: World)
    requires i < |w.tickets| && w.tickets[i] == Ticket(c, reserve, true) && c.windowSec > 0 && Fits(cfg, w, c, room)
    ensures Do(cfg, w, Record(i, reserve, {})) == Some(next) && Fits(cfg, next, c, room) && next.now == w.now
    ensures |next.tickets| == |w.tickets|
    ensures forall j :: 0 <= j < |w.tickets| && j != i ==> next.tickets[j] == w.tickets[j]
    ensures WindowSum(next.log, c, w.now) == WindowSum(w.log, c, w.now) + reserve
  {
    var counted := Bumped(w.store, c, w.now, reserve);
    assert counted.Keys <= room;
    SubsetSize(counted.Keys, room);
    assert counted - {} == counted;
    next := Do(cfg, w, Record(i, reserve, {})).value;
    OneWindowMoves(w.log, Entry(c, w.now, reserve), c, w.now);
  }

  /** Callers `from` to `from + k` have recorded all they reserved. */
  ghost predicate Landed(cfg: Config, w: World, w': World, from: nat, c: Counter, reserve: nat, k: nat,
      room: set<string>)
    requires c.windowSec > 0
  {
    && w'.now == w.now && Fits(cfg, w', c, room) && |w'.tickets| == |w.tickets|
    && (forall i :: from + k <= i < |w.tickets| ==> w'.tickets[i] == w.tickets[i])
    && WindowSum(w'.log, c, w.now) == WindowSum(w.log, c, w.now) + k * reserve
  }

  lemma LandsOneMore(cfg: Config, w: World, mid: World, from: nat, c: Counter, reserve: nat, k: nat, room: set<string>)
    returns (next: World)
    requires c.windowSec > 0 && Landed(cfg, w, mid, from, c, reserve, k, room)
    requires from + k < |w.tickets| && w.tickets[from + k] == Ticket(c, reserve, true)
    ensures Do(cfg, mid, Record(from + k, reserve, {})) == Some(next)
    ensures Landed(cfg, w, next, from, c, reserve, k + 1, room)
  {
    next := RecordLands(cfg, mid, from + k, c, reserve, room);
    OneMore(k, reserve);
  }

  lemma {:induction false} RecordsLand(cfg: Config, w: World, from: nat, c: Counter, reserve: nat, k: nat,
      room: set<string>)
    returns (steps: seq<Step>, w': World)
    requires c.windowSec > 0 && Fits(cfg, w, c, room) && from + k <= |w.tickets|
    requires forall i :: from <= i < from + k ==> w.tickets[i] == Ticket(c, reserve, true)
    ensures After(cfg, w, steps) == Some(w') && Landed(cfg, w, w', from, c, reserve, k, room)
    decreases k
  {
    if k == 0 {
      steps, w' := [], w;
    } else {
      var before, mid := RecordsLand(cfg, w, from, c, reserve, k - 1, room);
      w' := LandsOneMore(cfg, w, mid, from, c, reserve, k - 1, room);
      AfterSnoc(cfg, w, before, Record(from + k - 1, reserve, {}));
      steps := before + [Record(from + k - 1, reserve, {})];
    }
  }

  /** Whenever a check passes, m callers can pass it together and then record: the window goes
      up by all m reservations. Where the check just fits, that is the cap exactly. */
  lemma CapIsMet(cfg: Config, w: World, c: Counter, reserve: nat, m: nat, room: set<string>)
    returns (steps: seq<Step>, w': World)
    requires m >= 1 && c.windowSec > 0 && Do(cfg, w, Check(c, reserve)).Some? && Fits(cfg, w, c, room)
    ensures After(cfg, w, steps) == Some(w') && w'.now == w.now
    ensures WindowSum(w'.log, c, w.now) == WindowSum(w.log, c, w.now) + m * reserve
    ensures WindowSum(w.log, c, w.now) + reserve == cfg.limitOf(c) ==>
      WindowSum(w'.log, c, w.now) == Cap(cfg.limitOf(c), m, reserve)
  {
    var checks, mid := ChecksPass(cfg, w, c, reserve, m);
    var records, end := RecordsLand(cfg, mid, |w.tickets|, c, reserve, m, room);
    AfterConcat(cfg, w, checks, records);
    steps, w' := checks + records, end;
    OneMore(m - 1, reserve);
  }

  lemma {:induction false} AfterConcat(cfg: Config, w: World, a: seq<Step>, b: seq<Step>)
    ensures After(cfg, w, a + b) ==
      match After(cfg, w, a) case None => None case Some(mid) => After(cfg, mid, b)
    decreases |a|
  {
    if a == [] {
      assert a + b == b;
    } else {
      assert (a + b)[1..] == a[1..] + b && (a + b)[0] == a[0];
      if Do(cfg, w, a[0]).Some? { AfterConcat(cfg, Do(cfg, w, a[0]).value, a[1..], b); }
    }
  }
}
