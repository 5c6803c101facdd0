/** Whole runs of several regions: partitions, lost answers, sweeps and sheds, and syncs that
    anything may come between. */
module CrdtRuns {
  import opened Text
  import opened Buckets
  import opened Crdt

  type Region = nat

  type SyncId = nat

  /** The window a bucket id names ends at one time. */
  datatype Config = Config(resets: string -> int, maxSize: nat)

  /** Where a sync loop is: between buckets; with a bucket's count sent; or with the count the
      statement returned on its way back. `since` is what the region counted in the bucket since
      it was sent, which the program does not keep. */
  datatype Flight =
    | Idle
    | Asking(id: string, sent: Bucket, since: nat)
    | Answering(id: string, resetAt: int, count: Option<nat>, since: nat)

  datatype Loop = Loop(r: Region, flight: Flight)

  /** `own` is what each region was ever asked to count and `lost` what its own syncs wrote over;
      the program keeps neither. */
  datatype World = World(
    locals: seq<Store>, degraded: set<Region>, rows: Store, syncs: map<SyncId, Loop>,
    own: seq<map<string, nat>>, lost: seq<map<string, nat>>, now: int)

  datatype Step =
    | Increment(r: Region, id: string, amount: nat, gone: set<string>)
    | Admit(r: Region, id: string, amount: nat, limit: nat, answers: bool, gone: set<string>)
    | SyncStarts(k: SyncId, r: Region)
    | Send(k: SyncId, id: string)
    | Execute(k: SyncId)   // the statement is executed
    | Return(k: SyncId)    // what it returned is set
    | SyncFails(k: SyncId) // an answer is lost, whether its statement was executed or not
    | SyncEnds(k: SyncId)
    | Sweep(r: Region, answers: bool)
    | Tick(s: nat)

  function Start(regions: nat, now: int): World {
    World(seq(regions, _ => map[]), {}, map[], map[], seq(regions, _ => map[]), seq(regions, _ => map[]), now)
  }

  function CountAt(s: Store, id: string): nat { if id in s then s[id].count else 0 }

  function OwnAt(own: map<string, nat>, id: string): nat { if id in own then own[id] else 0 }

  function Added(own: map<string, nat>, id: string, amount: nat): map<string, nat> {
    own[id := OwnAt(own, id) + amount]
  }

  function Total(own: seq<map<string, nat>>, id: string): nat {
    if own == [] then 0 else Total(own[..|own| - 1], id) + OwnAt(own[|own| - 1], id)
  }

  function Seen(w: World, r: Region, id: string, answers: bool): nat
    requires r < |w.locals|
  {
    var got := Got(w.locals[r], w.rows, id, w.now, r !in w.degraded && answers);
    if got.Some? then got.value.count else 0
  }

  function Counted(cfg: Config, w: World, r: Region, id: string, amount: nat): Store
    requires r < |w.locals|
  {
    Incremented(w.locals[r], id, amount, cfg.resets(id), w.now)
  }

  function Later(f: Flight, id: string, amount: nat): Flight {
    if f.Idle? || f.id != id then f else f.(since := f.since + amount)
  }

  function Noted(syncs: map<SyncId, Loop>, r: Region, id: string, amount: nat): map<SyncId, Loop> {
    map k | k in syncs :: if syncs[k].r == r then syncs[k].(flight := Later(syncs[k].flight, id, amount)) else syncs[k]
  }

  predicate Sized(w: World) {
    |w.own| == |w.lost| == |w.locals| && forall k :: k in w.syncs ==> w.syncs[k].r < |w.locals|
  }

  /** A count is for the window the clock is in. */
  function AfterIncrement(cfg: Config, w: World, r: Region, id: string, amount: nat, gone: set<string>): Option<World>
    requires Sized(w)
  {
    if r >= |w.locals| || cfg.resets(id) <= w.now || !Sheds(Counted(cfg, w, r, id, amount), gone, cfg.maxSize) then None
    else Some(w.(locals := w.locals[r := Counted(cfg, w, r, id, amount) - gone],
                 own := w.own[r := Added(w.own[r], id, amount)], syncs := Noted(w.syncs, r, id, amount)))
  }

  function Degraded(w: World, r: Region, answers: bool): set<Region> {
    if answers then w.degraded else w.degraded + {r}
  }

  function Flying(w: World, k: SyncId, flight: Flight): World
    requires k in w.syncs
  {
    w.(syncs := w.syncs[k := w.syncs[k].(flight := flight)])
  }

  /** The count is set over whatever the bucket holds by then. */
  function Returned(w: World, k: SyncId): World
    requires Sized(w) && k in w.syncs && w.syncs[k].flight.Answering?
  {
    var r, f := w.syncs[k].r, w.syncs[k].flight;
    var w' := Flying(w, k, Idle);
    if f.count.None? then w'
    else w'.(locals := w.locals[r := w.locals[r][f.id := Bucket(f.count.value, f.resetAt)]],
             lost := w.lost[r := Added(w.lost[r], f.id, f.since)])
  }

  /** None when the step is not enabled; a sync that starts degraded ends there. */
  function Do(cfg: Config, w: World, s: Step): (w': Option<World>)
    requires Sized(w)
    ensures w'.Some? ==> Sized(w'.value) && |w'.value.locals| == |w.locals|
  {
    match s
    case Increment(r, id, amount, gone) => AfterIncrement(cfg, w, r, id, amount, gone)
    case Admit(r, id, amount, limit, answers, gone) =>
      if r >= |w.locals| || Seen(w, r, id, answers) + amount > limit then None
      else AfterIncrement(cfg, w.(degraded := Degraded(w, r, answers)), r, id, amount, gone)
    case SyncStarts(k, r) =>
      if k in w.syncs || r >= |w.locals| then None
      else if r in w.degraded then Some(w)
      else Some(w.(syncs := w.syncs[k := Loop(r, Idle)]))
    case Send(k, id) =>
      if k !in w.syncs || !w.syncs[k].flight.Idle? then None
      else
        var local := w.locals[w.syncs[k].r];
        if id !in local || local[id].resetAt <= w.now then None else Some(Flying(w, k, Asking(id, local[id], 0)))
    case Execute(k) =>
      if k !in w.syncs || !w.syncs[k].flight.Asking? then None
      else
        var f := w.syncs[k].flight;
        var row := Lookup(w.rows, f.id);
        var count :=
          if row.Some? && row.value.resetAt > f.sent.resetAt then None else Some(Upserted(row, f.sent).count);
        Some(Flying(w.(rows := w.rows[f.id := Upserted(row, f.sent)]), k,
                    Answering(f.id, f.sent.resetAt, count, f.since)))
    case Return(k) =>
      if k !in w.syncs || !w.syncs[k].flight.Answering? then None else Some(Returned(w, k))
    case SyncFails(k) =>
      if k !in w.syncs then None
      else Some(w.(degraded := w.degraded + {w.syncs[k].r}, syncs := w.syncs - {k}))
    case SyncEnds(k) =>
      if k !in w.syncs || !w.syncs[k].flight.Idle? then None
      else Some(w.(degraded := w.degraded - {w.syncs[k].r}, syncs := w.syncs - {k}))
    case Sweep(r, answers) =>
      if r >= |w.locals| then None
      else Some(w.(locals := w.locals[r := Swept(w.locals[r], w.now)], degraded := Degraded(w, r, answers),
                   rows := if r !in w.degraded && answers then Swept(w.rows, w.now) else w.rows))
    case Tick(sec) => Some(w.(now := w.now + sec))
  }

  function After(cfg: Config, w: World, steps: seq<Step>): (w': Option<World>)
    requires Sized(w)
    ensures w'.Some? ==> Sized(w'.value) && |w'.value.locals| == |w.locals|
    decreases |steps|
  {
    if steps == [] then Some(w)
    else match Do(cfg, w, steps[0])
      case None => None
      case Some(next) => After(cfg, next, steps[1..])
  }

  // ---------- counts never exceed the total ----------

  /** The live buckets of a region fit its store. */
  predicate Roomy(cfg: Config, w: World, s: Step) {
    (s.Increment? || s.Admit?) && s.r < |w.locals| ==>
      |Live(Counted(cfg, w, s.r, s.id, s.amount), w.now)| <= cfg.maxSize
  }

  ghost predicate Windowed(cfg: Config, s: Store) { forall id :: id in s ==> s[id].resetAt == cfg.resets(id) }

  /** This much of a live bucket, with what was counted besides it, covers all but the losses. */
  ghost predicate Covers(w: World, r: Region, id: string, count: nat, since: nat) {
    |w.own| == |w.lost| && r < |w.own|
    && OwnAt(w.own[r], id) <= count + since + OwnAt(w.lost[r], id) && count <= Total(w.own, id)
  }

  ghost predicate Between(cfg: Config, w: World, r: Region, id: string) {
    r < |w.locals| && (cfg.resets(id) > w.now ==> Covers(w, r, id, CountAt(w.locals[r], id), 0))
  }

  ghost predicate FlightFits(cfg: Config, w: World, l: Loop) {
    match l.flight
    case Idle => true
    case Asking(id, sent, since) =>
      sent.resetAt == cfg.resets(id) && (cfg.resets(id) > w.now ==> Covers(w, l.r, id, sent.count, since))
    case Answering(id, resetAt, count, since) =>
      resetAt == cfg.resets(id) && (count.Some? && cfg.resets(id) > w.now ==> Covers(w, l.r, id, count.value, since))
  }

  ghost predicate Inv(cfg: Config, w: World) {
    && Sized(w) && Windowed(cfg, w.rows)
    && (forall r :: 0 <= r < |w.locals| ==> Windowed(cfg, w.locals[r]))
    && (forall r, id :: 0 <= r < |w.locals| ==> Between(cfg, w, r, id))
    && (forall k :: k in w.syncs ==> FlightFits(cfg, w, w.syncs[k]))
    && (forall id :: cfg.resets(id) > w.now ==> CountAt(w.rows, id) <= Total(w.own, id))
  }

  lemma {:induction false} TotalUpdate(own: seq<map<string, nat>>, r: nat, m: map<string, nat>, id: string)
    requires r < |own|
    ensures Total(own[r := m], id) == Total(own, id) - OwnAt(own[r], id) + OwnAt(m, id)
  {
    var n := |own| - 1;
    if r == n {
      assert own[r := m][..n] == own[..n];
    } else {
      assert own[r := m][..n] == own[..n][r := m];
      TotalUpdate(own[..n], r, m, id);
    }
  }

  /** A flight stays covered: what the region counts is counted since. */
  lemma FlightNotes(cfg: Config, w: World, w': World, r: Region, id: string, amount: nat, l: Loop)
    requires FlightFits(cfg, w, l) && r < |w.own| && w'.now == w.now && w'.lost == w.lost
    requires w'.own == w.own[r := Added(w.own[r], id, amount)]
    requires forall k :: Total(w'.own, k) >= Total(w.own, k)
    ensures FlightFits(cfg, w', if l.r == r then l.(flight := Later(l.flight, id, amount)) else l)
  {
  }

  /** The counting region's own bucket stays covered, for a live bucket is not shed. */
  lemma BucketNotes(cfg: Config, w: World, w': World, r: Region, id: string, amount: nat, gone: set<string>,
      q: Region, k: string)
    requires Between(cfg, w, q, k) && r < |w.locals| && cfg.resets(id) > w.now && Windowed(cfg, w.locals[r])
    requires |w.own| == |w.locals| && w'.now == w.now && w'.lost == w.lost
    requires w'.locals == w.locals[r := Counted(cfg, w, r, id, amount) - gone]
    requires w'.own == w.own[r := Added(w.own[r], id, amount)]
    requires forall x :: x in gone ==> x !in Live(Counted(cfg, w, r, id, amount), w.now)
    requires Total(w'.own, k) == Total(w.own, k) + if k == id then amount else 0
    ensures Between(cfg, w', q, k)
  {
    if q == r && cfg.resets(k) > w.now && k in Counted(cfg, w, r, id, amount) { assert k !in gone; }
  }

  lemma IncrementKeeps(cfg: Config, w: World, r: Region, id: string, amount: nat, gone: set<string>)
    requires Inv(cfg, w) && AfterIncrement(cfg, w, r, id, amount, gone).Some?
    requires |Live(Counted(cfg, w, r, id, amount), w.now)| <= cfg.maxSize
    ensures Inv(cfg, AfterIncrement(cfg, w, r, id, amount, gone).value)
  {
    var w' := AfterIncrement(cfg, w, r, id, amount, gone).value;
    ShedsLiveExactly(Counted(cfg, w, r, id, amount), gone, cfg.maxSize, w.now);
    forall k ensures Total(w'.own, k) == Total(w.own, k) + if k == id then amount else 0 {
      TotalUpdate(w.own, r, w'.own[r], k);
    }
    assert forall k :: Total(w'.own, k) >= Total(w.own, k);
    forall q, k | 0 <= q < |w'.locals| ensures Between(cfg, w', q, k) {
      BucketNotes(cfg, w, w', r, id, amount, gone, q, k);
    }
    forall k | k in w'.syncs ensures FlightFits(cfg, w', w'.syncs[k]) {
      FlightNotes(cfg, w, w', r, id, amount, w.syncs[k]);
    }
    WindowedNotes(cfg, w, r, id, amount, gone);
  }

  lemma WindowedNotes(cfg: Config, w: World, r: Region, id: string, amount: nat, gone: set<string>)
    requires r < |w.locals| && Windowed(cfg, w.locals[r])
    ensures Windowed(cfg, Counted(cfg, w, r, id, amount) - gone)
  {
  }

  /** Only the region's bucket and its losses moved, and no flight but what is still covered. */
  lemma ReturnKeeps(cfg: Config, w: World, k: SyncId)
    requires Inv(cfg, w) && k in w.syncs && w.syncs[k].flight.Answering?
    ensures Inv(cfg, Returned(w, k))
  {
    var w', l := Returned(w, k), w.syncs[k];
    assert FlightFits(cfg, w, l);
    forall q, id | 0 <= q < |w'.locals| ensures Between(cfg, w', q, id) {
      assert Between(cfg, w, q, id);
    }
    forall m | m in w'.syncs ensures FlightFits(cfg, w', w'.syncs[m]) {
      if m != k { assert FlightFits(cfg, w, w.syncs[m]); }
    }
  }

  lemma ExecuteKeeps(cfg: Config, w: World, k: SyncId)
    requires Inv(cfg, w) && Do(cfg, w, Execute(k)).Some?
    ensures Inv(cfg, Do(cfg, w, Execute(k)).value)
  {
    var w' := Do(cfg, w, Execute(k)).value;
    assert FlightFits(cfg, w, w.syncs[k]);
    forall q, id | 0 <= q < |w'.locals| ensures Between(cfg, w', q, id) {
      assert Between(cfg, w, q, id);
    }
    forall m | m in w'.syncs ensures FlightFits(cfg, w', w'.syncs[m]) {
      if m != k { assert FlightFits(cfg, w, w.syncs[m]); }
    }
  }

  lemma SendKeeps(cfg: Config, w: World, k: SyncId, id: string)
    requires Inv(cfg, w) && Do(cfg, w, Send(k, id)).Some?
    ensures Inv(cfg, Do(cfg, w, Send(k, id)).value)
  {
    var w' := Do(cfg, w, Send(k, id)).value;
    assert Between(cfg, w, w.syncs[k].r, id);
    forall q, i | 0 <= q < |w'.locals| ensures Between(cfg, w', q, i) {
      assert Between(cfg, w, q, i);
    }
    forall m | m in w'.syncs ensures FlightFits(cfg, w', w'.syncs[m]) {
      if m != k { assert FlightFits(cfg, w, w.syncs[m]); }
    }
  }

  /** Counts stay or expire, and loops only start idle or end. */
  lemma QuietKeeps(cfg: Config, w: World, w': World)
    requires Inv(cfg, w) && Sized(w') && w'.own == w.own && w'.lost == w.lost && w'.now >= w.now
    requires |w'.locals| == |w.locals| && Windowed(cfg, w'.rows)
    requires forall r :: 0 <= r < |w.locals| ==> Windowed(cfg, w'.locals[r])
    requires forall r, id :: 0 <= r < |w.locals| && cfg.resets(id) > w'.now ==>
      CountAt(w'.locals[r], id) == CountAt(w.locals[r], id)
    requires forall id :: cfg.resets(id) > w'.now ==> CountAt(w'.rows, id) == CountAt(w.rows, id)
    requires forall k :: k in w'.syncs ==> w'.syncs[k].flight.Idle? || (k in w.syncs && w'.syncs[k] == w.syncs[k])
    ensures Inv(cfg, w')
  {
    forall q, id | 0 <= q < |w'.locals| ensures Between(cfg, w', q, id) {
      assert Between(cfg, w, q, id);
    }
    forall k | k in w'.syncs ensures FlightFits(cfg, w', w'.syncs[k]) {
      if !w'.syncs[k].flight.Idle? { assert FlightFits(cfg, w, w.syncs[k]); }
    }
  }

  lemma StepKeeps(cfg: Config, w: World, s: Step)
    requires Inv(cfg, w) && Do(cfg, w, s).Some? && Roomy(cfg, w, s)
    ensures Inv(cfg, Do(cfg, w, s).value)
  {
    match s
    case Increment(r, id, amount, gone) => IncrementKeeps(cfg, w, r, id, amount, gone);
    case Admit(r, id, amount, _, answers, gone) =>
      var asked := w.(degraded := Degraded(w, r, answers));
      QuietKeeps(cfg, w, asked);
      IncrementKeeps(cfg, asked, r, id, amount, gone);
    case Send(k, id) => SendKeeps(cfg, w, k, id);
    case Execute(k) => ExecuteKeeps(cfg, w, k);
    case Return(k) => ReturnKeeps(cfg, w, k);
    case _ => QuietKeeps(cfg, w, Do(cfg, w, s).value);
  }

  ghost predicate RoomyRun(cfg: Config, w: World, steps: seq<Step>)
    requires Sized(w)
    decreases |steps|
  {
    steps == [] ||
    (Roomy(cfg, w, steps[0]) && match Do(cfg, w, steps[0])
     case None => false
     case Some(next) => RoomyRun(cfg, next, steps[1..]))
  }

  lemma {:induction false} RunKeeps(cfg: Config, w: World, steps: seq<Step>)
    requires Inv(cfg, w) && RoomyRun(cfg, w, steps)
    ensures After(cfg, w, steps).Some? && Inv(cfg, After(cfg, w, steps).value)
    ensures |After(cfg, w, steps).value.locals| == |w.locals|
    decreases |steps|
  {
    if steps != [] {
      StepKeeps(cfg, w, steps[0]);
      RunKeeps(cfg, Do(cfg, w, steps[0]).value, steps[1..]);
    }
  }

  lemma {:induction false} NothingCounted(regions: nat, id: string)
    ensures Total(Start(regions, 0).own, id) == 0
    ensures Start(regions, 0).lost == Start(regions, 0).own
  {
    if regions > 0 {
      assert Start(regions, 0).own[..regions - 1] == Start(regions - 1, 0).own;
      NothingCounted(regions - 1, id);
    }
  }

  lemma StartInv(cfg: Config, regions: nat, now: int)
    ensures Inv(cfg, Start(regions, now))
  {
    forall id ensures Total(Start(regions, now).own, id) == 0 {
      NothingCounted(regions, id);
      assert Start(regions, now).own == Start(regions, 0).own;
    }
  }

  /** Over every run in which live buckets fit: what a region sees of a live bucket, with the
      shared table or without it, is at least its own increments less those its own syncs wrote
      over, and never more than all regions' together: the merge may undercount, it does not
      overcount. */
  lemma SeenIsBetween(cfg: Config, regions: nat, now: int, steps: seq<Step>, r: Region, id: string, answers: bool)
    requires RoomyRun(cfg, Start(regions, now), steps) && r < regions
    requires After(cfg, Start(regions, now), steps).Some?
    requires cfg.resets(id) > After(cfg, Start(regions, now), steps).value.now
    ensures var w := After(cfg, Start(regions, now), steps).value;
      OwnAt(w.own[r], id) - OwnAt(w.lost[r], id) <= Seen(w, r, id, answers) <= Total(w.own, id)
  {
    StartInv(cfg, regions, now);
    RunKeeps(cfg, Start(regions, now), steps);
    var w := After(cfg, Start(regions, now), steps).value;
    assert Between(cfg, w, r, id);
  }

  /** What a region reads of a live bucket in any such run: the greater of its own count and the
      table's, where the table is asked and answers, and else its own; none where there is none. */
  lemma ReadsTheGreater(cfg: Config, regions: nat, now: int, steps: seq<Step>, r: Region, id: string, answers: bool)
    requires RoomyRun(cfg, Start(regions, now), steps) && r < regions
    requires After(cfg, Start(regions, now), steps).Some?
    requires cfg.resets(id) > After(cfg, Start(regions, now), steps).value.now
    ensures var w := After(cfg, Start(regions, now), steps).value;
      var asked := r !in w.degraded && answers;
      var got := Got(w.locals[r], w.rows, id, w.now, asked);
      && Seen(w, r, id, answers) ==
        Max(CountAt(w.locals[r], id), if asked then CountAt(w.rows, id) else 0)
      && (got.None? <==> id !in w.locals[r] && (asked ==> id !in w.rows))
      && (got.Some? ==> got.value.resetAt == cfg.resets(id))
  {
    StartInv(cfg, regions, now);
    RunKeeps(cfg, Start(regions, now), steps);
    ReadsFrom(cfg, After(cfg, Start(regions, now), steps).value, r, id, answers);
  }

  lemma ReadsFrom(cfg: Config, w: World, r: Region, id: string, answers: bool)
    requires Inv(cfg, w) && r < |w.locals| && cfg.resets(id) > w.now
    ensures var asked := r !in w.degraded && answers;
      var got := Got(w.locals[r], w.rows, id, w.now, asked);
      && Seen(w, r, id, answers) ==
        Max(CountAt(w.locals[r], id), if asked then CountAt(w.rows, id) else 0)
      && (got.None? <==> id !in w.locals[r] && (asked ==> id !in w.rows))
      && (got.Some? ==> got.value.resetAt == cfg.resets(id))
  {
  }

  lemma RowGrows(cfg: Config, w: World, s: Step, id: string)
    requires Inv(cfg, w) && Do(cfg, w, s).Some? && cfg.resets(id) > Do(cfg, w, s).value.now
    ensures CountAt(Do(cfg, w, s).value.rows, id) >= CountAt(w.rows, id) && Do(cfg, w, s).value.now >= w.now
  {
    if s.Execute? { assert FlightFits(cfg, w, w.syncs[s.k]); }
  }

  lemma RowGrowsMore(cfg: Config, w: World, s: Step, end: World, id: string)
    requires Inv(cfg, w) && Do(cfg, w, s).Some? && Roomy(cfg, w, s) && end.now >= Do(cfg, w, s).value.now
    requires cfg.resets(id) > end.now ==> CountAt(end.rows, id) >= CountAt(Do(cfg, w, s).value.rows, id)
    ensures Inv(cfg, Do(cfg, w, s).value) && end.now >= w.now
    ensures cfg.resets(id) > end.now ==> CountAt(end.rows, id) >= CountAt(w.rows, id)
  {
    StepKeeps(cfg, w, s);
    ClockRuns(cfg, w, s);
    if cfg.resets(id) > end.now { RowGrows(cfg, w, s, id); }
  }

  lemma ClockRuns(cfg: Config, w: World, s: Step)
    requires Sized(w) && Do(cfg, w, s).Some?
    ensures Do(cfg, w, s).value.now >= w.now
  {
  }

  lemma {:induction false} RowsGrow(cfg: Config, w: World, steps: seq<Step>, id: string) returns (end: World)
    requires Inv(cfg, w) && RoomyRun(cfg, w, steps)
    ensures After(cfg, w, steps) == Some(end) && end.now >= w.now
    ensures cfg.resets(id) > end.now ==> CountAt(end.rows, id) >= CountAt(w.rows, id)
    decreases |steps|
  {
    if steps == [] {
      end := w;
    } else {
      StepKeeps(cfg, w, steps[0]);
      end := RowsGrow(cfg, Do(cfg, w, steps[0]).value, steps[1..], id);
      RowGrowsMore(cfg, w, steps[0], end, id);
    }
  }

  lemma Executed(cfg: Config, w: World, k: SyncId)
    requires Inv(cfg, w) && Do(cfg, w, Execute(k)).Some?
    ensures var f := w.syncs[k].flight;
      f.sent.resetAt == cfg.resets(f.id) && CountAt(Do(cfg, w, Execute(k)).value.rows, f.id) >= f.sent.count
  {
    assert FlightFits(cfg, w, w.syncs[k]);
  }

  /** Once a region's statement for a bucket is executed, whether its answer arrives or not, every
      read that asks the table in that window, by any region, is at least the count it sent. */
  lemma SentIsSeen(cfg: Config, regions: nat, now: int, before: seq<Step>, k: SyncId, later: seq<Step>, r: Region)
    requires RoomyRun(cfg, Start(regions, now), before) && After(cfg, Start(regions, now), before).Some?
    requires var mid := After(cfg, Start(regions, now), before).value;
      Do(cfg, mid, Execute(k)).Some? && RoomyRun(cfg, Do(cfg, mid, Execute(k)).value, later) && r < regions
    ensures var mid := After(cfg, Start(regions, now), before).value;
      var end := After(cfg, Do(cfg, mid, Execute(k)).value, later); var f := mid.syncs[k].flight;
      end.Some? && (cfg.resets(f.id) > end.value.now && r !in end.value.degraded ==>
        Seen(end.value, r, f.id, true) >= f.sent.count)
  {
    StartInv(cfg, regions, now);
    RunKeeps(cfg, Start(regions, now), before);
    var mid := After(cfg, Start(regions, now), before).value;
    ExecuteKeeps(cfg, mid, k);
    Executed(cfg, mid, k);
    var next := Do(cfg, mid, Execute(k)).value;
    var end := RowsGrow(cfg, next, later, mid.syncs[k].flight.id);
    RunKeeps(cfg, next, later);
    if cfg.resets(mid.syncs[k].flight.id) > end.now { ReadsFrom(cfg, end, r, mid.syncs[k].flight.id, true); }
  }

  // ---------- what partitioned regions admit ----------

  /** Bucket `id` is counted only by admissions under this limit. */
  predicate Metered(s: Step, id: string, limit: nat) {
    && (s.Increment? ==> s.id != id)
    && (s.Admit? && s.id == id ==> s.limit == limit)
  }

  ghost predicate Capped(w: World, id: string, limit: nat) {
    Sized(w) && forall r :: 0 <= r < |w.own| ==> OwnAt(w.own[r], id) <= limit + OwnAt(w.lost[r], id)
  }

  lemma AdmitCapped(cfg: Config, w: World, s: Step, id: string, limit: nat)
    requires Inv(cfg, w) && s.Admit? && Do(cfg, w, s).Some? && Metered(s, id, limit) && Capped(w, id, limit)
    ensures Capped(Do(cfg, w, s).value, id, limit)
  {
    assert Between(cfg, w, s.r, id);
  }

  lemma StepCapped(cfg: Config, w: World, s: Step, id: string, limit: nat)
    requires Inv(cfg, w) && Do(cfg, w, s).Some? && Metered(s, id, limit) && Capped(w, id, limit)
    ensures Capped(Do(cfg, w, s).value, id, limit)
  {
    if s.Admit? { AdmitCapped(cfg, w, s, id, limit); }
  }

  lemma {:induction false} RunCapped(cfg: Config, w: World, steps: seq<Step>, id: string, limit: nat)
    requires Inv(cfg, w) && RoomyRun(cfg, w, steps) && Capped(w, id, limit)
    requires forall s :: s in steps ==> Metered(s, id, limit)
    ensures After(cfg, w, steps).Some? && Capped(After(cfg, w, steps).value, id, limit)
    decreases |steps|
  {
    if steps != [] {
      StepCapped(cfg, w, steps[0], id, limit);
      StepKeeps(cfg, w, steps[0]);
      RunCapped(cfg, Do(cfg, w, steps[0]).value, steps[1..], id, limit);
    }
  }

  lemma {:induction false} TotalOfCapped(own: seq<map<string, nat>>, lost: seq<map<string, nat>>, id: string,
      limit: nat)
    requires |own| == |lost|
    requires forall r :: 0 <= r < |own| ==> OwnAt(own[r], id) <= limit + OwnAt(lost[r], id)
    ensures Total(own, id) <= |own| * limit + Total(lost, id)
  {
    if own != [] {
      var n := |own| - 1;
      TotalOfCapped(own[..n], lost[..n], id, limit);
      assert (n + 1) * limit == n * limit + limit;
    }
  }

  /** Check and record together, each region admits at most its limit and what its own syncs wrote
      over, whatever the others and the shared table do; R of them at most R times the limit in a
      window, and all those losses. */
  lemma RegionsAdmitAtMost(cfg: Config, regions: nat, now: int, steps: seq<Step>, id: string, limit: nat)
    requires RoomyRun(cfg, Start(regions, now), steps)
    requires forall s :: s in steps ==> Metered(s, id, limit)
    ensures After(cfg, Start(regions, now), steps).Some?
    ensures var w := After(cfg, Start(regions, now), steps).value;
      Total(w.own, id) <= regions * limit + Total(w.lost, id)
    ensures var w := After(cfg, Start(regions, now), steps).value;
      forall r :: 0 <= r < regions ==> OwnAt(w.own[r], id) <= limit + OwnAt(w.lost[r], id)
  {
    StartInv(cfg, regions, now);
    RunCapped(cfg, Start(regions, now), steps, id, limit);
    var w := After(cfg, Start(regions, now), steps).value;
    TotalOfCapped(w.own, w.lost, id, limit);
  }

  lemma {:induction false} AfterSnoc(cfg: Config, w: World, steps: seq<Step>, s: Step)
    requires Sized(w) && After(cfg, w, steps).Some?
    ensures After(cfg, w, steps + [s]) == Do(cfg, After(cfg, w, steps).value, s)
    decreases |steps|
  {
    if steps == [] {
      assert [] + [s] == [s];
      assert [s][1..] == [];
    } else {
      assert (steps + [s])[1..] == steps[1..] + [s] && (steps + [s])[0] == steps[0];
      AfterSnoc(cfg, Do(cfg, w, steps[0]).value, steps[1..], s);
    }
  }

  lemma {:induction false} TotalOfEqual(own: seq<map<string, nat>>, id: string, limit: nat)
    requires forall r :: 0 <= r < |own| ==> OwnAt(own[r], id) == limit
    ensures Total(own, id) == |own| * limit
  {
    if own != [] {
      var n := |own| - 1;
      TotalOfEqual(own[..n], id, limit);
      assert (n + 1) * limit == n * limit + limit;
    }
  }

  /** And they can: between two syncs each of them spends the whole limit. */
  lemma {:induction false} RegionsCanSpendAll(cfg: Config, regions: nat, now: int, id: string, limit: nat, n: nat)
    returns (steps: seq<Step>)
    requires cfg.resets(id) > now && cfg.maxSize >= 1 && n <= regions
    ensures After(cfg, Start(regions, now), steps).Some?
    ensures forall s :: s in steps ==> Metered(s, id, limit)
    ensures var w := After(cfg, Start(regions, now), steps).value;
      && w.now == now && w.rows == map[] && w.syncs == map[] && w.lost == Start(regions, now).lost
      && (forall r :: 0 <= r < regions ==> OwnAt(w.own[r], id) == if r < n then limit else 0)
      && (forall r :: n <= r < regions ==> w.locals[r] == map[])
      && (n == regions ==> Total(w.own, id) == regions * limit)
    decreases n
  {
    if n == 0 {
      steps := [];
      if regions == 0 { assert Total(Start(regions, now).own, id) == 0; }
    } else {
      var before := RegionsCanSpendAll(cfg, regions, now, id, limit, n - 1);
      var w := After(cfg, Start(regions, now), before).value;
      var spend := Admit(n - 1, id, limit, limit, true, {});
      assert Counted(cfg, w, n - 1, id, limit) == map[id := Bucket(limit, cfg.resets(id))];
      AfterSnoc(cfg, Start(regions, now), before, spend);
      steps := before + [spend];
      if n == regions { TotalOfEqual(After(cfg, Start(regions, now), steps).value.own, id, limit); }
    }
  }

  // ---------- what a sync writes over ----------

  /** Since the sync sent the bucket, it grew by what the region counted and nothing else. */
  ghost predicate Grown(cfg: Config, w: World, k: SyncId, id: string, sent: nat) {
    && Sized(w) && k in w.syncs && !w.syncs[k].flight.Idle? && w.syncs[k].flight.id == id
    && (cfg.resets(id) > w.now ==>
          id in w.locals[w.syncs[k].r] && w.locals[w.syncs[k].r][id].count == sent + w.syncs[k].flight.since)
    && (w.syncs[k].flight.Answering? && w.syncs[k].flight.count.Some? ==> w.syncs[k].flight.count.value >= sent)
    && (w.syncs[k].flight.Asking? ==> w.syncs[k].flight.sent.count == sent)
  }

  /** Meanwhile this sync neither fails nor returns, nor does another of its region return. */
  predicate Alone(w: World, s: Step, k: SyncId) {
    && s != SyncFails(k) && s != Return(k)
    && (s.Return? && s.k in w.syncs && k in w.syncs ==> w.syncs[s.k].r != w.syncs[k].r)
  }

  ghost predicate AloneRun(cfg: Config, w: World, steps: seq<Step>, k: SyncId)
    requires Sized(w)
    decreases |steps|
  {
    steps == [] ||
    (Roomy(cfg, w, steps[0]) && Alone(w, steps[0], k) && match Do(cfg, w, steps[0])
     case None => false
     case Some(next) => AloneRun(cfg, next, steps[1..], k))
  }

  lemma IncrementGrows(cfg: Config, w: World, r: Region, id: string, amount: nat, gone: set<string>, k: SyncId,
      b: string, sent: nat)
    requires Inv(cfg, w) && Grown(cfg, w, k, b, sent) && AfterIncrement(cfg, w, r, id, amount, gone).Some?
    requires |Live(Counted(cfg, w, r, id, amount), w.now)| <= cfg.maxSize
    ensures Grown(cfg, AfterIncrement(cfg, w, r, id, amount, gone).value, k, b, sent)
  {
    var counted := Counted(cfg, w, r, id, amount);
    ShedsLiveExactly(counted, gone, cfg.maxSize, w.now);
    if r == w.syncs[k].r && cfg.resets(b) > w.now { assert b in counted && b !in gone; }
  }

  lemma StepGrows(cfg: Config, w: World, s: Step, k: SyncId, id: string, sent: nat)
    requires Inv(cfg, w) && Grown(cfg, w, k, id, sent) && Do(cfg, w, s).Some? && Roomy(cfg, w, s) && Alone(w, s, k)
    ensures Grown(cfg, Do(cfg, w, s).value, k, id, sent)
  {
    match s
    case Increment(r, b, amount, gone) => IncrementGrows(cfg, w, r, b, amount, gone, k, id, sent);
    case Admit(r, b, amount, _, answers, gone) =>
      var asked := w.(degraded := Degraded(w, r, answers));
      QuietKeeps(cfg, w, asked);
      IncrementGrows(cfg, asked, r, b, amount, gone, k, id, sent);
    case _ =>
  }

  lemma {:induction false} RunGrows(cfg: Config, w: World, steps: seq<Step>, k: SyncId, id: string, sent: nat)
    requires Inv(cfg, w) && Grown(cfg, w, k, id, sent) && AloneRun(cfg, w, steps, k)
    ensures After(cfg, w, steps).Some? && Grown(cfg, After(cfg, w, steps).value, k, id, sent)
    decreases |steps|
  {
    if steps != [] {
      StepKeeps(cfg, w, steps[0]);
      StepGrows(cfg, w, steps[0], k, id, sent);
      RunGrows(cfg, Do(cfg, w, steps[0]).value, steps[1..], k, id, sent);
    }
  }

  /** The merged count is on its way back to a live bucket. */
  predicate Landing(cfg: Config, w: World, k: SyncId, id: string) {
    && k in w.syncs && w.syncs[k].flight.Answering? && w.syncs[k].flight.count.Some?
    && cfg.resets(id) > w.now
  }

  /** The bucket is what `w` sent and the region counted since; returning leaves what was merged. */
  ghost predicate Forgets(w: World, end: World, k: SyncId, id: string) {
    && Sized(w) && Sized(end) && k in w.syncs && k in end.syncs && end.syncs[k].r == w.syncs[k].r
    && |w.locals| == |end.locals| && end.syncs[k].flight.Answering? && end.syncs[k].flight.count.Some?
    && var r, f := w.syncs[k].r, end.syncs[k].flight;
    && f.count.value >= CountAt(w.locals[r], id)
    && CountAt(end.locals[r], id) == CountAt(w.locals[r], id) + f.since
    && CountAt(Returned(end, k).locals[r], id) == f.count.value
    && OwnAt(Returned(end, k).lost[r], id) == OwnAt(end.lost[r], id) + f.since
  }

  /** A sync that sends a bucket and is the region's only one to return: whatever runs in between,
      before it returns a live bucket is the count sent and what the region counted since, and
      after it the merged count of the one sent alone; so exactly what came since is lost. */
  lemma ReturnLosesExactly(cfg: Config, w: World, k: SyncId, id: string, steps: seq<Step>)
    requires Inv(cfg, w) && Do(cfg, w, Send(k, id)).Some?
    requires AloneRun(cfg, Do(cfg, w, Send(k, id)).value, steps, k)
    ensures var end := After(cfg, Do(cfg, w, Send(k, id)).value, steps);
      end.Some? && (Landing(cfg, end.value, k, id) ==> Forgets(w, end.value, k, id))
  {
    var next := Do(cfg, w, Send(k, id)).value;
    SendKeeps(cfg, w, k, id);
    RunGrows(cfg, next, steps, k, id, w.locals[w.syncs[k].r][id].count);
    SameRegion(cfg, next, steps, k);
  }

  lemma SameRegionStep(cfg: Config, w: World, s: Step, k: SyncId)
    requires Sized(w) && k in w.syncs && !w.syncs[k].flight.Idle? && Alone(w, s, k) && Do(cfg, w, s).Some?
    ensures var w' := Do(cfg, w, s).value;
      k in w'.syncs && w'.syncs[k].r == w.syncs[k].r && !w'.syncs[k].flight.Idle?
  {
  }

  lemma {:induction false} SameRegion(cfg: Config, w: World, steps: seq<Step>, k: SyncId)
    requires Sized(w) && k in w.syncs && After(cfg, w, steps).Some? && AloneRun(cfg, w, steps, k)
    requires !w.syncs[k].flight.Idle?
    ensures k in After(cfg, w, steps).value.syncs && After(cfg, w, steps).value.syncs[k].r == w.syncs[k].r
    decreases |steps|
  {
    if steps != [] {
      SameRegionStep(cfg, w, steps[0], k);
      SameRegion(cfg, Do(cfg, w, steps[0]).value, steps[1..], k);
    }
  }

  /** One region alone: it holds the bucket at 0, though it counted `own` in it and lost `lost`. */
  ghost predicate Spent(cfg: Config, w: World, id: string, own: nat, lost: nat) {
    var zero := map[id := Bucket(0, cfg.resets(id))];
    && Sized(w) && |w.locals| >= 1 && w.degraded == {} && w.syncs == map[] && cfg.resets(id) > w.now
    && w.locals[0] == zero && (w.rows == map[] || w.rows == zero)
    && OwnAt(w.own[0], id) == own && OwnAt(w.lost[0], id) == lost
  }

  lemma {:induction false} RoomySnoc(cfg: Config, w: World, steps: seq<Step>, end: World, s: Step)
    requires Sized(w) && RoomyRun(cfg, w, steps) && After(cfg, w, steps) == Some(end)
    requires Roomy(cfg, end, s) && Do(cfg, end, s).Some?
    ensures RoomyRun(cfg, w, steps + [s]) && After(cfg, w, steps + [s]) == Do(cfg, end, s)
    decreases |steps|
  {
    if steps == [] {
      assert [] + [s] == [s] && [s][1..] == [];
    } else {
      assert (steps + [s])[1..] == steps[1..] + [s] && (steps + [s])[0] == steps[0];
      RoomySnoc(cfg, Do(cfg, w, steps[0]).value, steps[1..], end, s);
    }
  }

  /** The region admits a whole limit while it holds the bucket at 0. */
  lemma AdmitsLimit(cfg: Config, w: World, id: string, limit: nat)
    requires Sized(w) && |w.locals| >= 1 && cfg.resets(id) > w.now && cfg.maxSize >= 1
    requires var zero := map[id := Bucket(0, cfg.resets(id))];
      w.locals[0] == zero && (w.rows == map[] || w.rows == zero)
    ensures Roomy(cfg, w, Admit(0, id, limit, limit, true, {}))
    ensures Do(cfg, w, Admit(0, id, limit, limit, true, {})) ==
      Some(w.(locals := w.locals[0 := map[id := Bucket(limit, cfg.resets(id))]],
              own := w.own[0 := Added(w.own[0], id, limit)], syncs := Noted(w.syncs, 0, id, limit)))
  {
    var counted := Counted(cfg, w, 0, id, limit);
    assert counted == map[id := Bucket(limit, cfg.resets(id))] && counted - {} == counted && |counted| == 1;
    SubsetSize(Live(counted, w.now), {id});
  }

  /** It sends the 0, and the statement is executed. */
  lemma ZeroSent(cfg: Config, w: World, id: string, own: nat, lost: nat) returns (steps: seq<Step>, mid: World)
    requires Spent(cfg, w, id, own, lost)
    ensures RoomyRun(cfg, w, steps) && After(cfg, w, steps) == Some(mid)
    ensures mid == w.(rows := map[id := Bucket(0, cfg.resets(id))],
                      syncs := map[0 := Loop(0, Answering(id, cfg.resets(id), Some(0), 0))])
    ensures forall s :: s in steps ==> !s.Admit? && !s.Increment?
  {
    RoomySnoc(cfg, w, [], w, SyncStarts(0, 0));
    var s1, w1 := [] + [SyncStarts(0, 0)], Do(cfg, w, SyncStarts(0, 0)).value;
    RoomySnoc(cfg, w, s1, w1, Send(0, id));
    var s2, w2 := s1 + [Send(0, id)], Do(cfg, w1, Send(0, id)).value;
    assert w2.syncs == map[0 := Loop(0, Asking(id, Bucket(0, cfg.resets(id)), 0))];
    RoomySnoc(cfg, w, s2, w2, Execute(0));
    steps, mid := s2 + [Execute(0)], Do(cfg, w2, Execute(0)).value;
    assert mid.rows == map[id := Bucket(0, cfg.resets(id))];
  }

  /** The 0 returns, over a limit. */
  lemma ZeroReturns(cfg: Config, w: World, id: string, limit: nat, own: nat, lost: nat)
    returns (steps: seq<Step>, end: World)
    requires Sized(w) && |w.locals| >= 1 && w.degraded == {} && cfg.resets(id) > w.now
    requires w.syncs == map[0 := Loop(0, Answering(id, cfg.resets(id), Some(0), limit))]
    requires w.rows == map[id := Bucket(0, cfg.resets(id))]
    requires w.locals[0] == map[id := Bucket(limit, cfg.resets(id))]
    requires OwnAt(w.own[0], id) == own && OwnAt(w.lost[0], id) == lost
    ensures RoomyRun(cfg, w, steps) && After(cfg, w, steps) == Some(end) && |end.locals| == |w.locals|
    ensures Spent(cfg, end, id, own, lost + limit)
    ensures forall s :: s in steps ==> !s.Admit? && !s.Increment?
  {
    RoomySnoc(cfg, w, [], w, Return(0));
    var s1, w1 := [] + [Return(0)], Do(cfg, w, Return(0)).value;
    RoomySnoc(cfg, w, s1, w1, SyncEnds(0));
    steps, end := s1 + [SyncEnds(0)], Do(cfg, w1, SyncEnds(0)).value;
    assert end.locals[0] == map[id := Bucket(0, cfg.resets(id))];
  }

  /** What it admits while its sync is under way, the sync's return takes back. */
  lemma SyncTakesBack(cfg: Config, w: World, id: string, limit: nat, own: nat, lost: nat)
    returns (steps: seq<Step>, end: World)
    requires Spent(cfg, w, id, own, lost) && cfg.maxSize >= 1
    ensures RoomyRun(cfg, w, steps) && After(cfg, w, steps) == Some(end) && |end.locals| == |w.locals|
    ensures Spent(cfg, end, id, own + limit, lost + limit) && forall s :: s in steps ==> Metered(s, id, limit)
  {
    var s1, w1 := ZeroSent(cfg, w, id, own, lost);
    AdmitsLimit(cfg, w1, id, limit);
    var admit := Admit(0, id, limit, limit, true, {});
    RoomySnoc(cfg, w, s1, w1, admit);
    var w2 := Do(cfg, w1, admit).value;
    assert w2.syncs == map[0 := Loop(0, Answering(id, cfg.resets(id), Some(0), limit))];
    var s3, w3 := ZeroReturns(cfg, w2, id, limit, own + limit, lost);
    RoomyConcat(cfg, w, s1 + [admit], w2, s3);
    steps, end := s1 + [admit] + s3, w3;
  }

  lemma {:induction false} RoomyConcat(cfg: Config, w: World, a: seq<Step>, mid: World, b: seq<Step>)
    requires Sized(w) && RoomyRun(cfg, w, a) && After(cfg, w, a) == Some(mid) && RoomyRun(cfg, mid, b)
    ensures RoomyRun(cfg, w, a + b) && After(cfg, w, a + b) == After(cfg, mid, b)
    decreases |a|
  {
    if a == [] {
      assert a + b == b;
    } else {
      assert (a + b)[0] == a[0] && (a + b)[1..] == a[1..] + b;
      RoomyConcat(cfg, Do(cfg, w, a[0]).value, a[1..], mid, b);
    }
  }

  lemma NothingYet(cfg: Config, regions: nat, now: int, id: string, limit: nat) returns (steps: seq<Step>, w: World)
    requires cfg.resets(id) > now && cfg.maxSize >= 1 && regions >= 1
    ensures RoomyRun(cfg, Start(regions, now), steps) && After(cfg, Start(regions, now), steps) == Some(w)
    ensures Spent(cfg, w, id, 0, 0) && forall s :: s in steps ==> Metered(s, id, limit)
  {
    var start, first := Start(regions, now), Admit(0, id, 0, limit, true, {});
    var counted := Counted(cfg, start, 0, id, 0);
    assert counted == map[id := Bucket(0, cfg.resets(id))] && counted - {} == counted && |counted| == 1;
    SubsetSize(Live(counted, now), {id});
    RoomySnoc(cfg, start, [], start, first);
    steps, w := [] + [first], Do(cfg, start, first).value;
    assert w.locals[0] == counted;
  }

  lemma OneMore(m: nat, limit: nat)
    ensures m * limit + limit == (m + 1) * limit && m * limit >= 0
  {
  }

  lemma {:induction false} TakenBack(cfg: Config, regions: nat, now: int, id: string, limit: nat, n: nat)
    returns (steps: seq<Step>, w: World)
    requires cfg.resets(id) > now && cfg.maxSize >= 1 && regions >= 1
    ensures RoomyRun(cfg, Start(regions, now), steps) && After(cfg, Start(regions, now), steps) == Some(w)
    ensures Spent(cfg, w, id, n * limit, n * limit) && forall s :: s in steps ==> Metered(s, id, limit)
  {
    if n == 0 {
      steps, w := NothingYet(cfg, regions, now, id, limit);
    } else {
      var before, mid := TakenBack(cfg, regions, now, id, limit, n - 1);
      var sofar := (n - 1) * limit;
      var more, end := SyncTakesBack(cfg, mid, id, limit, sofar, sofar);
      RoomyConcat(cfg, Start(regions, now), before, mid, more);
      OneMore(n - 1, limit);
      steps, w := before + more, end;
    }
  }

  /** So the bound of limit and losses is met, and no other holds: for every n some run has one
      region admit n + 1 limits in a window, having lost n. */
  lemma LossesAreSpent(cfg: Config, regions: nat, now: int, id: string, limit: nat, n: nat)
    returns (steps: seq<Step>, w: World)
    requires cfg.resets(id) > now && cfg.maxSize >= 1 && regions >= 1
    ensures RoomyRun(cfg, Start(regions, now), steps) && After(cfg, Start(regions, now), steps) == Some(w)
    ensures forall s :: s in steps ==> Metered(s, id, limit)
    ensures |w.own| == |w.lost| == regions && OwnAt(w.lost[0], id) == n * limit
    ensures OwnAt(w.own[0], id) == limit + n * limit
  {
    var before, mid := TakenBack(cfg, regions, now, id, limit, n);
    AdmitsLimit(cfg, mid, id, limit);
    var admit := Admit(0, id, limit, limit, true, {});
    RoomySnoc(cfg, Start(regions, now), before, mid, admit);
    steps, w := before + [admit], Do(cfg, mid, admit).value;
  }

  // ---------- one lost answer ends a region's part in the merge ----------

  ghost predicate Syncing(w: World, r: Region) { exists k :: k in w.syncs && w.syncs[k].r == r }

  /** The region asks and syncs nothing. */
  ghost predicate CutOff(cfg: Config, w: World, r: Region) {
    Sized(w) && r < |w.locals| && r in w.degraded && !Syncing(w, r)
    && (forall k :: Do(cfg, w, SyncStarts(k, r)) in {None, Some(w)})
    && (forall id, answers :: Seen(w, r, id, answers) == CountAt(w.locals[r], id))
  }

  lemma StepDegraded(cfg: Config, w: World, s: Step, r: Region)
    requires Sized(w) && r in w.degraded && !Syncing(w, r) && Do(cfg, w, s).Some?
    ensures r in Do(cfg, w, s).value.degraded && !Syncing(Do(cfg, w, s).value, r)
  {
    var w' := Do(cfg, w, s).value;
    forall k | k in w'.syncs ensures w'.syncs[k].r != r {
      if k in w.syncs { assert w.syncs[k].r != r; }
    }
    if s.SyncEnds? { assert w.syncs[s.k].r != r; }
  }

  lemma {:induction false} StaysCutOff(cfg: Config, w: World, steps: seq<Step>, r: Region)
    requires Sized(w) && r < |w.locals| && r in w.degraded && !Syncing(w, r) && After(cfg, w, steps).Some?
    ensures CutOff(cfg, After(cfg, w, steps).value, r)
    decreases |steps|
  {
    if steps != [] {
      StepDegraded(cfg, w, steps[0], r);
      StaysCutOff(cfg, Do(cfg, w, steps[0]).value, steps[1..], r);
    }
  }

  /** A sync under way runs to its end and clears the flag. */
  lemma SyncRecovers(cfg: Config, w: World, k: SyncId) returns (steps: seq<Step>)
    requires Sized(w) && k in w.syncs
    ensures After(cfg, w, steps).Some? && w.syncs[k].r !in After(cfg, w, steps).value.degraded
  {
    var w1, s1 := w, [];
    if w1.syncs[k].flight.Asking? {
      AfterSnoc(cfg, w, s1, Execute(k));
      s1, w1 := s1 + [Execute(k)], Do(cfg, w1, Execute(k)).value;
    }
    if w1.syncs[k].flight.Answering? {
      AfterSnoc(cfg, w, s1, Return(k));
      s1, w1 := s1 + [Return(k)], Do(cfg, w1, Return(k)).value;
    }
    AfterSnoc(cfg, w, s1, SyncEnds(k));
    steps := s1 + [SyncEnds(k)];
  }

  /** Syncing and asking are refused while degraded, and only a sync's end clears the flag: a
      region that lost an answer is cut off in every run from there, whatever it counts, admits or
      sweeps, exactly when none of its syncs was still under way. */
  lemma DegradedIsForever(cfg: Config, w: World, r: Region)
    requires Sized(w) && r < |w.locals| && r in w.degraded
    ensures (forall steps :: After(cfg, w, steps).Some? ==> CutOff(cfg, After(cfg, w, steps).value, r))
      <==> !Syncing(w, r)
  {
    if Syncing(w, r) {
      var k :| k in w.syncs && w.syncs[k].r == r;
      var steps := SyncRecovers(cfg, w, k);
      assert After(cfg, w, steps).Some?;
    } else {
      forall steps | After(cfg, w, steps).Some? ensures CutOff(cfg, After(cfg, w, steps).value, r) {
        StaysCutOff(cfg, w, steps, r);
      }
    }
  }

  /** Every region holds the bucket, live. */
  ghost predicate HeldEverywhere(w: World, id: string, resetAt: int) {
    && resetAt > w.now && (id in w.rows ==> w.rows[id].resetAt <= resetAt)
    && forall r :: 0 <= r < |w.locals| ==> id in w.locals[r] && w.locals[r][id].resetAt == resetAt
  }

  /** The bucket as it stands in the regions and in the table. */
  function View(w: World, id: string): (s: Bucketful)
    requires forall r :: 0 <= r < |w.locals| ==> id in w.locals[r]
    ensures |s.locals| == |w.locals|
    ensures forall r :: 0 <= r < |w.locals| ==> s.locals[r] == w.locals[r][id]
  {
    Bucketful(seq(|w.locals|, r requires 0 <= r < |w.locals| => w.locals[r][id]), w.degraded, Lookup(w.rows, id))
  }

  /** A region's undisturbed sync of the bucket, the database answering. */
  function SyncOf(degraded: bool, r: Region, id: string): seq<Step> {
    if degraded then [SyncStarts(0, r)] else [SyncStarts(0, r), Send(0, id), Execute(0), Return(0), SyncEnds(0)]
  }

  /** The regions take their turns in this order. */
  function Syncs(degraded: set<Region>, order: seq<Region>, id: string): seq<Step> {
    if order == [] then []
    else
      var r := order[|order| - 1];
      Syncs(degraded, order[..|order| - 1], id) + SyncOf(r in degraded, r, id)
  }

  lemma {:induction false} AfterConcat(cfg: Config, w: World, a: seq<Step>, b: seq<Step>)
    requires Sized(w) && After(cfg, w, a).Some?
    ensures After(cfg, w, a + b) == After(cfg, After(cfg, w, a).value, b)
    decreases |a|
  {
    if a == [] {
      assert a + b == b;
    } else {
      assert (a + b)[0] == a[0] && (a + b)[1..] == a[1..] + b;
      AfterConcat(cfg, Do(cfg, w, a[0]).value, a[1..], b);
    }
  }

  /** The steps of a sync, from its first on. */
  lemma SyncSteps(cfg: Config, w: World, r: Region, id: string) returns (w': World)
    requires Sized(w) && r < |w.locals| && r !in w.degraded && w.syncs == map[]
    requires id in w.locals[r] && w.locals[r][id].resetAt > w.now
    ensures After(cfg, w, SyncOf(false, r, id)) == Some(w') && Sized(w')
    ensures w'.locals == w.locals[r := SyncedLocal(w.locals[r], w.rows, id)]
    ensures w'.rows == SyncedRows(w.locals[r], w.rows, id)
    ensures w'.syncs == map[] && w'.degraded == w.degraded && w'.now == w.now
  {
    AfterSnoc(cfg, w, [], SyncStarts(0, r));
    var s1, w1 := [] + [SyncStarts(0, r)], Do(cfg, w, SyncStarts(0, r)).value;
    AfterSnoc(cfg, w, s1, Send(0, id));
    var s2, w2 := s1 + [Send(0, id)], Do(cfg, w1, Send(0, id)).value;
    AfterSnoc(cfg, w, s2, Execute(0));
    var s3, w3 := s2 + [Execute(0)], Do(cfg, w2, Execute(0)).value;
    AfterSnoc(cfg, w, s3, Return(0));
    var s4, w4 := s3 + [Return(0)], Do(cfg, w3, Return(0)).value;
    AfterSnoc(cfg, w, s4, SyncEnds(0));
    w' := Do(cfg, w4, SyncEnds(0)).value;
    assert s4 + [SyncEnds(0)] == SyncOf(false, r, id);
    assert w.locals[r][id := w.locals[r][id]] == w.locals[r];
    assert w.locals[r := w.locals[r]] == w.locals;
  }

  lemma TurnIsSync(cfg: Config, w: World, r: Region, id: string, resetAt: int) returns (w': World)
    requires Sized(w) && w.syncs == map[] && HeldEverywhere(w, id, resetAt) && r < |w.locals|
    ensures After(cfg, w, SyncOf(r in w.degraded, r, id)) == Some(w') && HeldEverywhere(w', id, resetAt)
    ensures Sized(w') && w'.syncs == map[] && w'.degraded == w.degraded
    ensures |w'.locals| == |w.locals| && View(w', id) == SyncOne(View(w, id), r)
  {
    if r in w.degraded {
      AfterSnoc(cfg, w, [], SyncStarts(0, r));
      assert [] + [SyncStarts(0, r)] == SyncOf(true, r, id);
      w' := w;
    } else {
      w' := SyncSteps(cfg, w, r, id);
    }
  }

  lemma {:induction false} TurnsAreSyncs(cfg: Config, w: World, order: seq<Region>, id: string, resetAt: int)
    returns (w': World)
    requires Sized(w) && w.syncs == map[] && HeldEverywhere(w, id, resetAt)
    requires forall i :: 0 <= i < |order| ==> order[i] < |w.locals|
    ensures After(cfg, w, Syncs(w.degraded, order, id)) == Some(w') && HeldEverywhere(w', id, resetAt)
    ensures Sized(w') && w'.syncs == map[] && w'.degraded == w.degraded
    ensures |w'.locals| == |w.locals| && View(w', id) == SyncAll(View(w, id), order)
  {
    if order == [] {
      w' := w;
    } else {
      var init, last := order[..|order| - 1], order[|order| - 1];
      assert order == init + [last];
      var mid := TurnsAreSyncs(cfg, w, init, id, resetAt);
      w' := TurnIsSync(cfg, mid, last, id, resetAt);
      AfterConcat(cfg, w, Syncs(w.degraded, init, id), SyncOf(last in w.degraded, last, id));
    }
  }

  /** Connectivity is back, increments have stopped and earlier syncs are over. After two rounds of syncs, in any order
      and with any repetition, a region agrees with the table exactly when it never lost an
      answer or its count already was the greatest; when all had lost one, nothing has moved. */
  lemma ConvergesExactly(cfg: Config, w: World, first: seq<Region>, second: seq<Region>, id: string, resetAt: int)
    returns (mid: World, end: World)
    requires Sized(w) && w.syncs == map[] && HeldEverywhere(w, id, resetAt)
    requires Round(first, |w.locals|) && forall i :: 0 <= i < |first| ==> first[i] < |w.locals|
    requires Round(second, |w.locals|) && forall i :: 0 <= i < |second| ==> second[i] < |w.locals|
    ensures After(cfg, w, Syncs(w.degraded, first, id)) == Some(mid) && Sized(mid)
    ensures After(cfg, mid, Syncs(w.degraded, second, id)) == Some(end) && |end.locals| == |w.locals|
    ensures forall r :: 0 <= r < |w.locals| ==> id in end.locals[r]
    ensures if exists r :: 0 <= r < |w.locals| && r !in w.degraded then
        var m := Greatest(View(w, id), resetAt);
        && id in end.rows && end.rows[id] == Bucket(m, resetAt)
        && forall r :: 0 <= r < |w.locals| ==>
             (end.locals[r][id] == end.rows[id] <==> r !in w.degraded || w.locals[r][id].count == m)
      else View(end, id) == View(w, id)
  {
    mid := TurnsAreSyncs(cfg, w, first, id, resetAt);
    end := TurnsAreSyncs(cfg, mid, second, id, resetAt);
    var s := View(w, id);
    if exists r :: 0 <= r < |w.locals| && r !in w.degraded {
      TwoRoundsConverge(s, first, second, resetAt);
      var t := View(end, id);
      assert forall r :: 0 <= r < |w.locals| ==> t.locals[r] == end.locals[r][id];
    } else {
      NobodySyncs(s, first);
      NobodySyncs(s, second);
    }
  }
}
