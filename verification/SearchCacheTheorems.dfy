/** Every cached answer is one the store gave, and exactly three things can make it one that no
    catalog state of the request's own time gives: a change without a version, a key shared by
    parameters that search differently, and a search torn between two states. */
module SearchCacheTheorems {
  import Amounts
  import opened LruCache
  import opened Text
  import opened SearchCache

  // ---------- the key says version and query ----------

  lemma KeyInjective(v: nat, q: Str, v': nat, q': Str)
    requires KeyFor(v, q) == KeyFor(v', q')
    ensures v == v' && q == q'
  {
    var n := |PREFIX|;
    var d, d' := Amounts.DecimalText(v), Amounts.DecimalText(v');
    assert KeyFor(v, q)[n..] == d + [COLON] + q;
    assert KeyFor(v', q')[n..] == d' + [COLON] + q';
    assert COLON !in d && COLON !in d' by { assert !IsDigit(COLON); }
    FirstSeparator(d, q, d', q', COLON);
    Amounts.DigitsOfText(v);
    Amounts.DigitsOfText(v');
  }

  // ---------- the invariant ----------

  ghost predicate Ordered(h: seq<Snapshot>) {
    h != [] && forall i, j :: 0 <= i < j < |h| ==> h[i].version <= h[j].version
  }

  /** The store gave the answer from the listings of state `i` and the vectors of state `j`, for
      parameters that share the key. */
  ghost predicate From(env: Env, h: seq<Snapshot>, i: int, j: int, q: Params, v: nat, key: Key, a: Answer) {
    && 0 <= i <= j < |h| && h[i].version >= v && env.asked(q)
    && key == KeyFor(v, env.queryKey(q)) && env.finds(h[i].content, h[j].content, q, a)
  }

  ghost predicate Justified(env: Env, h: seq<Snapshot>, key: Key, a: Answer) {
    exists i, j, q, v :: From(env, h, i, j, q, v, key, a)
  }

  /** State `i` was current while the request was pending, or before that at the version the
      request arrived at; state `j` came no earlier, and before the reply. */
  ghost predicate Answered(env: Env, h: seq<Snapshot>, since: nat, until: nat, p: Params, i: int, j: int,
      q: Params, a: Answer)
  {
    && 0 <= i <= j < until <= |h| && since < until
    && env.asked(q) && env.queryKey(q) == env.queryKey(p) && env.finds(h[i].content, h[j].content, q, a)
    && (i >= since || h[i].version == h[since].version)
  }

  ghost predicate Explained(env: Env, h: seq<Snapshot>, since: nat, until: nat, p: Params, a: Answer) {
    exists i, j, q :: Answered(env, h, since, until, p, i, j, q, a)
  }

  predicate HasAnswer(phase: Phase) {
    phase.Searched? || phase.Writing? || phase.Done? || (phase.Settled? && phase.outcome.Some?)
  }

  function TheAnswer(phase: Phase): Answer
    requires HasAnswer(phase)
  {
    match phase
    case Searched(a) => a
    case Writing(a) => a
    case Done(a) => a
    case Settled(o) => o.value
  }

  ghost predicate LoadFits(env: Env, h: seq<Snapshot>, l: Load) {
    && l.since < |h| && h[l.since].version == l.version
    && l.key == KeyFor(l.version, env.queryKey(l.params)) && env.asked(l.params)
    && (l.phase.Reading? ==> l.since <= l.phase.from < |h|) && (l.phase.Shared? ==> l.live)
    && (HasAnswer(l.phase) ==> Justified(env, h, l.key, TheAnswer(l.phase)))
  }

  ghost predicate RequestFits(env: Env, w: World, r: Request) {
    && r.since < |w.history| && w.history[r.since].version == r.version && env.asked(r.params)
    && (match r.progress
        case Waiting(l) => l in w.loads && w.loads[l].key == KeyFor(r.version, env.queryKey(r.params))
        case Replied(a, until) => Explained(env, w.history, r.since, until, r.params, a)
        case Rejected => true)
  }

  ghost predicate Tiers(env: Env, w: World) {
    && (forall e :: e in w.cache.l1 ==> Justified(env, w.history, e.key, e.value))
    && (forall key :: key in w.l2 ==> Justified(env, w.history, key, w.l2[key]))
  }

  ghost predicate SingleFlight(w: World) {
    && (forall key :: key in w.cache.inflight ==>
          var id := w.cache.inflight[key]; id in w.loads && w.loads[id].key == key && !w.loads[id].phase.Settled?)
    && (forall id :: id in w.loads && !w.loads[id].phase.Settled? ==>
          w.loads[id].key in w.cache.inflight && w.cache.inflight[w.loads[id].key] == id)
  }

  ghost predicate Inv(env: Env, w: World) {
    && Ordered(w.history) && Tiers(env, w) && SingleFlight(w)
    && (forall id :: id in w.loads ==> LoadFits(env, w.history, w.loads[id]))
    && (forall r :: r in w.requests ==> RequestFits(env, w, w.requests[r]))
  }

  // ---------- what grows and what moves ----------

  lemma JustifiedGrows(env: Env, h: seq<Snapshot>, h': seq<Snapshot>, key: Key, a: Answer)
    requires h <= h' && Justified(env, h, key, a)
    ensures Justified(env, h', key, a)
  {
    var i, j, q, v :| From(env, h, i, j, q, v, key, a);
    assert From(env, h', i, j, q, v, key, a);
  }

  lemma ExplainedGrows(env: Env, h: seq<Snapshot>, h': seq<Snapshot>, since: nat, until: nat, p: Params, a: Answer)
    requires h <= h' && Explained(env, h, since, until, p, a)
    ensures Explained(env, h', since, until, p, a)
  {
    var i, j, q :| Answered(env, h, since, until, p, i, j, q, a);
    assert Answered(env, h', since, until, p, i, j, q, a);
  }

  /** A justified answer under the request's key explains itself at any later time. */
  lemma Explains(env: Env, h: seq<Snapshot>, since: nat, p: Params, key: Key, a: Answer)
    requires Ordered(h) && since < |h| && key == KeyFor(h[since].version, env.queryKey(p))
    requires Justified(env, h, key, a)
    ensures Explained(env, h, since, |h|, p, a)
  {
    var i, j, q, v :| From(env, h, i, j, q, v, key, a);
    KeyInjective(v, env.queryKey(q), h[since].version, env.queryKey(p));
    assert Answered(env, h, since, |h|, p, i, j, q, a);
  }

  lemma {:induction false} WithoutWithin(es: Entries<Answer>, key: Key, e: Entry<Answer>)
    requires e in Without(es, key)
    ensures e in es
  {
    if es != [] && e in Without(es[..|es| - 1], key) { WithoutWithin(es[..|es| - 1], key, e); }
  }

  lemma GotWithin(es: Entries<Answer>, key: Key, now: int)
    ensures forall e :: e in AfterGet(es, key, now) ==> e in es
  {
    forall e | e in AfterGet(es, key, now) ensures e in es {
      if e in Without(es, key) { WithoutWithin(es, key, e); }
    }
  }

  lemma SetWithin(es: Entries<Answer>, key: Key, a: Answer, expiresAt: int, capacity: nat)
    ensures forall e :: e in AfterSet(es, key, a, expiresAt, capacity) ==>
      e in es || (e.key == key && e.value == a)
  {
    forall e | e in AfterSet(es, key, a, expiresAt, capacity) ensures e in es || (e.key == key && e.value == a) {
      assert e in Without(es, key) + [Entry(key, a, expiresAt)];
      if e in Without(es, key) { WithoutWithin(es, key, e); }
    }
  }

  // ---------- the steps ----------

  /** The catalog moved on; nothing else did. */
  lemma CatalogKeeps(env: Env, w: World, s: Snapshot)
    requires Inv(env, w) && s.version >= Current(w).version
    ensures Inv(env, w.(history := w.history + [s]))
  {
    var w' := w.(history := w.history + [s]);
    forall e | e in w'.cache.l1 ensures Justified(env, w'.history, e.key, e.value) {
      JustifiedGrows(env, w.history, w'.history, e.key, e.value);
    }
    forall key | key in w'.l2 ensures Justified(env, w'.history, key, w'.l2[key]) {
      JustifiedGrows(env, w.history, w'.history, key, w'.l2[key]);
    }
    forall id | id in w'.loads ensures LoadFits(env, w'.history, w'.loads[id]) {
      var l := w.loads[id];
      assert LoadFits(env, w.history, l);
      if HasAnswer(l.phase) { JustifiedGrows(env, w.history, w'.history, l.key, TheAnswer(l.phase)); }
    }
    forall r | r in w'.requests ensures RequestFits(env, w', w'.requests[r]) {
      var me := w.requests[r];
      assert RequestFits(env, w, me);
      if me.progress.Replied? {
        ExplainedGrows(env, w.history, w'.history, me.since, me.progress.until, me.params, me.progress.answer);
      }
    }
  }

  /** Caches only lose, or gain what is justified; no load or request moves. */
  lemma CacheKeeps(env: Env, w: World, w': World)
    requires Inv(env, w) && w'.history == w.history && w'.loads == w.loads && w'.requests == w.requests
    requires w'.cache.inflight == w.cache.inflight && Tiers(env, w')
    ensures Inv(env, w')
  {
    forall r | r in w'.requests ensures RequestFits(env, w', w'.requests[r]) {
      assert RequestFits(env, w, w'.requests[r]);
    }
  }

  lemma FlightMoves(w: World, w': World, id: LoadId, phase: Phase)
    requires SingleFlight(w) && id in w.loads && !w.loads[id].phase.Settled?
    requires w'.loads == w.loads[id := w.loads[id].(phase := phase)]
    requires w'.cache.inflight == if phase.Settled? then w.cache.inflight - {w.loads[id].key} else w.cache.inflight
    ensures SingleFlight(w')
  {
    forall l | l in w'.loads && !w'.loads[l].phase.Settled?
      ensures w'.loads[l].key in w'.cache.inflight && w'.cache.inflight[w'.loads[l].key] == l
    {
      assert !w.loads[l].phase.Settled?;
    }
  }

  /** One load changes phase. */
  lemma LoadMoves(env: Env, w: World, w': World, id: LoadId, phase: Phase)
    requires Inv(env, w) && id in w.loads && !w.loads[id].phase.Settled?
    requires w'.history == w.history && w'.requests == w.requests
    requires w'.loads == w.loads[id := w.loads[id].(phase := phase)]
    requires HasAnswer(phase) ==> Justified(env, w.history, w.loads[id].key, TheAnswer(phase))
    requires phase.Reading? ==> w.loads[id].since <= phase.from < |w.history|
    requires !phase.Shared?
    requires Tiers(env, w')
    requires w'.cache.inflight == if phase.Settled? then w.cache.inflight - {w.loads[id].key} else w.cache.inflight
    ensures Inv(env, w')
  {
    assert LoadFits(env, w.history, w.loads[id]);
    forall l | l in w'.loads ensures LoadFits(env, w'.history, w'.loads[l]) {
      assert LoadFits(env, w.history, w.loads[l]);
    }
    forall r | r in w'.requests ensures RequestFits(env, w', w'.requests[r]) {
      assert RequestFits(env, w, w'.requests[r]);
    }
    FlightMoves(w, w', id, phase);
  }

  lemma StoredTiers(env: Env, w: World, key: Key, a: Answer)
    requires Tiers(env, w) && Justified(env, w.history, key, a)
    ensures Tiers(env, w.(cache := Stored(w.cache, env, key, a, w.now)))
  {
    SetWithin(w.cache.l1, key, a, w.now + env.ttlMs, env.maxEntries);
  }

  lemma ReadSharedKeeps(env: Env, w: World, id: LoadId, fails: bool)
    requires Inv(env, w) && Do(env, w, ReadShared(id, fails)).Some?
    ensures Inv(env, Do(env, w, ReadShared(id, fails)).value)
  {
    var w', key := Do(env, w, ReadShared(id, fails)).value, w.loads[id].key;
    if fails || key !in w.l2 {
      LoadMoves(env, w, w', id, ToSearch);
    } else {
      StoredTiers(env, w, key, w.l2[key]);
      LoadMoves(env, w, w', id, Done(w.l2[key]));
    }
  }

  lemma SearchKeeps(env: Env, w: World, id: LoadId)
    requires Inv(env, w) && Do(env, w, Search(id)).Some?
    ensures Inv(env, Do(env, w, Search(id)).value)
  {
    assert LoadFits(env, w.history, w.loads[id]);
    LoadMoves(env, w, Do(env, w, Search(id)).value, id, Reading(|w.history| - 1));
  }

  lemma ReadVectorsKeeps(env: Env, w: World, id: LoadId, a: Answer)
    requires Inv(env, w) && Do(env, w, ReadVectors(id, a)).Some?
    ensures Inv(env, Do(env, w, ReadVectors(id, a)).value)
  {
    var l := w.loads[id];
    assert LoadFits(env, w.history, l);
    assert w.history[l.since].version <= w.history[l.phase.from].version;
    assert From(env, w.history, l.phase.from, |w.history| - 1, l.params, l.version, l.key, a);
    LoadMoves(env, w, Do(env, w, ReadVectors(id, a)).value, id, Searched(a));
  }

  lemma ReturnKeeps(env: Env, w: World, id: LoadId)
    requires Inv(env, w) && Do(env, w, Return(id)).Some?
    ensures Inv(env, Do(env, w, Return(id)).value)
  {
    var w', l := Do(env, w, Return(id)).value, w.loads[id];
    assert LoadFits(env, w.history, l);
    if l.live {
      StoredTiers(env, w, l.key, l.phase.answer);
      LoadMoves(env, w, w', id, Writing(l.phase.answer));
    } else {
      LoadMoves(env, w, w', id, Done(l.phase.answer));
    }
  }

  lemma WriteSharedKeeps(env: Env, w: World, id: LoadId, fails: bool)
    requires Inv(env, w) && Do(env, w, WriteShared(id, fails)).Some?
    ensures Inv(env, Do(env, w, WriteShared(id, fails)).value)
  {
    var l := w.loads[id];
    assert LoadFits(env, w.history, l);
    LoadMoves(env, w, Do(env, w, WriteShared(id, fails)).value, id, Done(l.phase.answer));
  }

  lemma SettleKeeps(env: Env, w: World, id: LoadId)
    requires Inv(env, w) && Do(env, w, Settle(id)).Some?
    ensures Inv(env, Do(env, w, Settle(id)).value)
  {
    var w' := Do(env, w, Settle(id)).value;
    assert LoadFits(env, w.history, w.loads[id]);
    LoadMoves(env, w, w', id, w'.loads[id].phase);
  }

  /** What a lookup leaves in the first tier was in it. */
  lemma LookupTiers(env: Env, w: World, version: nat, key: Key, load: LoadId)
    requires Tiers(env, w)
    ensures var (c, looked) := LookedUp(w.cache, version, key, w.now, load);
      && Tiers(env, w.(cache := c))
      && (looked.Hit? ==> Justified(env, w.history, key, looked.answer))
      && (looked.Join? ==> key in w.cache.inflight && looked.load == w.cache.inflight[key])
      && (looked.Start? ==> key !in w.cache.inflight)
      && c.inflight == if looked.Start? then w.cache.inflight[key := load] else w.cache.inflight
  {
    GotWithin(Noticed(w.cache, version).l1, key, w.now);
  }

  /** One request arrived and, if `load` is given, started it. */
  lemma RequestArrives(env: Env, w: World, w': World, r: RequestId, me: Request, load: LoadId)
    requires Inv(env, w) && r !in w.requests && load !in w.loads
    requires w'.history == w.history && w'.requests == w.requests[r := me] && Tiers(env, w')
    requires RequestFits(env, w', me)
    requires if load in w'.loads
      then w'.loads == w.loads[load := w'.loads[load]] && LoadFits(env, w.history, w'.loads[load])
        && w'.loads[load].key !in w.cache.inflight && !w'.loads[load].phase.Settled?
        && w'.cache.inflight == w.cache.inflight[w'.loads[load].key := load]
      else w'.loads == w.loads && w'.cache.inflight == w.cache.inflight
    ensures Inv(env, w')
  {
    forall q | q in w'.requests ensures RequestFits(env, w', w'.requests[q]) {
      if q != r { assert RequestFits(env, w, w.requests[q]); }
    }
  }

  /** What an arrival makes of its lookup. */
  lemma ArrivedShape(env: Env, w: World, r: RequestId, params: Params, load: LoadId)
    requires w.history != [] && r !in w.requests && load !in w.loads
    ensures var w' := Arrived(env, w, r, params, load); var version := Current(w).version;
      var key := KeyFor(version, env.queryKey(params));
      var (c, looked) := LookedUp(w.cache, version, key, w.now, load);
      var since := |w.history| - 1;
      && w'.history == w.history && w'.cache == c && w'.l2 == w.l2 && w'.now == w.now
      && w'.requests == w.requests[r := Request(params, version, since, match looked
           case Hit(a) => Replied(a, |w.history|)
           case Join(l) => Waiting(l)
           case Start(_) => Waiting(load))]
      && (looked.Start? ==>
            (load in w'.loads && w'.loads[load].key == key && w'.loads[load].version == version
             && w'.loads[load].params == params && w'.loads[load].since == since
             && !HasAnswer(w'.loads[load].phase) && !w'.loads[load].phase.Reading?
             && (w'.loads[load].phase.Shared? ==> w'.loads[load].live) && !w'.loads[load].phase.Settled?
             && w'.loads == w.loads[load := w'.loads[load]]))
      && (!looked.Start? ==> w'.loads == w.loads)
  {
  }

  lemma ArriveKeeps(env: Env, w: World, r: RequestId, params: Params, load: LoadId)
    requires Inv(env, w) && r !in w.requests && load !in w.loads && env.asked(params)
    ensures Inv(env, Arrived(env, w, r, params, load))
  {
    var w' := Arrived(env, w, r, params, load);
    var version := Current(w).version;
    var key := KeyFor(version, env.queryKey(params));
    var (c, looked) := LookedUp(w.cache, version, key, w.now, load);
    ArrivedShape(env, w, r, params, load);
    LookupTiers(env, w, version, key, load);
    assert Tiers(env, w') by { assert Tiers(env, w.(cache := c)); }
    ArrivedFits(env, w, w', r, params, load, looked);
    RequestArrives(env, w, w', r, w'.requests[r], load);
  }

  lemma ArrivedFits(env: Env, w: World, w': World, r: RequestId, params: Params, load: LoadId, looked: Lookup)
    requires Ordered(w.history) && SingleFlight(w) && env.asked(params) && w'.history == w.history
    requires var version := Current(w).version; var key := KeyFor(version, env.queryKey(params));
      && (looked.Hit? ==> Justified(env, w.history, key, looked.answer))
      && (looked.Join? ==> key in w.cache.inflight && looked.load == w.cache.inflight[key] && w'.loads == w.loads)
      && (looked.Start? ==> load in w'.loads && w'.loads[load].key == key)
      && r in w'.requests && w'.requests[r] == Request(params, version, |w.history| - 1, match looked
           case Hit(a) => Replied(a, |w.history|)
           case Join(l) => Waiting(l)
           case Start(_) => Waiting(load))
    ensures RequestFits(env, w', w'.requests[r])
  {
    var key := KeyFor(Current(w).version, env.queryKey(params));
    if looked.Hit? { Explains(env, w.history, |w.history| - 1, params, key, looked.answer); }
  }

  lemma ReplyKeeps(env: Env, w: World, r: RequestId)
    requires Inv(env, w) && Do(env, w, Reply(r)).Some?
    ensures Inv(env, Do(env, w, Reply(r)).value)
  {
    var w' := Do(env, w, Reply(r)).value;
    var me := w.requests[r];
    assert RequestFits(env, w, me);
    var l := w.loads[me.progress.load];
    assert LoadFits(env, w.history, l);
    if l.phase.outcome.Some? {
      Explains(env, w.history, me.since, me.params, l.key, l.phase.outcome.value);
    }
    forall q | q in w'.requests ensures RequestFits(env, w', w'.requests[q]) {
      if q != r { assert RequestFits(env, w, w.requests[q]); }
    }
  }

  lemma ThrowKeeps(env: Env, w: World, id: LoadId)
    requires Inv(env, w) && Do(env, w, SearchThrows(id)).Some?
    ensures Inv(env, Do(env, w, SearchThrows(id)).value)
  {
    LoadMoves(env, w, Do(env, w, SearchThrows(id)).value, id, Failed);
  }

  lemma AroundKeeps(env: Env, w: World, s: Step)
    requires Inv(env, w) && (s.Invalidate? || s.Message? || s.Lose? || s.Tick?)
    ensures Do(env, w, s).Some? && Inv(env, Do(env, w, s).value)
  {
    CacheKeeps(env, w, Do(env, w, s).value);
  }

  lemma StepKeeps(env: Env, w: World, s: Step)
    requires Inv(env, w) && Do(env, w, s).Some?
    ensures Inv(env, Do(env, w, s).value)
  {
    match s
    case Write(v, content) => CatalogKeeps(env, w, Snapshot(v, content));
    case Silent(content) => CatalogKeeps(env, w, Snapshot(Current(w).version, content));
    case Arrive(r, params, load) => ArriveKeeps(env, w, r, params, load);
    case ReadShared(id, fails) => ReadSharedKeeps(env, w, id, fails);
    case Search(id) => SearchKeeps(env, w, id);
    case ReadVectors(id, a) => ReadVectorsKeeps(env, w, id, a);
    case SearchThrows(id) => ThrowKeeps(env, w, id);
    case Return(id) => ReturnKeeps(env, w, id);
    case WriteShared(id, fails) => WriteSharedKeeps(env, w, id, fails);
    case Settle(id) => SettleKeeps(env, w, id);
    case Reply(r) => ReplyKeeps(env, w, r);
    case _ => AroundKeeps(env, w, s);
  }

  lemma {:induction false} RunKeeps(env: Env, w: World, steps: seq<Step>)
    requires Inv(env, w) && After(env, w, steps).Some?
    ensures Inv(env, After(env, w, steps).value)
    decreases |steps|
  {
    if steps != [] {
      StepKeeps(env, w, steps[0]);
      RunKeeps(env, Do(env, w, steps[0]).value, steps[1..]);
    }
  }

  // ---------- theorems ----------

  /** Whatever is interleaved, lost or announced: each reply is the store's search, for
      parameters with the request's query key, of the listings of a catalog state that was current
      between the request's arrival and its reply, or earlier at the version it arrived at, with
      the vectors of a state between that one and the reply. */
  lemma RepliesAreSearches(env: Env, content: Content, steps: seq<Step>, r: RequestId)
    requires After(env, Start0(content), steps).Some?
    requires var w := After(env, Start0(content), steps).value; r in w.requests && w.requests[r].progress.Replied?
    ensures var w := After(env, Start0(content), steps).value; var me := w.requests[r];
      Explained(env, w.history, me.since, me.progress.until, me.params, me.progress.answer)
  {
    RunKeeps(env, Start0(content), steps);
    var w := After(env, Start0(content), steps).value;
    assert RequestFits(env, w, w.requests[r]);
  }

  /** At most one load, so at most one store search, is under way for a key. */
  lemma OneLoadPerKey(env: Env, content: Content, steps: seq<Step>, a: LoadId, b: LoadId)
    requires After(env, Start0(content), steps).Some?
    requires var w := After(env, Start0(content), steps).value;
      && a in w.loads && b in w.loads && w.loads[a].key == w.loads[b].key
      && !w.loads[a].phase.Settled? && !w.loads[b].phase.Settled?
    ensures a == b
  {
    RunKeeps(env, Start0(content), steps);
  }

  /** And a request joins a load exactly while one for its key is under way: a load that settled,
      with an answer or an error, is joined by none. */
  lemma JoinedExactly(env: Env, content: Content, steps: seq<Step>, key: Key)
    requires After(env, Start0(content), steps).Some?
    ensures var w := After(env, Start0(content), steps).value;
      key in w.cache.inflight <==> exists id :: id in w.loads && w.loads[id].key == key && !w.loads[id].phase.Settled?
  {
    RunKeeps(env, Start0(content), steps);
    var w := After(env, Start0(content), steps).value;
    if key in w.cache.inflight { assert w.cache.inflight[key] in w.loads; }
  }

  // ---------- what the tiers are for ----------

  /** The first tier would serve this answer under the key. */
  ghost predicate Serves(w: World, key: Key, a: Answer) {
    LruCache.Hit(w.cache.l1, key, w.now) && Find(w.cache.l1, key).Some? && Find(w.cache.l1, key).value.value == a
  }

  lemma StoredServes(env: Env, w: World, key: Key, a: Answer)
    requires env.maxEntries >= 1 && env.ttlMs > 0
    ensures Serves(w.(cache := Stored(w.cache, env, key, a, w.now)), key, a)
  {
    var e := Entry(key, a, w.now + env.ttlMs);
    var all := Without(w.cache.l1, key) + [e];
    assert Newest(all, env.maxEntries)[|Newest(all, env.maxEntries)| - 1] == e;
  }

  /** A live load leaves the store's answer in the first tier. */
  lemma AnswerIsKept(env: Env, w: World, id: LoadId)
    requires w.history != [] && id in w.loads && w.loads[id].live && w.loads[id].phase.Searched?
    requires env.maxEntries >= 1 && env.ttlMs > 0
    ensures Do(env, w, Return(id)).Some?
    ensures Serves(Do(env, w, Return(id)).value, w.loads[id].key, w.loads[id].phase.answer)
  {
    StoredServes(env, w, w.loads[id].key, w.loads[id].phase.answer);
  }

  /** So does one that read it in the second tier. */
  lemma SharedAnswerIsKept(env: Env, w: World, id: LoadId)
    requires w.history != [] && id in w.loads && w.loads[id].phase.Shared? && w.loads[id].key in w.l2
    requires env.maxEntries >= 1 && env.ttlMs > 0
    ensures Do(env, w, ReadShared(id, false)).Some?
    ensures Serves(Do(env, w, ReadShared(id, false)).value, w.loads[id].key, w.l2[w.loads[id].key])
  {
    StoredServes(env, w, w.loads[id].key, w.l2[w.loads[id].key]);
  }

  /** And what a load writes in the second tier the next load of its key reads there. */
  lemma AnswerIsShared(env: Env, w: World, id: LoadId)
    requires w.history != [] && id in w.loads && w.loads[id].phase.Writing?
    ensures Do(env, w, WriteShared(id, false)).Some?
    ensures var l2 := Do(env, w, WriteShared(id, false)).value.l2;
      w.loads[id].key in l2 && l2[w.loads[id].key] == w.loads[id].phase.answer
  {
  }

  /** A load that finds its key in the second tier searches nothing. */
  lemma SharedIsRead(env: Env, w: World, id: LoadId)
    requires w.history != [] && id in w.loads && w.loads[id].phase.Shared?
    ensures Do(env, w, ReadShared(id, false)).Some?
    ensures Do(env, w, ReadShared(id, false)).value.loads[id].phase ==
      if w.loads[id].key in w.l2 then Done(w.l2[w.loads[id].key]) else ToSearch
  {
  }

  /** The first request at another version than the cache has seen empties the first tier: it never
      holds what was stored before a version with what is stored after. */
  lemma NewVersionEmpties(env: Env, w: World, r: RequestId, params: Params, load: LoadId)
    requires w.history != [] && Do(env, w, Arrive(r, params, load)).Some?
    requires w.cache.lastSeen != Current(w).version
    ensures var c := Do(env, w, Arrive(r, params, load)).value.cache;
      c.l1 == [] && c.lastSeen == Current(w).version && c.minValid >= Current(w).version
  {
    var empty: Entries<Answer> := [];
    assert AfterGet(empty, KeyFor(Current(w).version, env.queryKey(params)), w.now) == empty;
  }

  // ---------- fresh replies ----------

  /** The store may give this answer from this one content. */
  predicate Gives(env: Env, c: Content, p: Params, a: Answer) { env.finds(c, c, p, a) }

  /** The reply is a search of one state current between arrival and reply. */
  ghost predicate Fresh(env: Env, h: seq<Snapshot>, me: Request)
    requires me.progress.Replied?
  {
    exists k :: me.since <= k < me.progress.until <= |h| && Gives(env, h[k].content, me.params, me.progress.answer)
  }

  /** `q` may be asked for, under the query key of `p`. */
  predicate Shares(env: Env, q: Params, p: Params) { env.asked(q) && env.queryKey(q) == env.queryKey(p) }

  /** For these parameters, states of one version, parameters of the same query key and reads torn
      between two states are all as good as each other, in this history. */
  ghost predicate Tells(env: Env, h: seq<Snapshot>, p: Params) {
    && (forall i, j, a :: 0 <= i < j < |h| && h[i].version == h[j].version && Gives(env, h[i].content, p, a) ==>
          Gives(env, h[j].content, p, a))
    && (forall i, q, a :: 0 <= i < |h| && Shares(env, q, p) && Gives(env, h[i].content, q, a) ==>
          Gives(env, h[i].content, p, a))
    && (forall i, j, q, a :: 0 <= i <= j < |h| && Shares(env, q, p) && env.finds(h[i].content, h[j].content, q, a) ==>
          Gives(env, h[i].content, q, a) || Gives(env, h[j].content, q, a))
  }

  /** In a run whose history tells all that matters to a request, its reply is a search of one
      state current between arrival and reply. */
  lemma Linearizable(env: Env, content: Content, steps: seq<Step>, r: RequestId)
    requires After(env, Start0(content), steps).Some?
    requires var w := After(env, Start0(content), steps).value; r in w.requests && w.requests[r].progress.Replied?
    ensures var w := After(env, Start0(content), steps).value; var me := w.requests[r];
      Tells(env, w.history, me.params) ==> Fresh(env, w.history, me)
  {
    RunKeeps(env, Start0(content), steps);
    var w := After(env, Start0(content), steps).value;
    var me, h := w.requests[r], w.history;
    assert RequestFits(env, w, me);
    if Tells(env, h, me.params) {
      var p, a := me.params, me.progress.answer;
      var i, j, q :| Answered(env, h, me.since, me.progress.until, p, i, j, q, a);
      var k := if Gives(env, h[i].content, q, a) then i else j;
      assert Gives(env, h[k].content, q, a);
      assert Gives(env, h[k].content, p, a);
      if k < me.since {
        assert h[i].version <= h[k].version <= h[me.since].version;
        assert Gives(env, h[me.since].content, p, a);
      }
    }
  }

  /** These changes take no answer away. */
  ghost predicate Harmless(env: Env, silent: (Content, Content) -> bool) {
    forall c, d, p, a :: env.asked(p) && silent(c, d) && Gives(env, c, p, a) ==> Gives(env, d, p, a)
  }

  /** Parameters that share a query key search alike. */
  ghost predicate KeyTells(env: Env) {
    forall c, p, q, a :: env.asked(p) && Shares(env, q, p) && Gives(env, c, p, a) ==> Gives(env, c, q, a)
  }

  /** A search of two states is a search of one of them. */
  ghost predicate Untearable(env: Env) {
    forall c, d, p, a :: env.asked(p) && env.finds(c, d, p, a) ==> Gives(env, c, p, a) || Gives(env, d, p, a)
  }

  /** Where the version stays, the content changed in one of these ways. */
  ghost predicate SilentOnly(h: seq<Snapshot>, silent: (Content, Content) -> bool) {
    forall i :: 0 < i < |h| && h[i].version == h[i - 1].version ==> silent(h[i - 1].content, h[i].content)
  }

  lemma {:induction false} AnswerStays(env: Env, h: seq<Snapshot>, silent: (Content, Content) -> bool,
      p: Params, a: Answer, i: nat, j: nat)
    requires Ordered(h) && SilentOnly(h, silent) && Harmless(env, silent) && env.asked(p)
    requires i <= j < |h| && h[i].version == h[j].version && Gives(env, h[i].content, p, a)
    ensures Gives(env, h[j].content, p, a)
    decreases j
  {
    if i < j {
      assert h[i].version <= h[j - 1].version <= h[j].version;
      AnswerStays(env, h, silent, p, a, i, j - 1);
      assert silent(h[j - 1].content, h[j].content);
    }
  }

  /** A run whose changes without a new version are of this kind, and a request it answered. */
  ghost predicate Served(env: Env, silent: (Content, Content) -> bool, content: Content, steps: seq<Step>,
      w: World, r: RequestId)
  {
    && After(env, Start0(content), steps) == Some(w) && SilentOnly(w.history, silent)
    && r in w.requests && w.requests[r].progress.Replied?
  }

  lemma ServedFresh(env: Env, silent: (Content, Content) -> bool, content: Content, steps: seq<Step>,
      w: World, r: RequestId)
    requires Harmless(env, silent) && KeyTells(env) && Untearable(env) && Served(env, silent, content, steps, w, r)
    ensures Fresh(env, w.history, w.requests[r])
  {
    RunKeeps(env, Start0(content), steps);
    var p, h := w.requests[r].params, w.history;
    assert RequestFits(env, w, w.requests[r]);
    forall i, j, a | 0 <= i < j < |h| && h[i].version == h[j].version && Gives(env, h[i].content, p, a)
      ensures Gives(env, h[j].content, p, a)
    {
      AnswerStays(env, h, silent, p, a, i, j);
    }
    assert Tells(env, h, p);
    Linearizable(env, content, steps, r);
  }

  // ---------- replies that are not ----------

  lemma Snoc(env: Env, w: World, steps: seq<Step>, mid: World, s: Step)
    requires w.history != [] && mid.history != []
    requires After(env, w, steps) == Some(mid) && Do(env, mid, s).Some?
    ensures After(env, w, steps + [s]) == Do(env, mid, s)
    decreases |steps|
  {
    if steps == [] {
      assert [] + [s] == [s] && [s][1..] == [];
      HistoryStays(env, mid, s);
      assert After(env, Do(env, mid, s).value, [s][1..]) == Do(env, mid, s);
    } else {
      assert (steps + [s])[1..] == steps[1..] + [s] && (steps + [s])[0] == steps[0];
      HistoryStays(env, w, steps[0]);
      Snoc(env, Do(env, w, steps[0]).value, steps[1..], mid, s);
    }
  }

  /** One search under way, its listings taken. */
  lemma OneReading(env: Env, content: Content, p: Params) returns (steps: seq<Step>, w: World)
    requires env.asked(p)
    ensures After(env, Start0(content), steps) == Some(w) && w.history == [Snapshot(0, content)]
    ensures w.requests == map[0 := Request(p, 0, 0, Waiting(0))] && w.cache.l1 == []
    ensures w.loads == map[0 := Load(KeyFor(0, env.queryKey(p)), 0, p, true, Reading(0), 0)]
    ensures w.cache.lastSeen == 0 && w.now == 0
  {
    var w0 := Start0(content);
    var key := KeyFor(0, env.queryKey(p));
    var empty: Entries<Answer> := [];
    assert AfterGet(empty, key, 0) == empty;
    Snoc(env, w0, [], w0, Arrive(0, p, 0));
    var s1, w1 := [] + [Arrive(0, p, 0)], Do(env, w0, Arrive(0, p, 0)).value;
    assert w1.loads[0] == Load(key, 0, p, true, Shared, 0) && w1.cache.l1 == [];
    Snoc(env, w0, s1, w1, ReadShared(0, true));
    var s2, w2 := s1 + [ReadShared(0, true)], Do(env, w1, ReadShared(0, true)).value;
    Snoc(env, w0, s2, w2, Search(0));
    steps, w := s2 + [Search(0)], Do(env, w2, Search(0)).value;
  }

  /** One search, answered by the store and kept in the first tier. */
  lemma OneSearch(env: Env, content: Content, p: Params, a: Answer) returns (steps: seq<Step>, w: World)
    requires env.maxEntries >= 1 && env.asked(p) && Gives(env, content, p, a)
    ensures After(env, Start0(content), steps) == Some(w) && w.history == [Snapshot(0, content)]
    ensures w.cache.lastSeen == 0 && w.now == 0 && 1 !in w.requests && 1 !in w.loads
    ensures w.cache.l1 == [Entry(KeyFor(0, env.queryKey(p)), a, env.ttlMs)]
  {
    var w0 := Start0(content);
    var key := KeyFor(0, env.queryKey(p));
    var s1, w1 := OneReading(env, content, p);
    Snoc(env, w0, s1, w1, ReadVectors(0, a));
    var s2, w2 := s1 + [ReadVectors(0, a)], Do(env, w1, ReadVectors(0, a)).value;
    Snoc(env, w0, s2, w2, Return(0));
    steps, w := s2 + [Return(0)], Do(env, w2, Return(0)).value;
    assert w.cache.l1 == Newest([] + [Entry(key, a, env.ttlMs)], env.maxEntries);
  }

  /** A run from this state in which a request for `p` is served what no state of its time gives. */
  ghost predicate ServesStale(env: Env, content: Content, p: Params, a: Answer, steps: seq<Step>, w: World) {
    && After(env, Start0(content), steps) == Some(w)
    && exists r :: r in w.requests && w.requests[r].params == p && w.requests[r].progress.Replied?
        && w.requests[r].progress.answer == a && !Fresh(env, w.history, w.requests[r])
  }

  /** Whenever the catalog changes what a search gives without bumping its version, as an
      embedding that lands or a listing that expires does, some run answers a request with a
      state that was over before it arrived. */
  lemma SilentChangeServesStale(env: Env, content: Content, changed: Content, p: Params, a: Answer)
    returns (steps: seq<Step>, w: World)
    requires env.maxEntries >= 1 && env.ttlMs > 0 && env.asked(p)
    requires Gives(env, content, p, a) && !Gives(env, changed, p, a)
    ensures ServesStale(env, content, p, a, steps, w)
    ensures w.history == [Snapshot(0, content), Snapshot(0, changed)]
  {
    var e := Entry(KeyFor(0, env.queryKey(p)), a, env.ttlMs);
    var s1, w1 := OneSearch(env, content, p, a);
    Snoc(env, Start0(content), s1, w1, Silent(changed));
    var s2, w2 := s1 + [Silent(changed)], Do(env, w1, Silent(changed)).value;
    assert Find([e], e.key) == Some(e);
    Snoc(env, Start0(content), s2, w2, Arrive(1, p, 1));
    steps, w := s2 + [Arrive(1, p, 1)], Do(env, w2, Arrive(1, p, 1)).value;
    assert w.requests[1] == Request(p, 0, 1, Replied(a, 2));
  }

  /** Whenever parameters share a query key and search differently, some run serves the answer to
      the ones to a request for the others, with the catalog never changing. */
  lemma SharedKeyServesOther(env: Env, content: Content, p: Params, q: Params, a: Answer)
    returns (steps: seq<Step>, w: World)
    requires env.maxEntries >= 1 && env.ttlMs > 0 && env.asked(p) && env.asked(q)
    requires env.queryKey(p) == env.queryKey(q) && Gives(env, content, p, a) && !Gives(env, content, q, a)
    ensures ServesStale(env, content, q, a, steps, w)
    ensures w.history == [Snapshot(0, content)]
  {
    var e := Entry(KeyFor(0, env.queryKey(p)), a, env.ttlMs);
    var s1, w1 := OneSearch(env, content, p, a);
    assert Find([e], e.key) == Some(e);
    Snoc(env, Start0(content), s1, w1, Arrive(1, q, 1));
    steps, w := s1 + [Arrive(1, q, 1)], Do(env, w1, Arrive(1, q, 1)).value;
    assert w.requests[1] == Request(q, 0, 0, Replied(a, 1));
  }

  /** An answer the store has given is written to the shared tier, or not. */
  lemma Written(env: Env, w0: World, before: seq<Step>, w: World, a: Answer) returns (steps: seq<Step>, end: World)
    requires w0.history != [] && After(env, w0, before) == Some(w) && w.history != []
    requires 0 in w.loads && w.loads[0].phase == Searched(a) && w.loads[0].live
    ensures After(env, w0, steps) == Some(end) && end.history == w.history && end.requests == w.requests
    ensures 0 in end.loads && end.loads[0].phase == Done(a)
  {
    Snoc(env, w0, before, w, Return(0));
    var s1, w1 := before + [Return(0)], Do(env, w, Return(0)).value;
    Snoc(env, w0, s1, w1, WriteShared(0, true));
    steps, end := s1 + [WriteShared(0, true)], Do(env, w1, WriteShared(0, true)).value;
  }

  /** And reaches the request that waits for it. */
  lemma Delivered(env: Env, w0: World, before: seq<Step>, w: World, p: Params, a: Answer)
    returns (steps: seq<Step>, end: World)
    requires w0.history != [] && After(env, w0, before) == Some(w) && w.history != []
    requires 0 in w.loads && w.loads[0].phase == Done(a)
    requires 0 in w.requests && w.requests[0] == Request(p, 0, 0, Waiting(0))
    ensures After(env, w0, steps) == Some(end) && end.history == w.history
    ensures 0 in end.requests && end.requests[0] == Request(p, 0, 0, Replied(a, |w.history|))
  {
    Snoc(env, w0, before, w, Settle(0));
    var s1, w1 := before + [Settle(0)], Do(env, w, Settle(0)).value;
    Snoc(env, w0, s1, w1, Reply(0));
    steps, end := s1 + [Reply(0)], Do(env, w1, Reply(0)).value;
  }

  /** Whenever listings and vectors of two states together give what neither gives, some run
      answers with it. */
  lemma TornSearchServed(env: Env, content: Content, changed: Content, p: Params, a: Answer)
    returns (steps: seq<Step>, w: World)
    requires env.asked(p) && env.finds(content, changed, p, a)
    requires !Gives(env, content, p, a) && !Gives(env, changed, p, a)
    ensures ServesStale(env, content, p, a, steps, w)
    ensures w.history == [Snapshot(0, content), Snapshot(1, changed)]
  {
    var w0 := Start0(content);
    var s1, w1 := OneReading(env, content, p);
    Snoc(env, w0, s1, w1, Write(1, changed));
    var s2, w2 := s1 + [Write(1, changed)], Do(env, w1, Write(1, changed)).value;
    Snoc(env, w0, s2, w2, ReadVectors(0, a));
    var s3, w3 := s2 + [ReadVectors(0, a)], Do(env, w2, ReadVectors(0, a)).value;
    var s4, w4 := Written(env, w0, s3, w3, a);
    steps, w := Delivered(env, w0, s4, w4, p, a);
  }

  /** Every served request is answered freshly. */
  ghost predicate AlwaysFresh(env: Env, silent: (Content, Content) -> bool) {
    forall content, steps, w, r :: Served(env, silent, content, steps, w, r) ==> Fresh(env, w.history, w.requests[r])
  }

  lemma StaleServed(env: Env, silent: (Content, Content) -> bool, content: Content, p: Params, a: Answer,
      steps: seq<Step>, w: World)
    requires ServesStale(env, content, p, a, steps, w) && SilentOnly(w.history, silent)
    ensures !AlwaysFresh(env, silent)
  {
    var r :| r in w.requests && w.requests[r].progress.Replied? && !Fresh(env, w.history, w.requests[r]);
    assert Served(env, silent, content, steps, w, r);
  }

  lemma FreshOnlyIf(env: Env, silent: (Content, Content) -> bool)
    requires env.maxEntries >= 1 && env.ttlMs > 0 && AlwaysFresh(env, silent)
    ensures Harmless(env, silent) && KeyTells(env) && Untearable(env)
  {
    if c, d, p, a :| env.asked(p) && silent(c, d) && Gives(env, c, p, a) && !Gives(env, d, p, a) {
      var steps, w := SilentChangeServesStale(env, c, d, p, a);
      StaleServed(env, silent, c, p, a, steps, w);
    }
    if c, p, q, a :| env.asked(p) && Shares(env, q, p) && Gives(env, c, p, a) && !Gives(env, c, q, a) {
      var steps, w := SharedKeyServesOther(env, c, p, q, a);
      StaleServed(env, silent, c, q, a, steps, w);
    }
    if c, d, p, a :| env.asked(p) && env.finds(c, d, p, a) && !Gives(env, c, p, a) && !Gives(env, d, p, a) {
      var steps, w := TornSearchServed(env, c, d, p, a);
      StaleServed(env, silent, c, p, a, steps, w);
    }
  }

  /** Of a cache that caches at all: over every run in which the catalog changes without a new
      version only in certain ways, each reply is a search of one state of its request's time,
      exactly when those ways take no answer away, parameters that share a key search alike, and
      no search of two states differs from the searches of both. */
  lemma LinearizableExactly(env: Env, silent: (Content, Content) -> bool)
    requires env.maxEntries >= 1 && env.ttlMs > 0
    ensures AlwaysFresh(env, silent) <==> Harmless(env, silent) && KeyTells(env) && Untearable(env)
  {
    if Harmless(env, silent) && KeyTells(env) && Untearable(env) {
      forall content, steps, w, r | Served(env, silent, content, steps, w, r)
        ensures Fresh(env, w.history, w.requests[r])
      {
        ServedFresh(env, silent, content, steps, w, r);
      }
    } else if AlwaysFresh(env, silent) {
      FreshOnlyIf(env, silent);
    }
  }
}
