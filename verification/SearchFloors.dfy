/** What an announced version retires: exactly when the first tier may still serve an older one. */
module SearchFloors {
  import opened LruCache
  import opened Text
  import opened SearchCache
  import opened SearchCacheTheorems

  /** The load may still put an answer in the first tier. */
  predicate ToStore(phase: Phase) { phase.Shared? || phase.ToSearch? || phase.Reading? || phase.Searched? }

  /** The key is of the version `v` or a later one, or of one before `now`. */
  ghost predicate Elsewhere(key: Key, v: nat, now: nat) {
    exists u: nat, q :: key == KeyFor(u, q) && (u >= v || u < now)
  }

  ghost predicate TierRetired(l1: Entries<Answer>, v: nat, now: nat) {
    forall e :: e in l1 ==> Elsewhere(e.key, v, now)
  }

  ghost predicate LoadsRetired(loads: map<LoadId, Load>, v: nat, now: nat) {
    forall id :: id in loads && loads[id].live && ToStore(loads[id].phase) ==>
      loads[id].version >= v || loads[id].version < now
  }

  /** No answer at the catalog's version, if that is before `v`, is in the first tier or on its way. */
  ghost predicate Retired(w: World, v: nat) {
    && w.history != [] && w.cache.minValid >= v
    && TierRetired(w.cache.l1, v, Current(w).version) && LoadsRetired(w.loads, v, Current(w).version)
  }

  lemma ElsewhereStays(key: Key, v: nat, now: nat, later: nat)
    requires Elsewhere(key, v, now) && later >= now
    ensures Elsewhere(key, v, later)
  {
    var u: nat, q :| key == KeyFor(u, q) && (u >= v || u < now);
    assert key == KeyFor(u, q) && (u >= v || u < later);
  }

  lemma StoredRetired(env: Env, w: World, id: LoadId, v: nat, a: Answer)
    requires Inv(env, w) && Retired(w, v) && id in w.loads && w.loads[id].live && ToStore(w.loads[id].phase)
    ensures TierRetired(Stored(w.cache, env, w.loads[id].key, a, w.now).l1, v, Current(w).version)
  {
    var l := w.loads[id];
    assert LoadFits(env, w.history, l);
    assert l.key == KeyFor(l.version, env.queryKey(l.params));
    assert Elsewhere(l.key, v, Current(w).version);
    SetWithin(w.cache.l1, l.key, a, w.now + env.ttlMs, env.maxEntries);
  }

  lemma ArriveRetired(env: Env, w: World, r: RequestId, params: Params, load: LoadId, v: nat)
    requires Retired(w, v) && r !in w.requests && load !in w.loads
    ensures Retired(Arrived(env, w, r, params, load), v)
  {
    var version := Current(w).version;
    GotWithin(Noticed(w.cache, version).l1, KeyFor(version, env.queryKey(params)), w.now);
  }

  lemma CatalogRetired(w: World, s: Snapshot, v: nat)
    requires Retired(w, v) && s.version >= Current(w).version
    ensures Retired(w.(history := w.history + [s]), v)
  {
    forall e | e in w.cache.l1 ensures Elsewhere(e.key, v, s.version) {
      ElsewhereStays(e.key, v, Current(w).version, s.version);
    }
  }

  /** A load moves on, no nearer to storing; the first tier holds what is retired. */
  lemma MovedRetired(w: World, w': World, id: LoadId, phase: Phase, v: nat)
    requires Retired(w, v) && id in w.loads && w'.history == w.history && w'.cache.minValid == w.cache.minValid
    requires w'.loads == w.loads[id := w.loads[id].(phase := phase)]
    requires ToStore(phase) ==> ToStore(w.loads[id].phase)
    requires TierRetired(w'.cache.l1, v, Current(w).version)
    ensures Retired(w', v)
  {
  }

  lemma ReadSharedRetired(env: Env, w: World, id: LoadId, fails: bool, v: nat)
    requires Inv(env, w) && Retired(w, v) && Do(env, w, ReadShared(id, fails)).Some?
    ensures Retired(Do(env, w, ReadShared(id, fails)).value, v)
  {
    assert LoadFits(env, w.history, w.loads[id]);
    var w' := Do(env, w, ReadShared(id, fails)).value;
    if !fails && w.loads[id].key in w.l2 { StoredRetired(env, w, id, v, w.l2[w.loads[id].key]); }
    MovedRetired(w, w', id, w'.loads[id].phase, v);
  }

  lemma ReturnRetired(env: Env, w: World, id: LoadId, v: nat)
    requires Inv(env, w) && Retired(w, v) && Do(env, w, Return(id)).Some?
    ensures Retired(Do(env, w, Return(id)).value, v)
  {
    var w' := Do(env, w, Return(id)).value;
    if w.loads[id].live { StoredRetired(env, w, id, v, w.loads[id].phase.answer); }
    MovedRetired(w, w', id, w'.loads[id].phase, v);
  }

  lemma LoadRetired(env: Env, w: World, s: Step, v: nat)
    requires Retired(w, v) && Do(env, w, s).Some?
    requires s.Search? || s.ReadVectors? || s.SearchThrows? || s.WriteShared? || s.Settle?
    ensures Retired(Do(env, w, s).value, v)
  {
    var w' := Do(env, w, s).value;
    MovedRetired(w, w', s.load, w'.loads[s.load].phase, v);
  }

  lemma AroundRetired(env: Env, w: World, s: Step, v: nat)
    requires Retired(w, v) && Do(env, w, s).Some?
    requires s.Reply? || s.Invalidate? || s.Message? || s.Lose? || s.Tick?
    ensures Retired(Do(env, w, s).value, v)
  {
  }

  lemma StepRetired(env: Env, w: World, s: Step, v: nat)
    requires Inv(env, w) && Retired(w, v) && Do(env, w, s).Some?
    ensures Retired(Do(env, w, s).value, v)
  {
    match s
    case Write(version, content) => CatalogRetired(w, Snapshot(version, content), v);
    case Silent(content) => CatalogRetired(w, Snapshot(Current(w).version, content), v);
    case Arrive(r, params, load) => ArriveRetired(env, w, r, params, load, v);
    case ReadShared(id, fails) => ReadSharedRetired(env, w, id, fails, v);
    case Return(id) => ReturnRetired(env, w, id, v);
    case Reply(_) => AroundRetired(env, w, s, v);
    case Invalidate(_) => AroundRetired(env, w, s, v);
    case Message(_) => AroundRetired(env, w, s, v);
    case Lose(_) => AroundRetired(env, w, s, v);
    case Tick(_) => AroundRetired(env, w, s, v);
    case _ => LoadRetired(env, w, s, v);
  }

  lemma {:induction false} RunRetired(env: Env, w: World, steps: seq<Step>, v: nat)
    requires Inv(env, w) && Retired(w, v) && After(env, w, steps).Some?
    ensures Retired(After(env, w, steps).value, v)
    decreases |steps|
  {
    if steps != [] {
      StepKeeps(env, w, steps[0]);
      StepRetired(env, w, steps[0], v);
      RunRetired(env, Do(env, w, steps[0]).value, steps[1..], v);
    }
  }

  /** A request for these parameters would now be served from the first tier, at an older version
      than `v`. */
  predicate ServesOlder(env: Env, w: World, params: Params, v: nat) {
    && w.history != [] && env.asked(params) && Current(w).version < v
    && var version := Current(w).version;
       LruCache.Hit(Noticed(w.cache, version).l1, KeyFor(version, env.queryKey(params)), w.now)
  }

  lemma RetiredServesNone(env: Env, w: World, params: Params, v: nat)
    requires Retired(w, v)
    ensures !ServesOlder(env, w, params, v)
  {
    var version := Current(w).version;
    var key := KeyFor(version, env.queryKey(params));
    if ServesOlder(env, w, params, v) {
      var e := Find(Noticed(w.cache, version).l1, key).value;
      assert e in w.cache.l1;
      var u: nat, q :| e.key == KeyFor(u, q) && (u >= v || u < version);
      KeyInjective(u, q, version, env.queryKey(params));
    }
  }

  /** A live load, at the catalog's version, that may still store its answer. */
  predicate Underway(w: World, id: LoadId) {
    w.history != [] && id in w.loads && w.loads[id].live && ToStore(w.loads[id].phase)
    && w.loads[id].version == Current(w).version
  }

  /** The version is announced: by this process's own write, or by a peer's newer one. */
  predicate Announces(w: World, s: Step, v: nat) { s == Invalidate(v) || (s == Message(v) && v > w.cache.minValid) }

  lemma AnnouncedRetires(env: Env, w: World, s: Step, v: nat)
    requires Inv(env, w) && Announces(w, s, v) && (Current(w).version < v ==> forall id :: !Underway(w, id))
    ensures Do(env, w, s).Some? && Retired(Do(env, w, s).value, v)
  {
    forall id | id in w.loads && w.loads[id].live && ToStore(w.loads[id].phase)
      ensures w.loads[id].version >= v || w.loads[id].version < Current(w).version
    {
      assert LoadFits(env, w.history, w.loads[id]);
      assert w.history[w.loads[id].since].version <= Current(w).version;
      assert !Underway(w, id) || Current(w).version >= v;
    }
  }

  // ---------- a slow load brings a retired version back ----------

  ghost predicate Answerable(env: Env, c: Content, d: Content, p: Params) { exists a :: env.finds(c, d, p, a) }

  /** The store always answers. */
  ghost predicate AlwaysAnswers(env: Env) { forall c, d, p :: env.asked(p) ==> Answerable(env, c, d, p) }

  lemma Step1(env: Env, w: World, steps: seq<Step>, s: Step) returns (more: seq<Step>, next: World)
    requires w.history != [] && After(env, w, steps).Some? && After(env, w, steps).value.history != []
    requires Do(env, After(env, w, steps).value, s).Some?
    ensures more == steps + [s] && After(env, w, more) == Some(next)
    ensures Some(next) == Do(env, After(env, w, steps).value, s)
  {
    more, next := steps + [s], Do(env, After(env, w, steps).value, s).value;
    Snoc(env, w, steps, After(env, w, steps).value, s);
  }

  /** The load has come to this phase; nothing else has changed. */
  predicate OnlyPhase(w: World, w': World, id: LoadId, phase: Phase) {
    id in w.loads && w' == w.(loads := w.loads[id := w.loads[id].(phase := phase)])
  }

  lemma ToReading(env: Env, w: World, id: LoadId) returns (steps: seq<Step>, w': World, from: nat)
    requires w.history != [] && id in w.loads && (w.loads[id].phase.Shared? || w.loads[id].phase.ToSearch?)
    ensures After(env, w, steps) == Some(w') && OnlyPhase(w, w', id, Reading(from)) && from < |w.history|
  {
    from := |w.history| - 1;
    if w.loads[id].phase.Shared? {
      var s1, w1 := Step1(env, w, [], ReadShared(id, true));
      assert OnlyPhase(w, w1, id, ToSearch);
      steps, w' := Step1(env, w, s1, Search(id));
    } else {
      steps, w' := Step1(env, w, [], Search(id));
    }
  }

  /** A load that holds its listings reads their vectors. */
  lemma Searches(env: Env, w0: World, before: seq<Step>, w: World, id: LoadId)
    returns (steps: seq<Step>, w': World, a: Answer)
    requires w0.history != [] && After(env, w0, before) == Some(w) && w.history != [] && AlwaysAnswers(env)
    requires id in w.loads && w.loads[id].phase.Reading? && w.loads[id].phase.from < |w.history|
    requires env.asked(w.loads[id].params)
    ensures After(env, w0, steps) == Some(w') && OnlyPhase(w, w', id, Searched(a))
  {
    var from, p := w.loads[id].phase.from, w.loads[id].params;
    assert Answerable(env, w.history[from].content, Current(w).content, p);
    a :| env.finds(w.history[from].content, Current(w).content, p, a);
    steps, w' := Step1(env, w0, before, ReadVectors(id, a));
  }

  lemma ToSearched(env: Env, w: World, id: LoadId) returns (steps: seq<Step>, w': World, a: Answer)
    requires AlwaysAnswers(env) && Underway(w, id) && LoadFits(env, w.history, w.loads[id])
    ensures After(env, w, steps) == Some(w') && w'.history == w.history && w'.cache == w.cache && w'.now == w.now
    ensures id in w'.loads && w'.loads[id] == w.loads[id].(phase := Searched(a))
  {
    if w.loads[id].phase.Searched? {
      steps, w', a := [], w, w.loads[id].phase.answer;
    } else if w.loads[id].phase.Reading? {
      steps, w', a := Searches(env, w, [], w, id);
    } else {
      var before, mid, from := ToReading(env, w, id);
      steps, w', a := Searches(env, w, before, mid, id);
    }
  }

  lemma {:induction false} Above(ids: set<nat>) returns (bound: nat)
    ensures forall i :: i in ids ==> i < bound
  {
    bound := 0;
    if ids != {} {
      var i :| i in ids;
      var rest := Above(ids - {i});
      bound := Max(rest, i + 1);
      assert forall j :: j in ids ==> j == i || j in ids - {i};
    }
  }

  /** Another request for the same joins the load, and the cache has seen the catalog's version. */
  lemma Joins(env: Env, w: World, id: LoadId) returns (r: RequestId, load: LoadId, w': World)
    requires Underway(w, id) && LoadFits(env, w.history, w.loads[id]) && w.loads[id].key in w.cache.inflight
    requires w.cache.l1 == []
    ensures Do(env, w, Arrive(r, w.loads[id].params, load)) == Some(w')
    ensures w'.history == w.history && w'.loads == w.loads && w'.now == w.now
    ensures w'.cache.l1 == [] && w'.cache.lastSeen == Current(w).version
  {
    r := Above(w.requests.Keys);
    load := Above(w.loads.Keys);
    assert r !in w.requests && load !in w.loads;
    var s := Arrive(r, w.loads[id].params, load);
    var key := w.loads[id].key;
    assert key == KeyFor(Current(w).version, env.queryKey(w.loads[id].params)) && key in w.cache.inflight;
    var empty: Entries<Answer> := [];
    assert AfterGet(empty, key, w.now) == empty && !LruCache.Hit(empty, key, w.now);
    w' := Do(env, w, s).value;
  }

  /** The load stores its answer, and a request for the same would be served it. */
  lemma StoresOlder(env: Env, w: World, id: LoadId, a: Answer, v: nat)
    requires w.history != [] && id in w.loads && w.loads[id].live && w.loads[id].phase == Searched(a)
    requires w.loads[id].key == KeyFor(Current(w).version, env.queryKey(w.loads[id].params))
    requires env.asked(w.loads[id].params)
    requires Current(w).version < v && w.cache.l1 == [] && w.cache.lastSeen == Current(w).version
    requires env.maxEntries >= 1 && env.ttlMs > 0
    ensures Do(env, w, Return(id)).Some? && ServesOlder(env, Do(env, w, Return(id)).value, w.loads[id].params, v)
  {
    var key := w.loads[id].key;
    var e := Entry(key, a, w.now + env.ttlMs);
    var empty: Entries<Answer> := [];
    assert Without(empty, key) == empty && Newest(empty + [e], env.maxEntries) == [e];
    assert Do(env, w, Return(id)).value.cache.l1 == [e];
    assert Find([e], key) == Some(e);
  }

  /** A run from here after which a request would be served at an older version than `v`. */
  ghost predicate ComesBack(env: Env, w: World, v: nat, steps: seq<Step>, params: Params) {
    w.history != [] && After(env, w, steps).Some? && ServesOlder(env, After(env, w, steps).value, params, v)
  }

  lemma Prefixed(env: Env, w: World, s: Step, mid: World, rest: seq<Step>, end: World)
    requires w.history != [] && Do(env, w, s) == Some(mid) && mid.history != [] && After(env, mid, rest) == Some(end)
    ensures After(env, w, [s] + rest) == Some(end)
  {
    assert ([s] + rest)[0] == s && ([s] + rest)[1..] == rest;
  }

  lemma SlowLoadComesBack(env: Env, w: World, id: LoadId, v: nat) returns (steps: seq<Step>, end: World)
    requires Underway(w, id) && LoadFits(env, w.history, w.loads[id]) && w.loads[id].key in w.cache.inflight
    requires w.cache.l1 == [] && Current(w).version < v
    requires env.maxEntries >= 1 && env.ttlMs > 0 && AlwaysAnswers(env)
    ensures After(env, w, steps) == Some(end) && ServesOlder(env, end, w.loads[id].params, v)
  {
    var r, load, mid := Joins(env, w, id);
    var join := Arrive(r, w.loads[id].params, load);
    var rest;
    rest, end := JoinedComesBack(env, mid, id, v);
    Prefixed(env, w, join, mid, rest, end);
    steps := [join] + rest;
  }

  lemma JoinedComesBack(env: Env, w: World, id: LoadId, v: nat) returns (steps: seq<Step>, end: World)
    requires Underway(w, id) && LoadFits(env, w.history, w.loads[id]) && w.cache.l1 == [] && Current(w).version < v
    requires w.cache.lastSeen == Current(w).version
    requires env.maxEntries >= 1 && env.ttlMs > 0 && AlwaysAnswers(env)
    ensures After(env, w, steps) == Some(end) && ServesOlder(env, end, w.loads[id].params, v)
  {
    var more, mid, a := ToSearched(env, w, id);
    steps, end := StoredThen(env, w, more, mid, id, a, v);
  }

  lemma StoredThen(env: Env, w: World, more: seq<Step>, mid: World, id: LoadId, a: Answer, v: nat)
    returns (steps: seq<Step>, end: World)
    requires w.history != [] && After(env, w, more) == Some(mid) && mid.history != []
    requires id in mid.loads && mid.loads[id].live && mid.loads[id].phase == Searched(a)
    requires env.asked(mid.loads[id].params)
    requires mid.loads[id].key == KeyFor(Current(mid).version, env.queryKey(mid.loads[id].params))
    requires Current(mid).version < v && mid.cache.l1 == [] && mid.cache.lastSeen == Current(mid).version
    requires env.maxEntries >= 1 && env.ttlMs > 0
    ensures After(env, w, steps) == Some(end) && ServesOlder(env, end, mid.loads[id].params, v)
  {
    StoresOlder(env, mid, id, a, v);
    steps, end := Step1(env, w, more, Return(id));
  }

  /** Once a version is announced, in no run is a request ever served an older version's answer from
      the first tier, exactly when no live load of the catalog's own, older version is still to
      store: such a load does, though its version is retired by then. */
  lemma AnnouncedRetiresExactly(env: Env, w: World, s: Step, v: nat)
    requires Inv(env, w) && Announces(w, s, v) && Current(w).version < v
    requires env.maxEntries >= 1 && env.ttlMs > 0 && AlwaysAnswers(env)
    ensures Do(env, w, s).Some? && Do(env, w, s).value.history != []
    ensures (forall steps, params :: !ComesBack(env, Do(env, w, s).value, v, steps, params))
      <==> forall id :: !Underway(w, id)
  {
    var next := Do(env, w, s).value;
    StepKeeps(env, w, s);
    if id :| Underway(w, id) {
      assert LoadFits(env, next.history, next.loads[id]);
      var steps, end := SlowLoadComesBack(env, next, id, v);
      assert ComesBack(env, next, v, steps, next.loads[id].params);
    } else {
      AnnouncedRetires(env, w, s, v);
      forall steps, params ensures !ComesBack(env, next, v, steps, params) {
        if After(env, next, steps).Some? {
          RunRetired(env, next, steps, v);
          RetiredServesNone(env, After(env, next, steps).value, params, v);
        }
      }
    }
  }

  // ---------- announcements that change nothing ----------

  lemma {:induction false} SeenIsFloored(env: Env, w: World, steps: seq<Step>)
    requires w.history != [] && w.cache.lastSeen <= w.cache.minValid && After(env, w, steps).Some?
    ensures var end := After(env, w, steps).value; end.history != [] && end.cache.lastSeen <= end.cache.minValid
    decreases |steps|
  {
    if steps != [] {
      HistoryStays(env, w, steps[0]);
      StepFloored(env, w, steps[0]);
      SeenIsFloored(env, Do(env, w, steps[0]).value, steps[1..]);
    }
  }

  lemma StepFloored(env: Env, w: World, s: Step)
    requires w.history != [] && w.cache.lastSeen <= w.cache.minValid && Do(env, w, s).Some?
    ensures var c := Do(env, w, s).value.cache; c.lastSeen <= c.minValid
  {
    match s
    case Arrive(r, params, load) => ArriveFloored(env, w, r, params, load);
    case _ =>
  }

  lemma ArriveFloored(env: Env, w: World, r: RequestId, params: Params, load: LoadId)
    requires w.history != [] && w.cache.lastSeen <= w.cache.minValid
    ensures var c := Arrived(env, w, r, params, load).cache; c.lastSeen <= c.minValid
  {
  }

  /** In every run: a peer's message of a version this cache has itself seen, or of one not newer than
      an earlier message, changes nothing; and a search at a version just announced by this process
      retires nothing more. */
  lemma OldNewsIgnored(env: Env, content: Content, steps: seq<Step>, v: nat, key: Key)
    requires After(env, Start0(content), steps).Some?
    ensures var w := After(env, Start0(content), steps).value;
      && w.history != [] && (v <= w.cache.lastSeen ==> Do(env, w, Message(v)) == Some(w))
      && (var heard := Announced(w.cache, v); forall u: nat :: u <= v ==> Announced(heard, u) == heard)
      && Noticed(Invalidated(w.cache, v), v) == Invalidated(w.cache, v)
  {
    SeenIsFloored(env, Start0(content), steps);
  }
}
