/** The versioned read-through search cache, and every interleaving of its requests with
    catalog changes, a lossy shared tier and peers' messages, in one process. */
module SearchCache {
  import Amounts
  import Catalog
  import SearchKey
  import opened LruCache
  import opened Text

  /** What search reads; two contents may share a version when a change bumps none. */
  type Content = Catalog.View

  type Params = SearchKey.Params

  type Answer = string

  datatype Snapshot = Snapshot(version: nat, content: Content)

  /** The answers the store may give, as outside embedders come or fail, from the listings of one
      content and the vectors of a later one; the part of the key the parameters give; the
      parameters requests come with; and the first tier's sizes. */
  datatype Env = Env(
    finds: (Content, Content, Params, Answer) -> bool, queryKey: Params -> Str, asked: Params -> bool,
    maxEntries: nat, ttlMs: int)

  const PREFIX := Units("x402:catalog:search:v")
  const COLON: CodeUnit := ':' as int

  function KeyFor(version: nat, query: Str): Key { PREFIX + Amounts.DecimalText(version) + [COLON] + query }

  type LoadId = nat

  datatype Cache = Cache(l1: Entries<Answer>, inflight: map<Key, LoadId>, lastSeen: nat, minValid: nat)

  datatype Lookup = Hit(answer: Answer) | Join(load: LoadId) | Start(live: bool)

  /** A version not seen last retires the first tier. */
  function Noticed(c: Cache, version: nat): Cache {
    if version == c.lastSeen then c
    else c.(lastSeen := version, minValid := Max(c.minValid, version), l1 := [])
  }

  function LookedUp(c: Cache, version: nat, key: Key, now: int, load: LoadId): (Cache, Lookup) {
    var n := Noticed(c, version);
    var c' := n.(l1 := AfterGet(n.l1, key, now));
    if LruCache.Hit(n.l1, key, now) then (c', Hit(Find(n.l1, key).value.value))
    else if key in c.inflight then (c', Join(c.inflight[key]))
    else (c'.(inflight := c.inflight[key := load]), Start(version >= n.minValid))
  }

  function Invalidated(c: Cache, version: nat): Cache {
    c.(minValid := Max(c.minValid, version), lastSeen := version, l1 := [])
  }

  /** A peer's message; an older version than the floor is ignored. */
  function Announced(c: Cache, version: nat): Cache {
    if version <= c.minValid then c else c.(minValid := version, l1 := [])
  }

  function Stored(c: Cache, env: Env, key: Key, answer: Answer, now: int): Cache {
    c.(l1 := AfterSet(c.l1, key, answer, now + env.ttlMs, env.maxEntries))
  }

  function Released(c: Cache, key: Key): Cache { c.(inflight := c.inflight - {key}) }

  class CatalogSearchCache {
    const l1: LruTtlCache<Answer>
    var inflight: map<Key, LoadId>
    var lastSeenVersion: nat
    var minValidVersion: nat

    ghost function State(): Cache
      reads this, l1
    {
      Cache(l1.entries, inflight, lastSeenVersion, minValidVersion)
    }

    constructor (env: Env)
      ensures State() == Cache([], map[], 0, 0) && fresh(l1)
      ensures l1.maxEntries == env.maxEntries && l1.ttlMs == env.ttlMs
    {
      l1 := new LruTtlCache(env.maxEntries, env.ttlMs);
      inflight, lastSeenVersion, minValidVersion := map[], 0, 0;
    }

    /** search, up to its first await; `load` names the call it starts, if it starts one. */
    method Search(env: Env, version: nat, params: Params, now: int, load: LoadId) returns (r: Lookup)
      modifies this, l1
      ensures var (c, answer) := LookedUp(old(State()), version, KeyFor(version, env.queryKey(params)), now, load);
        State() == c && r == answer
    {
      if version != lastSeenVersion {
        lastSeenVersion := version;
        if version > minValidVersion { minValidVersion := version; }
        if |l1.entries| > 0 { l1.Clear(); }
      }
      var key := KeyFor(version, env.queryKey(params));
      var hit := l1.Get(key, now);
      if hit.Some? { return Hit(hit.value); }
      if key in inflight { return Join(inflight[key]); }
      inflight := inflight[key := load];
      r := Start(version >= minValidVersion);
    }

    method Store(env: Env, key: Key, answer: Answer, now: int)
      requires l1.maxEntries == env.maxEntries && l1.ttlMs == env.ttlMs
      modifies l1
      ensures State() == Stored(old(State()), env, key, answer, now)
    {
      l1.Set(key, answer, now);
    }

    method Release(key: Key)
      modifies this
      ensures State() == Released(old(State()), key)
    {
      inflight := inflight - {key};
    }

    method Invalidate(version: nat)
      modifies this, l1
      ensures State() == Invalidated(old(State()), version)
    {
      if version > minValidVersion { minValidVersion := version; }
      lastSeenVersion := version;
      l1.Clear();
    }

    method OnMessage(version: nat)
      modifies this, l1
      ensures State() == Announced(old(State()), version)
    {
      if version <= minValidVersion { return; }
      minValidVersion := version;
      l1.Clear();
    }
  }

  // ---------- requests, loads and everything around them ----------

  type RequestId = nat

  datatype Phase =
    | Shared                   // awaiting the second tier
    | ToSearch
    | Reading(from: nat)       // the store has taken hold of that state's listings
    | Searched(answer: Answer) // the store's answer is on its way
    | Writing(answer: Answer)  // awaiting the second tier again
    | Done(answer: Answer)
    | Failed
    | Settled(outcome: Option<Answer>) // out of the single-flight table

  datatype Load = Load(key: Key, version: nat, params: Params, live: bool, phase: Phase, since: nat)

  datatype Progress = Waiting(load: LoadId) | Replied(answer: Answer, until: nat) | Rejected

  /** `since` and `until` are positions in the catalog's history, which the program does not keep. */
  datatype Request = Request(params: Params, version: nat, since: nat, progress: Progress)

  datatype World = World(
    history: seq<Snapshot>, cache: Cache, l2: map<Key, Answer>,
    loads: map<LoadId, Load>, requests: map<RequestId, Request>, now: int)

  function Current(w: World): Snapshot
    requires w.history != []
  {
    w.history[|w.history| - 1]
  }

  function Start0(content: Content): World {
    World([Snapshot(0, content)], Cache([], map[], 0, 0), map[], map[], map[], 0)
  }

  datatype Step =
    | Write(version: nat, content: Content)  // a catalog write, which bumps the version
    | Silent(content: Content)               // a change that bumps none
    | Arrive(r: RequestId, params: Params, load: LoadId)
    | ReadShared(load: LoadId, fails: bool)
    | Search(load: LoadId)                   // the store takes the listings and asks for the query's vector
    | ReadVectors(load: LoadId, answer: Answer) // it reads their vectors and answers
    | SearchThrows(load: LoadId)
    | Return(load: LoadId)                   // its answer reaches the cache
    | WriteShared(load: LoadId, fails: bool)
    | Settle(load: LoadId)
    | Reply(r: RequestId)
    | Invalidate(version: nat)
    | Message(version: nat)
    | Lose(keys: set<Key>)                // the second tier expires or evicts
    | Tick(ms: nat)

  function Moved(w: World, id: LoadId, phase: Phase): World
    requires id in w.loads
  {
    w.(loads := w.loads[id := w.loads[id].(phase := phase)])
  }

  function Arrived(env: Env, w: World, r: RequestId, params: Params, load: LoadId): World
    requires w.history != []
  {
    var version := Current(w).version;
    var key := KeyFor(version, env.queryKey(params));
    var (c, looked) := LookedUp(w.cache, version, key, w.now, load);
    var since := |w.history| - 1;
    var progress := match looked
      case Hit(a) => Replied(a, |w.history|)
      case Join(l) => Waiting(l)
      case Start(_) => Waiting(load);
    var w' := w.(cache := c, requests := w.requests[r := Request(params, version, since, progress)]);
    if looked.Start? then
      w'.(loads := w.loads[load :=
        Load(key, version, params, looked.live, if looked.live then Shared else ToSearch, since)])
    else w'
  }

  /** None when the step is not enabled. */
  function Do(env: Env, w: World, s: Step): Option<World>
    requires w.history != []
  {
    match s
    case Write(version, content) =>
      if version <= Current(w).version then None
      else Some(w.(history := w.history + [Snapshot(version, content)]))
    case Silent(content) => Some(w.(history := w.history + [Snapshot(Current(w).version, content)]))
    case Arrive(r, params, load) =>
      if r in w.requests || load in w.loads || !env.asked(params) then None
      else Some(Arrived(env, w, r, params, load))
    case ReadShared(id, fails) =>
      if id !in w.loads || w.loads[id].phase != Shared then None
      else
        var key := w.loads[id].key;
        if fails || key !in w.l2 then Some(Moved(w, id, ToSearch))
        else Some(Moved(w.(cache := Stored(w.cache, env, key, w.l2[key], w.now)), id, Done(w.l2[key])))
    case Search(id) =>
      if id !in w.loads || w.loads[id].phase != ToSearch then None
      else Some(Moved(w, id, Reading(|w.history| - 1)))
    case ReadVectors(id, answer) =>
      if id !in w.loads || !w.loads[id].phase.Reading? || w.loads[id].phase.from >= |w.history| then None
      else
        var listings := w.history[w.loads[id].phase.from].content;
        if !env.finds(listings, Current(w).content, w.loads[id].params, answer) then None
        else Some(Moved(w, id, Searched(answer)))
    case SearchThrows(id) =>
      if id !in w.loads || !(w.loads[id].phase.ToSearch? || w.loads[id].phase.Reading?) then None
      else Some(Moved(w, id, Failed))
    case Return(id) =>
      if id !in w.loads || !w.loads[id].phase.Searched? then None
      else
        var l := w.loads[id];
        if l.live then
          Some(Moved(w.(cache := Stored(w.cache, env, l.key, l.phase.answer, w.now)), id, Writing(l.phase.answer)))
        else Some(Moved(w, id, Done(l.phase.answer)))
    case WriteShared(id, fails) =>
      if id !in w.loads || !w.loads[id].phase.Writing? then None
      else
        var l := w.loads[id];
        var w' := if fails then w else w.(l2 := w.l2[l.key := l.phase.answer]);
        Some(Moved(w', id, Done(l.phase.answer)))
    case Settle(id) =>
      if id !in w.loads || !(w.loads[id].phase.Done? || w.loads[id].phase.Failed?) then None
      else
        var l := w.loads[id];
        Some(Moved(w.(cache := Released(w.cache, l.key)), id,
                   Settled(if l.phase.Done? then Some(l.phase.answer) else None)))
    case Reply(r) =>
      if r !in w.requests || !w.requests[r].progress.Waiting? then None
      else
        var me := w.requests[r];
        if me.progress.load !in w.loads || !w.loads[me.progress.load].phase.Settled? then None
        else
          var outcome := w.loads[me.progress.load].phase.outcome;
          var progress := if outcome.Some? then Replied(outcome.value, |w.history|) else Rejected;
          Some(w.(requests := w.requests[r := me.(progress := progress)]))
    case Invalidate(version) => Some(w.(cache := Invalidated(w.cache, version)))
    case Message(version) => Some(w.(cache := Announced(w.cache, version)))
    case Lose(keys) => Some(w.(l2 := w.l2 - keys))
    case Tick(ms) => Some(w.(now := w.now + ms))
  }

  lemma HistoryStays(env: Env, w: World, s: Step)
    requires w.history != [] && Do(env, w, s).Some?
    ensures w.history <= Do(env, w, s).value.history
  {
  }

  function After(env: Env, w: World, steps: seq<Step>): Option<World>
    requires w.history != []
    decreases |steps|
  {
    if steps == [] then Some(w)
    else
      match Do(env, w, steps[0])
      case None => None
      case Some(next) => HistoryStays(env, w, steps[0]); After(env, next, steps[1..])
  }
}
