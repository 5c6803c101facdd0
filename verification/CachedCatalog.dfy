/** The catalog with its search cache in front: one process, one clock, both running freely. */
module CachedCatalog {
  import opened Text
  import C = Catalog
  import R = CatalogTheorems
  import K = SearchKey
  import S = SearchCache
  import T = SearchCacheTheorems

  type Listings = map<C.Key, C.Entry>

  /** `item` is what the filters look at; `rank` says which answers the store may give from the
      listings that pass, as outside embedders come or fail; `asked` which searches are made. */
  datatype Config = Config(
    catalog: C.Config, lower: Str -> Str, item: C.Fields -> K.Item,
    rank: (Listings, K.Value, nat, K.Value, S.Answer) -> bool, asked: K.Params -> bool, maxEntries: nat, ttlMs: int)

  function Filtered(cfg: Config, listings: Listings, p: K.Params): Listings {
    map k | k in listings && K.Passes(p, cfg.item(listings[k].fields)) :: listings[k]
  }

  /** The store's search; its key has an offset, but it reads none. */
  predicate Search(cfg: Config, listings: Listings, p: K.Params, a: S.Answer) {
    cfg.rank(Filtered(cfg, listings, p), p.query, K.Limit(p), p.cursor, a)
  }

  function EnvOf(cfg: Config): S.Env {
    S.Env((c: C.View, d: C.View, p: K.Params, a: S.Answer) => Search(cfg, C.Read(c, d), p, a),
          (p: K.Params) => K.SearchCacheKey(cfg.lower, p), cfg.asked, cfg.maxEntries, cfg.ttlMs)
  }

  datatype World = World(catalog: R.World, cache: S.World)

  datatype Step = CatalogStep(r: R.Step) | CacheStep(s: S.Step)

  function Start(now: int): World {
    World(R.World(C.EMPTY, now), S.Start0(C.ViewOf(C.EMPTY, now)))
  }

  /** The cache's own steps: the catalog's changes and the clock are the catalog's. */
  predicate CacheOnly(s: S.Step) { !s.Write? && !s.Silent? && !s.Tick? }

  /** How a step of the catalog looks to the cache. */
  function Seen(before: R.World, after: R.World): S.Step {
    if after.catalog.version > before.catalog.version then S.Write(after.catalog.version, R.ViewNow(after))
    else S.Silent(R.ViewNow(after))
  }

  function Clocked(cache: S.World, s: R.Step): S.World {
    if s.Tick? then cache.(now := cache.now + s.ms) else cache
  }

  function Do(cfg: Config, w: World, s: Step): Option<World>
    requires w.cache.history != []
  {
    match s
    case CatalogStep(s) =>
      (match R.Do(cfg.catalog, w.catalog, s)
       case None => None
       case Some(catalog) =>
         match S.Do(EnvOf(cfg), Clocked(w.cache, s), Seen(w.catalog, catalog))
         case None => None
         case Some(cache) => Some(World(catalog, cache)))
    case CacheStep(s) =>
      if !CacheOnly(s) then None
      else match S.Do(EnvOf(cfg), w.cache, s)
        case None => None
        case Some(cache) => Some(w.(cache := cache))
  }

  lemma HistoryStays(cfg: Config, w: World, s: Step)
    requires w.cache.history != [] && Do(cfg, w, s).Some?
    ensures w.cache.history <= Do(cfg, w, s).value.cache.history
  {
    match s
    case CatalogStep(s) =>
      var catalog := R.Do(cfg.catalog, w.catalog, s).value;
      S.HistoryStays(EnvOf(cfg), Clocked(w.cache, s), Seen(w.catalog, catalog));
    case CacheStep(s) => S.HistoryStays(EnvOf(cfg), w.cache, s);
  }

  function After(cfg: Config, w: World, steps: seq<Step>): Option<World>
    requires w.cache.history != []
    decreases |steps|
  {
    if steps == [] then Some(w)
    else
      match Do(cfg, w, steps[0])
      case None => None
      case Some(next) => HistoryStays(cfg, w, steps[0]); After(cfg, next, steps[1..])
  }

  // ---------- what holds in every run ----------

  /** Entries only aged; where the version stayed, the listings only drifted. */
  ghost predicate Follows(a: S.Snapshot, b: S.Snapshot) {
    && R.Ages(a.content.entries, b.content.entries)
    && (b.version == a.version ==> R.Drifts(R.Shown(a.content), R.Shown(b.content)))
  }

  ghost predicate Recorded(h: seq<S.Snapshot>) { forall i :: 0 < i < |h| ==> Follows(h[i - 1], h[i]) }

  ghost predicate Inv(cfg: Config, w: World) {
    && T.Inv(EnvOf(cfg), w.cache) && R.Sound(cfg.catalog, w.catalog.catalog) && Recorded(w.cache.history)
    && S.Current(w.cache) == S.Snapshot(w.catalog.catalog.version, R.ViewNow(w.catalog))
  }

  lemma RecordedMore(h: seq<S.Snapshot>, s: S.Snapshot)
    requires h != [] && Recorded(h) && Follows(h[|h| - 1], s)
    ensures Recorded(h + [s])
  {
    forall i | 0 < i < |h + [s]| ensures Follows((h + [s])[i - 1], (h + [s])[i]) {
      if i < |h| { assert Follows(h[i - 1], h[i]); }
    }
  }

  /** What the catalog does follows what it was. */
  lemma StepFollows(cfg: C.Config, w: R.World, s: R.Step)
    requires R.Sound(cfg, w.catalog) && R.Do(cfg, w, s).Some?
    ensures w.catalog.version <= R.Do(cfg, w, s).value.catalog.version
    ensures var w' := R.Do(cfg, w, s).value;
      Follows(S.Snapshot(w.catalog.version, R.ViewNow(w)), S.Snapshot(w'.catalog.version, R.ViewNow(w')))
  {
    var w' := R.Do(cfg, w, s).value;
    R.VersionMovesExactly(cfg, w, s);
    R.StepAges(cfg, w, s);
    R.ShowsListed(w);
    R.ShowsListed(w');
    if w'.catalog.version == w.catalog.version { R.SilentStepsDrift(cfg, w, s); }
  }

  /** The cache takes in what the catalog did: one more state of its history. */
  lemma CacheTakesIn(env: S.Env, cache: S.World, s: R.Step, before: R.World, after: R.World) returns (cache': S.World)
    requires T.Inv(env, cache) && S.Current(cache).version == before.catalog.version
    requires before.catalog.version <= after.catalog.version
    ensures S.Do(env, Clocked(cache, s), Seen(before, after)) == Some(cache') && T.Inv(env, cache')
    ensures cache'.history == cache.history + [S.Snapshot(after.catalog.version, R.ViewNow(after))]
  {
    var clocked := Clocked(cache, s);
    T.CacheKeeps(env, cache, clocked);
    cache' := S.Do(env, clocked, Seen(before, after)).value;
    T.StepKeeps(env, clocked, Seen(before, after));
  }

  lemma CatalogStepKeeps(cfg: Config, w: World, s: R.Step)
    requires Inv(cfg, w) && Do(cfg, w, CatalogStep(s)).Some?
    ensures Inv(cfg, Do(cfg, w, CatalogStep(s)).value)
  {
    var catalog := R.Do(cfg.catalog, w.catalog, s).value;
    R.StepSound(cfg.catalog, w.catalog, s);
    StepFollows(cfg.catalog, w.catalog, s);
    var cache := CacheTakesIn(EnvOf(cfg), w.cache, s, w.catalog, catalog);
    RecordedMore(w.cache.history, S.Snapshot(catalog.catalog.version, R.ViewNow(catalog)));
  }

  lemma CacheOnlyStays(env: S.Env, cache: S.World, s: S.Step)
    requires cache.history != [] && CacheOnly(s) && S.Do(env, cache, s).Some?
    ensures S.Do(env, cache, s).value.history == cache.history
  {
  }

  lemma CacheStepKeeps(cfg: Config, w: World, s: S.Step)
    requires Inv(cfg, w) && Do(cfg, w, CacheStep(s)).Some?
    ensures Inv(cfg, Do(cfg, w, CacheStep(s)).value)
  {
    CacheOnlyStays(EnvOf(cfg), w.cache, s);
    T.StepKeeps(EnvOf(cfg), w.cache, s);
  }

  lemma {:induction false} RunKeeps(cfg: Config, w: World, steps: seq<Step>)
    requires Inv(cfg, w) && After(cfg, w, steps).Some?
    ensures Inv(cfg, After(cfg, w, steps).value)
    decreases |steps|
  {
    if steps != [] {
      match steps[0] {
        case CatalogStep(s) => CatalogStepKeeps(cfg, w, s);
        case CacheStep(s) => CacheStepKeeps(cfg, w, s);
      }
      RunKeeps(cfg, Do(cfg, w, steps[0]).value, steps[1..]);
    }
  }

  /** Catalog and cache never part: in every reachable state the cache takes in whatever the
      catalog may do, so the composition restricts nothing. */
  lemma CatalogIsFree(cfg: Config, now: int, steps: seq<Step>, s: R.Step)
    requires After(cfg, Start(now), steps).Some?
    ensures var w := After(cfg, Start(now), steps).value;
      w.cache.history != [] && (Do(cfg, w, CatalogStep(s)).Some? <==> R.Do(cfg.catalog, w.catalog, s).Some?)
  {
    RunKeeps(cfg, Start(now), steps);
    var w := After(cfg, Start(now), steps).value;
    if R.Do(cfg.catalog, w.catalog, s).Some? {
      StepFollows(cfg.catalog, w.catalog, s);
      var cache := CacheTakesIn(EnvOf(cfg), w.cache, s, w.catalog, R.Do(cfg.catalog, w.catalog, s).value);
    }
  }

  lemma {:induction false} AgesFar(h: seq<S.Snapshot>, i: nat, j: nat)
    requires Recorded(h) && i <= j < |h|
    ensures R.Ages(h[i].content.entries, h[j].content.entries)
    decreases j
  {
    if i < j {
      AgesFar(h, i, j - 1);
      assert Follows(h[j - 1], h[j]);
    }
  }

  lemma {:induction false} DriftsFar(h: seq<S.Snapshot>, i: nat, j: nat)
    requires T.Ordered(h) && Recorded(h) && i <= j < |h| && h[i].version == h[j].version
    ensures R.Drifts(R.Shown(h[i].content), R.Shown(h[j].content))
    decreases j
  {
    if i < j {
      assert h[i].version <= h[j - 1].version <= h[j].version;
      DriftsFar(h, i, j - 1);
      assert Follows(h[j - 1], h[j]);
    }
  }

  // ---------- replies ----------

  /** The reply is the search, under the request's key, of the listings of state `i` with the
      vectors of state `j`; the listings were current while the request was pending, or were
      earlier what the arrival's are but for provisional ones since expired and for vectors. */
  ghost predicate Sourced(cfg: Config, h: seq<S.Snapshot>, me: S.Request, i: int, j: int, q: K.Params)
    requires me.progress.Replied? && me.since < |h|
  {
    && 0 <= i <= j < me.progress.until <= |h|
    && cfg.asked(q) && K.SearchCacheKey(cfg.lower, q) == K.SearchCacheKey(cfg.lower, me.params)
    && Search(cfg, C.Read(h[i].content, h[j].content), q, me.progress.answer)
    && R.Ages(h[i].content.entries, h[j].content.entries)
    && (i >= me.since || R.Drifts(R.Shown(h[i].content), R.Shown(h[me.since].content)))
  }

  /** Over every run of catalog and cache together, a reply never shows a listing as it was before
      it was written over ahead of the request, nor one deleted by then, nor lacks one there was. */
  lemma StaleRepliesOnlyDrift(cfg: Config, now: int, steps: seq<Step>, r: S.RequestId)
    requires After(cfg, Start(now), steps).Some?
    requires var w := After(cfg, Start(now), steps).value;
      r in w.cache.requests && w.cache.requests[r].progress.Replied?
    ensures var w := After(cfg, Start(now), steps).value; var me := w.cache.requests[r];
      me.since < |w.cache.history| && exists i, j, q :: Sourced(cfg, w.cache.history, me, i, j, q)
  {
    RunKeeps(cfg, Start(now), steps);
    var w, env := After(cfg, Start(now), steps).value, EnvOf(cfg);
    var me, h := w.cache.requests[r], w.cache.history;
    assert T.RequestFits(env, w.cache, me);
    var i, j, q :| T.Answered(env, h, me.since, me.progress.until, me.params, i, j, q, me.progress.answer);
    AgesFar(h, i, j);
    if i < me.since { DriftsFar(h, i, me.since); }
    assert Sourced(cfg, h, me, i, j, q);
  }

  // ---------- what the key tells ----------

  /** The answers do not depend on what is listed. */
  ghost predicate Blind(cfg: Config) {
    forall c, d, p, q, a :: (K.SearchCacheKey(cfg.lower, p) == K.SearchCacheKey(cfg.lower, q)
      && Search(cfg, C.Read(c, c), p, a)) ==> Search(cfg, C.Read(d, d), q, a)
  }

  lemma {:induction false} LongerThanAll(cfg: Config, listings: Listings, keys: set<C.Key>) returns (n: nat)
    requires keys <= listings.Keys
    ensures n >= 1
    ensures forall k :: k in keys ==>
      var it := cfg.item(listings[k].fields); it.network.Some? ==> |it.network.value| < n
  {
    n := 1;
    if keys != {} {
      var k :| k in keys;
      n := LongerThanAll(cfg, listings, keys - {k});
      var it := cfg.item(listings[k].fields);
      if it.network.Some? { n := Max(n, |it.network.value| + 1); }
    }
  }

  /** Enough padding shuts out every listing there is, under the same key. */
  lemma PaddingFindsNothing(cfg: Config, listings: Listings, n: nat, p: K.Params)
    requires n >= 1
    requires forall k :: k in listings ==>
      var it := cfg.item(listings[k].fields); it.network.Some? ==> |it.network.value| < n
    ensures Filtered(cfg, listings, K.Padded(p, n)) == map[]
    ensures K.SearchCacheKey(cfg.lower, K.Padded(p, n)) == K.SearchCacheKey(cfg.lower, p)
  {
    K.PaddingKeepsKey(cfg.lower, p, n);
  }

  /** So whatever the store answers where nothing is listed, some run serves to a search that
      finds something: a padded one came before it. */
  lemma PaddedAnswerServed(cfg: Config, c: C.View, p: K.Params, a: S.Answer)
    returns (padded: K.Params, steps: seq<S.Step>, w: S.World)
    requires cfg.maxEntries >= 1 && cfg.ttlMs > 0 && forall q :: cfg.asked(q)
    requires Search(cfg, map[], p, a) && !Search(cfg, C.Read(c, c), p, a)
    ensures padded.(network := p.network) == p
    ensures K.SearchCacheKey(cfg.lower, padded) == K.SearchCacheKey(cfg.lower, p)
    ensures T.ServesStale(EnvOf(cfg), c, p, a, steps, w) && w.history == [S.Snapshot(0, c)]
  {
    var listings := C.Read(c, c);
    var n := LongerThanAll(cfg, listings, listings.Keys);
    padded := K.Padded(p, n);
    PaddingFindsNothing(cfg, listings, n, p);
    assert Filtered(cfg, map[], p) == map[];
    assert T.Gives(EnvOf(cfg), c, padded, a);
    steps, w := T.SharedKeyServesOther(EnvOf(cfg), c, padded, p, a);
  }

  /** Where any search may be made, parameters of one key search alike only of a store whose
      answers do not depend on what is listed. */
  lemma KeyTellsExactly(cfg: Config)
    requires forall p :: cfg.asked(p)
    ensures T.KeyTells(EnvOf(cfg)) <==> Blind(cfg)
  {
    var env := EnvOf(cfg);
    if T.KeyTells(env) {
      forall c, d, p, q, a | (K.SearchCacheKey(cfg.lower, p) == K.SearchCacheKey(cfg.lower, q)
        && Search(cfg, C.Read(c, c), p, a)) ensures Search(cfg, C.Read(d, d), q, a)
      {
        KeyTellsBlinds(cfg, c, d, p, q, a);
      }
    }
    if Blind(cfg) {
      forall c, p, q, a | env.asked(p) && T.Shares(env, q, p) && T.Gives(env, c, p, a) ensures T.Gives(env, c, q, a) {
        assert Search(cfg, C.Read(c, c), p, a);
      }
    }
  }

  lemma KeyTellsBlinds(cfg: Config, c: C.View, d: C.View, p: K.Params, q: K.Params, a: S.Answer)
    requires T.KeyTells(EnvOf(cfg)) && forall p :: cfg.asked(p)
    requires K.SearchCacheKey(cfg.lower, p) == K.SearchCacheKey(cfg.lower, q) && Search(cfg, C.Read(c, c), p, a)
    ensures Search(cfg, C.Read(d, d), q, a)
  {
    var env := EnvOf(cfg);
    var here, there := C.Read(c, c), C.Read(d, d);
    var m := LongerThanAll(cfg, here, here.Keys);
    var n := LongerThanAll(cfg, there, there.Keys);
    var padded := K.Padded(p, Max(m, n));
    PaddingFindsNothing(cfg, here, Max(m, n), p);
    PaddingFindsNothing(cfg, there, Max(m, n), p);
    assert T.Gives(env, c, p, a) && T.Shares(env, padded, p) && T.Gives(env, c, padded, a);
    assert T.Gives(env, d, padded, a) && T.Shares(env, q, padded) && T.Gives(env, d, q, a);
  }

  /** Only how query and cursor are spelled may matter: not which of them with one key is asked. */
  ghost predicate SpellingTells(cfg: Config) {
    forall c, p, q, a :: (cfg.asked(p) && cfg.asked(q)
      && K.SearchCacheKey(cfg.lower, p) == K.SearchCacheKey(cfg.lower, q)
      && Search(cfg, C.Read(c, c), p, a)) ==>
        cfg.rank(Filtered(cfg, C.Read(c, c), p), q.query, K.Limit(p), q.cursor, a)
  }

  lemma SameFiltered(cfg: Config, listings: Listings, p: K.Params, q: K.Params)
    requires K.FilterAlike(p, q)
    ensures Filtered(cfg, listings, p) == Filtered(cfg, listings, q)
  {
    forall k | k in listings
      ensures K.Passes(p, cfg.item(listings[k].fields)) <==> K.Passes(q, cfg.item(listings[k].fields))
    {
    }
  }

  lemma TidySearch(cfg: Config, listings: Listings, p: K.Params, q: K.Params, a: S.Answer)
    requires K.Tidy(p) && K.Tidy(q) && K.SearchCacheKey(cfg.lower, p) == K.SearchCacheKey(cfg.lower, q)
    ensures Search(cfg, listings, q, a) <==>
      cfg.rank(Filtered(cfg, listings, p), q.query, K.Limit(p), q.cursor, a)
  {
    K.TidyFilterAlike(cfg.lower, p, q);
    K.KeysAgreeExactly(cfg.lower, p, q);
    SameFiltered(cfg, listings, p, q);
  }

  /** Where only tidy searches are made, the key tells exactly when the spelling of query and
      cursor makes no difference: no filter is ever confused with another. */
  lemma TidyKeysTell(cfg: Config)
    requires forall p :: cfg.asked(p) ==> K.Tidy(p)
    ensures T.KeyTells(EnvOf(cfg)) <==> SpellingTells(cfg)
  {
    var env := EnvOf(cfg);
    if T.KeyTells(env) {
      forall c, p, q, a | (cfg.asked(p) && cfg.asked(q)
        && K.SearchCacheKey(cfg.lower, p) == K.SearchCacheKey(cfg.lower, q)
        && Search(cfg, C.Read(c, c), p, a))
        ensures cfg.rank(Filtered(cfg, C.Read(c, c), p), q.query, K.Limit(p), q.cursor, a)
      {
        assert T.Shares(env, q, p) && T.Gives(env, c, p, a) && T.Gives(env, c, q, a);
        TidySearch(cfg, C.Read(c, c), p, q, a);
      }
    }
    if SpellingTells(cfg) {
      forall c, p, q, a | env.asked(p) && T.Shares(env, q, p) && T.Gives(env, c, p, a) ensures T.Gives(env, c, q, a) {
        assert Search(cfg, C.Read(c, c), p, a);
        TidySearch(cfg, C.Read(c, c), p, q, a);
      }
    }
  }
}
