/** What every interleaving of catalog writes, sweeps and background embeddings keeps. */
module CatalogTheorems {
  import opened Text
  import opened Catalog

  datatype World = World(catalog: Catalog, now: int)

  datatype Step =
    | Upsert(resource: Fields, source: Source, id: EntryId, job: JobId)
    | Delete(key: Key)
    | Prune
    | Compose(job: JobId)
    | Land(job: JobId, vector: Option<seq<real>>)
    | EmbedFails(job: JobId)
    | Tick(ms: nat)

  /** None when the step is not enabled: entries are new objects, jobs new promises. */
  function Do(cfg: Config, w: World, s: Step): Option<World> {
    var c := w.catalog;
    match s
    case Upsert(resource, source, id, job) =>
      if id in c.entries || job in c.jobs then None
      else Some(w.(catalog := Upserted(cfg, c, resource, source, w.now, id, job).0))
    case Delete(key) => Some(w.(catalog := Deleted(c, key)))
    case Prune => Some(w.(catalog := Pruned(c, w.now)))
    case Compose(job) =>
      if job !in c.jobs || !c.jobs[job].stage.Queued? || c.jobs[job].entry !in c.entries then None
      else Some(w.(catalog := Composed(cfg, c, job)))
    case Land(job, vector) =>
      if job !in c.jobs || !c.jobs[job].stage.Awaiting? || c.jobs[job].entry !in c.entries then None
      else Some(w.(catalog := Landed(c, job, vector)))
    case EmbedFails(job) => if job !in c.jobs then None else Some(w.(catalog := c.(jobs := c.jobs - {job})))
    case Tick(ms) => Some(w.(now := w.now + ms))
  }

  function After(cfg: Config, w: World, steps: seq<Step>): Option<World>
    decreases |steps|
  {
    if steps == [] then Some(w)
    else match Do(cfg, w, steps[0])
      case None => None
      case Some(next) => After(cfg, next, steps[1..])
  }

  // ---------- what holds in every run ----------

  predicate EntryFits(cfg: Config, e: Entry) {
    && (e.provisional <==> e.source.Verify?)
    && e.expiresAt == (if e.provisional then Some(e.lastSeen + cfg.verifyTtlMs) else None)
    && (e.embedding.Some? ==>
          var text := cfg.compose(e.fields);
          cfg.fingerprint(e.embedding.value.of) == cfg.fingerprint(text)
          && e.embeddingSource == Some(cfg.fingerprint(text)))
    && (!cfg.embeds ==> e.embedding.None?)
  }

  predicate JobFits(cfg: Config, c: Catalog, j: Job) {
    && j.entry in c.entries && cfg.embeds
    && j.fingerprint == cfg.fingerprint(cfg.compose(c.entries[j.entry].fields))
    && (j.stage.Awaiting? ==> j.stage.text == cfg.compose(c.entries[j.entry].fields))
  }

  ghost predicate Sound(cfg: Config, c: Catalog) {
    && (forall k :: k in c.resources ==> c.resources[k] in c.entries)
    && (forall id :: id in c.entries ==> EntryFits(cfg, c.entries[id]))
    && (forall job :: job in c.jobs ==> JobFits(cfg, c, c.jobs[job]))
  }

  /** All but entry `id` fits, and that one lacks only the check of its inherited vector. */
  ghost predicate SoundBut(cfg: Config, w: Catalog, id: EntryId) {
    && (forall k :: k in w.resources ==> w.resources[k] in w.entries)
    && (forall i :: i in w.entries && i != id ==> EntryFits(cfg, w.entries[i]))
    && (forall job :: job in w.jobs ==> JobFits(cfg, w, w.jobs[job]) && w.jobs[job].entry != id)
    && id in w.entries
    && (w.entries[id].provisional <==> w.entries[id].source.Verify?)
    && w.entries[id].expiresAt ==
      (if w.entries[id].provisional then Some(w.entries[id].lastSeen + cfg.verifyTtlMs) else None)
    && (w.entries[id].embedding.Some? && w.entries[id].embeddingSource.Some? ==>
          cfg.fingerprint(w.entries[id].embedding.value.of) == w.entries[id].embeddingSource.value)
    && (!cfg.embeds ==> w.entries[id].embedding.None?)
  }

  lemma WrittenSound(cfg: Config, c: Catalog, resource: Fields, source: Source, now: int, id: EntryId)
    requires Sound(cfg, c) && id !in c.entries
    ensures SoundBut(cfg, Written(cfg, c, resource, source, now, id), id)
  {
    var w := Written(cfg, c, resource, source, now, id);
    forall job | job in w.jobs ensures JobFits(cfg, w, w.jobs[job]) && w.jobs[job].entry != id {
      assert JobFits(cfg, c, c.jobs[job]);
    }
    if At(c, KeyOf(resource)).Some? { assert EntryFits(cfg, At(c, KeyOf(resource)).value); }
  }

  lemma ScheduledSound(cfg: Config, w: Catalog, id: EntryId, job: JobId)
    requires SoundBut(cfg, w, id) && job !in w.jobs
    ensures Sound(cfg, Scheduled(cfg, w, id, job))
  {
    var c := Scheduled(cfg, w, id, job);
    forall j | j in c.jobs ensures JobFits(cfg, c, c.jobs[j]) {
      if j in w.jobs { assert JobFits(cfg, w, w.jobs[j]); }
    }
  }

  lemma UpsertSound(cfg: Config, c: Catalog, resource: Fields, source: Source, now: int, id: EntryId, job: JobId)
    requires Sound(cfg, c) && id !in c.entries && job !in c.jobs
    ensures Sound(cfg, Upserted(cfg, c, resource, source, now, id, job).0)
  {
    WrittenSound(cfg, c, resource, source, now, id);
    ScheduledSound(cfg, Written(cfg, c, resource, source, now, id), id, job);
  }

  lemma LandSound(cfg: Config, c: Catalog, job: JobId, vector: Option<seq<real>>)
    requires Sound(cfg, c) && job in c.jobs && c.jobs[job].stage.Awaiting? && c.jobs[job].entry in c.entries
    ensures Sound(cfg, Landed(c, job, vector))
  {
    var c' := Landed(c, job, vector);
    assert JobFits(cfg, c, c.jobs[job]);
    forall j | j in c'.jobs ensures JobFits(cfg, c', c'.jobs[j]) {
      assert JobFits(cfg, c, c.jobs[j]);
    }
  }

  lemma StepSound(cfg: Config, w: World, s: Step)
    requires Sound(cfg, w.catalog) && Do(cfg, w, s).Some?
    ensures Sound(cfg, Do(cfg, w, s).value.catalog)
  {
    var c, c' := w.catalog, Do(cfg, w, s).value.catalog;
    match s
    case Upsert(resource, source, id, job) => UpsertSound(cfg, c, resource, source, w.now, id, job);
    case Land(job, vector) => LandSound(cfg, c, job, vector);
    case _ =>
      assert c'.entries == c.entries;
      forall j | j in c'.jobs ensures JobFits(cfg, c', c'.jobs[j]) {
        assert JobFits(cfg, c, c.jobs[j]);
      }
  }

  lemma {:induction false} RunSound(cfg: Config, w: World, steps: seq<Step>)
    requires Sound(cfg, w.catalog) && After(cfg, w, steps).Some?
    ensures Sound(cfg, After(cfg, w, steps).value.catalog)
    decreases |steps|
  {
    if steps != [] {
      StepSound(cfg, w, steps[0]);
      RunSound(cfg, Do(cfg, w, steps[0]).value, steps[1..]);
    }
  }

  predicate Distinguishes(cfg: Config, a: string, b: string) { cfg.fingerprint(a) == cfg.fingerprint(b) ==> a == b }

  /** However late embeddings land or fail, a listing carries only a vector of a text with the
      fingerprint of its own text: of its own text, where the fingerprint tells them apart. */
  lemma NoStaleVectors(cfg: Config, now: int, steps: seq<Step>, key: Key)
    requires After(cfg, World(EMPTY, now), steps).Some?
    requires var e := At(After(cfg, World(EMPTY, now), steps).value.catalog, key);
      e.Some? && e.value.embedding.Some?
    ensures var e := At(After(cfg, World(EMPTY, now), steps).value.catalog, key).value;
      && cfg.fingerprint(e.embedding.value.of) == cfg.fingerprint(cfg.compose(e.fields))
      && (Distinguishes(cfg, e.embedding.value.of, cfg.compose(e.fields)) ==>
            e.embedding.value.of == cfg.compose(e.fields))
  {
    RunSound(cfg, World(EMPTY, now), steps);
    var c := After(cfg, World(EMPTY, now), steps).value.catalog;
    assert EntryFits(cfg, At(c, key).value);
  }

  /** A write over a listing whose vector is of its own text keeps the vector exactly when the
      new text has the old one's fingerprint; so it leaves a vector of other text exactly when
      two different texts share a fingerprint. */
  lemma VectorKeptExactly(cfg: Config, c: Catalog, resource: Fields, source: Source, now: int, id: EntryId, job: JobId)
    requires Sound(cfg, c) && id !in c.entries && At(c, KeyOf(resource)).Some?
    requires var e := At(c, KeyOf(resource)).value; e.embedding.Some? && e.embedding.value.of == cfg.compose(e.fields)
    ensures var e := At(c, KeyOf(resource)).value;
      var e' := At(Upserted(cfg, c, resource, source, now, id, job).0, KeyOf(resource));
      && e'.Some? && e'.value.fields == e.fields + resource
      && var text, text' := cfg.compose(e.fields), cfg.compose(e'.value.fields);
      && (e'.value.embedding == e.embedding <==> cfg.fingerprint(text') == cfg.fingerprint(text))
      && ((e'.value.embedding.Some? && e'.value.embedding.value.of != text') <==> !Distinguishes(cfg, text, text'))
  {
    assert EntryFits(cfg, At(c, KeyOf(resource)).value);
  }

  /** The version moves exactly when the map of listings is written, and then by one. */
  lemma VersionMovesExactly(cfg: Config, w: World, s: Step)
    requires Sound(cfg, w.catalog) && Do(cfg, w, s).Some?
    ensures var c, c' := w.catalog, Do(cfg, w, s).value.catalog;
      && (c'.version == c.version || c'.version == c.version + 1)
      && (c'.version == c.version + 1 <==> c'.resources != c.resources)
      && (c'.version == c.version ==> c'.payToCounts == c.payToCounts)
  {
    var c, c' := w.catalog, Do(cfg, w, s).value.catalog;
    if s.Delete? {
      if At(c, s.key).Some? { assert s.key in c.resources && s.key !in c'.resources; }
    } else if s.Prune? {
      var gone := ExpiredKeys(c, w.now);
      if gone != {} {
        var k :| k in gone;
        assert k in c.resources && k !in c'.resources;
      }
    } else if s.Upsert? && c'.version != c.version {
      var key := KeyOf(s.resource);
      assert c'.resources[key] == s.id;
      assert key in c.resources ==> c.resources[key] != s.id;
    }
  }

  // ---------- what changes without a version ----------

  /** The listings a read may see. */
  function Listed(w: World): map<Key, Entry> {
    map k | k in w.catalog.resources && At(w.catalog, k).Some? && !Expired(At(w.catalog, k).value, w.now) ::
      At(w.catalog, k).value
  }

  function Bare(e: Entry): Entry { e.(embedding := None, embeddingSource := None) }

  /** The same listings, but for some provisional ones gone and for their embeddings. */
  ghost predicate Drifts(a: map<Key, Entry>, b: map<Key, Entry>) {
    && b.Keys <= a.Keys && (forall k :: k in b ==> Bare(b[k]) == Bare(a[k]))
    && (forall k :: k in a && k !in b ==> a[k].provisional)
  }

  lemma SilentStepFrame(cfg: Config, w: World, s: Step, k: Key)
    requires Sound(cfg, w.catalog) && Do(cfg, w, s).Some?
    requires Do(cfg, w, s).value.catalog.version == w.catalog.version
    ensures var w' := Do(cfg, w, s).value; var e, e' := At(w.catalog, k), At(w'.catalog, k);
      && w'.catalog.resources == w.catalog.resources && w'.now >= w.now
      && (e'.Some? <==> e.Some?) && (e.Some? ==> Bare(e'.value) == Bare(e.value))
      && (!s.Land? ==> e' == e) && (!s.Tick? ==> w'.now == w.now)
  {
    VersionMovesExactly(cfg, w, s);
  }

  lemma DriftOne(w: World, w': World, k: Key)
    requires w'.catalog.resources == w.catalog.resources && w'.now >= w.now
    requires At(w.catalog, k).Some? <==> At(w'.catalog, k).Some?
    requires At(w.catalog, k).Some? ==> Bare(At(w'.catalog, k).value) == Bare(At(w.catalog, k).value)
    ensures k in Listed(w') ==> k in Listed(w) && Bare(Listed(w')[k]) == Bare(Listed(w)[k])
    ensures k in Listed(w) && k !in Listed(w') ==> Listed(w)[k].provisional
    ensures At(w'.catalog, k) == At(w.catalog, k) && w'.now == w.now ==>
      (k in Listed(w) <==> k in Listed(w')) && (k in Listed(w) ==> Listed(w')[k] == Listed(w)[k])
  {
  }

  /** While the version stays, reads see the same listings but for those that expired and for
      embeddings that landed; and any change at all is one of a vector or of the clock. */
  lemma SilentStepsDrift(cfg: Config, w: World, s: Step)
    requires Sound(cfg, w.catalog) && Do(cfg, w, s).Some?
    requires Do(cfg, w, s).value.catalog.version == w.catalog.version
    ensures var w' := Do(cfg, w, s).value;
      Drifts(Listed(w), Listed(w')) && (Listed(w') != Listed(w) ==> s.Land? || s.Tick?)
  {
    var w' := Do(cfg, w, s).value;
    var a, b := Listed(w), Listed(w');
    forall k
      ensures k in b ==> k in a && Bare(b[k]) == Bare(a[k])
      ensures k in a && k !in b ==> a[k].provisional
      ensures !s.Land? && !s.Tick? ==> (k in a <==> k in b) && (k in a ==> b[k] == a[k])
    {
      SilentStepFrame(cfg, w, s, k);
      DriftOne(w, w', k);
    }
  }

  /** Both happen: a provisional listing leaves the catalog's reads by the clock alone. */
  lemma ListingExpiresSilently(cfg: Config, now: int, resource: Fields) returns (w: World, w': World)
    requires cfg.maxPerPayTo >= 1 && cfg.maxSize >= 1 && cfg.verifyTtlMs > 0
    ensures After(cfg, World(EMPTY, now), [Upsert(resource, Verify, 0, 0)]) == Some(w)
    ensures Do(cfg, w, Tick(cfg.verifyTtlMs)) == Some(w') && w'.catalog.version == w.catalog.version
    ensures KeyOf(resource) in Listed(w) && KeyOf(resource) !in Listed(w')
  {
    var upsert := Upsert(resource, Verify, 0, 0);
    w := Do(cfg, World(EMPTY, now), upsert).value;
    assert [upsert][1..] == [] && After(cfg, w, [upsert][1..]) == Some(w);
    w' := Do(cfg, w, Tick(cfg.verifyTtlMs)).value;
  }

  /** One listing, its vector on the way. */
  lemma OneListed(cfg: Config, now: int, a: Fields) returns (w: World)
    requires cfg.maxPerPayTo >= 1 && cfg.maxSize >= 1 && cfg.embeds
    ensures After(cfg, World(EMPTY, now), [Upsert(a, Settle, 0, 0), Compose(0)]) == Some(w)
    ensures w.now == now && w.catalog.resources == map[KeyOf(a) := 0] && w.catalog.entries.Keys == {0}
    ensures w.catalog.payToCounts == map[PayToOf(a) := 1] && w.catalog.jobs.Keys == {0}
    ensures w.catalog.jobs[0].entry == 0 && w.catalog.jobs[0].stage.Awaiting?
    ensures w.catalog.entries[0].embedding.None? && !w.catalog.entries[0].provisional
  {
    var steps := [Upsert(a, Settle, 0, 0), Compose(0)];
    var stored := Do(cfg, World(EMPTY, now), steps[0]).value;
    w := Do(cfg, stored, steps[1]).value;
    assert steps[1..][0] == steps[1] && steps[1..][1..] == [];
    assert After(cfg, w, steps[1..][1..]) == Some(w);
    assert After(cfg, stored, steps[1..]) == Some(w);
  }

  /** And a vector changes a listing that stays. */
  lemma VectorLandsSilently(cfg: Config, now: int, resource: Fields, vector: seq<real>) returns (w: World, w': World)
    requires cfg.maxPerPayTo >= 1 && cfg.maxSize >= 1 && cfg.embeds
    ensures After(cfg, World(EMPTY, now), [Upsert(resource, Settle, 0, 0), Compose(0)]) == Some(w)
    ensures Do(cfg, w, Land(0, Some(vector))) == Some(w') && w'.catalog.version == w.catalog.version
    ensures var key := KeyOf(resource);
      key in Listed(w) && key in Listed(w') && Listed(w')[key] != Listed(w)[key]
  {
    w := OneListed(cfg, now, resource);
    w' := Do(cfg, w, Land(0, Some(vector))).value;
  }

  // ---------- what a search that awaits reads ----------

  function ViewNow(w: World): View { ViewOf(w.catalog, w.now) }

  function Shown(v: View): map<Key, Entry> { Read(v, v) }

  /** Read at one moment, a view shows the listings. */
  lemma ShowsListed(w: World)
    ensures Shown(ViewNow(w)) == Listed(w)
  {
    forall k ensures k in Shown(ViewNow(w)) <==> k in Listed(w) {
    }
  }

  /** Entries stay, and of each nothing but its vector changes. */
  ghost predicate Ages(a: map<EntryId, Entry>, b: map<EntryId, Entry>) {
    forall id :: id in a ==> id in b && Bare(b[id]) == Bare(a[id])
  }

  lemma UpsertAges(cfg: Config, c: Catalog, resource: Fields, source: Source, now: int, id: EntryId, job: JobId)
    requires id !in c.entries
    ensures Ages(c.entries, Upserted(cfg, c, resource, source, now, id, job).0.entries)
  {
    var w := Written(cfg, c, resource, source, now, id);
    assert Scheduled(cfg, w, id, job).entries == w.entries[id := Scheduled(cfg, w, id, job).entries[id]];
  }

  lemma LandAges(c: Catalog, job: JobId, vector: Option<seq<real>>)
    requires job in c.jobs && c.jobs[job].stage.Awaiting? && c.jobs[job].entry in c.entries
    ensures Ages(c.entries, Landed(c, job, vector).entries)
  {
    var id, c' := c.jobs[job].entry, Landed(c, job, vector);
    assert id in c'.entries && Bare(c'.entries[id]) == Bare(c.entries[id]);
  }

  lemma StepAges(cfg: Config, w: World, s: Step)
    requires Do(cfg, w, s).Some?
    ensures Ages(w.catalog.entries, Do(cfg, w, s).value.catalog.entries)
  {
    match s
    case Upsert(resource, source, id, job) => UpsertAges(cfg, w.catalog, resource, source, w.now, id, job);
    case Land(job, vector) => LandAges(w.catalog, job, vector);
    case _ => assert Do(cfg, w, s).value.catalog.entries == w.catalog.entries;
  }

  /** A new listing beside it. */
  lemma SecondListed(cfg: Config, w: World, b: Fields) returns (mid: World)
    requires cfg.maxPerPayTo >= 2 && |w.catalog.resources| < cfg.maxSize && KeyOf(b) !in w.catalog.resources
    requires CountOf(w.catalog.payToCounts, PayToOf(b)) <= 1 && 1 !in w.catalog.entries && 1 !in w.catalog.jobs
    ensures Do(cfg, w, Upsert(b, Settle, 1, 1)) == Some(mid) && mid.now == w.now
    ensures mid.catalog.resources == w.catalog.resources[KeyOf(b) := 1] && 1 in mid.catalog.entries
    ensures !mid.catalog.entries[1].provisional
    ensures forall id :: id in w.catalog.entries ==>
      id in mid.catalog.entries && mid.catalog.entries[id] == w.catalog.entries[id]
    ensures forall job :: job in w.catalog.jobs ==>
      job in mid.catalog.jobs && mid.catalog.jobs[job] == w.catalog.jobs[job]
  {
    mid := Do(cfg, w, Upsert(b, Settle, 1, 1)).value;
    ScheduledShape(cfg, Written(cfg, w.catalog, b, Settle, w.now, 1), 1, 1);
  }

  lemma FirstLands(cfg: Config, mid: World, vector: seq<real>) returns (w': World)
    requires 0 in mid.catalog.jobs && mid.catalog.jobs[0].entry == 0 && mid.catalog.jobs[0].stage.Awaiting?
    requires 0 in mid.catalog.entries
    ensures Do(cfg, mid, Land(0, Some(vector))) == Some(w')
    ensures w'.catalog.resources == mid.catalog.resources && 0 in w'.catalog.entries
    ensures w'.catalog.entries[0].embedding.Some?
    ensures forall id :: id in mid.catalog.entries && id != 0 ==>
      id in w'.catalog.entries && w'.catalog.entries[id] == mid.catalog.entries[id]
  {
    w' := Do(cfg, mid, Land(0, Some(vector))).value;
  }

  lemma ListedAt(w: World, key: Key)
    requires At(w.catalog, key).Some? && !At(w.catalog, key).value.provisional
    ensures key in Listed(w)
  {
  }

  lemma TornRead(w: World, w': World, key: Key, other: Key)
    requires w.catalog.resources == map[key := 0] && 0 in w.catalog.entries && 0 in w'.catalog.entries && key != other
    requires w.catalog.entries[0].embedding.None? && !w.catalog.entries[0].provisional
    requires w'.catalog.entries[0].embedding.Some?
    ensures var torn := Read(ViewNow(w), ViewNow(w')); other !in torn && torn != Listed(w)
  {
    var torn := Read(ViewNow(w), ViewNow(w'));
    ListedAt(w, key);
    assert key in ViewNow(w).listed && ViewNow(w).listed[key] == 0;
    assert key in torn && torn[key].embedding.Some? && Listed(w)[key].embedding.None?;
  }

  /** And a search that takes hold of the listings before its await, and of their vectors after
      it, may read what the catalog never held: an old listing with its vector, and not the new
      listing that came before that vector. */
  lemma SearchTears(cfg: Config, now: int, a: Fields, b: Fields, vector: seq<real>)
    returns (w: World, mid: World, w': World)
    requires cfg.maxPerPayTo >= 2 && cfg.maxSize >= 2 && cfg.embeds && KeyOf(a) != KeyOf(b)
    ensures After(cfg, World(EMPTY, now), [Upsert(a, Settle, 0, 0), Compose(0)]) == Some(w)
    ensures Do(cfg, w, Upsert(b, Settle, 1, 1)) == Some(mid) && Do(cfg, mid, Land(0, Some(vector))) == Some(w')
    ensures var torn := Read(ViewNow(w), ViewNow(w')); torn != Listed(w) && torn != Listed(mid) && torn != Listed(w')
  {
    w := OneListed(cfg, now, a);
    mid := SecondListed(cfg, w, b);
    w' := FirstLands(cfg, mid, vector);
    TornRead(w, w', KeyOf(a), KeyOf(b));
    ListedAt(mid, KeyOf(b));
    ListedAt(w', KeyOf(b));
  }

  // ---------- permanent listings ----------

  /** A settled or manual listing. */
  predicate Permanent(c: Catalog, key: Key) { At(c, key).Some? && !At(c, key).value.source.Verify? }

  lemma StepPermanent(cfg: Config, w: World, s: Step, key: Key)
    requires Sound(cfg, w.catalog) && Do(cfg, w, s).Some? && s != Delete(key) && Permanent(w.catalog, key)
    ensures Permanent(Do(cfg, w, s).value.catalog, key)
    ensures At(Do(cfg, w, s).value.catalog, key).value.source == At(w.catalog, key).value.source
    ensures At(Do(cfg, w, s).value.catalog, key).value.firstSeen == At(w.catalog, key).value.firstSeen
  {
    var c := w.catalog;
    assert EntryFits(cfg, At(c, key).value);
    if s.Upsert? { UpsertPermanent(cfg, c, s.resource, s.source, w.now, s.id, s.job, key); }
  }

  lemma UpsertPermanent(cfg: Config, c: Catalog, resource: Fields, source: Source, now: int, id: EntryId, job: JobId,
      key: Key)
    requires Sound(cfg, c) && id !in c.entries && Permanent(c, key)
    ensures var c' := Upserted(cfg, c, resource, source, now, id, job).0;
      && Permanent(c', key) && At(c', key).value.source == At(c, key).value.source
      && At(c', key).value.firstSeen == At(c, key).value.firstSeen
  {
    if Upserted(cfg, c, resource, source, now, id, job).1.Stored? {
      if key == KeyOf(resource) {
        WriteTells(cfg, c, resource, source, now, id, job);
      } else {
        StoredShape(cfg, c, resource, source, now, id, job);
      }
    }
  }

  /** Until it is deleted by its key, a settled or manual listing stays listed, keeps its
      source and the time it was first seen, and never becomes provisional again. */
  lemma {:induction false} NeverDemoted(cfg: Config, w: World, steps: seq<Step>, key: Key)
    requires Sound(cfg, w.catalog) && After(cfg, w, steps).Some? && Permanent(w.catalog, key)
    requires Delete(key) !in steps
    ensures var e := At(After(cfg, w, steps).value.catalog, key);
      e.Some? && e.value.source == At(w.catalog, key).value.source && !e.value.provisional
      && e.value.firstSeen == At(w.catalog, key).value.firstSeen
    decreases |steps|
  {
    if steps == [] {
      assert EntryFits(cfg, At(w.catalog, key).value);
    } else {
      assert steps[0] != Delete(key);
      StepSound(cfg, w, steps[0]);
      StepPermanent(cfg, w, steps[0], key);
      NeverDemoted(cfg, Do(cfg, w, steps[0]).value, steps[1..], key);
    }
  }

  // ---------- what a key tells apart ----------

  /** No "::" in it, nor half of one at its end. */
  predicate Undivided(s: string) {
    (forall i :: 0 <= i < |s| - 1 ==> !(s[i] == ':' && s[i + 1] == ':')) && (s != "" ==> s[|s| - 1] != ':')
  }

  lemma Divided(a: string, b: string, c: string, d: string)
    requires Undivided(a) && Undivided(c) && a + "::" + b == c + "::" + d
    ensures a == c && b == d
  {
    var s := a + "::" + b;
    assert s == c + "::" + d;
    assert s[|a|] == ':' && s[|a| + 1] == ':' && s[|c|] == ':' && s[|c| + 1] == ':';
    assert forall k :: 0 <= k < |a| ==> s[k] == a[k];
    assert forall k :: 0 <= k < |c| ==> s[k] == c[k];
    assert |a| == |c|;
    assert a == s[..|a|] && c == s[..|a|] && b == s[|a| + 2..] && d == s[|a| + 2..];
  }

  /** The tool a listing is of: only an mcp listing has one. */
  function ToolOf(f: Fields): string {
    if Field(f, "type") == Some("mcp") then OrUndefined(Field(f, "toolName")) else ""
  }

  /** Where no url divides, two resources are one listing exactly when url and tool are the same. */
  lemma KeyTellsListings(f: Fields, g: Fields)
    requires Undivided(OrUndefined(Field(f, "url"))) && Undivided(OrUndefined(Field(g, "url")))
    ensures KeyOf(f) == KeyOf(g) <==>
      OrUndefined(Field(f, "url")) == OrUndefined(Field(g, "url")) && ToolOf(f) == ToolOf(g)
  {
    if KeyOf(f) == KeyOf(g) {
      Divided(OrUndefined(Field(f, "url")), ToolOf(f), OrUndefined(Field(g, "url")), ToolOf(g));
    }
  }

  // ---------- what a write makes of a listing ----------

  /** The entry that a write at this time leaves of the one there was. */
  ghost predicate WrittenEntry(cfg: Config, was: Option<Entry>, e: Entry, resource: Fields, source: Source, now: int) {
    var settled := was.Some? && was.value.source in {Settle, Manual};
    && (forall name :: name in resource ==> Field(e.fields, name) == Some(resource[name]))
    && (forall name :: name !in resource ==>
          Field(e.fields, name) == if was.Some? then Field(was.value.fields, name) else None)
    && e.source == (if settled then was.value.source else source)
    && (e.provisional <==> source == Verify && !settled)
    && e.expiresAt == (if source == Verify && !settled then Some(now + cfg.verifyTtlMs) else None)
    && e.firstSeen == (if was.Some? then was.value.firstSeen else now) && e.lastSeen == now
  }

  lemma MergedTells(cfg: Config, was: Option<Entry>, resource: Fields, source: Source, now: int)
    ensures WrittenEntry(cfg, was, Merged(cfg, was, resource, source, now), resource, source, now)
  {
  }

  /** A stored write lists its resource: what it says of a property holds, other properties stay, and
      only a verify of what was never settled is provisional, for the fixed time. */
  lemma WriteTells(cfg: Config, c: Catalog, resource: Fields, source: Source, now: int, id: EntryId, job: JobId)
    requires Sound(cfg, c) && id !in c.entries && Upserted(cfg, c, resource, source, now, id, job).1.Stored?
    ensures var c' := Upserted(cfg, c, resource, source, now, id, job).0; var e := At(c', KeyOf(resource));
      && e.Some? && WrittenEntry(cfg, At(c, KeyOf(resource)), e.value, resource, source, now)
      && c'.version == c.version + 1
  {
    MergedTells(cfg, At(c, KeyOf(resource)), resource, source, now);
    var w := Written(cfg, c, resource, source, now, id);
    assert Bare(Scheduled(cfg, w, id, job).entries[id]) == Bare(w.entries[id]);
  }

  /** A write is refused exactly when it would be one more listing than its payTo or the catalog may
      have. */
  lemma RefusedExactly(cfg: Config, c: Catalog, resource: Fields, source: Source, now: int, id: EntryId, job: JobId)
    requires Sound(cfg, c) && Accounted(cfg, c) && id !in c.entries
    ensures var answer := Upserted(cfg, c, resource, source, now, id, job);
      var more := KeyOf(resource) !in c.resources; var held := |Listing(c, c.resources.Keys, PayToOf(resource))|;
      && (answer.1 == TooManyPerPayTo <==> more && held >= cfg.maxPerPayTo)
      && (answer.1 == TooLarge <==> more && held < cfg.maxPerPayTo && |c.resources| >= cfg.maxSize)
      && (!answer.1.Stored? ==> answer.0 == c)
  {
  }

  /** A settlement or a hand's write makes a listing permanent: after it, in every run that does not
      delete it by its key, it is listed, whatever it was before. */
  lemma SettlePromotes(cfg: Config, w: World, resource: Fields, source: Source, id: EntryId, job: JobId,
      later: seq<Step>)
    requires Sound(cfg, w.catalog) && source != Verify && id !in w.catalog.entries && job !in w.catalog.jobs
    requires Upserted(cfg, w.catalog, resource, source, w.now, id, job).1.Stored?
    requires Delete(KeyOf(resource)) !in later
    ensures var next := Do(cfg, w, Upsert(resource, source, id, job));
      next.Some? && (After(cfg, next.value, later).Some? ==>
        KeyOf(resource) in Listed(After(cfg, next.value, later).value))
  {
    var s := Upsert(resource, source, id, job);
    var next := Do(cfg, w, s).value;
    WriteTells(cfg, w.catalog, resource, source, w.now, id, job);
    StepSound(cfg, w, s);
    if After(cfg, next, later).Some? {
      NeverDemoted(cfg, next, later, KeyOf(resource));
      RunSound(cfg, next, later);
    }
  }

  /** The listing at a key is as one write left it, or has expired. */
  ghost predicate Fading(w: World, key: Key, until: int) {
    if key in w.catalog.resources then
      && At(w.catalog, key).Some? && At(w.catalog, key).value.provisional
      && At(w.catalog, key).value.expiresAt == Some(until)
    else w.now >= until
  }

  /** The step neither writes the listing nor deletes it by its key. */
  predicate Leaves(s: Step, key: Key) { s != Delete(key) && (s.Upsert? ==> KeyOf(s.resource) != key) }

  lemma OtherWriteFades(cfg: Config, w: World, resource: Fields, source: Source, id: EntryId, job: JobId, key: Key,
      until: int)
    requires Sound(cfg, w.catalog) && Fading(w, key, until) && KeyOf(resource) != key && id !in w.catalog.entries
    ensures Fading(w.(catalog := Upserted(cfg, w.catalog, resource, source, w.now, id, job).0), key, until)
  {
    if Upserted(cfg, w.catalog, resource, source, w.now, id, job).1.Stored? {
      StoredShape(cfg, w.catalog, resource, source, w.now, id, job);
    }
  }

  lemma StepFades(cfg: Config, w: World, s: Step, key: Key, until: int)
    requires Sound(cfg, w.catalog) && Do(cfg, w, s).Some? && Leaves(s, key) && Fading(w, key, until)
    ensures Fading(Do(cfg, w, s).value, key, until)
  {
    if s.Upsert? { OtherWriteFades(cfg, w, s.resource, s.source, s.id, s.job, key, until); }
  }

  lemma {:induction false} RunFades(cfg: Config, w: World, steps: seq<Step>, key: Key, until: int)
    requires Sound(cfg, w.catalog) && After(cfg, w, steps).Some? && Fading(w, key, until)
    requires forall s :: s in steps ==> Leaves(s, key)
    ensures Fading(After(cfg, w, steps).value, key, until)
    decreases |steps|
  {
    if steps != [] {
      StepSound(cfg, w, steps[0]);
      StepFades(cfg, w, steps[0], key, until);
      RunFades(cfg, Do(cfg, w, steps[0]).value, steps[1..], key, until);
    }
  }

  lemma VerifyFades(cfg: Config, w: World, resource: Fields, id: EntryId, job: JobId)
    requires Sound(cfg, w.catalog) && id !in w.catalog.entries && job !in w.catalog.jobs
    requires Upserted(cfg, w.catalog, resource, Verify, w.now, id, job).1.Stored?
    requires var was := At(w.catalog, KeyOf(resource)); was.Some? ==> was.value.source == Verify
    ensures Do(cfg, w, Upsert(resource, Verify, id, job)).Some?
    ensures Fading(Do(cfg, w, Upsert(resource, Verify, id, job)).value, KeyOf(resource), w.now + cfg.verifyTtlMs)
  {
    WriteTells(cfg, w.catalog, resource, Verify, w.now, id, job);
  }

  /** A listing only verified is listed exactly until its time is over, sweeps or none, unless it is
      written again or deleted. */
  lemma VerifyExpiresExactly(cfg: Config, w: World, resource: Fields, id: EntryId, job: JobId, later: seq<Step>)
    requires Sound(cfg, w.catalog) && id !in w.catalog.entries && job !in w.catalog.jobs
    requires Upserted(cfg, w.catalog, resource, Verify, w.now, id, job).1.Stored?
    requires var was := At(w.catalog, KeyOf(resource)); was.Some? ==> was.value.source == Verify
    requires forall s :: s in later ==> Leaves(s, KeyOf(resource))
    ensures var next := Do(cfg, w, Upsert(resource, Verify, id, job));
      next.Some? && (After(cfg, next.value, later).Some? ==>
        var end := After(cfg, next.value, later).value;
        KeyOf(resource) in Listed(end) <==> end.now < w.now + cfg.verifyTtlMs)
  {
    VerifyFades(cfg, w, resource, id, job);
    StepSound(cfg, w, Upsert(resource, Verify, id, job));
    var next := Do(cfg, w, Upsert(resource, Verify, id, job)).value;
    if After(cfg, next, later).Some? { RunFades(cfg, next, later, KeyOf(resource), w.now + cfg.verifyTtlMs); }
  }

  // ---------- accounting ----------

  /** Every counter is the number of its listings, within its cap; the catalog within its. */
  ghost predicate Accounted(cfg: Config, c: Catalog) {
    && (forall p :: CountOf(c.payToCounts, p) == |Listing(c, c.resources.Keys, p)|)
    && (forall p :: CountOf(c.payToCounts, p) <= cfg.maxPerPayTo)
    && |c.resources| <= cfg.maxSize
  }

  /** A write over a listing keeps its payTo, by repeating it or by leaving it out. */
  predicate KeepsPayTo(c: Catalog, resource: Fields) {
    var e := At(c, KeyOf(resource));
    e.Some? ==> PayToOf(resource) in {None, PayToOf(e.value.fields)}
  }

  lemma RemovedListing(c: Catalog, gone: set<Key>, p: PayTo)
    requires gone <= c.resources.Keys
    ensures var c' := Removed(c, gone);
      |Listing(c', c'.resources.Keys, p)| == |Listing(c, c.resources.Keys, p)| - |Listing(c, gone, p)|
  {
    var c' := Removed(c, gone);
    var all, out := Listing(c, c.resources.Keys, p), Listing(c, gone, p);
    var kept := Listing(c', c'.resources.Keys, p);
    forall k ensures k in kept <==> k in all && k !in out {
      if k in c'.resources { assert At(c', k) == At(c, k); }
    }
    SetMinus(kept, all, out);
  }

  lemma SetMinus(kept: set<Key>, all: set<Key>, out: set<Key>)
    requires out <= all && forall k :: k in kept <==> k in all && k !in out
    ensures |kept| == |all| - |out|
  {
    assert kept == all - out;
  }

  lemma RemovedAccounted(cfg: Config, c: Catalog, gone: set<Key>)
    requires Accounted(cfg, c) && gone <= c.resources.Keys
    ensures Accounted(cfg, Removed(c, gone))
  {
    var c' := Removed(c, gone);
    forall p ensures CountOf(c'.payToCounts, p) == |Listing(c', c'.resources.Keys, p)|
      && CountOf(c'.payToCounts, p) <= cfg.maxPerPayTo
    {
      LoweredCount(c, gone, p);
      RemovedListing(c, gone, p);
    }
    SubsetSize(c'.resources.Keys, c.resources.Keys);
  }

  /** The listings of `p` after a write at `key`. */
  lemma WrittenListing(c: Catalog, c': Catalog, key: Key, p: PayTo)
    requires c'.resources.Keys == c.resources.Keys + {key} && At(c', key).Some?
    requires key in c.resources ==> At(c, key).Some?
    requires forall k :: k in c.resources && k != key ==> At(c', k) == At(c, k)
    ensures var was := if key in c.resources && PayToOf(At(c, key).value.fields) == p then 1 else 0;
      |Listing(c', c'.resources.Keys, p)| == |Listing(c, c.resources.Keys, p)| - was
        + if PayToOf(At(c', key).value.fields) == p then 1 else 0
  {
    var others := c.resources.Keys - {key};
    assert Listing(c', others, p) == Listing(c, others, p);
    assert c'.resources.Keys == others + {key};
    ListingMore(c', others, key, p);
    if key in c.resources {
      assert c.resources.Keys == others + {key};
      ListingMore(c, others, key, p);
    } else {
      assert c.resources.Keys == others;
    }
  }

  lemma ScheduledShape(cfg: Config, w: Catalog, id: EntryId, job: JobId)
    requires id in w.entries
    ensures var c := Scheduled(cfg, w, id, job);
      && c.resources == w.resources && c.payToCounts == w.payToCounts && c.entries.Keys == w.entries.Keys
      && c.entries[id].fields == w.entries[id].fields
      && (forall i :: i in w.entries && i != id ==> c.entries[i] == w.entries[i])
  {
  }

  ghost predicate Wrote(c: Catalog, c': Catalog, resource: Fields, id: EntryId) {
    var key, existing, p := KeyOf(resource), At(c, KeyOf(resource)), PayToOf(resource);
    && c'.resources == c.resources[key := id] && At(c', key).Some?
    && At(c', key).value.fields == (if existing.Some? then existing.value.fields else map[]) + resource
    && (forall k :: k in c.resources && k != key ==> At(c', k) == At(c, k))
    && (key in c.resources <==> existing.Some?)
    && c'.payToCounts ==
      if existing.Some? then c.payToCounts else c.payToCounts[p := CountOf(c.payToCounts, p) + 1]
  }

  lemma WrittenShape(cfg: Config, c: Catalog, resource: Fields, source: Source, now: int, id: EntryId)
    requires Sound(cfg, c) && id !in c.entries
    ensures Wrote(c, Written(cfg, c, resource, source, now, id), resource, id)
  {
  }

  lemma StoredShape(cfg: Config, c: Catalog, resource: Fields, source: Source, now: int, id: EntryId, job: JobId)
    requires Sound(cfg, c) && id !in c.entries
    requires Upserted(cfg, c, resource, source, now, id, job).1.Stored?
    ensures Wrote(c, Upserted(cfg, c, resource, source, now, id, job).0, resource, id)
  {
    WrittenShape(cfg, c, resource, source, now, id);
    var w := Written(cfg, c, resource, source, now, id);
    ScheduledShape(cfg, w, id, job);
    var c' := Scheduled(cfg, w, id, job);
    forall k | k in c.resources && k != KeyOf(resource) ensures At(c', k) == At(c, k) {
      assert At(w, k) == At(c, k);
    }
  }

  lemma NewListed(c: Catalog, c': Catalog, resource: Fields, id: EntryId, p: PayTo)
    requires Wrote(c, c', resource, id) && At(c, KeyOf(resource)).None?
    ensures |Listing(c', c'.resources.Keys, p)| ==
      |Listing(c, c.resources.Keys, p)| + if PayToOf(resource) == p then 1 else 0
  {
    assert At(c', KeyOf(resource)).value.fields == resource by { assert map[] + resource == resource; }
    WrittenListing(c, c', KeyOf(resource), p);
  }

  lemma BumpCounts(counts: map<PayTo, Positive>, q: PayTo, p: PayTo)
    ensures CountOf(counts[q := CountOf(counts, q) + 1], p) == CountOf(counts, p) + if p == q then 1 else 0
  {
  }

  lemma NewCounted(cfg: Config, c: Catalog, c': Catalog, resource: Fields, id: EntryId, p: PayTo)
    requires Wrote(c, c', resource, id) && At(c, KeyOf(resource)).None?
    requires CountOf(c.payToCounts, p) == |Listing(c, c.resources.Keys, p)|
    requires CountOf(c.payToCounts, p) <= cfg.maxPerPayTo
    requires CountOf(c.payToCounts, PayToOf(resource)) < cfg.maxPerPayTo
    ensures CountOf(c'.payToCounts, p) == |Listing(c', c'.resources.Keys, p)|
    ensures CountOf(c'.payToCounts, p) <= cfg.maxPerPayTo
  {
    NewListed(c, c', resource, id, p);
    BumpCounts(c.payToCounts, PayToOf(resource), p);
  }

  lemma OneKeyMore(m: map<Key, EntryId>, key: Key, id: EntryId)
    ensures |m[key := id]| <= |m| + 1
  {
    assert m[key := id].Keys == m.Keys + {key};
  }

  lemma NewListingAccounted(cfg: Config, c: Catalog, c': Catalog, resource: Fields, id: EntryId)
    requires Accounted(cfg, c) && Wrote(c, c', resource, id) && At(c, KeyOf(resource)).None?
    requires CountOf(c.payToCounts, PayToOf(resource)) < cfg.maxPerPayTo && |c.resources| < cfg.maxSize
    ensures Accounted(cfg, c')
  {
    OneKeyMore(c.resources, KeyOf(resource), id);
    forall p ensures CountOf(c'.payToCounts, p) == |Listing(c', c'.resources.Keys, p)|
      && CountOf(c'.payToCounts, p) <= cfg.maxPerPayTo
    {
      NewCounted(cfg, c, c', resource, id, p);
    }
  }

  /** A new listing is counted, under the caps. */
  lemma NewAccounted(cfg: Config, c: Catalog, resource: Fields, source: Source, now: int, id: EntryId, job: JobId)
    requires Sound(cfg, c) && Accounted(cfg, c) && id !in c.entries && At(c, KeyOf(resource)).None?
    ensures Accounted(cfg, Upserted(cfg, c, resource, source, now, id, job).0)
  {
    if Upserted(cfg, c, resource, source, now, id, job).1.Stored? {
      StoredShape(cfg, c, resource, source, now, id, job);
      NewListingAccounted(cfg, c, Upserted(cfg, c, resource, source, now, id, job).0, resource, id);
    }
  }

  /** A write over a listing leaves the accounting right exactly when it keeps the payTo: the
      counter of a changed one does not move. */
  lemma OverwriteKeepsExactly(cfg: Config, c: Catalog, resource: Fields, source: Source, now: int, id: EntryId,
      job: JobId)
    requires Sound(cfg, c) && Accounted(cfg, c) && id !in c.entries && At(c, KeyOf(resource)).Some?
    ensures Accounted(cfg, Upserted(cfg, c, resource, source, now, id, job).0) <==> KeepsPayTo(c, resource)
  {
    var c' := Upserted(cfg, c, resource, source, now, id, job).0;
    var key := KeyOf(resource);
    StoredShape(cfg, c, resource, source, now, id, job);
    assert c'.resources.Keys == c.resources.Keys;
    var was, next := PayToOf(At(c, key).value.fields), PayToOf(At(c', key).value.fields);
    forall p ensures |Listing(c', c'.resources.Keys, p)| == |Listing(c, c.resources.Keys, p)|
      - (if was == p then 1 else 0) + if next == p then 1 else 0
    {
      WrittenListing(c, c', key, p);
    }
    if !KeepsPayTo(c, resource) {
      assert was != next;
      assert CountOf(c'.payToCounts, was) != |Listing(c', c'.resources.Keys, was)|;
    }
  }

  /** No listing's payTo is changed by a write. */
  predicate Steady(w: World, s: Step) { s.Upsert? ==> KeepsPayTo(w.catalog, s.resource) }

  lemma SameAccounted(cfg: Config, c: Catalog, c': Catalog)
    requires Accounted(cfg, c) && c'.resources == c.resources && c'.payToCounts == c.payToCounts
    requires forall id :: id in c.entries <==> id in c'.entries
    requires forall id :: id in c.entries ==> c'.entries[id].fields == c.entries[id].fields
    ensures Accounted(cfg, c')
  {
    forall p ensures Listing(c', c'.resources.Keys, p) == Listing(c, c.resources.Keys, p) {
    }
  }

  lemma DeleteAccounted(cfg: Config, c: Catalog, key: Key)
    requires Accounted(cfg, c)
    ensures Accounted(cfg, Deleted(c, key))
  {
    if At(c, key).Some? {
      RemovedAccounted(cfg, c, {key});
      SameAccounted(cfg, Removed(c, {key}), Deleted(c, key));
    }
  }

  lemma PruneAccounted(cfg: Config, c: Catalog, now: int)
    requires Accounted(cfg, c)
    ensures Accounted(cfg, Pruned(c, now))
  {
    var gone := ExpiredKeys(c, now);
    if gone != {} {
      RemovedAccounted(cfg, c, gone);
      SameAccounted(cfg, Removed(c, gone), Pruned(c, now));
    }
  }

  lemma StepAccounted(cfg: Config, w: World, s: Step)
    requires Sound(cfg, w.catalog) && Accounted(cfg, w.catalog) && Do(cfg, w, s).Some? && Steady(w, s)
    ensures Accounted(cfg, Do(cfg, w, s).value.catalog)
  {
    var c, c' := w.catalog, Do(cfg, w, s).value.catalog;
    match s
    case Upsert(resource, source, id, job) =>
      if At(c, KeyOf(resource)).Some? {
        OverwriteKeepsExactly(cfg, c, resource, source, w.now, id, job);
      } else {
        NewAccounted(cfg, c, resource, source, w.now, id, job);
      }
    case Delete(key) => DeleteAccounted(cfg, c, key);
    case Prune => PruneAccounted(cfg, c, w.now);
    case _ => SameAccounted(cfg, c, c');
  }

  ghost predicate SteadyRun(cfg: Config, w: World, steps: seq<Step>)
    decreases |steps|
  {
    steps == [] ||
    (Steady(w, steps[0]) && match Do(cfg, w, steps[0])
     case None => false
     case Some(next) => SteadyRun(cfg, next, steps[1..]))
  }

  lemma {:induction false} SteadyRunAccounted(cfg: Config, w: World, steps: seq<Step>)
    requires Sound(cfg, w.catalog) && Accounted(cfg, w.catalog) && SteadyRun(cfg, w, steps)
    ensures After(cfg, w, steps).Some? && Accounted(cfg, After(cfg, w, steps).value.catalog)
    decreases |steps|
  {
    if steps != [] {
      StepSound(cfg, w, steps[0]);
      StepAccounted(cfg, w, steps[0]);
      SteadyRunAccounted(cfg, Do(cfg, w, steps[0]).value, steps[1..]);
    }
  }

  /** The counter of `p` and the listing at `key` are right, and all is within the caps. */
  ghost predicate Balanced(cfg: Config, c: Catalog, p: PayTo, key: Key) {
    && CountOf(c.payToCounts, p) == |Listing(c, c.resources.Keys, p)|
    && CountOf(c.payToCounts, p) <= cfg.maxPerPayTo && |c.resources| <= cfg.maxSize
    && (key in c.resources ==>
          var e := At(c, key);
          e.Some? && (e.value.provisional <==> e.value.source.Verify?)
          && e.value.expiresAt == if e.value.provisional then Some(e.value.lastSeen + cfg.verifyTtlMs) else None)
  }

  lemma EmptyAccounted(cfg: Config)
    ensures Accounted(cfg, EMPTY)
  {
    forall p ensures Listing(EMPTY, EMPTY.resources.Keys, p) == {} {
    }
  }

  lemma AccountedBalances(cfg: Config, c: Catalog, p: PayTo, key: Key)
    requires Sound(cfg, c) && Accounted(cfg, c)
    ensures Balanced(cfg, c, p, key)
  {
    if key in c.resources { assert EntryFits(cfg, At(c, key).value); }
  }

  /** Over every run from the empty catalog in which no listing changes its payTo: each
      counter is the number of its listings and within its cap, the catalog is within its
      cap, and a listing is provisional exactly when its source is a verify, and then expires
      the fixed time after it was last seen, or else never. */
  lemma AccountsBalance(cfg: Config, now: int, steps: seq<Step>, p: PayTo, key: Key)
    requires SteadyRun(cfg, World(EMPTY, now), steps)
    ensures After(cfg, World(EMPTY, now), steps).Some?
    ensures Balanced(cfg, After(cfg, World(EMPTY, now), steps).value.catalog, p, key)
  {
    EmptyAccounted(cfg);
    SteadyRunAccounted(cfg, World(EMPTY, now), steps);
    RunSound(cfg, World(EMPTY, now), steps);
    AccountedBalances(cfg, After(cfg, World(EMPTY, now), steps).value.catalog, p, key);
  }
}
