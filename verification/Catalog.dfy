/** The in-memory catalog: listings, the per-payTo counters beside them, the write version,
    and embeddings that land in the background. */
module Catalog {
  import opened Text

  /** A listing's properties; writing merges them as an object spread does. */
  type Fields = map<string, string>

  type Key = string

  type PayTo = Option<string>

  /** Entries are objects that the catalog and background jobs share by reference. */
  type EntryId = nat

  type JobId = nat

  type Positive = n: int | n >= 1 witness 1

  datatype Source = Verify | Settle | Manual

  /** `of` is the text the vector was computed from, which the program does not keep. */
  datatype Embedding = Embedding(vector: seq<real>, of: string)

  datatype Entry = Entry(
    fields: Fields, source: Source, provisional: bool, expiresAt: Option<int>,
    firstSeen: int, lastSeen: int, embedding: Option<Embedding>, embeddingSource: Option<string>)

  datatype Stage = Queued | Awaiting(text: string)

  datatype Job = Job(entry: EntryId, fingerprint: string, stage: Stage)

  datatype Config = Config(
    maxPerPayTo: nat, maxSize: nat, verifyTtlMs: int, embeds: bool,
    compose: Fields -> string, fingerprint: string -> string)

  datatype Catalog = Catalog(
    resources: map<Key, EntryId>, entries: map<EntryId, Entry>, payToCounts: map<PayTo, Positive>,
    version: nat, jobs: map<JobId, Job>)

  datatype Answer = Stored | TooManyPerPayTo | TooLarge

  const EMPTY := Catalog(map[], map[], map[], 0, map[])

  function Field(f: Fields, name: string): Option<string> { if name in f then Some(f[name]) else None }

  function OrUndefined(o: Option<string>): string { if o.Some? then o.value else "undefined" }

  function KeyOf(f: Fields): Key {
    OrUndefined(Field(f, "url")) + "::"
      + if Field(f, "type") == Some("mcp") then OrUndefined(Field(f, "toolName")) else ""
  }

  function PayToOf(f: Fields): PayTo { Field(f, "payTo") }

  function CountOf(counts: map<PayTo, Positive>, p: PayTo): nat { if p in counts then counts[p] else 0 }

  predicate Expired(e: Entry, now: int) { e.provisional && (e.expiresAt.Some? ==> now >= e.expiresAt.value) }

  /** The listing at a key, when the entry is there. */
  function At(c: Catalog, k: Key): Option<Entry> {
    if k in c.resources && c.resources[k] in c.entries then Some(c.entries[c.resources[k]]) else None
  }

  /** The keys among `keys` that list `p`. */
  function Listing(c: Catalog, keys: set<Key>, p: PayTo): set<Key> {
    set k | k in keys && At(c, k).Some? && PayToOf(At(c, k).value.fields) == p
  }

  /** What a read takes hold of: the entries listed and not expired, and the heap they are in. */
  datatype View = View(listed: map<Key, EntryId>, entries: map<EntryId, Entry>)

  function ViewOf(c: Catalog, now: int): View {
    View(map k | k in c.resources && At(c, k).Some? && !Expired(At(c, k).value, now) :: c.resources[k], c.entries)
  }

  /** An entry with the vector its object has in `heap`. */
  function WithVector(e: Entry, id: EntryId, heap: map<EntryId, Entry>): Entry {
    if id in heap then e.(embedding := heap[id].embedding, embeddingSource := heap[id].embeddingSource) else e
  }

  /** The listings of `a` with the vectors of `b`: a search takes hold of the entries, awaits the
      query's embedding, and then reads each entry's vector. */
  function Read(a: View, b: View): map<Key, Entry> {
    map k | k in a.listed && a.listed[k] in a.entries :: WithVector(a.entries[a.listed[k]], a.listed[k], b.entries)
  }

  // ---------- the operations ----------

  function Merged(cfg: Config, existing: Option<Entry>, resource: Fields, source: Source, now: int): Entry {
    var settled := existing.Some? && !existing.value.source.Verify?;
    var provisional := source.Verify? && !settled;
    Entry(
      (if existing.Some? then existing.value.fields else map[]) + resource,
      if settled then existing.value.source else source,
      provisional,
      if provisional then Some(now + cfg.verifyTtlMs) else None,
      if existing.Some? then existing.value.firstSeen else now,
      now,
      if existing.Some? then existing.value.embedding else None,
      if existing.Some? then existing.value.embeddingSource else None)
  }

  /** The vector attached to the entry is the vector of its text, as far as fingerprints tell. */
  predicate Embedded(cfg: Config, e: Entry) {
    e.embedding.Some? && e.embeddingSource == Some(cfg.fingerprint(cfg.compose(e.fields)))
  }

  /** A vector of other text goes at once; the new one is computed in the background. */
  function Scheduled(cfg: Config, c: Catalog, id: EntryId, job: JobId): Catalog
    requires id in c.entries
  {
    var e := c.entries[id];
    if !cfg.embeds || Embedded(cfg, e) then c
    else c.(entries := c.entries[id := e.(embedding := None, embeddingSource := None)],
            jobs := c.jobs[job := Job(id, cfg.fingerprint(cfg.compose(e.fields)), Queued)])
  }

  /** The write itself: entry, counter, version. */
  function Written(cfg: Config, c: Catalog, resource: Fields, source: Source, now: int, id: EntryId): (w: Catalog)
    ensures id in w.entries
  {
    var key, p := KeyOf(resource), PayToOf(resource);
    var existing := At(c, key);
    c.(resources := c.resources[key := id],
       entries := c.entries[id := Merged(cfg, existing, resource, source, now)],
       payToCounts := if existing.Some? then c.payToCounts
         else c.payToCounts[p := CountOf(c.payToCounts, p) + 1],
       version := c.version + 1)
  }

  function Upserted(cfg: Config, c: Catalog, resource: Fields, source: Source, now: int, id: EntryId, job: JobId)
    : (Catalog, Answer)
  {
    var key := KeyOf(resource);
    var existing := At(c, key);
    var p := PayToOf(resource);
    if existing.None? && CountOf(c.payToCounts, p) >= cfg.maxPerPayTo then (c, TooManyPerPayTo)
    else if existing.None? && |c.resources| >= cfg.maxSize then (c, TooLarge)
    else (Scheduled(cfg, Written(cfg, c, resource, source, now, id), id, job), Stored)
  }

  /** The counters after the listings at `keys` went, one decrement each. */
  function Lowered(c: Catalog, keys: set<Key>): map<PayTo, Positive> {
    map p | p in c.payToCounts && c.payToCounts[p] > |Listing(c, keys, p)| ::
      c.payToCounts[p] - |Listing(c, keys, p)|
  }

  function Removed(c: Catalog, keys: set<Key>): Catalog {
    c.(resources := c.resources - keys, payToCounts := Lowered(c, keys))
  }

  /** One listing goes, with one decrement. */
  function Dropped(c: Catalog, key: Key): Catalog
    requires At(c, key).Some?
  {
    var p := PayToOf(At(c, key).value.fields);
    c.(resources := c.resources - {key},
       payToCounts := if CountOf(c.payToCounts, p) <= 1 then c.payToCounts - {p}
         else c.payToCounts[p := CountOf(c.payToCounts, p) - 1])
  }

  function Deleted(c: Catalog, key: Key): Catalog {
    if At(c, key).None? then c else Removed(c, {key}).(version := c.version + 1)
  }

  function ExpiredKeys(c: Catalog, now: int): set<Key> {
    set k | k in c.resources && At(c, k).Some? && Expired(At(c, k).value, now)
  }

  function Pruned(c: Catalog, now: int): Catalog {
    var gone := ExpiredKeys(c, now);
    if gone == {} then c else Removed(c, gone).(version := c.version + 1)
  }

  /** The job composes the text of its entry as the entry then is. */
  function Composed(cfg: Config, c: Catalog, job: JobId): Catalog
    requires job in c.jobs && c.jobs[job].entry in c.entries
  {
    c.(jobs := c.jobs[job := c.jobs[job].(stage := Awaiting(cfg.compose(c.entries[c.jobs[job].entry].fields)))])
  }

  /** The vector lands on the entry the job was started for, wherever that entry is by now. */
  function Landed(c: Catalog, job: JobId, vector: Option<seq<real>>): Catalog
    requires job in c.jobs && c.jobs[job].stage.Awaiting? && c.jobs[job].entry in c.entries
  {
    var j := c.jobs[job];
    var c' := c.(jobs := c.jobs - {job});
    if vector.None? then c'
    else c'.(entries := c.entries[j.entry := c.entries[j.entry].(
      embedding := Some(Embedding(vector.value, j.stage.text)), embeddingSource := Some(j.fingerprint))])
  }

  class MemoryCatalogStore {
    var resources: map<Key, EntryId>
    var entries: map<EntryId, Entry>
    var payToCounts: map<PayTo, Positive>
    var version: nat
    var jobs: map<JobId, Job>

    ghost function State(): Catalog
      reads this
    {
      Catalog(resources, entries, payToCounts, version, jobs)
    }

    /** Every listing has its entry. */
    ghost predicate Valid()
      reads this
    {
      forall k :: k in resources ==> resources[k] in entries
    }

    constructor ()
      ensures State() == EMPTY && Valid()
    {
      resources, entries, payToCounts, version, jobs := map[], map[], map[], 0, map[];
    }

    method IncrementPayToCount(p: PayTo)
      modifies this`payToCounts
      ensures payToCounts == old(payToCounts)[p := CountOf(old(payToCounts), p) + 1]
    {
      payToCounts := payToCounts[p := CountOf(payToCounts, p) + 1];
    }

    method DecrementPayToCount(p: PayTo)
      modifies this`payToCounts
      ensures payToCounts ==
        if CountOf(old(payToCounts), p) <= 1 then old(payToCounts) - {p}
        else old(payToCounts)[p := CountOf(old(payToCounts), p) - 1]
    {
      var count: int := if p in payToCounts then payToCounts[p] else 1;
      var next := count - 1;
      if next <= 0 {
        payToCounts := payToCounts - {p};
      } else {
        payToCounts := payToCounts[p := next];
      }
    }

    method UpsertResource(cfg: Config, resource: Fields, source: Source, now: int, id: EntryId, job: JobId)
      returns (answer: Answer)
      requires Valid() && id !in entries
      modifies this
      ensures Valid() && State() == Upserted(cfg, old(State()), resource, source, now, id, job).0
      ensures answer == Upserted(cfg, old(State()), resource, source, now, id, job).1
    {
      var key := KeyOf(resource);
      var known := key in resources;
      if !known {
        if CountOf(payToCounts, PayToOf(resource)) >= cfg.maxPerPayTo { return TooManyPerPayTo; }
        if |resources| >= cfg.maxSize { return TooLarge; }
      }
      Write(cfg, resource, source, now, id);
      ScheduleEmbed(cfg, id, job);
      answer := Stored;
    }

    method Write(cfg: Config, resource: Fields, source: Source, now: int, id: EntryId)
      requires Valid()
      modifies this
      ensures Valid() && State() == Written(cfg, old(State()), resource, source, now, id)
    {
      var key := KeyOf(resource);
      var existing := if key in resources then Some(entries[resources[key]]) else None;
      entries := entries[id := Merged(cfg, existing, resource, source, now)];
      resources := resources[key := id];
      if existing.None? { IncrementPayToCount(PayToOf(resource)); }
      version := version + 1;
    }

    method ScheduleEmbed(cfg: Config, id: EntryId, job: JobId)
      requires id in entries
      modifies this`entries, this`jobs
      ensures State() == Scheduled(cfg, old(State()), id, job)
    {
      if !cfg.embeds { return; }
      var entry := entries[id];
      var fingerprint := cfg.fingerprint(cfg.compose(entry.fields));
      if entry.embedding.Some? && entry.embeddingSource == Some(fingerprint) { return; }
      entries := entries[id := entry.(embedding := None, embeddingSource := None)];
      jobs := jobs[job := Job(id, fingerprint, Queued)];
    }

    method Compose(cfg: Config, job: JobId)
      requires job in jobs && jobs[job].entry in entries
      modifies this`jobs
      ensures State() == Composed(cfg, old(State()), job)
    {
      var text := cfg.compose(entries[jobs[job].entry].fields);
      jobs := jobs[job := jobs[job].(stage := Awaiting(text))];
    }

    method Land(job: JobId, vector: Option<seq<real>>)
      requires job in jobs && jobs[job].stage.Awaiting? && jobs[job].entry in entries
      modifies this`jobs, this`entries
      ensures State() == Landed(old(State()), job, vector)
    {
      var j := jobs[job];
      if vector.Some? {
        var entry := entries[j.entry];
        entry := entry.(embedding := Some(Embedding(vector.value, j.stage.text)));
        entry := entry.(embeddingSource := Some(j.fingerprint));
        entries := entries[j.entry := entry];
      }
      jobs := jobs - {job};
    }

    method Drop(key: Key)
      requires Valid() && key in resources
      modifies this`resources, this`payToCounts
      ensures Valid() && State() == Dropped(old(State()), key)
    {
      var entry := entries[resources[key]];
      resources := resources - {key};
      DecrementPayToCount(PayToOf(entry.fields));
    }

    method DeleteResource(key: Key) returns (removed: bool)
      requires Valid()
      modifies this
      ensures Valid() && State() == Deleted(old(State()), key) && removed == (key in old(resources))
    {
      if key !in resources { return false; }
      OneListing(State(), key);
      Drop(key);
      version := version + 1;
      removed := true;
    }

    method PruneExpired(now: int) returns (pruned: nat)
      requires Valid()
      modifies this
      ensures Valid() && State() == Pruned(old(State()), now)
      ensures pruned == |ExpiredKeys(old(State()), now)|
    {
      NoneRemoved(State());
      pruned := Sweep(now);
      if pruned > 0 { version := version + 1; }
    }

    method Sweep(now: int) returns (pruned: nat)
      requires Valid()
      modifies this`resources, this`payToCounts
      ensures Valid() && State() == Removed(old(State()), ExpiredKeys(old(State()), now))
      ensures pruned == |ExpiredKeys(old(State()), now)|
    {
      ghost var c := State();
      pruned := 0;
      var todo := resources.Keys;
      NothingGone(c, now);
      while todo != {}
        invariant todo <= resources.Keys && Valid()
        invariant State() == Sweeping(c, now, todo) && pruned == |Gone(c, now, todo)|
        decreases todo
      {
        var key :| key in todo;
        PruneStep(c, now, todo, key);
        var dropped := DropIfExpired(key, now);
        todo := todo - {key};
        pruned := pruned + dropped;
      }
      assert Gone(c, now, {}) == ExpiredKeys(c, now);
    }

    method DropIfExpired(key: Key, now: int) returns (dropped: nat)
      requires Valid() && key in resources
      modifies this`resources, this`payToCounts
      ensures Valid() && resources.Keys >= old(resources).Keys - {key}
      ensures State() == if Expired(At(old(State()), key).value, now) then Dropped(old(State()), key) else old(State())
      ensures dropped == if Expired(At(old(State()), key).value, now) then 1 else 0
    {
      dropped := 0;
      if Expired(entries[resources[key]], now) {
        Drop(key);
        dropped := 1;
      }
    }
  }

  /** What has been pruned when `todo` is still to be looked at. */
  ghost function Gone(c: Catalog, now: int, todo: set<Key>): set<Key> { ExpiredKeys(c, now) - todo }

  ghost function Sweeping(c: Catalog, now: int, todo: set<Key>): Catalog { Removed(c, Gone(c, now, todo)) }

  lemma NothingGone(c: Catalog, now: int)
    ensures Sweeping(c, now, c.resources.Keys) == c && |Gone(c, now, c.resources.Keys)| == 0
  {
    NoneRemoved(c);
    assert Gone(c, now, c.resources.Keys) == {};
  }

  lemma PruneStep(c: Catalog, now: int, todo: set<Key>, key: Key)
    requires key in todo && At(Sweeping(c, now, todo), key).Some?
    ensures var mid := Sweeping(c, now, todo); var expired := Expired(At(mid, key).value, now);
      && Sweeping(c, now, todo - {key}) == (if expired then Dropped(mid, key) else mid)
      && |Gone(c, now, todo - {key})| == |Gone(c, now, todo)| + if expired then 1 else 0
  {
    var gone := Gone(c, now, todo);
    if key in ExpiredKeys(c, now) {
      assert Gone(c, now, todo - {key}) == gone + {key};
      OneMore(c, gone, key);
    } else {
      assert Gone(c, now, todo - {key}) == gone;
    }
  }

  lemma OneListing(c: Catalog, key: Key)
    requires At(c, key).Some?
    ensures Removed(c, {key}) == Dropped(c, key)
  {
    NoneRemoved(c);
    OneMore(c, {}, key);
    assert {} + {key} == {key};
  }

  lemma NoneRemoved(c: Catalog)
    ensures Removed(c, {}) == c
  {
    forall p ensures Listing(c, {}, p) == {} {
    }
  }

  lemma SameCounts(a: map<PayTo, Positive>, b: map<PayTo, Positive>)
    requires forall p :: CountOf(a, p) == CountOf(b, p)
    ensures a == b
  {
    forall p ensures (p in a <==> p in b) && (p in a ==> a[p] == b[p]) {
      assert CountOf(a, p) == CountOf(b, p);
    }
  }

  lemma ListingMore(c: Catalog, keys: set<Key>, key: Key, q: PayTo)
    requires key !in keys && At(c, key).Some?
    ensures |Listing(c, keys + {key}, q)| ==
      |Listing(c, keys, q)| + if q == PayToOf(At(c, key).value.fields) then 1 else 0
  {
    if q == PayToOf(At(c, key).value.fields) {
      assert Listing(c, keys + {key}, q) == Listing(c, keys, q) + {key};
    } else {
      assert Listing(c, keys + {key}, q) == Listing(c, keys, q);
    }
  }

  lemma LoweredCount(c: Catalog, keys: set<Key>, q: PayTo)
    ensures var left := CountOf(c.payToCounts, q) - |Listing(c, keys, q)|;
      CountOf(Lowered(c, keys), q) == if left > 0 then left else 0
  {
  }

  lemma LoweredMore(c: Catalog, keys: set<Key>, key: Key)
    requires key !in keys && At(c, key).Some?
    ensures var p := PayToOf(At(c, key).value.fields); var counts := Lowered(c, keys);
      Lowered(c, keys + {key}) ==
        if CountOf(counts, p) <= 1 then counts - {p} else counts[p := CountOf(counts, p) - 1]
  {
    var p := PayToOf(At(c, key).value.fields);
    var counts := Lowered(c, keys);
    var next := if CountOf(counts, p) <= 1 then counts - {p} else counts[p := CountOf(counts, p) - 1];
    forall q ensures CountOf(Lowered(c, keys + {key}), q) == CountOf(next, q) {
      ListingMore(c, keys, key, q);
      LoweredCount(c, keys, q);
      LoweredCount(c, keys + {key}, q);
    }
    SameCounts(Lowered(c, keys + {key}), next);
  }

  /** Removing one key more is dropping one listing more. */
  lemma OneMore(c: Catalog, keys: set<Key>, key: Key)
    requires key !in keys && At(c, key).Some?
    ensures At(Removed(c, keys), key) == At(c, key)
    ensures Removed(c, keys + {key}) == Dropped(Removed(c, keys), key)
  {
    LoweredMore(c, keys, key);
    assert c.resources - (keys + {key}) == (c.resources - keys) - {key};
  }
}
