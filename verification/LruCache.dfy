/** The fixed-capacity map with time-to-live and least-recently-used eviction. */
module LruCache {
  import opened Text

  type Key = Str

  datatype Entry<V> = Entry(key: Key, value: V, expiresAt: int)

  /** A Map in insertion order: the coldest entry first. */
  type Entries<V> = seq<Entry<V>>

  function Keys<V>(es: Entries<V>): (keys: seq<Key>)
    ensures |keys| == |es|
  {
    seq(|es|, i requires 0 <= i < |es| => es[i].key)
  }

  function Find<V>(es: Entries<V>, key: Key): (e: Option<Entry<V>>)
    ensures e.Some? <==> key in Keys(es)
    ensures e.Some? ==> e.value in es && e.value.key == key
  {
    if es == [] then None
    else
      assert Keys(es) == Keys(es[..|es| - 1]) + [es[|es| - 1].key];
      if es[|es| - 1].key == key then Some(es[|es| - 1]) else Find(es[..|es| - 1], key)
  }

  function Without<V>(es: Entries<V>, key: Key): (r: Entries<V>)
    ensures |r| <= |es|
    ensures key !in Keys(es) ==> r == es
  {
    if es == [] then []
    else
      assert Keys(es) == Keys(es[..|es| - 1]) + [es[|es| - 1].key];
      Without(es[..|es| - 1], key) + if es[|es| - 1].key == key then [] else [es[|es| - 1]]
  }

  function Newest<T>(s: seq<T>, n: nat): seq<T> { if |s| <= n then s else s[|s| - n..] }

  predicate Hit<V>(es: Entries<V>, key: Key, now: int) {
    Find(es, key).Some? && Find(es, key).value.expiresAt > now
  }

  /** A hit moves to the end; what has expired is dropped. */
  function AfterGet<V>(es: Entries<V>, key: Key, now: int): Entries<V> {
    Without(es, key) + if Hit(es, key, now) then [Find(es, key).value] else []
  }

  function AfterSet<V>(es: Entries<V>, key: Key, value: V, expiresAt: int, capacity: nat): Entries<V> {
    Newest(Without(es, key) + [Entry(key, value, expiresAt)], capacity)
  }

  class LruTtlCache<V> {
    const maxEntries: nat
    const ttlMs: int
    var entries: Entries<V>

    constructor (maxEntries: nat, ttlMs: int)
      ensures entries == [] && this.maxEntries == maxEntries && this.ttlMs == ttlMs
    {
      this.maxEntries, this.ttlMs, entries := maxEntries, ttlMs, [];
    }

    method Get(key: Key, now: int) returns (r: Option<V>)
      modifies this
      ensures entries == AfterGet(old(entries), key, now)
      ensures r == if Hit(old(entries), key, now) then Some(Find(old(entries), key).value.value) else None
    {
      var found := Find(entries, key);
      if found.None? { return None; }
      entries := Without(entries, key);
      if found.value.expiresAt <= now { return None; }
      entries := entries + [found.value];
      r := Some(found.value.value);
    }

    method Set(key: Key, value: V, now: int)
      modifies this
      ensures entries == AfterSet(old(entries), key, value, now + ttlMs, maxEntries)
    {
      if Find(entries, key).Some? { entries := Without(entries, key); }
      entries := entries + [Entry(key, value, now + ttlMs)];
      ghost var full := entries;
      while |entries| > maxEntries
        invariant |entries| <= |full| && entries == full[|full| - |entries|..]
        invariant |full| <= maxEntries ==> entries == full
        invariant |full| > maxEntries ==> |entries| >= maxEntries
      {
        entries := entries[1..];
      }
    }

    method Delete(key: Key) returns (there: bool)
      modifies this
      ensures entries == Without(old(entries), key) && there == (key in Keys(old(entries)))
    {
      there := Find(entries, key).Some?;
      entries := Without(entries, key);
    }

    method Clear()
      modifies this
      ensures entries == []
    {
      entries := [];
    }
  }

  // ---------- runs ----------

  /** Access is the read-through: get, and set what was loaded on a miss. */
  datatype Op<V> =
    | Access(key: Key, loaded: V)
    | Set(key: Key, value: V)
    | Get(key: Key)
    | Delete(key: Key)
    | Clear

  datatype Call<V> = Call(op: Op<V>, now: int)

  function Step<V>(es: Entries<V>, c: Call<V>, capacity: nat, ttlMs: int): Entries<V> {
    match c.op
    case Access(key, loaded) =>
      var got := AfterGet(es, key, c.now);
      if Hit(es, key, c.now) then got else AfterSet(got, key, loaded, c.now + ttlMs, capacity)
    case Set(key, value) => AfterSet(es, key, value, c.now + ttlMs, capacity)
    case Get(key) => AfterGet(es, key, c.now)
    case Delete(key) => Without(es, key)
    case Clear => []
  }

  function Run<V>(calls: seq<Call<V>>, capacity: nat, ttlMs: int): Entries<V> {
    if calls == [] then []
    else Step(Run(calls[..|calls| - 1], capacity, ttlMs), calls[|calls| - 1], capacity, ttlMs)
  }

  // ---------- keys move without regard to time ----------

  function Removed(keys: seq<Key>, key: Key): seq<Key> {
    if keys == [] then []
    else Removed(keys[..|keys| - 1], key) + if keys[|keys| - 1] == key then [] else [keys[|keys| - 1]]
  }

  function Touched(keys: seq<Key>, key: Key, capacity: nat): seq<Key> {
    Newest(Removed(keys, key) + [key], capacity)
  }

  function KeyStep<V>(keys: seq<Key>, op: Op<V>, capacity: nat): seq<Key>
    requires !op.Get?
  {
    match op
    case Access(key, _) => Touched(keys, key, capacity)
    case Set(key, _) => Touched(keys, key, capacity)
    case Delete(key) => Removed(keys, key)
    case Clear => []
  }

  lemma {:induction false} KeysWithout<V>(es: Entries<V>, key: Key)
    ensures Keys(Without(es, key)) == Removed(Keys(es), key)
    ensures key !in Keys(Without(es, key))
  {
    if es != [] {
      var init := es[..|es| - 1];
      KeysWithout(init, key);
      assert Keys(es)[..|es| - 1] == Keys(init);
    }
  }

  lemma KeysConcat<V>(a: Entries<V>, b: Entries<V>)
    ensures Keys(a + b) == Keys(a) + Keys(b)
  {
  }

  lemma KeysSet<V>(es: Entries<V>, key: Key, value: V, expiresAt: int, capacity: nat)
    ensures Keys(AfterSet(es, key, value, expiresAt, capacity)) == Touched(Keys(es), key, capacity)
  {
    KeysWithout(es, key);
    KeysConcat(Without(es, key), [Entry(key, value, expiresAt)]);
    assert Keys([Entry(key, value, expiresAt)]) == [key];
    assert Keys(Without(es, key) + [Entry(key, value, expiresAt)]) == Removed(Keys(es), key) + [key];
  }

  lemma {:induction false} RemovedShorter(keys: seq<Key>, key: Key)
    ensures |Removed(keys, key)| + (if key in keys then 1 else 0) <= |keys|
  {
    if keys != [] {
      RemovedShorter(keys[..|keys| - 1], key);
      assert keys == keys[..|keys| - 1] + [keys[|keys| - 1]];
    }
  }

  lemma {:induction false} RemovedTwice(keys: seq<Key>, key: Key)
    ensures key !in Removed(keys, key) && (key !in keys ==> Removed(keys, key) == keys)
  {
    if keys != [] {
      RemovedTwice(keys[..|keys| - 1], key);
      assert keys == keys[..|keys| - 1] + [keys[|keys| - 1]];
    }
  }

  lemma KeysHit<V>(es: Entries<V>, key: Key, now: int, capacity: nat)
    requires |es| <= capacity && Hit(es, key, now)
    ensures Keys(AfterGet(es, key, now)) == Touched(Keys(es), key, capacity)
    ensures |AfterGet(es, key, now)| <= capacity
  {
    var e := Find(es, key).value;
    KeysWithout(es, key);
    KeysConcat(Without(es, key), [e]);
    assert Keys([e]) == [key];
    RemovedShorter(Keys(es), key);
  }

  lemma KeysMiss<V>(es: Entries<V>, key: Key, now: int, loaded: V, expiresAt: int, capacity: nat)
    requires !Hit(es, key, now)
    ensures Keys(AfterSet(AfterGet(es, key, now), key, loaded, expiresAt, capacity)) == Touched(Keys(es), key, capacity)
  {
    var got := AfterGet(es, key, now);
    assert got == Without(es, key);
    KeysWithout(es, key);
    KeysSet(got, key, loaded, expiresAt, capacity);
    RemovedTwice(Keys(got), key);
  }

  /** Whether an access hits decides the value, never the order of the keys. */
  lemma KeysStep<V>(es: Entries<V>, c: Call<V>, capacity: nat, ttlMs: int)
    requires !c.op.Get? && |es| <= capacity
    ensures Keys(Step(es, c, capacity, ttlMs)) == KeyStep(Keys(es), c.op, capacity)
    ensures |Step(es, c, capacity, ttlMs)| <= capacity
  {
    match c.op
    case Access(key, loaded) =>
      if Hit(es, key, c.now) {
        KeysHit(es, key, c.now, capacity);
      } else {
        KeysMiss(es, key, c.now, loaded, c.now + ttlMs, capacity);
      }
    case Set(key, value) => KeysSet(es, key, value, c.now + ttlMs, capacity);
    case Delete(key) => KeysWithout(es, key); RemovedShorter(Keys(es), key);
    case Clear =>
  }

  // ---------- inclusion ----------

  /** The shorter is how the longer ends. */
  predicate EndsWith(long: seq<Key>, short: seq<Key>) {
    |short| <= |long| && long[|long| - |short|..] == short
  }

  lemma {:induction false} RemovedConcat(a: seq<Key>, b: seq<Key>, key: Key)
    ensures Removed(a + b, key) == Removed(a, key) + Removed(b, key)
  {
    if b == [] {
      assert a + b == a;
      assert Removed(a, key) + [] == Removed(a, key);
    } else {
      var init, last := b[..|b| - 1], b[|b| - 1];
      assert (a + b)[..|a + b| - 1] == a + init;
      RemovedConcat(a, init, key);
      Assoc(Removed(a, key), Removed(init, key), if last == key then [] else [last]);
    }
  }

  lemma NewestEnds(long: seq<Key>, short: seq<Key>, m: nat, n: nat)
    requires EndsWith(long, short) && m <= n
    ensures EndsWith(Newest(long, n), Newest(short, m))
  {
    assert long == long[..|long| - |short|] + short;
  }

  lemma KeyStepEnds<V>(long: seq<Key>, short: seq<Key>, op: Op<V>, m: nat, n: nat)
    requires EndsWith(long, short) && m <= n && !op.Get?
    ensures EndsWith(KeyStep(long, op, n), KeyStep(short, op, m))
  {
    if !op.Clear? {
      var cold := long[..|long| - |short|];
      assert long == cold + short;
      RemovedConcat(cold, short, op.key);
      assert EndsWith(Removed(long, op.key), Removed(short, op.key));
      if !op.Delete? {
        var l, s := Removed(long, op.key) + [op.key], Removed(short, op.key) + [op.key];
        Assoc(Removed(cold, op.key), Removed(short, op.key), [op.key]);
        assert EndsWith(l, s);
        NewestEnds(l, s, m, n);
      }
    }
  }

  /** Two caches of capacities m <= n under the same read-through calls at the same times, even
      with different lifetimes: the smaller one's keys in order of recency are always the most
      recent of the larger one's, and neither outgrows its capacity. */
  lemma {:induction false} SmallerIsIncluded<V>(calls: seq<Call<V>>, m: nat, n: nat, ttlM: int, ttlN: int)
    requires m <= n && forall i :: 0 <= i < |calls| ==> !calls[i].op.Get?
    ensures EndsWith(Keys(Run(calls, n, ttlN)), Keys(Run(calls, m, ttlM)))
    ensures |Run(calls, m, ttlM)| <= m && |Run(calls, n, ttlN)| <= n
  {
    if calls != [] {
      var init, c := calls[..|calls| - 1], calls[|calls| - 1];
      SmallerIsIncluded(init, m, n, ttlM, ttlN);
      KeysStep(Run(init, m, ttlM), c, m, ttlM);
      KeysStep(Run(init, n, ttlN), c, n, ttlN);
      KeyStepEnds(Keys(Run(init, n, ttlN)), Keys(Run(init, m, ttlM)), c.op, m, n);
    }
  }

  /** The keys in order of their last use. */
  function Recency<V>(calls: seq<Call<V>>): seq<Key>
    requires forall i :: 0 <= i < |calls| ==> calls[i].op.Access? || calls[i].op.Set?
  {
    if calls == [] then []
    else
      var key := calls[|calls| - 1].op.key;
      Removed(Recency(calls[..|calls| - 1]), key) + [key]
  }

  lemma {:induction false} RemovedDistinct(keys: seq<Key>, key: Key)
    requires Distinct(keys)
    ensures Distinct(Removed(keys, key)) && |Removed(keys, key)| >= |keys| - 1
    ensures forall k :: k in Removed(keys, key) ==> k in keys
  {
    if keys != [] {
      var init, last := keys[..|keys| - 1], keys[|keys| - 1];
      assert keys == init + [last];
      RemovedDistinct(init, key);
      if last == key {
        RemovedTwice(init, key);
        assert Removed(init, key) + [] == Removed(init, key);
      } else {
        assert last !in Removed(init, key);
      }
    }
  }

  lemma NewestConcat<T>(a: seq<T>, b: seq<T>, m: nat)
    requires |b| >= m
    ensures Newest(a + b, m) == Newest(b, m)
  {
  }

  lemma NewestTouched(keys: seq<Key>, key: Key, m: nat)
    requires Distinct(keys)
    ensures Touched(Newest(keys, m), key, m) == Newest(Removed(keys, key) + [key], m)
  {
    if |keys| > m {
      var cold, hot := keys[..|keys| - m], Newest(keys, m);
      assert keys == cold + hot;
      RemovedConcat(cold, hot, key);
      RemovedDistinct(hot, key);
      Assoc(Removed(cold, key), Removed(hot, key), [key]);
      NewestConcat(Removed(cold, key), Removed(hot, key) + [key], m);
    }
  }

  /** Reads through and writes alone: the cache holds exactly the `capacity` keys used last. */
  lemma {:induction false} HoldsTheMostRecent<V>(calls: seq<Call<V>>, capacity: nat, ttlMs: int)
    requires forall i :: 0 <= i < |calls| ==> calls[i].op.Access? || calls[i].op.Set?
    ensures Distinct(Recency(calls)) && Keys(Run(calls, capacity, ttlMs)) == Newest(Recency(calls), capacity)
  {
    if calls != [] {
      var init, c := calls[..|calls| - 1], calls[|calls| - 1];
      HoldsTheMostRecent(init, capacity, ttlMs);
      SmallerIsIncluded(init, capacity, capacity, ttlMs, ttlMs);
      KeysStep(Run(init, capacity, ttlMs), c, capacity, ttlMs);
      NewestTouched(Recency(init), c.op.key, capacity);
      RemovedDistinct(Recency(init), c.op.key);
      RemovedTwice(Recency(init), c.op.key);
    }
  }

  /** A get with no set after its miss is not a read-through. It keeps the inclusion exactly
      when both caches hit or both miss, or the large one alone hits and the small one is left
      with nothing: not where the key is live in the large one only, and not where it has
      expired there while the small one had loaded it again. */
  lemma PlainGetKeepsExactly<V>(large: Entries<V>, small: Entries<V>, key: Key, now: int)
    requires EndsWith(Keys(large), Keys(small))
    ensures EndsWith(Keys(AfterGet(large, key, now)), Keys(AfterGet(small, key, now))) <==>
      Hit(large, key, now) == Hit(small, key, now)
      || (Hit(large, key, now) && Removed(Keys(small), key) == [])
  {
    KeysGot(large, key, now);
    KeysGot(small, key, now);
    var cold := Keys(large)[..|large| - |small|];
    assert Keys(large) == cold + Keys(small);
    RemovedConcat(cold, Keys(small), key);
    RemovedTwice(cold, key);
    RemovedTwice(Keys(small), key);
    GetEnds(Removed(cold, key), Removed(Keys(small), key), key, Hit(large, key, now), Hit(small, key, now));
  }

  lemma KeysGot<V>(es: Entries<V>, key: Key, now: int)
    ensures Keys(AfterGet(es, key, now)) == Removed(Keys(es), key) + if Hit(es, key, now) then [key] else []
  {
    KeysWithout(es, key);
    if Hit(es, key, now) {
      KeysConcat(Without(es, key), [Find(es, key).value]);
    } else {
      assert Without(es, key) + [] == Without(es, key);
    }
  }

  lemma GetEnds(cold: seq<Key>, hot: seq<Key>, key: Key, hitLarge: bool, hitSmall: bool)
    requires key !in cold && key !in hot
    ensures EndsWith(cold + hot + (if hitLarge then [key] else []), hot + if hitSmall then [key] else []) <==>
      hitLarge == hitSmall || (hitLarge && hot == [])
  {
    var l, s := cold + hot + (if hitLarge then [key] else []), hot + if hitSmall then [key] else [];
    if hitLarge && !hitSmall && hot != [] {
      assert s[|s| - 1] in cold + hot && l[|l| - 1] == key;
    } else if hitSmall && !hitLarge && |s| <= |l| {
      assert s[|s| - 1] == key && l[|l| - 1] in cold + hot;
    } else if hitLarge && hitSmall {
      Assoc(cold, hot, [key]);
    }
  }

  /** And any two sizes come to it: after more keys than the small cache holds were read, a get
      of the first is a hit in the large cache only. */
  lemma PlainGetCanBreak<V>(calls: seq<Call<V>>, m: nat, n: nat, ttlM: int, ttlN: int)
    requires 1 <= m < n && |calls| == m + 1 && ttlN > 0
    requires forall i :: 0 <= i < |calls| ==> calls[i].op.Access? && calls[i].now == 0
    requires forall i, j :: 0 <= i < j < |calls| ==> calls[i].op.key != calls[j].op.key
    ensures !EndsWith(Keys(AfterGet(Run(calls, n, ttlN), calls[0].op.key, 0)),
      Keys(AfterGet(Run(calls, m, ttlM), calls[0].op.key, 0)))
  {
    var key := calls[0].op.key;
    var large, small := Run(calls, n, ttlN), Run(calls, m, ttlM);
    HoldsTheMostRecent(calls, m, ttlM);
    HoldsTheMostRecent(calls, n, ttlN);
    SmallerIsIncluded(calls, m, n, ttlM, ttlN);
    RecencyOfDistinct(calls);
    assert Recency(calls)[0] == key && |Recency(calls)| == m + 1;
    assert Find(large, key).Some?;
    EntriesAreStored(calls, Find(large, key).value, n, ttlN);
    assert key !in Keys(small);
    RemovedTwice(Keys(small), key);
    PlainGetKeepsExactly(large, small, key, 0);
  }

  lemma {:induction false} RecencyOfDistinct<V>(calls: seq<Call<V>>)
    requires forall i :: 0 <= i < |calls| ==> calls[i].op.Access?
    requires forall i, j :: 0 <= i < j < |calls| ==> calls[i].op.key != calls[j].op.key
    ensures |Recency(calls)| == |calls| && forall i :: 0 <= i < |calls| ==> Recency(calls)[i] == calls[i].op.key
  {
    if calls != [] {
      var init, key := calls[..|calls| - 1], calls[|calls| - 1].op.key;
      RecencyOfDistinct(init);
      assert key !in Recency(init);
      RemovedTwice(Recency(init), key);
    }
  }

  // ---------- what a hit returns ----------

  /** Call `i` stored this value of the key, and no later call replaced or dropped it. */
  ghost predicate StoredBy<V>(calls: seq<Call<V>>, i: nat, e: Entry<V>, ttlMs: int) {
    && i < |calls| && calls[i].now + ttlMs == e.expiresAt
    && (calls[i].op == Set(e.key, e.value) || calls[i].op == Access(e.key, e.value))
    && forall j :: i < j < |calls| ==>
         && !calls[j].op.Clear?
         && ((calls[j].op.Set? || calls[j].op.Delete?) ==> calls[j].op.key != e.key)
         && (calls[j].op.Access? && calls[j].op.key == e.key ==> calls[j].now < e.expiresAt)
  }

  lemma {:induction false} FindFirstOnly<V>(es: Entries<V>, key: Key, e: Entry<V>)
    requires e in Without(es, key)
    ensures e in es && e.key != key
  {
    if es != [] && e in Without(es[..|es| - 1], key) { FindFirstOnly(es[..|es| - 1], key, e); }
  }

  /** An entry a call did not store was there before, and was live if the call read it. */
  lemma StaysOrMoves<V>(es: Entries<V>, c: Call<V>, e: Entry<V>, capacity: nat, ttlMs: int)
    requires e in Step(es, c, capacity, ttlMs)
    requires !((c.op == Set(e.key, e.value) || c.op == Access(e.key, e.value)) && c.now + ttlMs == e.expiresAt)
    ensures e in es && !c.op.Clear?
    ensures (c.op.Set? || c.op.Delete?) ==> c.op.key != e.key
    ensures c.op.Access? && c.op.key == e.key ==> c.now < e.expiresAt
  {
    if !c.op.Clear? {
      var key := c.op.key;
      if e in Without(es, key) { FindFirstOnly(es, key, e); }
      if c.op.Access? && !Hit(es, key, c.now) {
        var got := AfterGet(es, key, c.now);
        assert got == Without(es, key);
        if e in Without(got, key) { FindFirstOnly(got, key, e); }
      }
    }
  }

  lemma StoredBySnoc<V>(init: seq<Call<V>>, c: Call<V>, i: nat, e: Entry<V>, ttlMs: int)
    requires StoredBy(init, i, e, ttlMs)
    requires !c.op.Clear? && ((c.op.Set? || c.op.Delete?) ==> c.op.key != e.key)
    requires c.op.Access? && c.op.key == e.key ==> c.now < e.expiresAt
    ensures StoredBy(init + [c], i, e, ttlMs)
  {
  }

  lemma StoredByLast<V>(init: seq<Call<V>>, c: Call<V>, e: Entry<V>, ttlMs: int)
    requires (c.op == Set(e.key, e.value) || c.op == Access(e.key, e.value)) && c.now + ttlMs == e.expiresAt
    ensures StoredBy(init + [c], |init|, e, ttlMs)
  {
  }

  /** Every entry is what some call stored, and nothing has touched it since. */
  lemma {:induction false} EntriesAreStored<V>(calls: seq<Call<V>>, e: Entry<V>, capacity: nat, ttlMs: int)
    requires e in Run(calls, capacity, ttlMs)
    ensures exists i: nat :: StoredBy(calls, i, e, ttlMs)
  {
    var init, c := calls[..|calls| - 1], calls[|calls| - 1];
    assert calls == init + [c];
    if (c.op == Set(e.key, e.value) || c.op == Access(e.key, e.value)) && c.now + ttlMs == e.expiresAt {
      StoredByLast(init, c, e, ttlMs);
    } else {
      StaysOrMoves(Run(init, capacity, ttlMs), c, e, capacity, ttlMs);
      EntriesAreStored(init, e, capacity, ttlMs);
      var i: nat :| StoredBy(init, i, e, ttlMs);
      StoredBySnoc(init, c, i, e, ttlMs);
    }
  }

  /** What is held under a key is what was last stored there, and a get hits exactly while that is
      less than the lifetime ago. */
  lemma HitIsTheLastStored<V>(calls: seq<Call<V>>, key: Key, now: int, capacity: nat, ttlMs: int) returns (i: nat)
    requires Find(Run(calls, capacity, ttlMs), key).Some?
    ensures StoredBy(calls, i, Find(Run(calls, capacity, ttlMs), key).value, ttlMs)
    ensures Hit(Run(calls, capacity, ttlMs), key, now) <==> now < calls[i].now + ttlMs
  {
    var e := Find(Run(calls, capacity, ttlMs), key).value;
    EntriesAreStored(calls, e, capacity, ttlMs);
    i :| StoredBy(calls, i, e, ttlMs);
  }
}
