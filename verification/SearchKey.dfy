/** The parameters of a search, the cache key they are given, and the listings they let pass. */
module SearchKey {
  import opened Text
  import A = Amounts
  import J = CanonicalJson
  import JT = CanonicalJsonTheorems

  const COMMA: CodeUnit := ',' as int
  const SPACE: CodeUnit := ' ' as int

  /** A query-string value: absent, given once, or given several times. */
  datatype Value = Missing | Word(text: Str) | List(texts: seq<Str>)

  datatype Params = Params(
    query: Value, limit: Option<nat>, offset: Option<nat>, cursor: Value, extensions: Option<seq<Str>>,
    kind: Value, payTo: Value, scheme: Value, network: Value)

  // ---------- the key ----------

  function Trimmed(v: Value): Str { if v.Word? then Trim(v.text) else [] }

  /** The query as the key has it; lower-casing is outside. */
  function Asked(lower: Str -> Str, v: Value): Str { if v.Word? then lower(Trim(v.text)) else [] }

  function Limit(p: Params): nat { if p.limit.Some? then p.limit.value else 20 }

  function Offset(p: Params): nat { if p.offset.Some? then p.offset.value else 0 }

  function Cursor(p: Params): Str { if p.cursor.Word? then p.cursor.text else [] }

  function Extensions(p: Params): seq<Str> { if p.extensions.Some? then p.extensions.value else [] }

  function Joined(p: Params): Str { Join(Sort(Extensions(p)), COMMA) }

  function NumberOf(n: nat): J.Value {
    var t := A.DecimalText(n);
    assert t[0] in t;
    J.Number(t)
  }

  function Slots(lower: Str -> Str, p: Params): seq<J.Slot> {
    [J.Item(J.String(Asked(lower, p.query))), J.Item(NumberOf(Limit(p))), J.Item(NumberOf(Offset(p))),
     J.Item(J.String(Cursor(p))), J.Item(J.String(Joined(p))), J.Item(J.String(Trimmed(p.kind))),
     J.Item(J.String(Trimmed(p.payTo))), J.Item(J.String(Trimmed(p.scheme))), J.Item(J.String(Trimmed(p.network)))]
  }

  /** searchCacheKey: JSON.stringify prints an array of strings and numbers as canonicalize does. */
  function SearchCacheKey(lower: Str -> Str, p: Params): Str {
    var text := J.Canon(J.Array(Slots(lower, p)));
    if text.Some? then text.value else []
  }

  // ---------- when keys agree ----------

  function NormalExtensions(p: Params): seq<Str> {
    if Joined(p) == [] then [] else Split(Joined(p), COMMA)
  }

  /** The parameters as their key has them, but for the query. */
  function Normal(p: Params): Params {
    Params(p.query, Some(Limit(p)), Some(Offset(p)), Word(Cursor(p)), Some(NormalExtensions(p)),
           Word(Trimmed(p.kind)), Word(Trimmed(p.payTo)), Word(Trimmed(p.scheme)), Word(Trimmed(p.network)))
  }

  lemma NumberOfInjective(m: nat, n: nat)
    requires NumberOf(m) == NumberOf(n)
    ensures m == n
  {
    A.DigitsOfText(m);
    A.DigitsOfText(n);
  }

  predicate PlainSlot(slot: J.Slot) { slot.Item? && (slot.v.String? || slot.v.Number?) }

  predicate Plain(slots: seq<J.Slot>) { forall i :: 0 <= i < |slots| ==> PlainSlot(slots[i]) }

  lemma {:induction false} PlainPrints(slots: seq<J.Slot>)
    requires Plain(slots)
    ensures J.CanonSlots(slots).Some?
  {
    if slots != [] { PlainPrints(slots[1..]); }
  }

  lemma {:induction false} PlainMeans(a: seq<J.Slot>, b: seq<J.Slot>)
    requires Plain(a) && Plain(b) && J.SlotMeanings(a) == J.SlotMeanings(b)
    ensures a == b
  {
    assert |a| == |b|;
    if a != [] {
      var m, n := J.SlotMeanings(a), J.SlotMeanings(b);
      assert m[0] == J.MeaningOf(a[0].v) && n[0] == J.MeaningOf(b[0].v) && PlainSlot(a[0]) && PlainSlot(b[0]);
      assert m[1..] == J.SlotMeanings(a[1..]) && n[1..] == J.SlotMeanings(b[1..]);
      PlainMeans(a[1..], b[1..]);
      assert a == [a[0]] + a[1..] && b == [b[0]] + b[1..];
    }
  }

  /** Arrays of strings and numbers print alike only when they are the same. */
  lemma PlainArrays(a: seq<J.Slot>, b: seq<J.Slot>)
    requires Plain(a) && Plain(b)
    ensures J.Canon(J.Array(a)).Some? && (J.Canon(J.Array(a)) == J.Canon(J.Array(b)) ==> a == b)
  {
    PlainPrints(a);
    PlainPrints(b);
    JT.CanonicalIffSameMeaning(J.Array(a), J.Array(b));
    if J.Canon(J.Array(a)) == J.Canon(J.Array(b)) { PlainMeans(a, b); }
  }

  lemma SlotsPlain(lower: Str -> Str, p: Params)
    ensures Plain(Slots(lower, p))
  {
  }

  lemma KeyIsSlots(lower: Str -> Str, p: Params, q: Params)
    ensures SearchCacheKey(lower, p) == SearchCacheKey(lower, q) <==> Slots(lower, p) == Slots(lower, q)
  {
    SlotsPlain(lower, p);
    SlotsPlain(lower, q);
    PlainArrays(Slots(lower, p), Slots(lower, q));
    PlainArrays(Slots(lower, q), Slots(lower, p));
  }

  /** The joined text determines its pieces, and they it. */
  lemma JoinedAgree(p: Params, q: Params)
    ensures Joined(p) == Joined(q) <==> NormalExtensions(p) == NormalExtensions(q)
  {
    JoinSplit(Joined(p), COMMA);
    JoinSplit(Joined(q), COMMA);
  }

  /** Two searches share a key exactly when they ask the same query, up to case and padding, for
      the same page under the same normal filters. */
  lemma KeysAgreeExactly(lower: Str -> Str, p: Params, q: Params)
    ensures SearchCacheKey(lower, p) == SearchCacheKey(lower, q) <==>
      Asked(lower, p.query) == Asked(lower, q.query) && Normal(p) == Normal(q).(query := p.query)
  {
    KeyIsSlots(lower, p, q);
    JoinedAgree(p, q);
    var a, b := Slots(lower, p), Slots(lower, q);
    if a == b {
      assert a[1] == b[1] && a[2] == b[2];
      NumberOfInjective(Limit(p), Limit(q));
      NumberOfInjective(Offset(p), Offset(q));
      assert a[0] == b[0] && a[3] == b[3] && a[4] == b[4];
      assert a[5] == b[5] && a[6] == b[6] && a[7] == b[7] && a[8] == b[8];
    }
  }

  /** A number given, or absent and so the default. */
  predicate Means(o: Option<nat>, n: nat, default: nat) { if o.Some? then o.value == n else n == default }

  /** Spellings of one question share its key: a limit of 20, an offset of 0, an empty filter or cursor
      may be left out, extensions come in any order, texts in any padding, the query in any case. */
  lemma SpellingsShareKey(lower: Str -> Str, p: Params, q: Params, limit: nat, offset: nat)
    requires Asked(lower, p.query) == Asked(lower, q.query)
    requires Means(p.limit, limit, 20) && Means(q.limit, limit, 20)
    requires Means(p.offset, offset, 0) && Means(q.offset, offset, 0)
    requires p.cursor == q.cursor || {p.cursor, q.cursor} <= {Missing, Word([])}
    requires multiset(Extensions(p)) == multiset(Extensions(q))
    requires Trimmed(p.kind) == Trimmed(q.kind) && Trimmed(p.payTo) == Trimmed(q.payTo)
    requires Trimmed(p.scheme) == Trimmed(q.scheme) && Trimmed(p.network) == Trimmed(q.network)
    ensures SearchCacheKey(lower, p) == SearchCacheKey(lower, q)
  {
    assert p.cursor in {p.cursor, q.cursor} && q.cursor in {p.cursor, q.cursor};
    SortForgetsOrder(Extensions(p), Extensions(q));
    KeyIsSlots(lower, p, q);
  }

  // ---------- the filters ----------

  /** What the filters look at. */
  datatype Item = Item(
    kind: Option<Str>, payTo: Option<Str>, scheme: Option<Str>, network: Option<Str>, extensions: set<Str>)

  /** JavaScript truth. */
  predicate Given(v: Value) { v.List? || (v.Word? && v.text != []) }

  predicate Admits(v: Value, property: Option<Str>) { Given(v) ==> v.Word? && property == Some(v.text) }

  /** _applyCommonFilters, of one listing. */
  predicate Passes(p: Params, it: Item) {
    && Admits(p.kind, it.kind) && Admits(p.payTo, it.payTo)
    && Admits(p.scheme, it.scheme) && Admits(p.network, it.network)
    && (p.extensions.Some? ==> forall e :: e in p.extensions.value ==> e in it.extensions)
  }

  function Scope(v: Value): Option<Str> { if v.Word? && v.text != [] then Some(v.text) else None }

  function ExtensionSet(p: Params): set<Str> { set e | e in Extensions(p) }

  /** The weakest listing the filters let pass; None when they let none pass. */
  function FilterOf(p: Params): Option<Item> {
    if p.kind.List? || p.payTo.List? || p.scheme.List? || p.network.List? then None
    else Some(Item(Scope(p.kind), Scope(p.payTo), Scope(p.scheme), Scope(p.network), ExtensionSet(p)))
  }

  ghost predicate FilterAlike(p: Params, q: Params) { forall it: Item :: Passes(p, it) <==> Passes(q, it) }

  lemma PassesWeakest(p: Params, it: Item)
    requires FilterOf(p).Some?
    ensures var f := FilterOf(p).value; Passes(p, it) <==>
      (&& (f.kind == None || f.kind == it.kind) && (f.payTo == None || f.payTo == it.payTo)
       && (f.scheme == None || f.scheme == it.scheme) && (f.network == None || f.network == it.network)
       && f.extensions <= it.extensions)
  {
    assert ExtensionSet(p) <= it.extensions <==> forall e :: e in Extensions(p) ==> e in it.extensions;
  }

  lemma NonePass(p: Params)
    requires FilterOf(p).None?
    ensures forall it: Item :: !Passes(p, it)
  {
  }

  /** Filters let the same listings pass exactly when their weakest listings agree. */
  lemma FiltersAlikeExactly(p: Params, q: Params)
    ensures FilterAlike(p, q) <==> FilterOf(p) == FilterOf(q)
  {
    match (FilterOf(p), FilterOf(q))
    case (None, None) => NonePass(p); NonePass(q);
    case (Some(f), None) => NonePass(q); PassesWeakest(p, f);
    case (None, Some(g)) => NonePass(p); PassesWeakest(q, g);
    case (Some(f), Some(g)) =>
      if f == g {
        forall it: Item ensures Passes(p, it) <==> Passes(q, it) {
          PassesWeakest(p, it);
          PassesWeakest(q, it);
        }
      } else {
        PassesWeakest(p, f);
        PassesWeakest(q, f);
        PassesWeakest(p, g);
        PassesWeakest(q, g);
        assert Passes(p, f) && Passes(q, g) && !(Passes(q, f) && Passes(p, g));
      }
  }

  // ---------- when a key tells the filters ----------

  predicate TidyValue(v: Value) { v.Missing? || (v.Word? && Trim(v.text) == v.text) }

  /** No scoped value is padded or given twice, no extension has a comma or is the only one and empty. */
  predicate Tidy(p: Params) {
    && TidyValue(p.kind) && TidyValue(p.payTo) && TidyValue(p.scheme) && TidyValue(p.network)
    && (forall e :: e in Extensions(p) ==> COMMA !in e) && Extensions(p) != [[]]
  }

  lemma JoinEmpty(parts: seq<Str>, sep: CodeUnit)
    ensures Join(parts, sep) == [] <==> parts == [] || parts == [[]]
  {
  }

  lemma SortedAlone(exts: seq<Str>)
    ensures Sort(exts) == [] <==> exts == []
    ensures Sort(exts) == [[]] <==> exts == [[]]
  {
    SortElements(exts);
    if Sort(exts) == [[]] {
      assert [] in Sort(exts) && [] in exts && |exts| == 1;
    }
    if exts == [[]] {
      assert exts[1..] == [];
    }
  }

  lemma NormalExtensionsExactly(p: Params)
    ensures ExtensionSet(Normal(p)) == ExtensionSet(p) <==>
      (forall e :: e in Extensions(p) ==> COMMA !in e) && Extensions(p) != [[]]
  {
    var exts := Extensions(p);
    var sorted := Sort(exts);
    SortElements(exts);
    SortedAlone(exts);
    JoinEmpty(sorted, COMMA);
    SplitPieces(Joined(p), COMMA);
    if e :| e in exts && COMMA in e {
      assert e in ExtensionSet(p) && e !in NormalExtensions(p);
    } else if exts == [[]] {
      assert [] in ExtensionSet(p) && NormalExtensions(p) == [];
    } else if exts != [] {
      SplitJoin(sorted, COMMA);
    }
  }

  lemma TidyScope(v: Value)
    ensures !v.List? && Scope(Word(Trimmed(v))) == Scope(v) <==> TidyValue(v)
  {
  }

  /** Parameters filter as their key says exactly when they are tidy. */
  lemma NormalFiltersExactly(p: Params)
    ensures FilterAlike(p, Normal(p)) <==> Tidy(p)
  {
    FiltersAlikeExactly(p, Normal(p));
    NormalExtensionsExactly(p);
    TidyScope(p.kind);
    TidyScope(p.payTo);
    TidyScope(p.scheme);
    TidyScope(p.network);
  }

  /** So tidy searches that share a key filter alike. */
  lemma TidyFilterAlike(lower: Str -> Str, p: Params, q: Params)
    requires Tidy(p) && Tidy(q) && SearchCacheKey(lower, p) == SearchCacheKey(lower, q)
    ensures FilterAlike(p, q) && FilterOf(p) == FilterOf(q)
  {
    KeysAgreeExactly(lower, p, q);
    NormalFiltersExactly(p);
    NormalFiltersExactly(q);
    assert FilterOf(Normal(p)) == FilterOf(Normal(q));
    FiltersAlikeExactly(p, Normal(p));
    FiltersAlikeExactly(q, Normal(q));
    FiltersAlikeExactly(p, q);
  }

  // ---------- every key is shared ----------

  function Spaces(n: nat): Str { seq(n, _ => SPACE) }

  /** The same search with its network padded. */
  function Padded(p: Params, n: nat): Params {
    p.(network := Word(Spaces(n) + if p.network.Word? then p.network.text else []))
  }

  lemma {:induction false} TrimPadding(n: nat, s: Str)
    ensures Trim(Spaces(n) + s) == Trim(s)
  {
    if n == 0 {
      assert Spaces(n) + s == s;
    } else {
      var padded := Spaces(n) + s;
      assert padded[1..] == Spaces(n - 1) + s && padded[0] == SPACE;
      TrimPadding(n - 1, s);
    }
  }

  /** Padding keeps the key and lets no listing pass whose network is shorter than it. */
  lemma PaddingKeepsKey(lower: Str -> Str, p: Params, n: nat)
    requires n >= 1
    ensures SearchCacheKey(lower, Padded(p, n)) == SearchCacheKey(lower, p)
    ensures forall it: Item :: (it.network.Some? ==> |it.network.value| < n) ==> !Passes(Padded(p, n), it)
  {
    TrimPadding(n, if p.network.Word? then p.network.text else []);
    assert Trim([]) == [];
    KeysAgreeExactly(lower, Padded(p, n), p);
  }
}
