/** What the parser accepts, and that building and parsing undo each other. */
module Sep7Theorems {
  import opened Text
  import opened PercentCoding
  import opened Amounts
  import opened Sep7

  // ---------- exactly which queries are read without a problem ----------

  /** Property and value of a pair that is well-formed on its own. */
  function Good(pair: Str): Option<(Prop, Str)> {
    var eq := Position(pair, EQUALS);
    if eq == |pair| || eq == 0 then None
    else
      var raw := pair[eq + 1..];
      match PropOf(pair[..eq])
      case None => None
      case Some(prop) =>
        if raw == [] || PLUS in raw then None
        else match Decode(raw)
          case None => None
          case Some(value) => Some((prop, value))
  }

  predicate AllGood(pairs: seq<Str>) { forall i :: 0 <= i < |pairs| ==> Good(pairs[i]).Some? }

  /** Every pair is good and no property comes twice. */
  predicate Clean(pairs: seq<Str>) {
    AllGood(pairs)
    && forall i, j :: 0 <= i < j < |pairs| ==> Good(pairs[i]).value.0 != Good(pairs[j]).value.0
  }

  ghost predicate Holds(pairs: seq<Str>, params: Params)
    requires AllGood(pairs)
  {
    && (forall i :: 0 <= i < |pairs| ==>
          Good(pairs[i]).value.0 in params && params[Good(pairs[i]).value.0] == Good(pairs[i]).value.1)
    && (forall p :: p in params ==> exists i :: 0 <= i < |pairs| && Good(pairs[i]).value.0 == p)
  }

  /** One step of the loop: a good pair of a new property is recorded, anything else is reported. */
  lemma ReadPairIs(r: Reading, pair: Str)
    ensures match Good(pair)
      case Some((prop, value)) =>
        if prop in r.params then ReadPair(r, pair) == Report(r, Duplicate(pair[..Position(pair, EQUALS)]))
        else ReadPair(r, pair) == r.(params := r.params[prop := value])
      case None => |ReadPair(r, pair).problems| == |r.problems| + 1
  {
  }

  lemma CleanSnoc(init: seq<Str>, last: Str)
    ensures Clean(init + [last]) <==>
      Clean(init) && Good(last).Some? && forall i :: 0 <= i < |init| ==> Good(init[i]).value.0 != Good(last).value.0
  {
    var pairs := init + [last];
    assert forall i :: 0 <= i < |init| ==> pairs[i] == init[i];
    assert pairs[|init|] == last;
  }

  lemma HoldsSnoc(init: seq<Str>, last: Str, params: Params)
    requires AllGood(init) && Holds(init, params) && Good(last).Some? && Good(last).value.0 !in params
    ensures AllGood(init + [last])
    ensures Holds(init + [last], params[Good(last).value.0 := Good(last).value.1])
  {
    var pairs, q := init + [last], params[Good(last).value.0 := Good(last).value.1];
    assert forall i :: 0 <= i < |init| ==> pairs[i] == init[i];
    assert pairs[|init|] == last;
    forall p | p in q ensures exists i :: 0 <= i < |pairs| && Good(pairs[i]).value.0 == p {
      if p in params {
        var i :| 0 <= i < |init| && Good(init[i]).value.0 == p;
        assert Good(pairs[i]).value.0 == p;
      }
    }
  }

  lemma {:induction false} ReadsExactlyClean(pairs: seq<Str>)
    ensures ReadPairs(pairs).problems == [] <==> Clean(pairs)
    ensures Clean(pairs) ==> Holds(pairs, ReadPairs(pairs).params)
  {
    if pairs != [] {
      var init, last := pairs[..|pairs| - 1], pairs[|pairs| - 1];
      assert pairs == init + [last];
      ReadsExactlyClean(init);
      CleanSnoc(init, last);
      var r := ReadPairs(init);
      ReadPairIs(r, last);
      if Clean(init) && Good(last).Some? {
        assert Good(last).value.0 in r.params <==>
          exists i :: 0 <= i < |init| && Good(init[i]).value.0 == Good(last).value.0;
        if Good(last).value.0 !in r.params { HoldsSnoc(init, last, r.params); }
      }
    }
  }

  /** The parameters do not depend on the order of the pairs. */
  lemma AnyOrder(a: seq<Str>, b: seq<Str>)
    requires multiset(a) == multiset(b) && Clean(a)
    ensures Clean(b) && ReadPairs(b).params == ReadPairs(a).params
  {
    CleanAnyOrder(a, b);
    ParamsWithin(a, b);
    ParamsWithin(b, a);
    WithinBoth(ReadPairs(a).params, ReadPairs(b).params);
  }

  ghost predicate Within(p: Params, q: Params) { forall x :: x in p ==> x in q && q[x] == p[x] }

  lemma WithinBoth(p: Params, q: Params)
    requires Within(p, q) && Within(q, p)
    ensures p == q
  {
  }

  lemma CleanAnyOrder(a: seq<Str>, b: seq<Str>)
    requires multiset(a) == multiset(b) && Clean(a)
    ensures Clean(b)
  {
    SameElements(a, b);
    forall j | 0 <= j < |b| ensures Good(b[j]).Some? {
      assert b[j] in b && b[j] in a;
    }
    forall i, j | 0 <= i < j < |b| ensures Good(b[i]).value.0 != Good(b[j]).value.0 {
      if b[i] == b[j] {
        Twice(b, i, j);
        Once(a, b[i]);
      }
      assert b[i] in a && b[j] in a;
      var k :| 0 <= k < |a| && a[k] == b[i];
      var l :| 0 <= l < |a| && a[l] == b[j];
      assert k < l || l < k;
    }
  }

  lemma ParamsWithin(a: seq<Str>, b: seq<Str>)
    requires Clean(a) && Clean(b) && multiset(a) == multiset(b)
    ensures Within(ReadPairs(a).params, ReadPairs(b).params)
  {
    SameElements(a, b);
    ReadsExactlyClean(a);
    ReadsExactlyClean(b);
    var p, q := ReadPairs(a).params, ReadPairs(b).params;
    forall x | x in p ensures x in q && q[x] == p[x] {
      var i :| 0 <= i < |a| && Good(a[i]).value.0 == x;
      assert a[i] in a && a[i] in b;
      var j :| 0 <= j < |b| && b[j] == a[i];
      assert Good(b[j]).value.0 == x;
    }
  }

  lemma SameElements(a: seq<Str>, b: seq<Str>)
    requires multiset(a) == multiset(b)
    ensures forall x :: x in a <==> x in b
  {
    forall x ensures x in a <==> x in b {
      assert x in a <==> x in multiset(a);
      assert x in b <==> x in multiset(b);
    }
  }

  lemma Twice(b: seq<Str>, i: nat, j: nat)
    requires i < j < |b| && b[i] == b[j]
    ensures multiset(b)[b[i]] >= 2
  {
    assert b == b[..j] + b[j..];
    assert b[i] == b[..j][i] && b[i] in b[..j];
    assert b[j] == b[j..][0] && b[j] in b[j..];
    assert multiset(b) == multiset(b[..j]) + multiset(b[j..]);
  }

  lemma {:induction false} Once(a: seq<Str>, x: Str)
    requires Clean(a)
    ensures multiset(a)[x] <= 1
  {
    if a != [] {
      var n := |a| - 1;
      var init := a[..n];
      assert a == init + [a[n]];
      assert forall i :: 0 <= i < n ==> init[i] == a[i];
      Once(init, x);
      forall i | 0 <= i < n ensures init[i] != a[n] {
        assert Good(a[i]).value.0 != Good(a[n]).value.0;
      }
      assert a[n] !in init;
    }
  }

  /** Every value the parser returns is non-empty. */
  lemma ParsedValuesNonEmpty(c: Checks, uri: Str, prop: Prop)
    requires Parse(c, uri).Parsed? && prop in Parse(c, uri).params
    ensures Parse(c, uri).params[prop] != []
  {
    var pairs := Split(Query(uri), AMPERSAND);
    ReadsExactlyClean(pairs);
    var i :| 0 <= i < |pairs| && Good(pairs[i]).value.0 == prop;
    DecodeNonEmpty(pairs[i][Position(pairs[i], EQUALS) + 1..]);
  }

  // ---------- a built pair reads back ----------

  lemma KeysAreNames(p: Prop)
    ensures PropOf(Key(p)) == Some(p)
    ensures Key(p) != [] && EQUALS !in Key(p) && AMPERSAND !in Key(p) && HASH !in Key(p)
  {
    OrderIsComplete();
    NameIn(ORDER, p);
    KeyUnits(p);
  }

  lemma KeysDiffer(p: Prop, q: Prop)
    requires Key(p) == Key(q)
    ensures p == q
  {
    assert |Key(p)| == |Key(q)|;
    assert Key(MemoType)[0] == 'm' as int && Key(Signature)[0] == 's' as int;
  }

  lemma {:induction false} NameIn(props: seq<Prop>, p: Prop)
    requires p in props
    ensures PropIn(props, Key(p)) == Some(p)
  {
    if Key(props[0]) == Key(p) {
      KeysDiffer(props[0], p);
    } else {
      assert props == [props[0]] + props[1..];
      NameIn(props[1..], p);
    }
  }

  lemma AsciiUnits(s: string)
    requires forall i :: 0 <= i < |s| ==> 'a' <= s[i] <= 'z' || s[i] == '_'
    ensures EQUALS !in Ascii(s) && AMPERSAND !in Ascii(s) && HASH !in Ascii(s)
  {
  }

  lemma KeyUnits(p: Prop)
    ensures Key(p) != [] && EQUALS !in Key(p) && AMPERSAND !in Key(p) && HASH !in Key(p)
  {
    match p
    case Destination => AsciiUnits("destination");
    case Amount => AsciiUnits("amount");
    case AssetCode => AsciiUnits("asset_code");
    case AssetIssuer => AsciiUnits("asset_issuer");
    case Memo => AsciiUnits("memo");
    case MemoType => AsciiUnits("memo_type");
    case Callback => AsciiUnits("callback");
    case Msg => AsciiUnits("msg");
    case NetworkPassphrase => AsciiUnits("network_passphrase");
    case OriginDomain => AsciiUnits("origin_domain");
    case Signature => AsciiUnits("signature");
  }

  lemma PositionAfter(a: Str, u: CodeUnit, b: Str)
    requires u !in a
    ensures Position(a + [u] + b, u) == |a| && (a + [u] + b)[..|a|] == a && (a + [u] + b)[|a| + 1..] == b
  {
    var s := a + [u] + b;
    assert s[|a|] == u;
    forall j | 0 <= j < |a| ensures s[j] != u {
      assert s[j] == a[j] && a[j] in a;
    }
  }

  lemma NoneIn(a: Str, b: Str, u: CodeUnit)
    requires u !in a && u !in b && u != EQUALS
    ensures u !in a + [EQUALS] + b
  {
  }

  lemma GoodPair(prop: Prop, text: Str, value: Str)
    requires PLUS !in text && Decode(text) == Some(value)
    ensures Good(Key(prop) + [EQUALS] + text) == if text == [] then None else Some((prop, value))
  {
    KeysAreNames(prop);
    PositionAfter(Key(prop), EQUALS, text);
  }

  /** A built pair has no separator in it, and reads back unless its value is empty. */
  lemma BuiltPair(p: Params, prop: Prop)
    requires prop in p && Pair(p, prop).Some?
    ensures var pair := Pair(p, prop).value;
      && AMPERSAND !in pair && HASH !in pair
      && (if p[prop] == [] then Good(pair).None? else Good(pair) == Some((prop, p[prop])))
  {
    var text := Encode(p[prop]).value;
    KeysAreNames(prop);
    EncodedUnits(p[prop]);
    NoneIn(Key(prop), text, AMPERSAND);
    NoneIn(Key(prop), text, HASH);
    DecodeEncode(p[prop]);
    GoodPair(prop, text, p[prop]);
    assert text == [] ==> p[prop] == [];
  }

  lemma {:induction false} BuiltPairs(p: Params, props: seq<Prop>)
    requires Pairs(p, props).Some? && Distinct(props)
    ensures var pairs := Pairs(p, props).value;
      && (forall x :: x in pairs ==> AMPERSAND !in x && HASH !in x)
      && (forall x :: x in pairs ==> exists prop :: prop in props && prop in p && Pair(p, prop) == Some(x))
      && (forall prop :: prop in props && prop in p ==> Pair(p, prop).Some? && Pair(p, prop).value in pairs)
  {
    if props != [] {
      var rest := props[1..];
      assert props == [props[0]] + rest;
      assert forall i, j :: 0 <= i < j < |rest| ==> rest[i] == props[i + 1] && rest[j] == props[j + 1];
      BuiltPairs(p, rest);
      if props[0] in p { BuiltPair(p, props[0]); }
    }
  }

  /** Without empty values the built pairs are clean. */
  lemma {:induction false} BuiltPairsClean(p: Params, props: seq<Prop>)
    requires Pairs(p, props).Some? && Distinct(props)
    requires forall prop :: prop in props && prop in p ==> p[prop] != []
    ensures Clean(Pairs(p, props).value)
  {
    if props != [] {
      var rest := props[1..];
      assert props == [props[0]] + rest;
      assert forall i, j :: 0 <= i < j < |rest| ==> rest[i] == props[i + 1] && rest[j] == props[j + 1];
      BuiltPairsClean(p, rest);
      if props[0] in p {
        BuiltPair(p, props[0]);
        assert props[0] !in rest;
        OtherProps(p, rest, props[0]);
        CleanCons(Pair(p, props[0]).value, Pairs(p, rest).value);
      }
    }
  }

  lemma OtherProps(p: Params, props: seq<Prop>, other: Prop)
    requires Pairs(p, props).Some? && Distinct(props) && other !in props
    requires forall prop :: prop in props && prop in p ==> p[prop] != []
    ensures forall x :: x in Pairs(p, props).value ==> Good(x).Some? && Good(x).value.0 != other
  {
    BuiltPairs(p, props);
    forall x | x in Pairs(p, props).value ensures Good(x).Some? && Good(x).value.0 != other {
      var prop :| prop in props && prop in p && Pair(p, prop) == Some(x);
      BuiltPair(p, prop);
    }
  }

  lemma CleanCons(first: Str, pairs: seq<Str>)
    requires Clean(pairs) && Good(first).Some?
    requires forall x :: x in pairs ==> Good(x).Some? && Good(x).value.0 != Good(first).value.0
    ensures Clean([first] + pairs)
  {
    var all := [first] + pairs;
    assert forall i :: 0 < i < |all| ==> all[i] == pairs[i - 1];
    forall i, j | 0 <= i < j < |all| ensures Good(all[i]).value.0 != Good(all[j]).value.0 {
      assert all[j] in pairs;
    }
  }

  lemma OrderIsComplete()
    ensures Distinct(ORDER) && forall prop: Prop :: prop in ORDER
  {
    forall prop: Prop ensures prop in ORDER {
      match prop
      case Destination => assert ORDER[0] == prop;
      case Amount => assert ORDER[1] == prop;
      case AssetCode => assert ORDER[2] == prop;
      case AssetIssuer => assert ORDER[3] == prop;
      case Memo => assert ORDER[4] == prop;
      case MemoType => assert ORDER[5] == prop;
      case Callback => assert ORDER[6] == prop;
      case Msg => assert ORDER[7] == prop;
      case NetworkPassphrase => assert ORDER[8] == prop;
      case OriginDomain => assert ORDER[9] == prop;
      case Signature => assert ORDER[10] == prop;
    }
  }

  // ---------- the whole URI ----------

  lemma {:induction false} JoinUnits(parts: seq<Str>, u: CodeUnit)
    requires u != AMPERSAND && forall p :: p in parts ==> u !in p
    ensures u !in Join(parts, AMPERSAND)
  {
    if |parts| > 1 {
      assert parts == [parts[0]] + parts[1..];
      JoinUnits(parts[1..], u);
    }
  }

  lemma JoinNonEmpty(parts: seq<Str>)
    requires parts != [] && forall p :: p in parts ==> p != []
    ensures Join(parts, AMPERSAND) != []
  {
    assert parts[0] in parts;
  }

  /** The fixed front of a URI leaves the query as it was built. */
  lemma BuiltShape(query: Str)
    requires query != [] && HASH !in query && |query| + 16 <= MAX_URI_LENGTH
    ensures var uri := SCHEME + PAY + [QUESTION] + query; Shape(uri).None? && Query(uri) == query
  {
    var uri := SCHEME + PAY + [QUESTION] + query;
    var rest := uri[|SCHEME|..];
    assert uri[..|SCHEME|] == SCHEME && rest == PAY + [QUESTION] + query;
    PositionAfter(PAY, QUESTION, query);
    assert Lower(SCHEME) == SCHEME;
    assert HASH !in SCHEME && HASH !in PAY;
  }

  /** buildPayUri then parsePayUri: exactly the URIs of at most 8192 units whose values are
      all non-empty come back, and they come back as they went in. */
  lemma RoundTripExactly(c: Checks, p: Params)
    requires Build(c, p, []).Built?
    ensures var uri := Build(c, p, []).uri;
      Parse(c, uri) == Parsed(p) <==> |uri| <= MAX_URI_LENGTH && forall prop :: prop in p ==> p[prop] != []
    ensures var parsed := Parse(c, Build(c, p, []).uri); parsed.Parsed? ==> parsed.params == p
  {
    var pairs := Pairs(p, ORDER).value;
    var uri := Build(c, p, []).uri;
    var query := Join(pairs, AMPERSAND);
    assert |SCHEME + PAY + [QUESTION]| == 16;
    BuiltQuery(p, pairs);
    if |uri| <= MAX_URI_LENGTH {
      BuiltShape(query);
      if forall prop :: prop in p ==> p[prop] != [] {
        OrderIsComplete();
        BuiltPairsClean(p, ORDER);
        ReadBack(p, pairs);
        ReadsExactlyClean(pairs);
      } else {
        EmptyReported(p, pairs);
      }
    }
  }

  lemma BuiltQuery(p: Params, pairs: seq<Str>)
    requires Destination in p && Pairs(p, ORDER) == Some(pairs)
    ensures var query := Join(pairs, AMPERSAND);
      query != [] && HASH !in query && Split(query, AMPERSAND) == pairs
  {
    OrderIsComplete();
    BuiltPairs(p, ORDER);
    forall x | x in pairs ensures x != [] {
      var prop :| prop in ORDER && prop in p && Pair(p, prop) == Some(x);
    }
    assert Pair(p, Destination).value in pairs;
    JoinNonEmpty(pairs);
    JoinUnits(pairs, HASH);
    SplitJoin(pairs, AMPERSAND);
  }

  lemma EmptyReported(p: Params, pairs: seq<Str>)
    requires Pairs(p, ORDER) == Some(pairs) && exists prop :: prop in p && p[prop] == []
    ensures ReadPairs(pairs).problems != []
  {
    OrderIsComplete();
    BuiltPairs(p, ORDER);
    var prop :| prop in p && p[prop] == [];
    BuiltPair(p, prop);
    var i :| 0 <= i < |pairs| && pairs[i] == Pair(p, prop).value;
    assert !Clean(pairs);
    ReadsExactlyClean(pairs);
  }

  lemma ReadBack(p: Params, pairs: seq<Str>)
    requires Pairs(p, ORDER) == Some(pairs) && Clean(pairs)
    requires forall prop :: prop in p ==> p[prop] != []
    ensures ReadPairs(pairs).params == p
  {
    OrderIsComplete();
    ReadsExactlyClean(pairs);
    var q := ReadPairs(pairs).params;
    forall prop ensures (prop in p <==> prop in q) && (prop in p ==> p[prop] == q[prop]) {
      if prop in p { BuiltIsRead(p, pairs, q, prop); }
      if prop in q { ReadWasBuilt(p, pairs, q, prop); }
    }
  }

  lemma BuiltIsRead(p: Params, pairs: seq<Str>, q: Params, prop: Prop)
    requires Pairs(p, ORDER) == Some(pairs) && AllGood(pairs) && Holds(pairs, q)
    requires prop in ORDER && prop in p && p[prop] != []
    ensures prop in q && q[prop] == p[prop]
  {
    OrderIsComplete();
    BuiltPairs(p, ORDER);
    BuiltPair(p, prop);
    var i :| 0 <= i < |pairs| && pairs[i] == Pair(p, prop).value;
    assert Good(pairs[i]) == Some((prop, p[prop]));
  }

  lemma ReadWasBuilt(p: Params, pairs: seq<Str>, q: Params, prop: Prop)
    requires Pairs(p, ORDER) == Some(pairs) && AllGood(pairs) && Holds(pairs, q)
    requires prop in q && forall x :: x in p ==> p[x] != []
    ensures prop in p
  {
    OrderIsComplete();
    BuiltPairs(p, ORDER);
    var i :| 0 <= i < |pairs| && Good(pairs[i]).value.0 == prop;
    assert pairs[i] in pairs;
    var from :| from in ORDER && from in p && Pair(p, from) == Some(pairs[i]);
    BuiltPair(p, from);
  }

  /** Which accepted parameters cannot be built again: those with a lone surrogate. */
  lemma {:induction false} PairsEncode(p: Params, props: seq<Prop>)
    ensures Pairs(p, props).Some? <==> forall prop :: prop in props && prop in p ==> WellFormed(p[prop])
  {
    if props != [] {
      PairsEncode(p, props[1..]);
      assert props == [props[0]] + props[1..];
      if props[0] in p { EncodesExactlyWellFormed(p[props[0]]); }
    }
  }

  /** Parsing an accepted URI and building it again gives a URI of the same parameters in
      canonical order, on which the two steps change nothing more. */
  lemma NormaliserIsIdempotent(c: Checks, uri: Str)
    requires Parse(c, uri).Parsed?
    ensures var p := Parse(c, uri).params;
      && (Build(c, p, []).Built? <==> forall prop :: prop in p ==> WellFormed(p[prop]))
      && (Build(c, p, []).Built? && |Build(c, p, []).uri| <= MAX_URI_LENGTH ==>
            Parse(c, Build(c, p, []).uri) == Parsed(p))
  {
    var p := Parse(c, uri).params;
    OrderIsComplete();
    PairsEncode(p, ORDER);
    assert ValidateParams(c, p) == [] && Unknowns([]) == [];
    if Build(c, p, []).Built? {
      forall prop | prop in p ensures p[prop] != [] {
        ParsedValuesNonEmpty(c, uri, prop);
      }
      RoundTripExactly(c, p);
    }
  }

  /** A payment request survives its URI: a negative count is refused, and any other count is
      what toStroops makes of the amount the wallet parses. */
  lemma RequestedStroopsSurvive(c: Checks, payTo: Str, n: int, extra: Params)
    ensures n < 0 ==> PayUriFromRequirements(c, payTo, Some(n), extra).Invalid?
    ensures var built := PayUriFromRequirements(c, payTo, Some(n), extra);
      built.Built? && Parse(c, built.uri).Parsed? ==>
        var p := Parse(c, built.uri).params;
        Amount in p && n >= 0 && ToStroops(Words(p[Amount])) == Stroops.Stroops(DecimalText(n))
  {
    var p := (map[Destination := payTo] + extra)[Amount := PayAmount(n)];
    PayAmountAcceptedIff(n);
    if n < 0 {
      assert AmountProblems(p[Amount]) != [];
      assert ValidateParams(c, p) != [];
    } else {
      PayAmountRoundTrip(n);
      if Build(c, p, []).Built? { RoundTripExactly(c, p); }
    }
  }
}
