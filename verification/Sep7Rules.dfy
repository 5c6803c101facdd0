/** The one rule set of `pay` URIs, stated on the texts themselves, and exactly which URIs parse. */
module Sep7Rules {
  import opened Text
  import opened PercentCoding
  import opened Amounts
  import opened Sep7
  import opened Sep7Theorems

  // ---------- amounts ----------

  /** Digits, with an optional sign in front and an optional point and more digits behind. */
  ghost predicate Reads(s: Str, sign: Str, whole: Str, frac: Option<Str>) {
    && (sign == [] || sign == ['+' as int] || sign == ['-' as int]) && whole != [] && AllDigits(whole)
    && (frac.Some? ==> frac.value != [] && AllDigits(frac.value))
    && s == sign + whole + if frac.Some? then ['.' as int] + frac.value else []
  }

  lemma DigitsHaveNoDot(s: Str)
    requires AllDigits(s)
    ensures DOT !in s
  {
    assert !IsDigit(DOT);
  }

  /** Every decimal text reads one way. */
  lemma DecimalReads(s: Str) returns (sign: Str, whole: Str, frac: Option<Str>)
    requires IsDecimal(s)
    ensures Reads(s, sign, whole, frac) && (sign == ['-' as int] <==> s[0] == MINUS)
  {
    var rest := Unsigned(s);
    var parts := Split(rest, DOT);
    sign := if Signed(s) then [s[0]] else [];
    whole := parts[0];
    frac := if |parts| == 2 then Some(parts[1]) else None;
    assert s == sign + rest;
    assert parts[0] in parts;
    JoinSplit(rest, DOT);
    if |parts| == 2 {
      assert parts[1] in parts && parts[1..] == [parts[1]];
      assert rest == whole + [DOT] + parts[1];
      Assoc(whole, [DOT], parts[1]);
      Assoc(sign, whole, [DOT] + parts[1]);
    }
    if !Signed(s) { assert IsDigit(whole[0]) && s[0] == whole[0]; }
  }

  lemma ReadsIsDecimal(s: Str, sign: Str, whole: Str, frac: Option<Str>)
    requires Reads(s, sign, whole, frac)
    ensures IsDecimal(s) && s != [] && (s[0] == MINUS <==> sign == ['-' as int])
    ensures Fraction(s) == if frac.Some? then frac.value else []
  {
    var behind := if frac.Some? then ['.' as int] + frac.value else [];
    Assoc(sign, whole, behind);
    assert whole[0] in whole;
    assert Unsigned(s) == whole + behind by {
      if sign == [] { assert !Signed(s) && sign + (whole + behind) == whole + behind; }
      else { assert s[1..] == whole + behind; }
    }
    DigitsHaveNoDot(whole);
    SplitWithout(whole, DOT);
    assert DOT !in sign + whole;
    SplitWithout(sign + whole, DOT);
    if frac.Some? {
      DigitsHaveNoDot(frac.value);
      SplitWithout(frac.value, DOT);
      SplitAtSeparator(whole, frac.value, DOT);
      SplitAtSeparator(sign + whole, frac.value, DOT);
      Assoc(whole, [DOT], frac.value);
      Assoc(sign + whole, [DOT], frac.value);
    } else {
      assert whole + [] == whole && (sign + whole) + [] == sign + whole;
    }
  }

  /** A decimal text without a minus sign. */
  ghost predicate AmountText(s: Str, decimals: Option<nat>) {
    exists sign, whole, frac :: Reads(s, sign, whole, frac) && sign != ['-' as int]
      && (decimals.Some? && frac.Some? ==> |frac.value| <= decimals.value)
  }

  /** A text is accepted as an amount exactly when it is a decimal number without a minus sign. */
  lemma AmountAcceptedExactly(s: Str)
    ensures ValidateAmount(Words(s)) == [] <==> AmountText(s, None)
  {
    if ValidateAmount(Words(s)) == [] {
      var sign, whole, frac := DecimalReads(s);
      assert Reads(s, sign, whole, frac);
    }
    if sign, whole, frac :| Reads(s, sign, whole, frac) && sign != ['-' as int] {
      ReadsIsDecimal(s, sign, whole, frac);
    }
  }

  lemma AmountRuleExactly(s: Str)
    ensures AmountProblems(s) == [] <==> AmountText(s, Some(7))
  {
    if AmountProblems(s) == [] {
      var sign, whole, frac := DecimalReads(s);
      ReadsIsDecimal(s, sign, whole, frac);
      assert Reads(s, sign, whole, frac);
    }
    if sign, whole, frac :| (Reads(s, sign, whole, frac) && sign != ['-' as int]
      && (frac.Some? ==> |frac.value| <= 7))
    {
      ReadsIsDecimal(s, sign, whole, frac);
    }
  }

  // ---------- memos and signatures ----------

  predicate Base64Text(s: Str, units: nat, padding: nat) {
    && |s| == units + padding
    && (forall i :: 0 <= i < units ==>
          '0' as int <= s[i] <= '9' as int || 'A' as int <= s[i] <= 'Z' as int || 'a' as int <= s[i] <= 'z' as int
          || s[i] == '+' as int || s[i] == '/' as int)
    && (forall i :: units <= i < |s| ==> s[i] == '=' as int)
  }

  /** 32 bytes are 43 units of base64 and one '='; 64 bytes are 86 and two. */
  lemma Base64Exactly(s: Str)
    ensures Base64Of(s, 32) <==> Base64Text(s, 43, 1)
    ensures Base64Of(s, 64) <==> Base64Text(s, 86, 2)
  {
  }

  /** The units of at least `least`. */
  function AtLeast(s: Str, least: int): nat {
    if s == [] then 0 else (if s[0] >= least then 1 else 0) + AtLeast(s[1..], least)
  }

  /** Surrogate pairs, from the front. */
  function PairCount(s: Str): nat {
    if s == [] then 0
    else if |s| > 1 && IsHigh(s[0]) && IsLow(s[1]) then 1 + PairCount(s[2..])
    else PairCount(s[1..])
  }

  /** A unit takes one byte, from 0x80 two, from 0x800 three; a pair takes two fewer than its units. */
  lemma {:induction false} BytesCounted(s: Str)
    ensures ByteLength(s) + 2 * PairCount(s) == |s| + AtLeast(s, 0x80) + AtLeast(s, 0x800)
  {
    if s != [] {
      if |s| > 1 && IsHigh(s[0]) && IsLow(s[1]) {
        BytesCounted(s[2..]);
        assert s[1..][1..] == s[2..];
      } else {
        BytesCounted(s[1..]);
      }
    }
  }

  ghost predicate MemoFits(kind: Str, memo: Str) {
    || (kind == Ascii("MEMO_TEXT") && |memo| + AtLeast(memo, 0x80) + AtLeast(memo, 0x800) <= 28 + 2 * PairCount(memo))
    || (kind == Ascii("MEMO_ID") && memo != [] && AllDigits(memo) && DigitsValue(memo) < 0x1_0000_0000_0000_0000)
    || ((kind == Ascii("MEMO_HASH") || kind == Ascii("MEMO_RETURN")) && Base64Text(memo, 43, 1))
  }

  lemma KindsDiffer()
    ensures Ascii("MEMO_TEXT") != Ascii("MEMO_ID") && Ascii("MEMO_TEXT") != Ascii("MEMO_HASH")
    ensures Ascii("MEMO_TEXT") != Ascii("MEMO_RETURN") && Ascii("MEMO_ID") != Ascii("MEMO_HASH")
    ensures Ascii("MEMO_ID") != Ascii("MEMO_RETURN") && Ascii("MEMO_HASH") != Ascii("MEMO_RETURN")
  {
    assert Ascii("MEMO_TEXT")[5] == 'T' as int && Ascii("MEMO_HASH")[5] == 'H' as int;
  }

  lemma MemoRuleExactly(kind: Str, memo: Str)
    ensures MemoProblems(kind, memo) == [] <==> MemoFits(kind, memo)
  {
    KindsDiffer();
    BytesCounted(memo);
    Base64Exactly(memo);
  }

  // ---------- the rule set ----------

  ghost predicate GoodParties(c: Checks, p: Params) {
    && Destination in p && p[Destination] != [] && c.destination(p[Destination])
    && (Amount in p ==> AmountText(p[Amount], Some(7)))
    && (AssetCode in p <==> AssetIssuer in p)
    && (AssetCode in p ==> 1 <= |p[AssetCode]| <= 12 && forall u :: u in p[AssetCode] ==>
          '0' as int <= u <= '9' as int || 'A' as int <= u <= 'Z' as int || 'a' as int <= u <= 'z' as int)
    && (AssetIssuer in p ==> c.accountId(p[AssetIssuer]))
    && (Memo in p <==> MemoType in p) && (MemoType in p ==> Memo in p && MemoFits(p[MemoType], p[Memo]))
  }

  ghost predicate GoodExtras(c: Checks, p: Params) {
    && (Callback in p ==> exists url :: p[Callback] == Ascii("url:") + url && c.httpUrl(url))
    && (Msg in p ==> |p[Msg]| <= 300)
    && (NetworkPassphrase in p ==> exists u :: u in p[NetworkPassphrase] && !JsSpace(u))
    && (OriginDomain in p ==> c.domain(p[OriginDomain]))
    && (Signature in p ==> OriginDomain in p && Base64Text(p[Signature], 86, 2))
  }

  lemma CallbackRule(c: Checks, s: Str)
    ensures (Ascii("url:") <= s && c.httpUrl(s[4..])) <==> exists url :: s == Ascii("url:") + url && c.httpUrl(url)
  {
    if Ascii("url:") <= s { assert s == Ascii("url:") + s[4..]; }
    if url :| s == Ascii("url:") + url && c.httpUrl(url) { assert s[4..] == url; }
  }

  lemma NoneOf(a: seq<Problem>, b: seq<Problem>)
    ensures a + b == [] <==> a == [] && b == []
  {
  }

  lemma PartiesExactly(c: Checks, p: Params)
    ensures PartyProblems(c, p) == [] <==> GoodParties(c, p)
  {
    if Amount in p { AmountRuleExactly(p[Amount]); }
    if Memo in p && MemoType in p { MemoRuleExactly(p[MemoType], p[Memo]); }
  }

  /** Parameters are accepted, parsed or supplied, exactly when they keep every rule. */
  lemma AcceptedExactly(c: Checks, p: Params)
    ensures ValidateParams(c, p) == [] <==> GoodParties(c, p) && GoodExtras(c, p)
  {
    PartiesExactly(c, p);
    if Callback in p { CallbackRule(c, p[Callback]); }
    if Signature in p { Base64Exactly(p[Signature]); }
    assert ValidateParams(c, p) == [] <==> PartyProblems(c, p) == [] && GoodExtras(c, p);
  }

  // ---------- which URIs parse ----------

  /** web+stellar:pay? in any case but for the operation, and a query, of at most 8192 units and
      without a fragment. */
  ghost predicate PayShape(uri: Str, query: Str) {
    && |uri| <= 8192 && query != [] && '#' as int !in uri
    && exists scheme :: SchemeOf(scheme) && uri == scheme + Ascii("pay?") + query
  }

  /** The scheme in upper or lower case. */
  predicate SchemeOf(scheme: Str) {
    && |scheme| == 12
    && forall i :: 0 <= i < 12 ==>
         var u := Ascii("web+stellar:")[i];
         scheme[i] == u || (Alphanumeric(u) && scheme[i] == u - 32)
  }

  lemma SchemeExactly(front: Str)
    requires |front| == 12
    ensures Lower(front) == SCHEME <==> SchemeOf(front)
  {
    var name := Ascii("web+stellar:");
    if Lower(front) == SCHEME {
      forall i | 0 <= i < 12 ensures front[i] == name[i] || (Alphanumeric(name[i]) && front[i] == name[i] - 32) {
        assert Lower(front)[i] == name[i];
      }
    }
    if SchemeOf(front) {
      forall i | 0 <= i < 12 ensures Lower(front)[i] == name[i] {
        assert name[i] == '+' as int || name[i] == ':' as int || 'a' as int <= name[i] <= 'z' as int;
      }
    }
  }

  lemma CutAt(s: Str, q: nat)
    requires q < |s|
    ensures s == s[..q] + [s[q]] + s[q + 1..]
  {
  }

  lemma PayAsked()
    ensures Ascii("pay?") == PAY + [QUESTION]
  {
  }

  lemma PayPartAt(rest: Str, q: nat)
    requires q < |rest| - 1 && rest[..q] == PAY && rest[q] == QUESTION
    ensures rest[q + 1..] != [] && rest == Ascii("pay?") + rest[q + 1..]
  {
    PayAsked();
    CutAt(rest, q);
  }

  lemma PayPartRead(rest: Str)
    requires rest[..Position(rest, QUESTION)] == PAY && Position(rest, QUESTION) < |rest| - 1
    ensures rest[Position(rest, QUESTION) + 1..] != []
    ensures rest == Ascii("pay?") + rest[Position(rest, QUESTION) + 1..]
  {
    PayPartAt(rest, Position(rest, QUESTION));
  }

  lemma PayPartWritten(rest: Str, query: Str)
    requires query != [] && rest == Ascii("pay?") + query
    ensures rest[..Position(rest, QUESTION)] == PAY && Position(rest, QUESTION) < |rest| - 1
    ensures rest[Position(rest, QUESTION) + 1..] == query
  {
    PayAsked();
    assert QUESTION !in PAY;
    Assoc(PAY, [QUESTION], query);
    PositionAfter(PAY, QUESTION, query);
  }

  lemma ShapeRead(uri: Str)
    requires Shape(uri).None?
    ensures PayShape(uri, Query(uri))
  {
    var front, rest := uri[..12], uri[12..];
    assert uri == front + rest;
    SchemeExactly(front);
    PayPartRead(rest);
    Assoc(front, Ascii("pay?"), Query(uri));
  }

  lemma ShapeWritten(uri: Str, query: Str)
    requires PayShape(uri, query)
    ensures Shape(uri).None? && Query(uri) == query
  {
    var scheme :| SchemeOf(scheme) && uri == scheme + Ascii("pay?") + query;
    Assoc(scheme, Ascii("pay?"), query);
    assert uri[..12] == scheme && uri[12..] == Ascii("pay?") + query;
    SchemeExactly(scheme);
    PayPartWritten(uri[12..], query);
  }

  /** A URI parses exactly when it has the shape, every pair of its query is good and its property
      new, and the parameters so read keep every rule; and then it gives those. */
  lemma ParsesExactly(c: Checks, uri: Str)
    ensures Parse(c, uri).Parsed? <==>
      exists query :: PayShape(uri, query) && Clean(Split(query, '&' as int))
        && GoodParties(c, ReadPairs(Split(query, '&' as int)).params)
        && GoodExtras(c, ReadPairs(Split(query, '&' as int)).params)
    ensures Parse(c, uri).Parsed? ==> Holds(Split(Query(uri), '&' as int), Parse(c, uri).params)
  {
    forall query | PayShape(uri, query) ensures Shape(uri).None? && query == Query(uri) {
      ShapeWritten(uri, query);
    }
    if Shape(uri).None? {
      ShapeRead(uri);
      ReadsExactlyClean(Split(Query(uri), AMPERSAND));
      AcceptedExactly(c, ReadPairs(Split(Query(uri), AMPERSAND)).params);
    }
  }

  // ---------- the text that is built ----------

  /** The name the standard gives a parameter, and its place in the canonical order. */
  function NameOf(p: Prop): string {
    match p
    case Destination => "destination"
    case Amount => "amount"
    case AssetCode => "asset_code"
    case AssetIssuer => "asset_issuer"
    case Memo => "memo"
    case MemoType => "memo_type"
    case Callback => "callback"
    case Msg => "msg"
    case NetworkPassphrase => "network_passphrase"
    case OriginDomain => "origin_domain"
    case Signature => "signature"
  }

  function Rank(p: Prop): nat {
    match p
    case Destination => 1
    case Amount => 2
    case AssetCode => 3
    case AssetIssuer => 4
    case Memo => 5
    case MemoType => 6
    case Callback => 7
    case Msg => 8
    case NetworkPassphrase => 9
    case OriginDomain => 10
    case Signature => 11
  }

  predicate IsAscii(name: string) { forall i :: 0 <= i < |name| ==> name[i] < 128 as char }

  lemma NamesAreKeys(p: Prop)
    ensures IsAscii(NameOf(p)) && Key(p) == Ascii(NameOf(p))
  {
  }

  predicate Ranked(props: seq<Prop>) { forall i, j :: 0 <= i < j < |props| ==> Rank(props[i]) < Rank(props[j]) }

  lemma OrderIsRanked()
    ensures Ranked(ORDER)
  {
    forall i | 0 <= i < |ORDER| ensures Rank(ORDER[i]) == i + 1 {
    }
  }

  ghost predicate IsPair(p: Params, prop: Prop, pair: Str) {
    && prop in p && Encode(p[prop]).Some? && IsAscii(NameOf(prop))
    && pair == Ascii(NameOf(prop)) + ['=' as int] + Encode(p[prop]).value
  }

  /** The parameters there are, each once, in the canonical order, and a pair for each. */
  ghost predicate Written(p: Params, present: seq<Prop>, pairs: seq<Str>) {
    && Ranked(present) && |pairs| == |present|
    && (forall i :: 0 <= i < |present| ==> IsPair(p, present[i], pairs[i]))
  }

  lemma {:induction false} PairsAreWritten(p: Params, props: seq<Prop>) returns (present: seq<Prop>)
    requires Pairs(p, props).Some? && Ranked(props)
    ensures Written(p, present, Pairs(p, props).value)
    ensures forall prop :: prop in present <==> prop in props && prop in p
  {
    present := [];
    if props != [] {
      var rest := PairsAreWritten(p, props[1..]);
      assert props == [props[0]] + props[1..];
      if props[0] in p {
        NamesAreKeys(props[0]);
        present := [props[0]] + rest;
        forall j | 0 <= j < |rest| ensures Rank(props[0]) < Rank(rest[j]) {
          assert rest[j] in props[1..];
        }
      } else {
        present := rest;
      }
    }
  }

  /** A built URI names each parameter there is once, as the standard does and in its canonical
      order, whatever order they were given in. */
  lemma BuiltInOrder(c: Checks, p: Params)
    requires Build(c, p, []).Built?
    ensures exists present, pairs ::
      Written(p, present, pairs) && (forall prop :: prop in p ==> prop in present)
      && Build(c, p, []).uri == SCHEME + PAY + ['?' as int] + Join(pairs, '&' as int)
  {
    OrderIsRanked();
    OrderIsComplete();
    var present := PairsAreWritten(p, ORDER);
    var pairs := Pairs(p, ORDER).value;
    assert Written(p, present, pairs) && forall prop :: prop in p ==> prop in present;
  }
}
