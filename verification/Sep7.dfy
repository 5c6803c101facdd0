/** SEP-0007 `pay` URIs: one rule set, a builder and a strict parser. */
module Sep7 {
  import opened Text
  import opened PercentCoding
  import opened Amounts

  datatype Prop =
    | Destination | Amount | AssetCode | AssetIssuer | Memo | MemoType
    | Callback | Msg | NetworkPassphrase | OriginDomain | Signature

  /** The parameters in canonical order. */
  const ORDER: seq<Prop> :=
    [Destination, Amount, AssetCode, AssetIssuer, Memo, MemoType,
     Callback, Msg, NetworkPassphrase, OriginDomain, Signature]

  type Params = map<Prop, Str>

  function Ascii(s: string): (t: Str)
    requires forall i :: 0 <= i < |s| ==> s[i] < 128 as char
    ensures |t| == |s| && forall i :: 0 <= i < |s| ==> t[i] == s[i] as int
  {
    seq(|s|, i requires 0 <= i < |s| => s[i] as int)
  }

  /** Query parameter name of a property. */
  function Key(p: Prop): Str {
    match p
    case Destination => Ascii("destination")
    case Amount => Ascii("amount")
    case AssetCode => Ascii("asset_code")
    case AssetIssuer => Ascii("asset_issuer")
    case Memo => Ascii("memo")
    case MemoType => Ascii("memo_type")
    case Callback => Ascii("callback")
    case Msg => Ascii("msg")
    case NetworkPassphrase => Ascii("network_passphrase")
    case OriginDomain => Ascii("origin_domain")
    case Signature => Ascii("signature")
  }

  function PropIn(props: seq<Prop>, key: Str): Option<Prop> {
    if props == [] then None
    else if Key(props[0]) == key then Some(props[0])
    else PropIn(props[1..], key)
  }

  function PropOf(key: Str): Option<Prop> { PropIn(ORDER, key) }

  const SCHEME: Str := Ascii("web+stellar:")
  const PAY: Str := Ascii("pay")
  const QUESTION: CodeUnit := '?' as int
  const AMPERSAND: CodeUnit := '&' as int
  const EQUALS: CodeUnit := '=' as int
  const HASH: CodeUnit := '#' as int
  const MAX_URI_LENGTH := 8192
  const MAX_MSG_LENGTH := 300
  const MAX_MEMO_TEXT_BYTES := 28
  const MAX_UINT64 := 18446744073709551615

  datatype Problem =
    | NotAString | TooLong | WrongScheme | WrongOperation | NoQuery | HasFragment
    | MalformedPair(pair: Str) | UnknownParameter(key: Str) | Duplicate(key: Str)
    | EmptyValue(key: Str) | RawPlus(key: Str) | MalformedEscape(key: Str)
    | DestinationRequired | BadDestination | BadAmount(problem: AmountProblem) | TooManyDecimals
    | AssetPair | BadAssetCode | BadAssetIssuer | MemoPair | BadMemoType | BadMemo
    | BadCallback | MsgTooLong | BlankPassphrase | BadOriginDomain | SignatureAlone | BadSignature

  // ---------- the rule set ----------

  /** Key, URL and domain grammars decided by code outside this project. */
  datatype Checks = Checks(
    destination: Str -> bool, accountId: Str -> bool, httpUrl: Str -> bool, domain: Str -> bool)

  predicate Alphanumeric(u: CodeUnit) {
    IsDigit(u) || 'A' as int <= u <= 'Z' as int || 'a' as int <= u <= 'z' as int
  }

  predicate Base64Unit(u: CodeUnit) { Alphanumeric(u) || u == '+' as int || u == '/' as int }

  /** Number of '=' at the end, at most two. */
  function Padding(s: Str): nat {
    if |s| >= 2 && s[|s| - 1] == EQUALS && s[|s| - 2] == EQUALS then 2
    else if |s| >= 1 && s[|s| - 1] == EQUALS then 1 else 0
  }

  predicate Base64Of(s: Str, bytes: nat) {
    |s| % 4 == 0 && (forall i :: 0 <= i < |s| - Padding(s) ==> Base64Unit(s[i]))
    && |s| / 4 * 3 - Padding(s) == bytes
  }

  /** Buffer.byteLength of the UTF-8 form; a lone surrogate takes three bytes. */
  function ByteLength(s: Str): nat {
    if s == [] then 0
    else match FirstChar(s)
      case None => 3 + ByteLength(s[1..])
      case Some((n, c)) => |Utf8(c)| + ByteLength(s[n..])
  }

  function MemoProblems(kind: Str, memo: Str): seq<Problem> {
    if kind == Ascii("MEMO_TEXT") then
      if ByteLength(memo) > MAX_MEMO_TEXT_BYTES then [BadMemo] else []
    else if kind == Ascii("MEMO_ID") then
      if memo != [] && AllDigits(memo) && DigitsValue(memo) <= MAX_UINT64 then [] else [BadMemo]
    else if kind == Ascii("MEMO_HASH") || kind == Ascii("MEMO_RETURN") then
      if Base64Of(memo, 32) then [] else [BadMemo]
    else [BadMemoType]
  }

  function AmountProblems(a: Str): seq<Problem> {
    var found := ValidateAmount(Words(a));
    (if found == [] then [] else [BadAmount(found[0])])
    + (if |Fraction(a)| > STELLAR_DECIMALS then [TooManyDecimals] else [])
  }

  function When(bad: bool, problem: Problem): seq<Problem> { if bad then [problem] else [] }

  /** What is wrong with who is paid what. */
  function PartyProblems(c: Checks, p: Params): seq<Problem> {
    (if Destination !in p || p[Destination] == [] then [DestinationRequired]
     else When(!c.destination(p[Destination]), BadDestination))
    + (if Amount in p then AmountProblems(p[Amount]) else [])
    + When((AssetCode in p) != (AssetIssuer in p), AssetPair)
    + When(AssetCode in p && !(1 <= |p[AssetCode]| <= 12 && forall u :: u in p[AssetCode] ==> Alphanumeric(u)),
           BadAssetCode)
    + When(AssetIssuer in p && !c.accountId(p[AssetIssuer]), BadAssetIssuer)
    + (if (Memo in p) != (MemoType in p) then [MemoPair]
       else if MemoType in p then MemoProblems(p[MemoType], p[Memo]) else [])
  }

  /** validateParams: every problem of the parameters, parsed or supplied. */
  function ValidateParams(c: Checks, p: Params): seq<Problem> {
    PartyProblems(c, p)
    + When(Callback in p && !(Ascii("url:") <= p[Callback] && c.httpUrl(p[Callback][4..])), BadCallback)
    + When(Msg in p && |p[Msg]| > MAX_MSG_LENGTH, MsgTooLong)
    + When(NetworkPassphrase in p && (forall u :: u in p[NetworkPassphrase] ==> JsSpace(u)), BlankPassphrase)
    + When(OriginDomain in p && !c.domain(p[OriginDomain]), BadOriginDomain)
    + When(Signature in p && OriginDomain !in p, SignatureAlone)
    + When(Signature in p && !Base64Of(p[Signature], 64), BadSignature)
  }

  // ---------- the parser ----------

  /** Position of the first u in s, or |s|. */
  function Position(s: Str, u: CodeUnit): (i: nat)
    ensures i <= |s|
    ensures i < |s| ==> s[i] == u
    ensures forall j :: 0 <= j < i ==> s[j] != u
  {
    if s == [] || s[0] == u then 0 else 1 + Position(s[1..], u)
  }

  function Lower(s: Str): Str {
    seq(|s|, i requires 0 <= i < |s| =>
      if 'A' as int <= s[i] <= 'Z' as int then s[i] + 32 else s[i])
  }

  datatype Reading = Reading(params: Params, problems: seq<Problem>)

  function Report(r: Reading, problem: Problem): Reading {
    r.(problems := r.problems + [problem])
  }

  function ReadPair(r: Reading, pair: Str): Reading {
    var eq := Position(pair, EQUALS);
    if eq == |pair| || eq == 0 then Report(r, MalformedPair(pair))
    else
      var key, raw := pair[..eq], pair[eq + 1..];
      match PropOf(key)
      case None => Report(r, UnknownParameter(key))
      case Some(prop) =>
        if prop in r.params then Report(r, Duplicate(key))
        else if raw == [] then Report(r, EmptyValue(key))
        else if PLUS in raw then Report(r, RawPlus(key))
        else match Decode(raw)
          case None => Report(r, MalformedEscape(key))
          case Some(value) => r.(params := r.params[prop := value])
  }

  function ReadPairs(pairs: seq<Str>): Reading {
    if pairs == [] then Reading(map[], [])
    else ReadPair(ReadPairs(pairs[..|pairs| - 1]), pairs[|pairs| - 1])
  }

  datatype ParseResult = Parsed(params: Params) | Rejected(problems: seq<Problem>)

  /** What is wrong before the query is looked at. */
  function Shape(uri: Str): Option<Problem> {
    if uri == [] then Some(NotAString)
    else if |uri| > MAX_URI_LENGTH then Some(TooLong)
    else if |uri| < |SCHEME| || Lower(uri[..|SCHEME|]) != SCHEME then Some(WrongScheme)
    else
      var rest := uri[|SCHEME|..];
      var q := Position(rest, QUESTION);
      if rest[..q] != PAY then Some(WrongOperation)
      else if q >= |rest| - 1 then Some(NoQuery)
      else if HASH in uri then Some(HasFragment)
      else None
  }

  function Query(uri: Str): Str
    requires Shape(uri).None?
  {
    var rest := uri[|SCHEME|..];
    rest[Position(rest, QUESTION) + 1..]
  }

  function Parse(c: Checks, uri: Str): ParseResult {
    match Shape(uri)
    case Some(problem) => Rejected([problem])
    case None =>
      var r := ReadPairs(Split(Query(uri), AMPERSAND));
      var problems := r.problems + ValidateParams(c, r.params);
      if problems == [] then Parsed(r.params) else Rejected(problems)
  }

  /** parsePayUri, reading the query pair by pair. */
  method ParsePayUri(c: Checks, uri: Str) returns (result: ParseResult)
    ensures result == Parse(c, uri)
  {
    var shape := Shape(uri);
    if shape.Some? { return Rejected([shape.value]); }
    var pairs := Split(Query(uri), AMPERSAND);
    var params: Params := map[];
    var problems: seq<Problem> := [];
    for i := 0 to |pairs|
      invariant Reading(params, problems) == ReadPairs(pairs[..i])
    {
      assert pairs[..i + 1][..i] == pairs[..i];
      var pair := pairs[i];
      var eq := Position(pair, EQUALS);
      if eq == |pair| || eq == 0 {
        problems := problems + [MalformedPair(pair)];
        continue;
      }
      var key, raw := pair[..eq], pair[eq + 1..];
      var prop := PropOf(key);
      if prop.None? {
        problems := problems + [UnknownParameter(key)];
      } else if prop.value in params {
        problems := problems + [Duplicate(key)];
      } else if raw == [] {
        problems := problems + [EmptyValue(key)];
      } else if PLUS in raw {
        problems := problems + [RawPlus(key)];
      } else {
        var value := Decode(raw);
        if value.None? {
          problems := problems + [MalformedEscape(key)];
        } else {
          params := params[prop.value := value.value];
        }
      }
    }
    assert pairs[..|pairs|] == pairs;
    problems := problems + ValidateParams(c, params);
    result := if problems == [] then Parsed(params) else Rejected(problems);
  }

  // ---------- the builder ----------

  datatype BuildResult = Built(uri: Str) | Invalid(problems: seq<Problem>) | UriError

  function Pair(p: Params, prop: Prop): Option<Str>
    requires prop in p
  {
    match Encode(p[prop])
    case None => None
    case Some(text) => Some(Key(prop) + [EQUALS] + text)
  }

  function Pairs(p: Params, props: seq<Prop>): Option<seq<Str>> {
    if props == [] then Some([])
    else if props[0] !in p then Pairs(p, props[1..])
    else match (Pair(p, props[0]), Pairs(p, props[1..]))
      case (Some(pair), Some(rest)) => Some([pair] + rest)
      case _ => None
  }

  function Unknowns(keys: seq<Str>): seq<Problem> {
    seq(|keys|, i requires 0 <= i < |keys| => UnknownParameter(keys[i]))
  }

  /** buildPayUri of an object with properties p and, besides, the keys `unknown`. */
  function Build(c: Checks, p: Params, unknown: seq<Str>): BuildResult {
    var problems := Unknowns(unknown) + ValidateParams(c, p);
    if problems != [] then Invalid(problems)
    else match Pairs(p, ORDER)
      case None => UriError
      case Some(pairs) => Built(SCHEME + PAY + [QUESTION] + Join(pairs, AMPERSAND))
  }

  /** payUriFromRequirements: x402's stroop count becomes SEP-0007's decimal amount. */
  function PayUriFromRequirements(c: Checks, payTo: Str, stroops: Option<int>, extra: Params): BuildResult {
    var p := map[Destination := payTo] + extra;
    Build(c, if stroops.Some? then p[Amount := PayAmount(stroops.value)] else p, [])
  }
}
