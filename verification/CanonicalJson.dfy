/** `canonicalize`: the JSON Canonicalization Scheme over JavaScript values, with a
    parser of its output and the meaning the output stands for. */
module CanonicalJson {
  import opened Text

  // ---------- values ----------

  predicate NumberUnit(u: CodeUnit) {
    IsDigit(u) || u in {'+' as int, '-' as int, '.' as int, 'e' as int}
  }

  /** The text Number::toString gives a finite number. Equal numbers have equal texts. */
  type NumberText = t: Str |
    t != [] && (IsDigit(t[0]) || t[0] == '-' as int) && forall u :: u in t ==> NumberUnit(u)
    witness ['0' as int]

  datatype Value =
    | Null
    | Boolean(b: bool)
    | Number(text: NumberText)
    | NonFinite
    | String(s: Str)
    | Array(slots: seq<Slot>)
    | Object(fields: seq<Field>)
    | Undefined
    | Unsupported

  /** An array slot is a value or a hole, the slot of a sparse array. */
  datatype Slot = Item(v: Value) | Hole

  datatype Field = Field(key: Str, value: Value)

  function Keys(fields: seq<Field>): (ks: seq<Str>)
    ensures |ks| == |fields|
    ensures forall i :: 0 <= i < |fields| ==> ks[i] == fields[i].key
  {
    seq(|fields|, i requires 0 <= i < |fields| => fields[i].key)
  }

  /** No object holds one key twice: true of every JavaScript value. */
  predicate Proper(v: Value) {
    match v
    case Array(slots) => forall i :: 0 <= i < |slots| && slots[i].Item? ==> Proper(slots[i].v)
    case Object(fields) =>
      Distinct(Keys(fields)) && forall i :: 0 <= i < |fields| ==> Proper(fields[i].value)
    case _ => true
  }

  /** No array anywhere in the value has a hole. */
  predicate HoleFree(v: Value) {
    match v
    case Array(slots) => forall i :: 0 <= i < |slots| ==> slots[i].Item? && HoleFree(slots[i].v)
    case Object(fields) => forall i :: 0 <= i < |fields| ==> HoleFree(fields[i].value)
    case _ => true
  }

  // ---------- JSON.stringify of a string ----------

  const QUOTE: CodeUnit := '\"' as int
  const BACKSLASH: CodeUnit := '\\' as int
  const COMMA: CodeUnit := ',' as int
  const COLON: CodeUnit := ':' as int
  const OPEN_ARRAY: CodeUnit := '[' as int
  const CLOSE_ARRAY: CodeUnit := ']' as int
  const OPEN_OBJECT: CodeUnit := '{' as int
  const CLOSE_OBJECT: CodeUnit := '}' as int
  const NULL_TEXT: Str := ['n' as int, 'u' as int, 'l' as int, 'l' as int]
  const TRUE_TEXT: Str := ['t' as int, 'r' as int, 'u' as int, 'e' as int]
  const FALSE_TEXT: Str := ['f' as int, 'a' as int, 'l' as int, 's' as int, 'e' as int]

  function EscapeUnit(u: CodeUnit): Str {
    if u == 8 then [BACKSLASH, 'b' as int]
    else if u == 9 then [BACKSLASH, 't' as int]
    else if u == 10 then [BACKSLASH, 'n' as int]
    else if u == 12 then [BACKSLASH, 'f' as int]
    else if u == 13 then [BACKSLASH, 'r' as int]
    else if u == QUOTE || u == BACKSLASH then [BACKSLASH, u]
    else if u < 32 || IsHigh(u) || IsLow(u) then
      [BACKSLASH, 'u' as int, HexLower(u / 4096), HexLower(u / 256 % 16),
       HexLower(u / 16 % 16), HexLower(u % 16)]
    else [u]
  }

  /** Paired surrogates stand for themselves; lone ones are escaped. */
  function QuoteBody(s: Str): Str {
    if s == [] then []
    else if |s| > 1 && IsHigh(s[0]) && IsLow(s[1]) then s[..2] + QuoteBody(s[2..])
    else EscapeUnit(s[0]) + QuoteBody(s[1..])
  }

  function Quote(s: Str): Str { [QUOTE] + QuoteBody(s) + [QUOTE] }

  // ---------- canonicalize; None is the TypeError ----------

  function LiveKeys(fields: seq<Field>): seq<Str> {
    if fields == [] then []
    else if fields[0].value.Undefined? then LiveKeys(fields[1..])
    else [fields[0].key] + LiveKeys(fields[1..])
  }

  /** value[key] on the object: the field of that key, if there is one. */
  function IndexOf(fields: seq<Field>, key: Str): (i: nat)
    ensures i <= |fields|
    ensures i < |fields| ==> fields[i].key == key
    ensures forall j :: 0 <= j < i ==> fields[j].key != key
  {
    if fields == [] || fields[0].key == key then 0 else 1 + IndexOf(fields[1..], key)
  }

  function Canon(v: Value): Option<Str>
    decreases v, 1
  {
    match v
    case Null => Some(NULL_TEXT)
    case Boolean(b) => Some(if b then TRUE_TEXT else FALSE_TEXT)
    case Number(text) => Some(text)
    case String(s) => Some(Quote(s))
    case Array(slots) =>
      (match CanonSlots(slots)
       case None => None
       case Some(parts) => Some([OPEN_ARRAY] + Join(parts, COMMA) + [CLOSE_ARRAY]))
    case Object(fields) =>
      (match CanonMembers(fields, Sort(LiveKeys(fields)))
       case None => None
       case Some(parts) => Some([OPEN_OBJECT] + Join(parts, COMMA) + [CLOSE_OBJECT]))
    case _ => None
  }

  /** `map` skips holes and `join` then prints them as nothing. */
  function CanonSlots(slots: seq<Slot>): (parts: Option<seq<Str>>)
    ensures parts.Some? ==> |parts.value| == |slots|
    decreases slots, 0
  {
    if slots == [] then Some([])
    else
      var slot := slots[0];
      var first :=
        if slot.Hole? then Some([])
        else if slot.v.Undefined? then Some(NULL_TEXT)
        else assert slot.v < slot; Canon(slot.v);
      match (first, CanonSlots(slots[1..]))
      case (Some(part), Some(rest)) => Some([part] + rest)
      case _ => None
  }

  function CanonMembers(fields: seq<Field>, keys: seq<Str>): (parts: Option<seq<Str>>)
    ensures parts.Some? ==> |parts.value| == |keys|
    decreases fields, 0, |keys|
  {
    if keys == [] then Some([])
    else
      var i := IndexOf(fields, keys[0]);
      var first := if i < |fields| then Canon(fields[i].value) else None;
      match (first, CanonMembers(fields, keys[1..]))
      case (Some(text), Some(rest)) => Some([Quote(keys[0]) + [COLON] + text] + rest)
      case _ => None
  }

  // ---------- what a value means ----------

  /** A JSON value: no undefined, no holes, and objects are maps, so key order is gone. */
  datatype Meaning =
    | MNull
    | MBoolean(b: bool)
    | MNumber(text: Str)
    | MString(s: Str)
    | MArray(items: seq<Meaning>)
    | MObject(members: map<Str, Meaning>)
    | MNothing

  function MeaningOf(v: Value): Meaning
    decreases v, 1
  {
    match v
    case Null => MNull
    case Boolean(b) => MBoolean(b)
    case Number(text) => MNumber(text)
    case String(s) => MString(s)
    case Array(slots) => MArray(SlotMeanings(slots))
    case Object(fields) => MObject(MembersOver(fields, LiveKeys(fields)))
    case _ => MNothing
  }

  /** An undefined slot, and a slot that is not there, mean null. */
  function SlotMeanings(slots: seq<Slot>): (ms: seq<Meaning>)
    ensures |ms| == |slots|
    decreases slots, 0
  {
    if slots == [] then []
    else
      var slot := slots[0];
      [if slot.Hole? || slot.v.Undefined? then MNull
       else assert slot.v < slot; MeaningOf(slot.v)]
      + SlotMeanings(slots[1..])
  }

  function MembersOver(fields: seq<Field>, keys: seq<Str>): map<Str, Meaning>
    decreases fields, 0, |keys|
  {
    if keys == [] then map[]
    else
      var i := IndexOf(fields, keys[0]);
      var rest := MembersOver(fields, keys[1..]);
      if i < |fields| then rest[keys[0] := MeaningOf(fields[i].value)] else rest
  }

  // ---------- a parser of canonical text ----------

  function CountNumber(t: Str): (n: nat)
    ensures n <= |t|
  {
    if t == [] || !NumberUnit(t[0]) then 0 else 1 + CountNumber(t[1..])
  }

  /** Reads up to the closing quote, undoing escapes. */
  function ReadString(t: Str): (r: Option<(Str, Str)>)
    ensures r.Some? ==> |r.value.1| < |t|
  {
    if t == [] then None
    else if t[0] == QUOTE then Some(([], t[1..]))
    else if t[0] != BACKSLASH then Prepend(t[0], ReadString(t[1..]))
    else if |t| < 2 then None
    else if t[1] == 'u' as int then
      if |t| < 6 then None
      else match ReadHex(t[2], t[3], t[4], t[5])
        case None => None
        case Some(u) => Prepend(u, ReadString(t[6..]))
    else match Unescape(t[1])
      case None => None
      case Some(u) => Prepend(u, ReadString(t[2..]))
  }

  function Prepend(u: CodeUnit, r: Option<(Str, Str)>): Option<(Str, Str)> {
    match r
    case None => None
    case Some((s, rest)) => Some(([u] + s, rest))
  }

  function Unescape(u: CodeUnit): Option<CodeUnit> {
    if u == 'b' as int then Some(8)
    else if u == 't' as int then Some(9)
    else if u == 'n' as int then Some(10)
    else if u == 'f' as int then Some(12)
    else if u == 'r' as int then Some(13)
    else if u == QUOTE || u == BACKSLASH then Some(u)
    else None
  }

  function ReadHex(a: CodeUnit, b: CodeUnit, c: CodeUnit, d: CodeUnit): Option<CodeUnit> {
    match (HexValue(a), HexValue(b), HexValue(c), HexValue(d))
    case (Some(w), Some(x), Some(y), Some(z)) =>
      var u: int := 4096 * (w as int) + 256 * (x as int) + 16 * (y as int) + z as int;
      Some(u)
    case _ => None
  }

  function ParseValue(t: Str): (r: Option<(Meaning, Str)>)
    ensures r.Some? ==> |r.value.1| < |t|
    decreases |t|, 1
  {
    if t == [] then None
    else if NULL_TEXT <= t then Some((MNull, t[4..]))
    else if TRUE_TEXT <= t then Some((MBoolean(true), t[4..]))
    else if FALSE_TEXT <= t then Some((MBoolean(false), t[5..]))
    else if t[0] == QUOTE then
      match ReadString(t[1..])
      case None => None
      case Some((s, rest)) => Some((MString(s), rest))
    else if t[0] == OPEN_ARRAY then
      if |t| > 1 && t[1] == CLOSE_ARRAY then Some((MArray([]), t[2..]))
      else match ParseItems(t[1..])
        case None => None
        case Some((ms, rest)) => Some((MArray(ms), rest))
    else if t[0] == OPEN_OBJECT then
      if |t| > 1 && t[1] == CLOSE_OBJECT then Some((MObject(map[]), t[2..]))
      else match ParseMembers(t[1..])
        case None => None
        case Some((ms, rest)) => Some((MObject(ms), rest))
    else
      var n := CountNumber(t);
      if n == 0 then None else Some((MNumber(t[..n]), t[n..]))
  }

  /** One or more values, comma between, up to and with the closing bracket. */
  function ParseItems(t: Str): (r: Option<(seq<Meaning>, Str)>)
    ensures r.Some? ==> |r.value.1| < |t|
    decreases |t|, 2
  {
    match ParseValue(t)
    case None => None
    case Some((m, rest)) =>
      if rest == [] then None
      else if rest[0] == CLOSE_ARRAY then Some(([m], rest[1..]))
      else if rest[0] != COMMA then None
      else match ParseItems(rest[1..])
        case None => None
        case Some((ms, end)) => Some(([m] + ms, end))
  }

  function ParseMembers(t: Str): (r: Option<(map<Str, Meaning>, Str)>)
    ensures r.Some? ==> |r.value.1| < |t|
    decreases |t|, 2
  {
    if t == [] || t[0] != QUOTE then None
    else match ReadString(t[1..])
      case None => None
      case Some((key, after)) =>
        if after == [] || after[0] != COLON then None
        else match ParseValue(after[1..])
          case None => None
          case Some((m, rest)) =>
            if rest == [] then None
            else if rest[0] == CLOSE_OBJECT then Some((map[key := m], rest[1..]))
            else if rest[0] != COMMA then None
            else match ParseMembers(rest[1..])
              case None => None
              case Some((ms, end)) => Some((ms[key := m], end))
  }

  function Parse(t: Str): Option<Meaning> {
    match ParseValue(t)
    case Some((m, rest)) => if rest == [] then Some(m) else None
    case None => None
  }
}
