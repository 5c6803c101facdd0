/** encodeURIComponent and decodeURIComponent: UTF-16 to UTF-8 to percent-escapes, and
    back. None stands for the URIError both throw. */
module PercentCoding {
  import opened Text

  type Byte = b: int | 0 <= b < 256

  const PERCENT: CodeUnit := '%' as int

  /** The units encodeURIComponent leaves alone. */
  predicate Unreserved(u: CodeUnit) {
    IsDigit(u) || 'A' as int <= u <= 'Z' as int || 'a' as int <= u <= 'z' as int
    || u in {'-' as int, '_' as int, '.' as int, '!' as int, '~' as int, '*' as int,
             '\'' as int, '(' as int, ')' as int}
  }

  /** A code point that is not a surrogate. */
  predicate Scalar(c: int) { 0 <= c < 0xD800 || 0xE000 <= c < 0x11_0000 }

  function Utf8(c: int): seq<Byte>
    requires Scalar(c)
  {
    if c < 0x80 then [c]
    else if c < 0x800 then [0xC0 + c / 64, 0x80 + c % 64]
    else if c < 0x1_0000 then [0xE0 + c / 4096, 0x80 + c / 64 % 64, 0x80 + c % 64]
    else [0xF0 + c / 262144, 0x80 + c / 4096 % 64, 0x80 + c / 64 % 64, 0x80 + c % 64]
  }

  function Utf16(c: int): Str
    requires Scalar(c)
  {
    if c < 0x1_0000 then [c]
    else [0xD800 + (c - 0x1_0000) / 1024, 0xDC00 + (c - 0x1_0000) % 1024]
  }

  function Escape(bytes: seq<Byte>): Str {
    if bytes == [] then []
    else [PERCENT, HexUpper(bytes[0] / 16), HexUpper(bytes[0] % 16)] + Escape(bytes[1..])
  }

  /** Length and code point of the character at the front of s; None on a lone surrogate. */
  function FirstChar(s: Str): (r: Option<(nat, int)>)
    requires s != []
    ensures r.Some? ==> 1 <= r.value.0 <= |s| && Scalar(r.value.1) && Utf16(r.value.1) == s[..r.value.0]
  {
    if !IsHigh(s[0]) && !IsLow(s[0]) then Some((1, s[0]))
    else if IsHigh(s[0]) && |s| > 1 && IsLow(s[1]) then
      var c: int := 0x1_0000 + (s[0] as int - 0xD800) * 1024 + (s[1] as int - 0xDC00); Some((2, c))
    else None
  }

  function Encode(s: Str): Option<Str> {
    if s == [] then Some([])
    else match FirstChar(s)
      case None => None
      case Some((n, c)) =>
        match Encode(s[n..])
        case None => None
        case Some(rest) =>
          Some((if Unreserved(s[0]) then [s[0]] else Escape(Utf8(c))) + rest)
  }

  /** The byte of a percent-escape at the front of t. */
  function ReadByte(t: Str): Option<Byte> {
    if |t| < 3 || t[0] != PERCENT then None
    else match (HexValue(t[1]), HexValue(t[2]))
      case (Some(a), Some(b)) => var v: int := 16 * (a as int) + b as int; Some(v)
      case _ => None
  }

  /** A continuation byte's six bits. */
  function ReadTail(t: Str): (r: Option<int>)
    ensures r.Some? ==> |t| >= 3 && 0 <= r.value < 64
  {
    match ReadByte(t)
    case Some(b) => if 0x80 <= b < 0xC0 then Some(b - 0x80) else None
    case None => None
  }

  /** Units consumed and code point of the escaped character at the front of t. Overlong
      forms, surrogates and code points past U+10FFFF are malformed. */
  function ReadEscaped(t: Str): (r: Option<(nat, int)>)
    ensures r.Some? ==> 1 <= r.value.0 <= |t| && Scalar(r.value.1)
  {
    match ReadByte(t)
    case None => None
    case Some(b) =>
      if b < 0x80 then Some((3, b))
      else if 0xC0 <= b < 0xE0 then
        (match ReadTail(t[3..])
         case None => None
         case Some(x) =>
           var c := (b - 0xC0) * 64 + x;
           if c >= 0x80 then Some((6, c)) else None)
      else if 0xE0 <= b < 0xF0 then
        (match ReadTail(t[3..])
         case None => None
         case Some(x) =>
           match ReadTail(t[6..])
           case None => None
           case Some(y) =>
             var c := (b - 0xE0) * 4096 + x * 64 + y;
             if c >= 0x800 && Scalar(c) then Some((9, c)) else None)
      else if 0xF0 <= b < 0xF8 then
        (match ReadTail(t[3..])
         case None => None
         case Some(x) =>
           match ReadTail(t[6..])
           case None => None
           case Some(y) =>
             match ReadTail(t[9..])
             case None => None
             case Some(z) =>
               var c := (b - 0xF0) * 262144 + x * 4096 + y * 64 + z;
               if c >= 0x1_0000 && Scalar(c) then Some((12, c)) else None)
      else None
  }

  function Decode(t: Str): Option<Str> {
    if t == [] then Some([])
    else if t[0] != PERCENT then
      match Decode(t[1..])
      case None => None
      case Some(rest) => Some([t[0]] + rest)
    else match ReadEscaped(t)
      case None => None
      case Some((n, c)) =>
        match Decode(t[n..])
        case None => None
        case Some(rest) => Some(Utf16(c) + rest)
  }

  // ---------- decoding undoes encoding ----------

  lemma ReadByteOf(b: Byte, t: Str)
    ensures ReadByte([PERCENT, HexUpper(b / 16), HexUpper(b % 16)] + t) == Some(b)
    ensures ([PERCENT, HexUpper(b / 16), HexUpper(b % 16)] + t)[3..] == t
  {
    assert HexValue(HexUpper(b / 16)) == Some(b / 16) && HexValue(HexUpper(b % 16)) == Some(b % 16);
  }

  lemma EscapeCons(b: Byte, bs: seq<Byte>, t: Str)
    ensures Escape([b] + bs) + t == [PERCENT, HexUpper(b / 16), HexUpper(b % 16)] + (Escape(bs) + t)
    ensures ReadByte(Escape([b] + bs) + t) == Some(b)
    ensures |Escape([b] + bs) + t| >= 3 && (Escape([b] + bs) + t)[3..] == Escape(bs) + t
  {
    assert ([b] + bs)[1..] == bs;
    Assoc([PERCENT, HexUpper(b / 16), HexUpper(b % 16)], Escape(bs), t);
    ReadByteOf(b, Escape(bs) + t);
  }

  lemma Drop(t: Str, i: nat, j: nat)
    requires i + j <= |t|
    ensures t[i..][j..] == t[i + j..]
  {
  }

  lemma ReadEscapedOne(c: int, t: Str)
    requires 0 <= c < 0x80
    ensures ReadEscaped(Escape(Utf8(c)) + t) == Some((3, c)) && (Escape(Utf8(c)) + t)[3..] == t
  {
    assert Utf8(c) == [c] + [];
    EscapeCons(c, [], t);
    assert Escape([]) + t == t;
  }

  lemma ReadEscapedTwo(c: int, t: Str)
    requires 0x80 <= c < 0x800
    ensures ReadEscaped(Escape(Utf8(c)) + t) == Some((6, c)) && (Escape(Utf8(c)) + t)[6..] == t
  {
    var bs := Utf8(c);
    var s := Escape(bs) + t;
    assert bs == [bs[0]] + bs[1..] && bs[1..] == [bs[1]] + [];
    EscapeCons(bs[0], bs[1..], t);
    EscapeCons(bs[1], [], t);
    assert Escape([]) + t == t;
    Drop(s, 3, 3);
    assert ReadTail(s[3..]) == Some(c % 64);
    assert c == c / 64 * 64 + c % 64;
  }

  lemma ReadThree(s: Str, b: Byte, x: int, y: int)
    requires |s| >= 9 && ReadByte(s) == Some(b) && 0xE0 <= b < 0xF0
    requires ReadTail(s[3..]) == Some(x) && ReadTail(s[6..]) == Some(y)
    ensures var c := (b - 0xE0) * 4096 + x * 64 + y;
      c >= 0x800 && Scalar(c) ==> ReadEscaped(s) == Some((9, c))
  {
  }

  lemma ReadFour(s: Str, b: Byte, x: int, y: int, z: int)
    requires |s| >= 12 && ReadByte(s) == Some(b) && 0xF0 <= b < 0xF8
    requires ReadTail(s[3..]) == Some(x) && ReadTail(s[6..]) == Some(y) && ReadTail(s[9..]) == Some(z)
    ensures var c := (b - 0xF0) * 262144 + x * 4096 + y * 64 + z;
      c >= 0x1_0000 && Scalar(c) ==> ReadEscaped(s) == Some((12, c))
  {
  }

  lemma Tail(x: int, bs: seq<Byte>, t: Str)
    requires 0 <= x < 64
    ensures var s := Escape([0x80 + x] + bs) + t;
      ReadTail(s) == Some(x) && |s| >= 3 && s[3..] == Escape(bs) + t
  {
    var b: Byte := 0x80 + x;
    EscapeCons(b, bs, t);
    TailByte(Escape([b] + bs) + t, x);
  }

  lemma TailByte(s: Str, x: int)
    requires 0 <= x < 64 && ReadByte(s) == Some(0x80 + x)
    ensures ReadTail(s) == Some(x)
  {
  }

  lemma ThreeBytes(b: Byte, x: int, y: int, t: Str)
    requires 0xE0 <= b < 0xF0 && 0 <= x < 64 && 0 <= y < 64
    ensures var c := (b - 0xE0) * 4096 + x * 64 + y;
      var s := Escape([b] + ([0x80 + x] + [0x80 + y])) + t;
      c >= 0x800 && Scalar(c) ==> ReadEscaped(s) == Some((9, c)) && s[9..] == t
  {
    var r2: seq<Byte> := [0x80 + y];
    var r1 := [0x80 + x] + r2;
    var s := Escape([b] + r1) + t;
    EscapeCons(b, r1, t);
    Tail(x, r2, t);
    assert r2 == [0x80 + y] + [];
    Tail(y, [], t);
    assert Escape([]) + t == t;
    Drop(s, 3, 3);
    Drop(s, 6, 3);
    ReadThree(s, b, x, y);
  }

  lemma FourBytes(b: Byte, x: int, y: int, z: int, t: Str)
    requires 0xF0 <= b < 0xF8 && 0 <= x < 64 && 0 <= y < 64 && 0 <= z < 64
    ensures var c := (b - 0xF0) * 262144 + x * 4096 + y * 64 + z;
      var s := Escape([b] + ([0x80 + x] + ([0x80 + y] + [0x80 + z]))) + t;
      c >= 0x1_0000 && Scalar(c) ==> ReadEscaped(s) == Some((12, c)) && s[12..] == t
  {
    var r3: seq<Byte> := [0x80 + z];
    var r2 := [0x80 + y] + r3;
    var r1 := [0x80 + x] + r2;
    var s := Escape([b] + r1) + t;
    EscapeCons(b, r1, t);
    Tail(x, r2, t);
    Tail(y, r3, t);
    assert r3 == [0x80 + z] + [];
    Tail(z, [], t);
    assert Escape([]) + t == t;
    Drop(s, 3, 3);
    Drop(s, 6, 3);
    Drop(s, 9, 3);
    ReadFour(s, b, x, y, z);
  }

  lemma SplitThree(c: int) returns (b: Byte, x: int, y: int)
    requires 0x800 <= c < 0x1_0000
    ensures 0xE0 <= b < 0xF0 && 0 <= x < 64 && 0 <= y < 64
    ensures c == (b - 0xE0) * 4096 + x * 64 + y
    ensures [b, 0x80 + x, 0x80 + y] == [0xE0 + c / 4096, 0x80 + c / 64 % 64, 0x80 + c % 64]
  {
    b, x, y := 0xE0 + c / 4096, c / 64 % 64, c % 64;
  }

  lemma SplitFour(c: int) returns (b: Byte, x: int, y: int, z: int)
    requires 0x1_0000 <= c < 0x11_0000
    ensures 0xF0 <= b < 0xF8 && 0 <= x < 64 && 0 <= y < 64 && 0 <= z < 64
    ensures c == (b - 0xF0) * 262144 + x * 4096 + y * 64 + z
    ensures [b, 0x80 + x, 0x80 + y, 0x80 + z]
      == [0xF0 + c / 262144, 0x80 + c / 4096 % 64, 0x80 + c / 64 % 64, 0x80 + c % 64]
  {
    var u, v := c / 64, c / 4096;
    b, x, y, z := 0xF0 + c / 262144, v % 64, u % 64, c % 64;
    assert v == u / 64 && c / 262144 == v / 64;
    assert c == 64 * u + z && u == 64 * v + y && v == 64 * (c / 262144) + x;
  }

  lemma ReadEscapedThree(c: int, t: Str)
    requires 0x800 <= c < 0x1_0000 && Scalar(c)
    ensures ReadEscaped(Escape(Utf8(c)) + t) == Some((9, c)) && (Escape(Utf8(c)) + t)[9..] == t
  {
    var b, x, y := SplitThree(c);
    ThreeBytes(b, x, y, t);
    assert Utf8(c) == [b, 0x80 + x, 0x80 + y];
    assert [b, 0x80 + x, 0x80 + y] == [b] + ([0x80 + x] + [0x80 + y]);
  }

  lemma ReadEscapedFour(c: int, t: Str)
    requires 0x1_0000 <= c < 0x11_0000
    ensures ReadEscaped(Escape(Utf8(c)) + t) == Some((12, c)) && (Escape(Utf8(c)) + t)[12..] == t
  {
    var b, x, y, z := SplitFour(c);
    FourBytes(b, x, y, z, t);
    assert Utf8(c) == [b, 0x80 + x, 0x80 + y, 0x80 + z];
    assert [b, 0x80 + x, 0x80 + y, 0x80 + z] == [b] + ([0x80 + x] + ([0x80 + y] + [0x80 + z]));
  }

  lemma ReadEscapedBack(c: int, t: Str)
    requires Scalar(c)
    ensures var s := Escape(Utf8(c)) + t;
      s != [] && s[0] == PERCENT && ReadEscaped(s).Some? &&
      ReadEscaped(s).value.1 == c && s[ReadEscaped(s).value.0..] == t
  {
    if c < 0x80 { ReadEscapedOne(c, t); }
    else if c < 0x800 { ReadEscapedTwo(c, t); }
    else if c < 0x1_0000 { ReadEscapedThree(c, t); }
    else { ReadEscapedFour(c, t); }
  }

  /** decodeURIComponent(encodeURIComponent(s)) is s, for every s that can be encoded. */
  lemma {:induction false} DecodeEncode(s: Str)
    requires Encode(s).Some?
    ensures Decode(Encode(s).value) == Some(s)
  {
    if s != [] {
      var (n, c) := FirstChar(s).value;
      var rest := Encode(s[n..]).value;
      DecodeEncode(s[n..]);
      assert s == s[..n] + s[n..];
      DecodeFront(s, n, c, rest);
    }
  }

  lemma DecodeFront(s: Str, n: nat, c: int, rest: Str)
    requires s != [] && FirstChar(s) == Some((n, c)) && Decode(rest).Some?
    ensures Decode((if Unreserved(s[0]) then [s[0]] else Escape(Utf8(c))) + rest) == Some(s[..n] + Decode(rest).value)
  {
    if Unreserved(s[0]) { DecodePlain(s[0], rest); } else { DecodeEscaped(c, rest); }
  }

  lemma DecodeEscaped(c: int, rest: Str)
    requires Scalar(c) && Decode(rest).Some?
    ensures Decode(Escape(Utf8(c)) + rest) == Some(Utf16(c) + Decode(rest).value)
  {
    ReadEscapedBack(c, rest);
  }

  lemma DecodePlain(u: CodeUnit, rest: Str)
    requires Unreserved(u) && Decode(rest).Some?
    ensures Decode([u] + rest) == Some([u] + Decode(rest).value)
  {
    assert ([u] + rest)[1..] == rest;
  }

  /** Encoded text is made of unreserved units and escapes: no separator survives. */
  lemma {:induction false} EncodedUnits(s: Str)
    requires Encode(s).Some?
    ensures forall u :: u in Encode(s).value ==> Unreserved(u) || u == PERCENT
    ensures s != [] ==> Encode(s).value != []
  {
    if s != [] {
      var (n, c) := FirstChar(s).value;
      EncodedUnits(s[n..]);
      EscapedUnits(Utf8(c));
    }
  }

  lemma {:induction false} EscapedUnits(bytes: seq<Byte>)
    ensures forall u :: u in Escape(bytes) ==> Unreserved(u) || u == PERCENT
    ensures bytes != [] ==> Escape(bytes) != []
  {
    if bytes != [] { EscapedUnits(bytes[1..]); }
  }

  lemma DecodeNonEmpty(t: Str)
    requires t != [] && Decode(t).Some?
    ensures Decode(t).value != []
  {
  }

  // ---------- which strings can be encoded ----------

  /** Every surrogate is half of a pair, in order. */
  ghost predicate PairedAt(s: Str, i: int)
    requires 0 <= i < |s|
  {
    && (IsHigh(s[i]) ==> i + 1 < |s| && IsLow(s[i + 1]))
    && (IsLow(s[i]) ==> i > 0 && IsHigh(s[i - 1]))
  }

  ghost predicate WellFormed(s: Str) {
    forall i :: 0 <= i < |s| ==> PairedAt(s, i)
  }

  lemma WellFormedTail(s: Str, n: nat)
    requires s != [] && FirstChar(s).Some? && n == FirstChar(s).value.0
    ensures WellFormed(s) <==> WellFormed(s[n..])
  {
    var r := s[n..];
    if WellFormed(r) {
      forall i | 0 <= i < |s| ensures PairedAt(s, i) {
        if i >= n { assert s[i] == r[i - n] && PairedAt(r, i - n); }
      }
    }
    if WellFormed(s) {
      forall i | 0 <= i < |r| ensures PairedAt(r, i) {
        assert r[i] == s[i + n] && PairedAt(s, i + n);
        assert PairedAt(s, n - 1);
      }
    }
  }

  lemma {:induction false} EncodesExactlyWellFormed(s: Str)
    ensures Encode(s).Some? <==> WellFormed(s)
  {
    if s != [] {
      if FirstChar(s).None? {
        assert !PairedAt(s, 0);
      } else {
        WellFormedTail(s, FirstChar(s).value.0);
        EncodesExactlyWellFormed(s[FirstChar(s).value.0..]);
      }
    }
  }

  // ---------- the text of an encoding ----------

  /** Letters, digits and - _ . ! ~ * ' ( ), by their codes. */
  predicate Kept(u: CodeUnit) {
    65 <= u <= 90 || 97 <= u <= 122 || 48 <= u <= 57 || u in {45, 95, 46, 33, 126, 42, 39, 40, 41}
  }

  lemma UnreservedIsKept(u: CodeUnit)
    ensures Unreserved(u) <==> Kept(u)
  {
  }

  predicate HexUnit(u: CodeUnit) { '0' as int <= u <= '9' as int || 'A' as int <= u <= 'F' as int }

  /** Units that are kept, and percent signs each with two upper-case hexadecimal digits. */
  predicate Escaped(t: Str) {
    t == [] || (if t[0] == '%' as int then |t| >= 3 && HexUnit(t[1]) && HexUnit(t[2]) && Escaped(t[3..])
                else Kept(t[0]) && Escaped(t[1..]))
  }

  lemma {:induction false} EscapeIsEscaped(bytes: seq<Byte>, rest: Str)
    requires Escaped(rest)
    ensures Escaped(Escape(bytes) + rest)
  {
    if bytes == [] {
      assert Escape(bytes) + rest == rest;
    } else {
      var front := [PERCENT, HexUpper(bytes[0] / 16), HexUpper(bytes[0] % 16)];
      EscapeIsEscaped(bytes[1..], rest);
      Assoc(front, Escape(bytes[1..]), rest);
      assert (front + (Escape(bytes[1..]) + rest))[3..] == Escape(bytes[1..]) + rest;
    }
  }

  /** An encoding is of that form. */
  lemma {:induction false} EncodesUpperCase(s: Str)
    requires Encode(s).Some?
    ensures Escaped(Encode(s).value)
  {
    if s != [] {
      var (n, c) := FirstChar(s).value;
      var rest := Encode(s[n..]).value;
      EncodesUpperCase(s[n..]);
      UnreservedIsKept(s[0]);
      if Unreserved(s[0]) {
        assert Encode(s).value[1..] == rest;
      } else {
        EscapeIsEscaped(Utf8(c), rest);
      }
    }
  }
}
