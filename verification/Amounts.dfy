/** Decimal amounts and stroops: the amount policy, toStroops, and the decimal text a pay
    URI carries. */
module Amounts {
  import opened Text

  const STELLAR_DECIMALS := 7
  const SCALE := 10_000_000
  const PLUS: CodeUnit := '+' as int
  const MINUS: CodeUnit := '-' as int
  const DOT: CodeUnit := '.' as int
  const ZERO: CodeUnit := '0' as int

  // ---------- digits ----------

  predicate AllDigits(s: Str) { forall u :: u in s ==> IsDigit(u) }

  function Pow10(k: nat): (p: nat)
    ensures p >= 1
  {
    if k == 0 then 1 else 10 * Pow10(k - 1)
  }

  /** BigInt of a digit string. */
  function DigitsValue(s: Str): nat
    requires AllDigits(s)
  {
    if s == [] then 0
    else
      assert s[|s| - 1] in s;
      DigitsValue(s[..|s| - 1]) * 10 + (s[|s| - 1] as int - ZERO as int)
  }

  /** BigInt.prototype.toString of a natural number. */
  function DecimalText(n: nat): (s: Str)
    ensures s != [] && AllDigits(s)
  {
    if n < 10 then [ZERO + n] else DecimalText(n / 10) + [ZERO + n % 10]
  }

  function IntegerText(n: int): Str {
    if n < 0 then [MINUS] + DecimalText(-n) else DecimalText(n)
  }

  function Zeros(k: nat): (s: Str)
    ensures |s| == k && AllDigits(s) && forall i :: 0 <= i < k ==> s[i] == ZERO
  {
    seq(k, _ => ZERO)
  }

  lemma {:induction false} DigitsOfText(n: nat)
    ensures DigitsValue(DecimalText(n)) == n
  {
    if n >= 10 {
      DigitsOfText(n / 10);
      var s := DecimalText(n);
      assert s[..|s| - 1] == DecimalText(n / 10);
    }
  }

  lemma DigitsSnoc(s: Str, d: CodeUnit)
    requires AllDigits(s) && IsDigit(d)
    ensures AllDigits(s + [d]) && DigitsValue(s + [d]) == DigitsValue(s) * 10 + (d as int - ZERO as int)
  {
    assert (s + [d])[..|s + [d]| - 1] == s;
  }

  lemma TimesTen(x: nat, p: nat)
    ensures x * p * 10 == x * (10 * p)
  {
  }

  lemma AppendDigit(a: nat, p: nat, c: nat, d: nat)
    ensures (a * p + c) * 10 + d == a * (10 * p) + (c * 10 + d)
  {
    TimesTen(a, p);
  }

  lemma {:induction false} DigitsAppend(a: Str, b: Str)
    requires AllDigits(a) && AllDigits(b)
    ensures DigitsValue(a + b) == DigitsValue(a) * Pow10(|b|) + DigitsValue(b)
  {
    if b == [] {
      assert a + b == a;
    } else {
      var c := b[..|b| - 1];
      DigitsAppend(a, c);
      var d := b[|b| - 1];
      assert d in b && b == c + [d];
      Assoc(a, c, [d]);
      DigitsSnoc(a + c, d);
      DigitsSnoc(c, d);
      AppendDigit(DigitsValue(a), Pow10(|c|), DigitsValue(c), d as int - ZERO as int);
    }
  }

  lemma {:induction false} DigitsBound(s: Str)
    requires AllDigits(s)
    ensures DigitsValue(s) < Pow10(|s|)
  {
    if s != [] {
      DigitsBound(s[..|s| - 1]);
      assert s[|s| - 1] in s;
    }
  }

  lemma {:induction false} ZerosValue(k: nat)
    ensures DigitsValue(Zeros(k)) == 0
  {
    if k > 0 {
      ZerosValue(k - 1);
      assert Zeros(k)[..k - 1] == Zeros(k - 1);
    }
  }

  lemma {:induction false} PowAdd(a: nat, b: nat)
    ensures Pow10(a + b) == Pow10(a) * Pow10(b)
  {
    if a > 0 {
      PowAdd(a - 1, b);
      assert 10 * (Pow10(a - 1) * Pow10(b)) == 10 * Pow10(a - 1) * Pow10(b);
    }
  }

  lemma PowSeven()
    ensures Pow10(7) == SCALE
  {
    assert Pow10(2) == 100 && Pow10(4) == 10_000;
  }

  // ---------- the amount policy ----------

  /** What a caller can pass: nothing, a BigInt stroop count, text, or anything else. */
  datatype Amount = Absent | Big(n: int) | Words(s: Str) | Other

  datatype AmountProblem = Required | NotText | NotDecimal | Negative

  predicate Signed(s: Str) { s != [] && (s[0] == PLUS || s[0] == MINUS) }

  function Unsigned(s: Str): Str { if Signed(s) then s[1..] else s }

  /** An optional sign, digits, and optionally a point and more digits. */
  predicate IsDecimal(s: Str) {
    var parts := Split(Unsigned(s), DOT);
    |parts| <= 2 && forall p :: p in parts ==> p != [] && AllDigits(p)
  }

  function ValidateAmount(a: Amount): seq<AmountProblem> {
    match a
    case Absent => [Required]
    case Big(_) => []
    case Other => [NotText]
    case Words(s) =>
      if s == [] then [Required]
      else if !IsDecimal(s) then [NotDecimal]
      else if s[0] == MINUS then [Negative]
      else []
  }

  function Fraction(s: Str): Str {
    var parts := Split(s, DOT);
    if |parts| > 1 then parts[1] else []
  }

  datatype Stroops = Stroops(text: Str) | Refused(problem: AmountProblem)

  function Truncated(frac: Str): Str {
    if |frac| > STELLAR_DECIMALS then frac[..STELLAR_DECIMALS] else frac
  }

  function ToStroops(a: Amount): Stroops {
    var problems := ValidateAmount(a);
    if problems != [] then Refused(problems[0])
    else if a.Big? then Stroops(IntegerText(a.n))
    else
      AcceptedParts(a.s);
      var whole := Unsigned(Split(a.s, DOT)[0]);
      var frac := Truncated(Fraction(a.s));
      Stroops(DecimalText(DigitsValue(whole + frac + Zeros(STELLAR_DECIMALS - |frac|))))
  }

  /** The digits before and after the point of an accepted text. */
  function Whole(s: Str): Str { Unsigned(Split(s, DOT)[0]) }

  lemma SplitUnsigned(s: Str)
    requires s != [] && s[0] != DOT
    ensures var parts := Split(s, DOT);
      Split(Unsigned(s), DOT) == [Unsigned(parts[0])] + parts[1..] && parts[0] != [] && parts[0][0] == s[0]
  {
    assert s == [s[0]] + s[1..];
    SplitCons(s[0], s[1..], DOT);
  }

  lemma AcceptedParts(s: Str)
    requires ValidateAmount(Words(s)) == []
    ensures AllDigits(Whole(s)) && Whole(s) != [] && AllDigits(Fraction(s))
    ensures Split(Unsigned(s), DOT) == if |Split(s, DOT)| == 1 then [Whole(s)] else [Whole(s), Fraction(s)]
  {
    var parts := Split(Unsigned(s), DOT);
    assert parts[0] in parts;
    SplitCons(s[0], s[1..], DOT);
    assert s == [s[0]] + s[1..];
    SplitUnsigned(s);
    if |parts| > 1 { assert parts[1] in parts; }
  }

  // ---------- exactness ----------

  /** The text denotes Numerator / 10^(number of decimals). */
  function Numerator(s: Str): nat
    requires ValidateAmount(Words(s)) == []
  {
    AcceptedParts(s);
    DigitsValue(Whole(s) + Fraction(s))
  }

  function StroopCount(s: Str): nat
    requires ValidateAmount(Words(s)) == []
  {
    AcceptedParts(s);
    var frac := Truncated(Fraction(s));
    DigitsValue(Whole(s) + frac + Zeros(STELLAR_DECIMALS - |frac|))
  }

  /** v is the integer part of n / p of SCALE. */
  predicate IntegerPart(v: nat, n: nat, p: nat) { v * p <= n * SCALE < (v + 1) * p }

  lemma ShortCount(s: Str)
    requires ValidateAmount(Words(s)) == [] && |Fraction(s)| <= 7
    ensures IntegerPart(StroopCount(s), Numerator(s), Pow10(|Fraction(s)|))
  {
    AcceptedParts(s);
    ShortFraction(Whole(s), Fraction(s));
    assert Truncated(Fraction(s)) == Fraction(s);
  }

  lemma LongCount(s: Str)
    requires ValidateAmount(Words(s)) == [] && |Fraction(s)| > 7
    ensures IntegerPart(StroopCount(s), Numerator(s), Pow10(|Fraction(s)|))
  {
    AcceptedParts(s);
    LongFraction(Whole(s), Fraction(s));
    assert Truncated(Fraction(s)) == Fraction(s)[..7];
  }

  /** toStroops keeps the integer part of amount * 10^7 and drops the rest, at any length. */
  lemma StroopsExact(s: Str)
    requires ValidateAmount(Words(s)) == []
    ensures ToStroops(Words(s)) == Stroops(DecimalText(StroopCount(s)))
    ensures var v, p := StroopCount(s), Pow10(|Fraction(s)|);
      v * p <= Numerator(s) * SCALE < (v + 1) * p
  {
    if |Fraction(s)| <= 7 { ShortCount(s); } else { LongCount(s); }
    assert IntegerPart(StroopCount(s), Numerator(s), Pow10(|Fraction(s)|));
    CountIsWritten(s);
  }

  lemma CountIsWritten(s: Str)
    requires ValidateAmount(Words(s)) == []
    ensures ToStroops(Words(s)) == Stroops(DecimalText(StroopCount(s)))
  {
  }

  lemma ShortFraction(w: Str, f: Str)
    requires AllDigits(w) && AllDigits(f) && |f| <= 7
    ensures var v := DigitsValue(w + f + Zeros(7 - |f|)); var p := Pow10(|f|);
      v == DigitsValue(w + f) * Pow10(7 - |f|) && v * p <= DigitsValue(w + f) * SCALE < (v + 1) * p
  {
    DigitsAppend(w + f, Zeros(7 - |f|));
    ZerosValue(7 - |f|);
    ScaleUp(DigitsValue(w + f), |f|);
  }

  lemma LongFraction(w: Str, f: Str)
    requires AllDigits(w) && AllDigits(f) && |f| > 7
    ensures var v := DigitsValue(w + f[..7] + Zeros(0)); var p := Pow10(|f|);
      v * p <= DigitsValue(w + f) * SCALE < (v + 1) * p
  {
    var t, g := f[..7], f[7..];
    assert w + t + Zeros(0) == w + t && w + f == w + t + g;
    DigitsAppend(w + t, g);
    DigitsBound(g);
    ScaleDown(DigitsValue(w + t), DigitsValue(g), |g|);
  }

  lemma ScaleUp(n: nat, k: nat)
    requires k <= 7
    ensures var v := n * Pow10(7 - k); v * Pow10(k) <= n * SCALE < (v + 1) * Pow10(k)
  {
    PowSeven();
    PowAdd(7 - k, k);
    assert n * Pow10(7 - k) * Pow10(k) == n * (Pow10(7 - k) * Pow10(k));
    Distribute(n * Pow10(7 - k), Pow10(k));
  }

  lemma Distribute(v: nat, p: nat)
    ensures (v + 1) * p == v * p + p
  {
  }

  lemma ScaleDown(v: nat, g: nat, k: nat)
    requires g < Pow10(k)
    ensures var n := v * Pow10(k) + g; v * Pow10(7 + k) <= n * SCALE < (v + 1) * Pow10(7 + k)
  {
    PowSeven();
    PowAdd(7, k);
    var p := Pow10(k);
    assert v * (SCALE * p) == v * p * SCALE;
    Distribute(v, SCALE * p);
    assert (v * p + g) * SCALE == v * p * SCALE + g * SCALE;
  }

  /** A greater amount never has fewer stroops. */
  lemma StroopsMonotone(a: Str, b: Str)
    requires ValidateAmount(Words(a)) == [] && ValidateAmount(Words(b)) == []
    requires Numerator(a) * Pow10(|Fraction(b)|) <= Numerator(b) * Pow10(|Fraction(a)|)
    ensures StroopCount(a) <= StroopCount(b)
  {
    StroopsExact(a);
    StroopsExact(b);
    IntegerPartsOrdered(StroopCount(a), Numerator(a), Pow10(|Fraction(a)|),
      StroopCount(b), Numerator(b), Pow10(|Fraction(b)|));
  }

  lemma IntegerPartsOrdered(v: nat, n: nat, p: nat, w: nat, m: nat, q: nat)
    requires p >= 1 && q >= 1
    requires v * p <= n * SCALE && m * SCALE < (w + 1) * q && n * q <= m * p
    ensures v <= w
  {
    Times(v * p, n * SCALE, q);
    Times(n * q, m * p, SCALE);
    TimesStrict(m * SCALE, (w + 1) * q, p);
    Reorder(n, SCALE, q);
    Reorder(m, p, SCALE);
    Reorder(w + 1, q, p);
    Group(v, p, q);
    Group(w + 1, p, q);
    Cancel(v, w + 1, p * q);
  }

  lemma Reorder(a: nat, b: nat, c: nat)
    ensures a * b * c == a * c * b
  {
  }

  lemma Group(a: nat, b: nat, c: nat)
    ensures a * b * c == a * (b * c)
  {
  }

  lemma Cancel(a: nat, b: nat, k: nat)
    requires a * k < b * k
    ensures a < b
  {
  }

  lemma Times(a: int, b: int, k: nat)
    requires a <= b
    ensures a * k <= b * k
  {
  }

  lemma TimesStrict(a: int, b: int, k: nat)
    requires a < b && k >= 1
    ensures a * k < b * k
  {
  }

  // ---------- the decimal text of a stroop count ----------

  function PadStart(s: Str, width: nat): Str {
    if |s| >= width then s else Zeros(width - |s|) + s
  }

  function StripZeros(s: Str): Str {
    if s != [] && s[|s| - 1] == ZERO then StripZeros(s[..|s| - 1]) else s
  }

  /** BigInt division and remainder round toward zero. */
  function Quotient(n: int): int { if n < 0 then -(-n / SCALE) else n / SCALE }

  function Remainder(n: int): int { if n < 0 then -(-n % SCALE) else n % SCALE }

  /** The SEP-0007 amount payUriFromRequirements makes of a stroop count. */
  function PayAmount(n: int): Str {
    var frac := StripZeros(PadStart(IntegerText(Remainder(n)), STELLAR_DECIMALS));
    IntegerText(Quotient(n)) + if frac == [] then [] else [DOT] + frac
  }

  lemma {:induction false} TextLength(n: nat, k: nat)
    requires k >= 1 && n < Pow10(k)
    ensures |DecimalText(n)| <= k
  {
    if n >= 10 { TextLength(n / 10, k - 1); }
  }

  lemma {:induction false} StripIs(s: Str)
    ensures |StripZeros(s)| <= |s| && s == StripZeros(s) + Zeros(|s| - |StripZeros(s)|)
  {
    if s != [] && s[|s| - 1] == ZERO {
      var t := s[..|s| - 1];
      StripIs(t);
      var k := |t| - |StripZeros(t)|;
      assert Zeros(k + 1) == Zeros(k) + [ZERO];
      assert s == t + [ZERO];
    }
  }

  lemma DigitsOnly(s: Str)
    requires AllDigits(s)
    ensures DOT !in s && !Signed(s)
  {
    assert s != [] ==> s[0] in s;
  }

  lemma PaddedText(r: nat) returns (padded: Str)
    requires r < SCALE
    ensures padded == PadStart(IntegerText(r), STELLAR_DECIMALS)
    ensures AllDigits(padded) && |padded| == 7 && DigitsValue(padded) == r
  {
    var text := DecimalText(r);
    SevenDigits(r);
    DigitsOfText(r);
    LeadingZeros(text, 7 - |text|);
    PadIs(text, 7);
    padded := PadStart(text, 7);
  }

  lemma SevenDigits(r: nat)
    requires r < SCALE
    ensures |DecimalText(r)| <= 7
  {
    PowSeven();
    TextLength(r, 7);
  }

  lemma PadIs(text: Str, width: nat)
    requires |text| <= width
    ensures PadStart(text, width) == Zeros(width - |text|) + text && |PadStart(text, width)| == width
  {
    assert Zeros(0) + text == text;
  }

  lemma LeadingZeros(text: Str, k: nat)
    requires AllDigits(text)
    ensures AllDigits(Zeros(k) + text) && DigitsValue(Zeros(k) + text) == DigitsValue(text)
  {
    ZerosValue(k);
    DigitsAppend(Zeros(k), text);
  }

  lemma FractionText(r: nat) returns (frac: Str)
    requires r < SCALE
    ensures frac == StripZeros(PadStart(IntegerText(r), STELLAR_DECIMALS))
    ensures AllDigits(frac) && |frac| <= 7 && DigitsValue(frac + Zeros(7 - |frac|)) == r
  {
    var padded := PaddedText(r);
    frac := StripZeros(padded);
    StripIs(padded);
    assert forall u :: u in frac ==> u in padded;
  }

  /** The text of a whole number and at most seven decimals. */
  lemma SplitAmount(w: Str, f: Str)
    requires AllDigits(w) && w != [] && AllDigits(f)
    ensures var s := w + if f == [] then [] else [DOT] + f;
      ValidateAmount(Words(s)) == [] && Whole(s) == w && Fraction(s) == f
  {
    DigitsOnly(w);
    DigitsOnly(f);
    SplitWithout(w, DOT);
    SplitWithout(f, DOT);
    var s := w + if f == [] then [] else [DOT] + f;
    assert w[0] in w;
    if f == [] {
      assert s == w;
    } else {
      SplitAtSeparator(w, f, DOT);
      assert s == w + [DOT] + f;
    }
  }

  /** For every stroop count the text is accepted, has at most seven decimals, and means
      that count again. */
  lemma PayAmountRoundTrip(n: nat)
    ensures ValidateAmount(Words(PayAmount(n))) == []
    ensures |Fraction(PayAmount(n))| <= STELLAR_DECIMALS
    ensures ToStroops(Words(PayAmount(n))) == Stroops(DecimalText(n))
  {
    var frac := FractionText(n % SCALE);
    SplitAmount(DecimalText(n / SCALE), frac);
    StroopDigits(n, frac);
  }

  lemma {:induction false} NoLeadingZero(n: nat)
    ensures n > 0 ==> DecimalText(n)[0] != ZERO
  {
    if n >= 10 { NoLeadingZero(n / 10); }
  }

  lemma {:induction false} Stripped(s: Str)
    ensures StripZeros(s) != [] ==> StripZeros(s)[|StripZeros(s)| - 1] != ZERO
    ensures StripZeros(s) == [] <==> forall u :: u in s ==> u == ZERO
  {
    if s != [] {
      var init, last := s[..|s| - 1], s[|s| - 1];
      assert s == init + [last] && last in s;
      if last == ZERO {
        Stripped(init);
        assert (forall u :: u in s ==> u == ZERO) <==> forall u :: u in init ==> u == ZERO by {
          assert forall u :: u in s <==> u in init || u == last;
        }
      }
    }
  }

  lemma {:induction false} OnlyZeros(s: Str)
    requires AllDigits(s) && DigitsValue(s) == 0
    ensures forall u :: u in s ==> u == ZERO
  {
    if s != [] {
      assert s == s[..|s| - 1] + [s[|s| - 1]];
      assert s[|s| - 1] in s;
      OnlyZeros(s[..|s| - 1]);
    }
  }

  /** The text is the shortest: no zero leads but a single one, none ends the decimals, and there
      is a point exactly when the count is no whole number of units. */
  lemma PayAmountIsShortest(n: nat)
    ensures var s := PayAmount(n);
      && (DOT in s <==> n % SCALE != 0)
      && (n >= SCALE ==> s[0] != ZERO) && (n < SCALE ==> s[0] == ZERO && (|s| == 1 || s[1] == DOT))
      && (DOT in s ==> s[|s| - 1] != ZERO)
  {
    var whole := DecimalText(n / SCALE);
    var padded := PaddedText(n % SCALE);
    Stripped(padded);
    NoLeadingZero(n / SCALE);
    DigitsOnly(whole);
    if forall u :: u in padded ==> u == ZERO {
      forall i | 0 <= i < 7 ensures padded[i] == ZERO {
        assert padded[i] in padded;
      }
      assert padded == Zeros(7);
      ZerosValue(7);
    }
    if n % SCALE == 0 { OnlyZeros(padded); }
  }

  lemma StroopDigits(n: nat, frac: Str)
    requires AllDigits(frac) && |frac| <= 7 && DigitsValue(frac + Zeros(7 - |frac|)) == n % SCALE
    ensures DigitsValue(DecimalText(n / SCALE) + frac + Zeros(7 - |frac|)) == n
  {
    DigitsOfText(n / SCALE);
    DigitsAppend(DecimalText(n / SCALE), frac + Zeros(7 - |frac|));
    Assoc(DecimalText(n / SCALE), frac, Zeros(7 - |frac|));
    PowSeven();
  }

  // ---------- negative counts ----------

  lemma {:induction false} StripKeepsSign(s: Str)
    requires MINUS in s
    ensures MINUS in StripZeros(s)
  {
    if s[|s| - 1] == ZERO {
      assert s == s[..|s| - 1] + [ZERO];
      StripKeepsSign(s[..|s| - 1]);
    }
  }

  lemma SignedTail(w: Str, f: Str)
    requires AllDigits(w) && w != [] && MINUS in f
    ensures ValidateAmount(Words(w + [DOT] + f)) != []
  {
    var s := w + [DOT] + f;
    assert w[0] in w && Unsigned(s) == s;
    DigitsOnly(w);
    SplitWithout(w, DOT);
    SplitAtSeparator(w, f, DOT);
    SplitKeeps(f, MINUS, DOT);
    var p :| p in Split(f, DOT) && MINUS in p;
    assert p in Split(s, DOT) && !AllDigits(p);
  }

  lemma {:induction false} SplitKeeps(s: Str, u: CodeUnit, sep: CodeUnit)
    requires u in s && u != sep
    ensures exists p :: p in Split(s, sep) && u in p
  {
    var rest := Split(s[1..], sep);
    assert s == [s[0]] + s[1..];
    if s[0] == u {
      assert ([s[0]] + rest[0]) in Split(s, sep);
    } else {
      SplitKeeps(s[1..], u, sep);
      var p :| p in rest && u in p;
      if s[0] == sep || p != rest[0] {
        assert p in Split(s, sep);
      } else {
        assert u in [s[0]] + rest[0] && ([s[0]] + rest[0]) in Split(s, sep);
      }
    }
  }

  lemma NegativeRefused(n: int)
    requires n < 0
    ensures ValidateAmount(Words(PayAmount(n))) != []
  {
    var padded := PadStart(IntegerText(Remainder(n)), STELLAR_DECIMALS);
    if Quotient(n) < 0 {
      assert PayAmount(n)[0] == MINUS;
      LeadingMinus(PayAmount(n));
    } else {
      var frac := StripZeros(padded);
      PadKeeps(IntegerText(Remainder(n)), STELLAR_DECIMALS, MINUS);
      StripKeepsSign(padded);
      SignedTail(DecimalText(0), frac);
      Assoc(DecimalText(0), [DOT], frac);
      NoWhole(n, frac);
    }
  }

  lemma NoWhole(n: int, frac: Str)
    requires Quotient(n) == 0 && frac != []
    requires frac == StripZeros(PadStart(IntegerText(Remainder(n)), STELLAR_DECIMALS))
    ensures PayAmount(n) == DecimalText(0) + ([DOT] + frac)
  {
    assert IntegerText(0) == DecimalText(0);
  }

  lemma PadKeeps(s: Str, width: nat, u: CodeUnit)
    requires u in s
    ensures u in PadStart(s, width)
  {
  }

  lemma LeadingMinus(s: Str)
    requires s != [] && s[0] == MINUS
    ensures ValidateAmount(Words(s)) != []
  {
  }

  /** A pay amount passes validation exactly when the stroop count is not negative. */
  lemma PayAmountAcceptedIff(n: int)
    ensures ValidateAmount(Words(PayAmount(n))) == [] <==> n >= 0
  {
    if n >= 0 {
      PayAmountRoundTrip(n);
    } else {
      NegativeRefused(n);
    }
  }

  /** toStroops lets a negative amount through exactly when it is a negative BigInt. */
  lemma NegativeExactly(a: Amount)
    ensures (ToStroops(a).Stroops? && ToStroops(a).text != [] && ToStroops(a).text[0] == MINUS)
      <==> (a.Big? && a.n < 0)
  {
    var r := ToStroops(a);
    if r.Stroops? {
      assert forall n: nat :: DecimalText(n)[0] in DecimalText(n);
    }
  }
}
