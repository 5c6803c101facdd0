/** Canonical text is parsed back to the meaning of the value, so two values without
    sparse arrays share their text exactly when they share their meaning. */
module CanonicalJsonTheorems {
  import opened Text
  import opened CanonicalJson

  // ---------- strings ----------

  lemma ReadPlain(u: CodeUnit, t: Str)
    requires u != QUOTE && u != BACKSLASH
    ensures ReadString([u] + t) == Prepend(u, ReadString(t))
  {
    assert ([u] + t)[1..] == t;
  }

  lemma ReadShort(x: CodeUnit, u: CodeUnit, t: Str)
    requires x != 'u' as int && Unescape(x) == Some(u)
    ensures ReadString([BACKSLASH, x] + t) == Prepend(u, ReadString(t))
  {
    assert ([BACKSLASH, x] + t)[2..] == t;
  }

  lemma HexDigit(n: Nibble)
    ensures HexValue(HexLower(n)) == Some(n)
  {
  }

  lemma Nibbles(u: CodeUnit)
    ensures u == 4096 * (u / 4096) + 256 * (u / 256 % 16) + 16 * (u / 16 % 16) + u % 16
  {
    assert u / 16 / 16 == u / 256 && u / 256 / 16 == u / 4096;
  }

  lemma HexDigits(u: CodeUnit, a: Nibble, b: Nibble, c: Nibble, d: Nibble)
    requires u == 4096 * a + 256 * b + 16 * c + d
    ensures ReadHex(HexLower(a), HexLower(b), HexLower(c), HexLower(d)) == Some(u)
  {
    HexDigit(a);
    HexDigit(b);
    HexDigit(c);
    HexDigit(d);
  }

  lemma ReadLong(a: CodeUnit, b: CodeUnit, c: CodeUnit, d: CodeUnit, u: CodeUnit, t: Str)
    requires ReadHex(a, b, c, d) == Some(u)
    ensures ReadString([BACKSLASH, 'u' as int, a, b, c, d] + t) == Prepend(u, ReadString(t))
  {
    assert ([BACKSLASH, 'u' as int, a, b, c, d] + t)[6..] == t;
  }

  lemma ReadEscaped(u: CodeUnit, t: Str)
    ensures ReadString(EscapeUnit(u) + t) == Prepend(u, ReadString(t))
  {
    var e := EscapeUnit(u);
    if |e| == 1 {
      ReadPlain(u, t);
    } else if |e| == 2 {
      ReadShort(e[1], u, t);
    } else {
      Nibbles(u);
      HexDigits(u, u / 4096, u / 256 % 16, u / 16 % 16, u % 16);
      ReadLong(e[2], e[3], e[4], e[5], u, t);
    }
  }

  lemma ReadPair(u: CodeUnit, w: CodeUnit, t: Str)
    requires IsHigh(u) && IsLow(w)
    ensures ReadString([u, w] + t) == Prepend(u, Prepend(w, ReadString(t)))
  {
    assert [u, w] + t == [u] + ([w] + t);
    ReadPlain(u, [w] + t);
    ReadPlain(w, t);
  }

  /** JSON.stringify of a string loses nothing, lone surrogates included. */
  lemma {:induction false} QuoteRoundTrip(s: Str, rest: Str)
    ensures ReadString(QuoteBody(s) + [QUOTE] + rest) == Some((s, rest))
  {
    if s == [] {
      ReadEnd(rest);
      assert QuoteBody(s) + [QUOTE] + rest == [QUOTE] + rest;
    } else if |s| > 1 && IsHigh(s[0]) && IsLow(s[1]) {
      QuoteRoundTrip(s[2..], rest);
      QuotePair(s, rest);
      ReadPair(s[0], s[1], QuoteBody(s[2..]) + [QUOTE] + rest);
      assert [s[0]] + ([s[1]] + s[2..]) == s;
    } else {
      QuoteRoundTrip(s[1..], rest);
      QuoteUnit(s, rest);
      ReadEscaped(s[0], QuoteBody(s[1..]) + [QUOTE] + rest);
      assert [s[0]] + s[1..] == s;
    }
  }

  lemma ReadEnd(rest: Str)
    ensures ReadString([QUOTE] + rest) == Some(([], rest))
  {
    assert ([QUOTE] + rest)[1..] == rest;
  }

  lemma QuotePair(s: Str, rest: Str)
    requires |s| > 1 && IsHigh(s[0]) && IsLow(s[1])
    ensures QuoteBody(s) + [QUOTE] + rest == [s[0], s[1]] + (QuoteBody(s[2..]) + [QUOTE] + rest)
  {
    var b := QuoteBody(s[2..]);
    assert QuoteBody(s) == [s[0], s[1]] + b by { assert s[..2] == [s[0], s[1]]; }
    Enclosed([s[0], s[1]], b, rest);
  }

  lemma Enclosed(e: Str, b: Str, rest: Str)
    ensures e + b + [QUOTE] + rest == e + (b + [QUOTE] + rest)
  {
    Assoc(e, b, [QUOTE]);
    Assoc(e, b + [QUOTE], rest);
  }

  lemma QuoteUnit(s: Str, rest: Str)
    requires s != [] && !(|s| > 1 && IsHigh(s[0]) && IsLow(s[1]))
    ensures QuoteBody(s) + [QUOTE] + rest == EscapeUnit(s[0]) + (QuoteBody(s[1..]) + [QUOTE] + rest)
  {
    Enclosed(EscapeUnit(s[0]), QuoteBody(s[1..]), rest);
  }

  // ---------- numbers ----------

  ghost predicate Stops(rest: Str) { rest == [] || !NumberUnit(rest[0]) }

  lemma {:induction false} CountNumberText(text: Str, rest: Str)
    requires (forall u :: u in text ==> NumberUnit(u)) && Stops(rest)
    ensures CountNumber(text + rest) == |text|
  {
    if text == [] {
      assert text + rest == rest;
    } else {
      assert (text + rest)[1..] == text[1..] + rest;
      CountNumberText(text[1..], rest);
    }
  }

  // ---------- the first unit of a text decides how it is read ----------

  lemma CanonStarts(v: Value)
    requires Canon(v).Some?
    ensures var t := Canon(v).value; t != [] && t[0] != CLOSE_ARRAY && t[0] != CLOSE_OBJECT
  {
  }

  lemma JoinCons(part: Str, parts: seq<Str>, end: Str)
    ensures Join([part] + parts, COMMA) + end ==
      part + (if parts == [] then end else [COMMA] + (Join(parts, COMMA) + end))
  {
    assert ([part] + parts)[1..] == parts;
  }

  // ---------- sorting the keys does not change the members ----------

  lemma DistinctCons(k: Str, ks: seq<Str>)
    requires Distinct(ks) && k !in ks
    ensures Distinct([k] + ks)
  {
    var out := [k] + ks;
    forall i, j | 0 <= i < j < |out| ensures out[i] != out[j] {
      assert out[j] == ks[j - 1];
    }
  }

  ghost predicate Live(fields: seq<Field>, k: Str) {
    exists i :: 0 <= i < |fields| && fields[i].key == k && !fields[i].value.Undefined?
  }

  lemma LiveCons(f: Field, rest: seq<Field>, k: Str)
    ensures Live([f] + rest, k) <==> (f.key == k && !f.value.Undefined?) || Live(rest, k)
  {
    var fields := [f] + rest;
    if i :| 0 <= i < |rest| && rest[i].key == k && !rest[i].value.Undefined? {
      assert fields[i + 1] == rest[i];
    }
    if i :| 0 <= i < |fields| && fields[i].key == k && !fields[i].value.Undefined? {
      assert i > 0 ==> rest[i - 1] == fields[i];
    }
    assert fields[0] == f;
  }

  lemma {:induction false} LiveKeysAre(fields: seq<Field>)
    requires Distinct(Keys(fields))
    ensures Distinct(LiveKeys(fields))
    ensures forall k :: k in LiveKeys(fields) <==> Live(fields, k)
  {
    if fields != [] {
      var f, rest := fields[0], fields[1..];
      assert Keys(rest) == Keys(fields)[1..];
      LiveKeysAre(rest);
      assert fields == [f] + rest;
      forall k ensures k in LiveKeys(fields) <==> Live(fields, k) {
        LiveCons(f, rest, k);
      }
      forall i | 0 <= i < |rest| ensures rest[i].key != f.key {
        assert Keys(fields)[i + 1] != Keys(fields)[0];
      }
      assert !Live(rest, f.key);
      if !f.value.Undefined? { DistinctCons(f.key, LiveKeys(rest)); }
    }
  }

  lemma {:induction false} MembersOverGet(fields: seq<Field>, keys: seq<Str>, k: Str)
    ensures var m := MembersOver(fields, keys); var i := IndexOf(fields, k);
      (k in m <==> k in keys && i < |fields|) && (k in m ==> m[k] == MeaningOf(fields[i].value))
  {
    if keys != [] {
      MembersOverGet(fields, keys[1..], k);
      assert keys == [keys[0]] + keys[1..];
    }
  }

  lemma SortedMembers(fields: seq<Field>)
    requires Distinct(Keys(fields))
    ensures MembersOver(fields, Sort(LiveKeys(fields))) == MembersOver(fields, LiveKeys(fields))
  {
    var live := LiveKeys(fields);
    LiveKeysAre(fields);
    SortSorts(live);
    var a, b := MembersOver(fields, Sort(live)), MembersOver(fields, live);
    forall k ensures (k in a <==> k in b) && (k in a ==> a[k] == b[k]) {
      MembersOverGet(fields, Sort(live), k);
      MembersOverGet(fields, live, k);
    }
  }

  // ---------- one step of the parser ----------

  lemma ParseText(s: Str, rest: Str)
    ensures ParseValue(Quote(s) + rest) == Some((MString(s), rest))
  {
    QuoteRoundTrip(s, rest);
    var t := Quote(s) + rest;
    assert t[1..] == QuoteBody(s) + [QUOTE] + rest;
    assert t[0] == QUOTE;
  }

  lemma ParseNumber(text: NumberText, rest: Str)
    requires Stops(rest)
    ensures ParseValue(text + rest) == Some((MNumber(text), rest))
  {
    var t := text + rest;
    CountNumberText(text, rest);
    assert t[..|text|] == text && t[|text|..] == rest;
    assert t[0] == text[0];
    assert NULL_TEXT[0] == 'n' as int && TRUE_TEXT[0] == 't' as int && FALSE_TEXT[0] == 'f' as int;
  }

  lemma ParseArray(t: Str, ms: seq<Meaning>, rest: Str)
    requires t != [] && t[0] != CLOSE_ARRAY && ParseItems(t) == Some((ms, rest))
    ensures ParseValue([OPEN_ARRAY] + t) == Some((MArray(ms), rest))
  {
    assert ([OPEN_ARRAY] + t)[1..] == t;
    assert NULL_TEXT[0] == 'n' as int && TRUE_TEXT[0] == 't' as int && FALSE_TEXT[0] == 'f' as int;
  }

  lemma ParseObject(t: Str, ms: map<Str, Meaning>, rest: Str)
    requires t != [] && t[0] != CLOSE_OBJECT && ParseMembers(t) == Some((ms, rest))
    ensures ParseValue([OPEN_OBJECT] + t) == Some((MObject(ms), rest))
  {
    assert ([OPEN_OBJECT] + t)[1..] == t;
    assert NULL_TEXT[0] == 'n' as int && TRUE_TEXT[0] == 't' as int && FALSE_TEXT[0] == 'f' as int;
  }

  lemma ParseEmpty(rest: Str)
    ensures ParseValue([OPEN_ARRAY, CLOSE_ARRAY] + rest) == Some((MArray([]), rest))
    ensures ParseValue([OPEN_OBJECT, CLOSE_OBJECT] + rest) == Some((MObject(map[]), rest))
  {
    assert ([OPEN_ARRAY, CLOSE_ARRAY] + rest)[2..] == rest;
    assert ([OPEN_OBJECT, CLOSE_OBJECT] + rest)[2..] == rest;
    assert NULL_TEXT[0] == 'n' as int && TRUE_TEXT[0] == 't' as int && FALSE_TEXT[0] == 'f' as int;
  }

  lemma LastItem(t: Str, m: Meaning, rest: Str)
    requires ParseValue(t) == Some((m, [CLOSE_ARRAY] + rest))
    ensures ParseItems(t) == Some(([m], rest))
  {
    assert ([CLOSE_ARRAY] + rest)[1..] == rest;
  }

  lemma MoreItems(t: Str, m: Meaning, next: Str, ms: seq<Meaning>, rest: Str)
    requires ParseValue(t) == Some((m, [COMMA] + next)) && ParseItems(next) == Some((ms, rest))
    ensures ParseItems(t) == Some(([m] + ms, rest))
  {
    assert ([COMMA] + next)[1..] == next;
  }

  lemma ReadKey(key: Str, t: Str)
    ensures var s := Quote(key) + [COLON] + t;
      s[0] == QUOTE && ReadString(s[1..]) == Some((key, [COLON] + t)) && ([COLON] + t)[1..] == t
  {
    QuoteRoundTrip(key, [COLON] + t);
    assert (Quote(key) + [COLON] + t)[1..] == QuoteBody(key) + [QUOTE] + ([COLON] + t);
  }

  lemma LastMember(key: Str, t: Str, m: Meaning, rest: Str)
    requires ParseValue(t) == Some((m, [CLOSE_OBJECT] + rest))
    ensures ParseMembers(Quote(key) + [COLON] + t) == Some((map[key := m], rest))
  {
    ReadKey(key, t);
    assert ([CLOSE_OBJECT] + rest)[1..] == rest;
  }

  lemma MoreMembers(key: Str, t: Str, m: Meaning, next: Str, ms: map<Str, Meaning>, rest: Str)
    requires ParseValue(t) == Some((m, [COMMA] + next)) && ParseMembers(next) == Some((ms, rest))
    ensures ParseMembers(Quote(key) + [COLON] + t) == Some((ms[key := m], rest))
  {
    ReadKey(key, t);
    assert ([COMMA] + next)[1..] == next;
  }

  // ---------- the round trip ----------

  /** A scalar followed by anything a number cannot run into. */
  lemma ParseScalar(v: Value, rest: Str)
    requires Canon(v).Some? && !v.Array? && !v.Object? && Stops(rest)
    ensures ParseValue(Canon(v).value + rest) == Some((MeaningOf(v), rest))
  {
    match v
    case Null => assert (NULL_TEXT + rest)[4..] == rest;
    case Boolean(b) =>
      assert (TRUE_TEXT + rest)[4..] == rest && (FALSE_TEXT + rest)[5..] == rest;
      assert NULL_TEXT[0] == 'n' as int && TRUE_TEXT[0] == 't' as int && FALSE_TEXT[0] == 'f' as int;
      assert !(NULL_TEXT <= TRUE_TEXT + rest) && !(NULL_TEXT <= FALSE_TEXT + rest);
      assert !(TRUE_TEXT <= FALSE_TEXT + rest);
    case Number(text) => ParseNumber(text, rest);
    case String(s) => ParseText(s, rest);
  }

  /** parse(canonicalize(v)) is the meaning of v, whatever follows the text. */
  lemma {:induction false} ParseCanon(v: Value, rest: Str)
    requires Proper(v) && HoleFree(v) && Canon(v).Some? && Stops(rest)
    ensures ParseValue(Canon(v).value + rest) == Some((MeaningOf(v), rest))
    decreases v, 1
  {
    match v
    case Array(slots) =>
      var parts := CanonSlots(slots).value;
      if slots == [] {
        ParseEmpty(rest);
        assert Canon(v).value + rest == [OPEN_ARRAY, CLOSE_ARRAY] + rest;
      } else {
        ParseSlots(slots, rest);
        var t := Join(parts, COMMA) + ([CLOSE_ARRAY] + rest);
        SlotTextStarts(slots);
        JoinStarts(parts, [CLOSE_ARRAY] + rest);
        ParseArray(t, SlotMeanings(slots), rest);
        Bracketed([OPEN_ARRAY], Join(parts, COMMA), [CLOSE_ARRAY], rest);
      }
    case Object(fields) =>
      var keys := Sort(LiveKeys(fields));
      var parts := CanonMembers(fields, keys).value;
      SortedMembers(fields);
      if keys == [] {
        ParseEmpty(rest);
        assert Canon(v).value + rest == [OPEN_OBJECT, CLOSE_OBJECT] + rest;
      } else {
        ParseKeys(fields, keys, rest);
        var t := Join(parts, COMMA) + ([CLOSE_OBJECT] + rest);
        JoinStarts(parts, [CLOSE_OBJECT] + rest);
        ParseObject(t, MembersOver(fields, keys), rest);
        Bracketed([OPEN_OBJECT], Join(parts, COMMA), [CLOSE_OBJECT], rest);
      }
    case _ => ParseScalar(v, rest);
  }

  lemma SlotTextStarts(slots: seq<Slot>)
    requires slots != [] && slots[0].Item? && CanonSlots(slots).Some?
    ensures var t := CanonSlots(slots).value[0]; t != [] && t[0] != CLOSE_ARRAY
  {
    if !slots[0].v.Undefined? { CanonStarts(slots[0].v); }
  }

  lemma Bracketed(open: Str, body: Str, close: Str, rest: Str)
    ensures (open + body + close) + rest == open + (body + (close + rest))
  {
    Assoc(open + body, close, rest);
    Assoc(open, body, close + rest);
  }

  lemma JoinStarts(parts: seq<Str>, end: Str)
    requires parts != [] && parts[0] != []
    ensures var t := Join(parts, COMMA) + end; t != [] && t[0] == parts[0][0]
  {
  }

  lemma {:induction false} ParseSlots(slots: seq<Slot>, rest: Str)
    requires slots != [] && CanonSlots(slots).Some?
    requires forall i :: 0 <= i < |slots| ==> slots[i].Item? && Proper(slots[i].v) && HoleFree(slots[i].v)
    ensures ParseItems(Join(CanonSlots(slots).value, COMMA) + ([CLOSE_ARRAY] + rest))
      == Some((SlotMeanings(slots), rest))
    decreases slots, 0
  {
    var parts := CanonSlots(slots).value;
    var end := [CLOSE_ARRAY] + rest;
    var v := slots[0].v;
    assert v < slots[0];
    var next := Join(parts[1..], COMMA) + end;
    var tail := if |slots| == 1 then end else [COMMA] + next;
    var m := SlotMeanings(slots)[0];
    assert ParseValue(parts[0] + tail) == Some((m, tail)) by {
      if v.Undefined? { ParseScalar(Null, tail); } else { ParseCanon(v, tail); }
    }
    JoinCons(parts[0], parts[1..], end);
    assert parts == [parts[0]] + parts[1..];
    if |slots| == 1 {
      assert SlotMeanings(slots) == [m];
      LastItem(parts[0] + tail, m, rest);
    } else {
      ParseSlots(slots[1..], rest);
      MoreItems(parts[0] + tail, m, next, SlotMeanings(slots[1..]), rest);
    }
  }

  lemma {:induction false} ParseKeys(fields: seq<Field>, keys: seq<Str>, rest: Str)
    requires keys != [] && CanonMembers(fields, keys).Some?
    requires forall i :: 0 <= i < |fields| ==> Proper(fields[i].value) && HoleFree(fields[i].value)
    ensures ParseMembers(Join(CanonMembers(fields, keys).value, COMMA) + ([CLOSE_OBJECT] + rest))
      == Some((MembersOver(fields, keys), rest))
    decreases fields, 0, |keys|
  {
    var parts := CanonMembers(fields, keys).value;
    var end := [CLOSE_OBJECT] + rest;
    var v := fields[IndexOf(fields, keys[0])].value;
    var text := Canon(v).value;
    var next := Join(parts[1..], COMMA) + end;
    var tail := if |keys| == 1 then end else [COMMA] + next;
    ParseCanon(v, tail);
    JoinCons(parts[0], parts[1..], end);
    assert parts == [parts[0]] + parts[1..];
    Assoc(Quote(keys[0]) + [COLON], text, tail);
    if |keys| == 1 {
      assert MembersOver(fields, keys) == map[keys[0] := MeaningOf(v)];
      LastMember(keys[0], text + tail, MeaningOf(v), rest);
    } else {
      ParseKeys(fields, keys[1..], rest);
      MoreMembers(keys[0], text + tail, MeaningOf(v), next, MembersOver(fields, keys[1..]), rest);
    }
  }

  lemma ParseCanonicalText(v: Value)
    requires Proper(v) && HoleFree(v) && Canon(v).Some?
    ensures Parse(Canon(v).value) == Some(MeaningOf(v))
  {
    ParseCanon(v, []);
    assert Canon(v).value + [] == Canon(v).value;
  }

  // ---------- how strings are escaped ----------

  /** Printed as it is: no control unit, quote, backslash or surrogate. */
  predicate Unescaped(u: CodeUnit) { 32 <= u && u != 34 && u != 92 && !(0xD800 <= u < 0xE000) }

  /** A unit is escaped exactly when it must be, in two units where there is a short form. */
  lemma EscapedExactly(u: CodeUnit)
    ensures EscapeUnit(u) == [u] <==> Unescaped(u)
    ensures |EscapeUnit(u)| == if Unescaped(u) then 1 else if u in {8, 9, 10, 12, 13, 34, 92} then 2 else 6
    ensures forall x :: x in EscapeUnit(u) && 'A' as int <= x <= 'F' as int ==> x == u && EscapeUnit(u) == [u]
  {
  }

  /** No unit of the text must be escaped, surrogates coming in pairs. */
  predicate NeedsNone(s: Str) {
    s == [] || (if |s| > 1 && IsHigh(s[0]) && IsLow(s[1]) then NeedsNone(s[2..])
                else Unescaped(s[0]) && NeedsNone(s[1..]))
  }

  /** A string prints as itself exactly when no unit of it must be escaped, and is longer else. */
  lemma {:induction false} PrintsItselfExactly(s: Str)
    ensures QuoteBody(s) == s <==> NeedsNone(s)
    ensures |QuoteBody(s)| >= |s| && (|QuoteBody(s)| == |s| <==> NeedsNone(s))
  {
    if s == [] {
    } else if |s| > 1 && IsHigh(s[0]) && IsLow(s[1]) {
      PrintsItselfExactly(s[2..]);
      assert s == s[..2] + s[2..];
    } else {
      PrintsItselfExactly(s[1..]);
      EscapedExactly(s[0]);
      assert s == [s[0]] + s[1..];
    }
  }

  // ---------- equal meanings have equal texts ----------

  lemma {:induction false} SameMeaningSameText(a: Value, b: Value)
    requires Proper(a) && Proper(b) && HoleFree(a) && HoleFree(b)
    requires Canon(a).Some? && Canon(b).Some? && MeaningOf(a) == MeaningOf(b)
    ensures Canon(a) == Canon(b)
    decreases a, 1
  {
    match a
    case Array(slots) => SameSlots(slots, b.slots);
    case Object(fields) =>
      assert MembersOver(fields, LiveKeys(fields)) == MembersOver(b.fields, LiveKeys(b.fields));
      SameKeys(fields, b.fields);
      SortedMembersAre(fields);
      SameMembers(fields, b.fields, Sort(LiveKeys(fields)));
    case _ =>
  }

  lemma SameKeys(a: seq<Field>, b: seq<Field>)
    requires Distinct(Keys(a)) && Distinct(Keys(b))
    requires MembersOver(a, LiveKeys(a)) == MembersOver(b, LiveKeys(b))
    ensures Sort(LiveKeys(a)) == Sort(LiveKeys(b))
  {
    LiveKeysAre(a);
    LiveKeysAre(b);
    SortSorts(LiveKeys(a));
    SortSorts(LiveKeys(b));
    forall k ensures k in Sort(LiveKeys(a)) <==> k in Sort(LiveKeys(b)) {
      LiveAreMembers(a, k);
      LiveAreMembers(b, k);
    }
    AscendingUnique(Sort(LiveKeys(a)), Sort(LiveKeys(b)));
  }

  lemma SortedMembersAre(a: seq<Field>)
    requires Distinct(Keys(a))
    ensures forall k :: k in Sort(LiveKeys(a)) ==> k in MembersOver(a, LiveKeys(a))
  {
    LiveKeysAre(a);
    SortSorts(LiveKeys(a));
    forall k | k in Sort(LiveKeys(a)) ensures k in MembersOver(a, LiveKeys(a)) {
      LiveAreMembers(a, k);
    }
  }

  lemma LiveAreMembers(fields: seq<Field>, k: Str)
    requires Distinct(Keys(fields))
    ensures k in LiveKeys(fields) <==> k in MembersOver(fields, LiveKeys(fields))
  {
    LiveKeysAre(fields);
    MembersOverGet(fields, LiveKeys(fields), k);
    if k in LiveKeys(fields) {
      var i :| 0 <= i < |fields| && fields[i].key == k && !fields[i].value.Undefined?;
      assert IndexOf(fields, k) <= i;
    }
  }

  lemma {:induction false} SameSlots(a: seq<Slot>, b: seq<Slot>)
    requires |a| == |b| && SlotMeanings(a) == SlotMeanings(b)
    requires CanonSlots(a).Some? && CanonSlots(b).Some?
    requires forall i :: 0 <= i < |a| ==> a[i].Item? && Proper(a[i].v) && HoleFree(a[i].v)
    requires forall i :: 0 <= i < |b| ==> b[i].Item? && Proper(b[i].v) && HoleFree(b[i].v)
    ensures CanonSlots(a) == CanonSlots(b)
    decreases a, 0
  {
    if a != [] {
      assert a[0].v < a[0];
      assert SlotMeanings(a)[0] == SlotMeanings(b)[0];
      var x := if a[0].v.Undefined? then Null else a[0].v;
      var y := if b[0].v.Undefined? then Null else b[0].v;
      assert Canon(x) == Canon(y) by {
        if x == Null { NullText(y); } else if y == Null { NullText(x); }
        else { SameMeaningSameText(a[0].v, b[0].v); }
      }
      assert SlotMeanings(a)[1..] == SlotMeanings(a[1..]) && SlotMeanings(b)[1..] == SlotMeanings(b[1..]);
      SameSlots(a[1..], b[1..]);
    }
  }

  lemma NullText(v: Value)
    requires MeaningOf(v) == MNull
    ensures Canon(v) == Canon(Null)
  {
  }

  lemma {:induction false} SameMembers(a: seq<Field>, b: seq<Field>, keys: seq<Str>)
    requires CanonMembers(a, keys).Some? && CanonMembers(b, keys).Some?
    requires MembersOver(a, LiveKeys(a)) == MembersOver(b, LiveKeys(b))
    requires forall k :: k in keys ==> k in MembersOver(a, LiveKeys(a))
    requires forall i :: 0 <= i < |a| ==> Proper(a[i].value) && HoleFree(a[i].value)
    requires forall i :: 0 <= i < |b| ==> Proper(b[i].value) && HoleFree(b[i].value)
    ensures CanonMembers(a, keys) == CanonMembers(b, keys)
    decreases a, 0, |keys|
  {
    if keys != [] {
      var i, j := IndexOf(a, keys[0]), IndexOf(b, keys[0]);
      assert keys[0] in keys;
      MembersOverGet(a, LiveKeys(a), keys[0]);
      MembersOverGet(b, LiveKeys(b), keys[0]);
      SameMeaningSameText(a[i].value, b[j].value);
      assert forall k :: k in keys[1..] ==> k in keys;
      SameMembers(a, b, keys[1..]);
    }
  }

  /** Canonical JSON is injective up to meaning, and blind to everything else. */
  lemma CanonicalIffSameMeaning(a: Value, b: Value)
    requires Proper(a) && Proper(b) && HoleFree(a) && HoleFree(b)
    requires Canon(a).Some? && Canon(b).Some?
    ensures Canon(a) == Canon(b) <==> MeaningOf(a) == MeaningOf(b)
  {
    ParseCanonicalText(a);
    ParseCanonicalText(b);
    if MeaningOf(a) == MeaningOf(b) { SameMeaningSameText(a, b); }
  }

  // ---------- the order of keys ----------

  /** The field at `i` is the one under this key, and prints. */
  ghost predicate LiveField(fields: seq<Field>, key: Str, i: int) {
    0 <= i < |fields| && fields[i].key == key && !fields[i].value.Undefined? && Canon(fields[i].value).Some?
  }

  /** The text is the members under `keys`, each key quoted before its value. */
  ghost predicate Printed(fields: seq<Field>, text: Str, keys: seq<Str>, parts: seq<Str>) {
    && text == [OPEN_OBJECT] + Join(parts, COMMA) + [CLOSE_OBJECT] && |parts| == |keys|
    && (forall i :: 0 <= i < |fields| && !fields[i].value.Undefined? ==> fields[i].key in keys)
    && (forall i :: 0 <= i < |keys| ==> Member(fields, keys[i], parts[i]))
  }

  ghost predicate Member(fields: seq<Field>, key: Str, part: Str) {
    exists i :: LiveField(fields, key, i) && part == Quote(key) + [COLON] + Canon(fields[i].value).value
  }

  ghost predicate InUnitOrder(keys: seq<Str>) { forall i, j :: 0 <= i < j < |keys| ==> Before(keys[i], keys[j]) }

  lemma {:induction false} MembersPrinted(fields: seq<Field>, keys: seq<Str>)
    requires Distinct(Keys(fields)) && CanonMembers(fields, keys).Some?
    requires forall k :: k in keys ==> Live(fields, k)
    ensures forall i :: 0 <= i < |keys| ==> Member(fields, keys[i], CanonMembers(fields, keys).value[i])
  {
    if keys != [] {
      var i := IndexOf(fields, keys[0]);
      assert keys[0] in keys;
      var j :| 0 <= j < |fields| && fields[j].key == keys[0] && !fields[j].value.Undefined?;
      assert i <= j && Keys(fields)[i] == Keys(fields)[j];
      assert LiveField(fields, keys[0], i);
      assert forall k :: k in keys[1..] ==> k in keys;
      MembersPrinted(fields, keys[1..]);
    }
  }

  /** An object prints its live members once each, in the order of their keys' code units: a
      prefix before its extensions, else by the first unit that differs. */
  lemma KeysInUnitOrder(fields: seq<Field>)
    requires Proper(Object(fields)) && Canon(Object(fields)).Some?
    ensures exists keys, parts :: InUnitOrder(keys) && Printed(fields, Canon(Object(fields)).value, keys, parts)
  {
    var keys := Sort(LiveKeys(fields));
    var parts := CanonMembers(fields, keys).value;
    LiveKeysAre(fields);
    SortSorts(LiveKeys(fields));
    MembersPrinted(fields, keys);
    forall i, j | 0 <= i < j < |keys| ensures Before(keys[i], keys[j]) {
      LessIsBefore(keys[i], keys[j]);
    }
    assert Printed(fields, Canon(Object(fields)).value, keys, parts);
  }

  // ---------- which values throw ----------

  /** No non-finite number, bigint, symbol or function, and undefined only inside. */
  predicate Encodable(v: Value) {
    match v
    case NonFinite => false
    case Undefined => false
    case Unsupported => false
    case Array(slots) =>
      forall i :: 0 <= i < |slots| && slots[i].Item? && !slots[i].v.Undefined? ==> Encodable(slots[i].v)
    case Object(fields) =>
      forall i :: 0 <= i < |fields| && !fields[i].value.Undefined? ==> Encodable(fields[i].value)
    case _ => true
  }

  lemma {:induction false} CanonDefined(v: Value)
    requires Proper(v)
    ensures Canon(v).Some? <==> Encodable(v)
    decreases v, 1
  {
    match v
    case Array(slots) => SlotsDefined(slots);
    case Object(fields) =>
      var keys := Sort(LiveKeys(fields));
      LiveKeysAre(fields);
      SortSorts(LiveKeys(fields));
      MembersDefined(fields, keys);
      forall i | 0 <= i < |fields| ensures IndexOf(fields, fields[i].key) == i {
        var j := IndexOf(fields, fields[i].key);
        assert Keys(fields)[j] == Keys(fields)[i];
      }
      forall i | 0 <= i < |fields| && !fields[i].value.Undefined? ensures fields[i].key in keys {
        assert Live(fields, fields[i].key);
      }
      forall k | k in keys ensures IndexOf(fields, k) < |fields| && !fields[IndexOf(fields, k)].value.Undefined? {
        assert Live(fields, k);
      }
    case _ =>
  }

  lemma {:induction false} SlotsDefined(slots: seq<Slot>)
    requires forall i :: 0 <= i < |slots| && slots[i].Item? ==> Proper(slots[i].v)
    ensures CanonSlots(slots).Some? <==>
      forall i :: 0 <= i < |slots| && slots[i].Item? && !slots[i].v.Undefined? ==> Encodable(slots[i].v)
    decreases slots, 0
  {
    if slots != [] {
      if slots[0].Item? {
        assert slots[0].v < slots[0];
        CanonDefined(slots[0].v);
      }
      SlotsDefined(slots[1..]);
      assert forall i :: 0 < i < |slots| ==> slots[i] == slots[1..][i - 1];
    }
  }

  predicate MemberEncodable(fields: seq<Field>, k: Str) {
    IndexOf(fields, k) < |fields| && Encodable(fields[IndexOf(fields, k)].value)
  }

  lemma {:induction false} MembersDefined(fields: seq<Field>, keys: seq<Str>)
    requires forall i :: 0 <= i < |fields| ==> Proper(fields[i].value)
    ensures CanonMembers(fields, keys).Some? <==> forall k :: k in keys ==> MemberEncodable(fields, k)
    decreases fields, 0, |keys|
  {
    if keys != [] {
      var i := IndexOf(fields, keys[0]);
      if i < |fields| { CanonDefined(fields[i].value); }
      MembersDefined(fields, keys[1..]);
      assert keys == [keys[0]] + keys[1..];
      assert (forall k :: k in keys ==> MemberEncodable(fields, k)) <==>
        MemberEncodable(fields, keys[0]) && forall k :: k in keys[1..] ==> MemberEncodable(fields, k);
    }
  }

  // ---------- sparse arrays are where it fails, and only there ----------

  /** The value with every hole filled by undefined, which means the same. */
  function Fill(v: Value): Value
    decreases v, 1
  {
    match v
    case Array(slots) => Array(FillSlots(slots))
    case Object(fields) => Object(FillFields(fields))
    case _ => v
  }

  function FillSlots(slots: seq<Slot>): (out: seq<Slot>)
    ensures |out| == |slots|
    decreases slots, 0
  {
    if slots == [] then []
    else
      var slot := slots[0];
      [if slot.Hole? then Item(Undefined) else assert slot.v < slot; Item(Fill(slot.v))]
      + FillSlots(slots[1..])
  }

  function FillFields(fields: seq<Field>): (out: seq<Field>)
    ensures |out| == |fields| && Keys(out) == Keys(fields)
    decreases fields, 0
  {
    if fields == [] then []
    else
      var rest := FillFields(fields[1..]);
      assert Keys(fields[1..]) == Keys(fields)[1..] && Keys(rest) == Keys(fields)[1..];
      [Field(fields[0].key, Fill(fields[0].value))] + rest
  }

  lemma {:induction false} FillIs(v: Value)
    requires Proper(v)
    ensures Proper(Fill(v)) && HoleFree(Fill(v)) && MeaningOf(Fill(v)) == MeaningOf(v)
    ensures Fill(v).Undefined? <==> v.Undefined?
    decreases v, 1
  {
    match v
    case Array(slots) => FillSlotsIs(slots);
    case Object(fields) =>
      FillFieldsIs(fields);
      FillLive(fields);
      var out := FillFields(fields);
      FillMembers(fields, LiveKeys(fields));
    case _ =>
  }

  lemma {:induction false} FillSlotsIs(slots: seq<Slot>)
    requires forall i :: 0 <= i < |slots| && slots[i].Item? ==> Proper(slots[i].v)
    ensures var out := FillSlots(slots);
      (forall i :: 0 <= i < |out| ==> out[i].Item? && Proper(out[i].v) && HoleFree(out[i].v))
      && SlotMeanings(out) == SlotMeanings(slots)
    decreases slots, 0
  {
    if slots != [] {
      if slots[0].Item? {
        assert slots[0].v < slots[0];
        FillIs(slots[0].v);
      }
      FillSlotsIs(slots[1..]);
      assert FillSlots(slots)[1..] == FillSlots(slots[1..]);
    }
  }

  lemma {:induction false} FillFieldsIs(fields: seq<Field>)
    requires forall i :: 0 <= i < |fields| ==> Proper(fields[i].value)
    ensures var out := FillFields(fields);
      forall i :: 0 <= i < |out| ==>
        && out[i].value == Fill(fields[i].value)
        && Proper(out[i].value) && HoleFree(out[i].value)
        && MeaningOf(out[i].value) == MeaningOf(fields[i].value)
        && (out[i].value.Undefined? <==> fields[i].value.Undefined?)
    decreases fields, 0
  {
    if fields != [] {
      FillIs(fields[0].value);
      FillFieldsIs(fields[1..]);
      assert FillFields(fields)[1..] == FillFields(fields[1..]);
    }
  }

  lemma {:induction false} FillLive(fields: seq<Field>)
    ensures LiveKeys(FillFields(fields)) == LiveKeys(fields)
  {
    if fields != [] {
      FillLive(fields[1..]);
      assert FillFields(fields)[1..] == FillFields(fields[1..]);
    }
  }

  lemma {:induction false} FillIndex(fields: seq<Field>, k: Str)
    ensures IndexOf(FillFields(fields), k) == IndexOf(fields, k)
  {
    if fields != [] {
      FillIndex(fields[1..], k);
      assert FillFields(fields)[1..] == FillFields(fields[1..]);
    }
  }

  lemma {:induction false} FillMembers(fields: seq<Field>, keys: seq<Str>)
    requires forall i :: 0 <= i < |fields| ==>
      MeaningOf(FillFields(fields)[i].value) == MeaningOf(fields[i].value)
    ensures MembersOver(FillFields(fields), keys) == MembersOver(fields, keys)
  {
    if keys != [] {
      FillIndex(fields, keys[0]);
      FillMembers(fields, keys[1..]);
    }
  }

  /** How many slots print as nothing where null was meant. */
  function Holes(v: Value): nat
    decreases v, 1
  {
    match v
    case Array(slots) => SlotHoles(slots)
    case Object(fields) => MemberHoles(fields, Sort(LiveKeys(fields)))
    case _ => 0
  }

  function SlotHoles(slots: seq<Slot>): nat
    decreases slots, 0
  {
    if slots == [] then 0
    else
      var slot := slots[0];
      (if slot.Hole? then 1 else assert slot.v < slot; Holes(slot.v)) + SlotHoles(slots[1..])
  }

  function MemberHoles(fields: seq<Field>, keys: seq<Str>): nat
    decreases fields, 0, |keys|
  {
    if keys == [] then 0
    else
      var i := IndexOf(fields, keys[0]);
      (if i < |fields| then Holes(fields[i].value) else 0) + MemberHoles(fields, keys[1..])
  }

  /** Filling a hole adds the four units of `null`, and nothing else changes length. */
  lemma {:induction false} FillLength(v: Value)
    requires Canon(v).Some?
    ensures Canon(Fill(v)).Some? && |Canon(Fill(v)).value| == |Canon(v).value| + 4 * Holes(v)
    decreases v, 1
  {
    match v
    case Array(slots) =>
      FillSlotsLength(slots);
      JoinLength(CanonSlots(slots).value);
      JoinLength(CanonSlots(FillSlots(slots)).value);
    case Object(fields) =>
      var keys := Sort(LiveKeys(fields));
      FillLive(fields);
      FillMembersLength(fields, keys);
      JoinLength(CanonMembers(fields, keys).value);
      JoinLength(CanonMembers(FillFields(fields), keys).value);
    case _ =>
  }

  function Lengths(parts: seq<Str>): nat {
    if parts == [] then 0 else |parts[0]| + Lengths(parts[1..])
  }

  lemma {:induction false} JoinLength(parts: seq<Str>)
    ensures |Join(parts, COMMA)| == Lengths(parts) + (if parts == [] then 0 else |parts| - 1)
  {
    if |parts| > 1 { JoinLength(parts[1..]); }
    else if |parts| == 1 { assert parts[1..] == []; }
  }

  lemma {:induction false} FillSlotsLength(slots: seq<Slot>)
    requires CanonSlots(slots).Some?
    ensures CanonSlots(FillSlots(slots)).Some?
    ensures Lengths(CanonSlots(FillSlots(slots)).value) == Lengths(CanonSlots(slots).value) + 4 * SlotHoles(slots)
    decreases slots, 0
  {
    if slots != [] {
      var slot, out := slots[0], FillSlots(slots);
      assert out[1..] == FillSlots(slots[1..]);
      FillSlotsLength(slots[1..]);
      if slot.Item? {
        assert slot.v < slot;
        if !slot.v.Undefined? {
          FillLength(slot.v);
          assert !Fill(slot.v).Undefined?;
        }
      }
    }
  }

  lemma {:induction false} FillMembersLength(fields: seq<Field>, keys: seq<Str>)
    requires CanonMembers(fields, keys).Some?
    ensures var out := FillFields(fields);
      CanonMembers(out, keys).Some? &&
      Lengths(CanonMembers(out, keys).value) ==
        Lengths(CanonMembers(fields, keys).value) + 4 * MemberHoles(fields, keys)
    decreases fields, 0, |keys|
  {
    if keys != [] {
      var i := IndexOf(fields, keys[0]);
      FillIndex(fields, keys[0]);
      FillAt(fields, i);
      FillLength(fields[i].value);
      FillMembersLength(fields, keys[1..]);
    }
  }

  lemma {:induction false} FillAt(fields: seq<Field>, i: nat)
    requires i < |fields|
    ensures FillFields(fields)[i].value == Fill(fields[i].value)
  {
    if i > 0 {
      FillAt(fields[1..], i - 1);
      assert FillFields(fields)[1..] == FillFields(fields[1..]);
    }
  }

  lemma {:induction false} NoHoles(v: Value)
    requires Proper(v) && Holes(v) == 0
    ensures HoleFree(v)
    decreases v, 1
  {
    match v
    case Array(slots) => NoSlotHoles(slots);
    case Object(fields) =>
      LiveKeysAre(fields);
      SortSorts(LiveKeys(fields));
      forall i | 0 <= i < |fields| ensures HoleFree(fields[i].value) {
        if !fields[i].value.Undefined? {
          assert Live(fields, fields[i].key);
          var j := IndexOf(fields, fields[i].key);
          assert Keys(fields)[j] == Keys(fields)[i];
          NoMemberHoles(fields, Sort(LiveKeys(fields)), fields[i].key);
          NoHoles(fields[i].value);
        }
      }
    case _ =>
  }

  lemma {:induction false} NoSlotHoles(slots: seq<Slot>)
    requires SlotHoles(slots) == 0
    requires forall i :: 0 <= i < |slots| && slots[i].Item? ==> Proper(slots[i].v)
    ensures forall i :: 0 <= i < |slots| ==> slots[i].Item? && HoleFree(slots[i].v)
    decreases slots, 0
  {
    if slots != [] {
      assert slots[0].v < slots[0];
      NoHoles(slots[0].v);
      NoSlotHoles(slots[1..]);
    }
  }

  lemma {:induction false} NoMemberHoles(fields: seq<Field>, keys: seq<Str>, k: Str)
    requires MemberHoles(fields, keys) == 0 && k in keys && IndexOf(fields, k) < |fields|
    ensures Holes(fields[IndexOf(fields, k)].value) == 0
  {
    if keys[0] != k {
      assert keys == [keys[0]] + keys[1..];
      NoMemberHoles(fields, keys[1..], k);
    }
  }

  /** A value gets the text of every hole-free value of its meaning exactly when it has
      no sparse array itself: `[,]` prints like `[]`, not like `[null]`. */
  lemma SparseArraysExactly(v: Value)
    requires Proper(v) && Canon(v).Some?
    ensures HoleFree(v) <==>
      forall w :: Proper(w) && HoleFree(w) && Canon(w).Some? && MeaningOf(w) == MeaningOf(v)
        ==> Canon(w) == Canon(v)
  {
    if HoleFree(v) {
      forall w | Proper(w) && HoleFree(w) && Canon(w).Some? && MeaningOf(w) == MeaningOf(v)
        ensures Canon(w) == Canon(v)
      {
        SameMeaningSameText(v, w);
      }
    } else {
      FillIs(v);
      FillLength(v);
      if Holes(v) == 0 { NoHoles(v); assert false; }
      assert Canon(Fill(v)) != Canon(v);
    }
  }
}
