/** JavaScript strings: sequences of UTF-16 code units, and the orders and splits
    the rest of the project needs on them. */
module Text {

  type CodeUnit = u: int | 0 <= u < 0x1_0000
  type Str = seq<CodeUnit>

  datatype Option<+T> = None | Some(value: T)

  predicate IsHigh(u: CodeUnit) { 0xD800 <= u < 0xDC00 }

  predicate IsLow(u: CodeUnit) { 0xDC00 <= u < 0xE000 }

  predicate IsDigit(u: CodeUnit) { '0' as int <= u <= '9' as int }

  /** The units String.prototype.trim removes. */
  predicate JsSpace(u: CodeUnit) {
    9 <= u <= 13 || u == 32 || u == 0xA0 || u == 0x1680 || 0x2000 <= u <= 0x200A
    || u == 0x2028 || u == 0x2029 || u == 0x202F || u == 0x205F || u == 0x3000 || u == 0xFEFF
  }

  function UnitOf(c: char): CodeUnit { if c as int < 0x1_0000 then c as int else 0xFFFD }

  /** Characters of the source's own texts as code units. */
  function Units(s: string): Str { seq(|s|, i requires 0 <= i < |s| => UnitOf(s[i])) }

  function TrimStart(s: Str): Str { if s != [] && JsSpace(s[0]) then TrimStart(s[1..]) else s }

  function TrimEnd(s: Str): Str {
    if s != [] && JsSpace(s[|s| - 1]) then TrimEnd(s[..|s| - 1]) else s
  }

  function Trim(s: Str): Str { TrimEnd(TrimStart(s)) }

  predicate AllSpace(s: Str) { forall u :: u in s ==> JsSpace(u) }

  /** White space goes from both ends, and nothing else goes. */
  ghost predicate Trims(s: Str, t: Str, before: Str, after: Str) {
    && s == before + t + after && AllSpace(before) && AllSpace(after)
    && (t != [] ==> !JsSpace(t[0]) && !JsSpace(t[|t| - 1]))
  }

  lemma {:induction false} StartTrims(s: Str) returns (before: Str)
    ensures s == before + TrimStart(s) && AllSpace(before)
    ensures TrimStart(s) != [] ==> !JsSpace(TrimStart(s)[0])
  {
    before := [];
    if s != [] && JsSpace(s[0]) {
      var rest := StartTrims(s[1..]);
      before := [s[0]] + rest;
      assert s == [s[0]] + s[1..];
    }
  }

  lemma {:induction false} EndTrims(s: Str) returns (after: Str)
    ensures s == TrimEnd(s) + after && AllSpace(after)
    ensures TrimEnd(s) != [] ==> !JsSpace(TrimEnd(s)[|TrimEnd(s)| - 1]) && TrimEnd(s)[0] == s[0]
  {
    after := [];
    if s != [] && JsSpace(s[|s| - 1]) {
      var rest := EndTrims(s[..|s| - 1]);
      after := rest + [s[|s| - 1]];
      assert s == s[..|s| - 1] + [s[|s| - 1]];
      Assoc(TrimEnd(s), rest, [s[|s| - 1]]);
    }
  }

  /** What String.prototype.trim leaves. */
  lemma TrimsExactly(s: Str)
    ensures exists before, after :: Trims(s, Trim(s), before, after)
  {
    var before := StartTrims(s);
    var after := EndTrims(TrimStart(s));
    Assoc(before, Trim(s), after);
    assert Trims(s, Trim(s), before, after);
  }

  // ---------- code-unit order, the order of Array.prototype.sort ----------

  predicate Less(a: Str, b: Str) {
    b != [] && (a == [] || a[0] < b[0] || (a[0] == b[0] && Less(a[1..], b[1..])))
  }

  lemma {:induction false} LessTotal(a: Str, b: Str)
    ensures Less(a, b) || a == b || Less(b, a)
    ensures !(Less(a, b) && Less(b, a))
  {
    if a != [] && b != [] && a[0] == b[0] {
      LessTotal(a[1..], b[1..]);
      assert a == [a[0]] + a[1..] && b == [b[0]] + b[1..];
    }
  }

  lemma {:induction false} LessTransitive(a: Str, b: Str, c: Str)
    requires Less(a, b) && Less(b, c)
    ensures Less(a, c)
  {
    if a != [] && a[0] == b[0] && b[0] == c[0] {
      LessTransitive(a[1..], b[1..], c[1..]);
    }
  }

  lemma LessIrreflexive(a: Str)
    ensures !Less(a, a)
  {
    LessTotal(a, a);
  }

  /** A proper prefix comes before; else the first unit where the texts differ decides. */
  ghost predicate Before(a: Str, b: Str) {
    a < b || exists n :: DiffersAt(a, b, n) && a[n] < b[n]
  }

  predicate DiffersAt(a: Str, b: Str, n: int) { 0 <= n < |a| && n < |b| && a[..n] == b[..n] && a[n] != b[n] }

  lemma SameFirst(a: Str, b: Str, n: int)
    requires DiffersAt(a, b, n) && n > 0
    ensures a[0] == b[0]
  {
    assert a[..n][0] == b[..n][0];
  }

  /** With one unit more in front of both nothing changes. */
  lemma BeforeCons(u: CodeUnit, s: Str, t: Str)
    ensures Before([u] + s, [u] + t) <==> Before(s, t)
  {
    var a, b := [u] + s, [u] + t;
    assert a < b <==> s < t by { assert a[1..] == s && b[1..] == t; }
    if n :| DiffersAt(s, t, n) && s[n] < t[n] {
      assert a[..n + 1] == [u] + s[..n] && b[..n + 1] == [u] + t[..n];
      assert DiffersAt(a, b, n + 1) && a[n + 1] < b[n + 1];
    }
    if n :| DiffersAt(a, b, n) && a[n] < b[n] {
      assert s[..n - 1] == a[..n][1..] && t[..n - 1] == b[..n][1..];
      assert DiffersAt(s, t, n - 1) && s[n - 1] < t[n - 1];
    }
  }

  lemma {:induction false} LessIsBefore(a: Str, b: Str)
    ensures Less(a, b) <==> Before(a, b)
  {
    if a != [] && b != [] && a[0] == b[0] {
      LessIsBefore(a[1..], b[1..]);
      BeforeCons(a[0], a[1..], b[1..]);
      assert a == [a[0]] + a[1..] && b == [a[0]] + b[1..];
    } else if a != [] && b != [] {
      assert DiffersAt(a, b, 0);
      forall n | DiffersAt(a, b, n) ensures n == 0 {
        if n > 0 { SameFirst(a, b, n); }
      }
    }
  }

  predicate Ascending(keys: seq<Str>) {
    forall i, j :: 0 <= i < j < |keys| ==> Less(keys[i], keys[j])
  }

  predicate Distinct<T(==)>(xs: seq<T>) {
    forall i, j :: 0 <= i < j < |xs| ==> xs[i] != xs[j]
  }

  function Insert(key: Str, keys: seq<Str>): seq<Str> {
    if keys == [] || Less(key, keys[0]) then [key] + keys
    else [keys[0]] + Insert(key, keys[1..])
  }

  /** The default sort of an array of strings. */
  function Sort(keys: seq<Str>): seq<Str> {
    if keys == [] then [] else Insert(keys[0], Sort(keys[1..]))
  }

  lemma {:induction false} InsertKeeps(key: Str, keys: seq<Str>)
    requires Ascending(keys) && key !in keys
    ensures Ascending(Insert(key, keys))
    ensures forall k :: k in Insert(key, keys) <==> k == key || k in keys
  {
    if keys != [] && !Less(key, keys[0]) {
      var rest := keys[1..];
      InsertKeeps(key, rest);
      assert keys == [keys[0]] + rest;
      LessTotal(key, keys[0]);
      var out := Insert(key, rest);
      forall j | 0 <= j < |out| ensures Less(keys[0], out[j]) {
        assert out[j] in out;
        if out[j] != key {
          var i :| 0 <= i < |rest| && rest[i] == out[j];
          assert keys[i + 1] == out[j];
        }
      }
    } else if keys != [] {
      forall j | 0 <= j < |keys| ensures Less(key, keys[j]) {
        if j > 0 { LessTransitive(key, keys[0], keys[j]); }
      }
    }
  }

  lemma {:induction false} InsertElements(key: Str, keys: seq<Str>)
    ensures |Insert(key, keys)| == |keys| + 1
    ensures forall k :: k in Insert(key, keys) <==> k == key || k in keys
  {
    if keys != [] && !Less(key, keys[0]) {
      InsertElements(key, keys[1..]);
      assert keys == [keys[0]] + keys[1..];
    }
  }

  lemma {:induction false} SortElements(keys: seq<Str>)
    ensures |Sort(keys)| == |keys| && forall k :: k in Sort(keys) <==> k in keys
  {
    if keys != [] {
      SortElements(keys[1..]);
      InsertElements(keys[0], Sort(keys[1..]));
      assert keys == [keys[0]] + keys[1..];
    }
  }

  lemma {:induction false} SortSorts(keys: seq<Str>)
    requires Distinct(keys)
    ensures Ascending(Sort(keys))
    ensures forall k :: k in Sort(keys) <==> k in keys
  {
    if keys != [] {
      SortSorts(keys[1..]);
      InsertKeeps(keys[0], Sort(keys[1..]));
      assert keys == [keys[0]] + keys[1..];
    }
  }

  /** Ascending, with repetitions. */
  predicate Sorted(keys: seq<Str>) { forall i, j :: 0 <= i < j < |keys| ==> !Less(keys[j], keys[i]) }

  lemma NotLessTransitive(a: Str, b: Str, c: Str)
    requires !Less(b, a) && !Less(c, b)
    ensures !Less(c, a)
  {
    LessTotal(a, b);
    LessTotal(b, c);
    LessTotal(a, c);
    if Less(a, b) && Less(b, c) { LessTransitive(a, b, c); }
  }

  lemma {:induction false} InsertSorted(key: Str, keys: seq<Str>)
    requires Sorted(keys)
    ensures Sorted(Insert(key, keys)) && multiset(Insert(key, keys)) == multiset(keys) + multiset{key}
  {
    if keys == [] {
    } else if Less(key, keys[0]) {
      LessTotal(key, keys[0]);
      forall j | 0 <= j < |keys| ensures !Less(keys[j], key) {
        if j > 0 { NotLessTransitive(key, keys[0], keys[j]); }
      }
    } else {
      var rest := keys[1..];
      InsertSorted(key, rest);
      assert keys == [keys[0]] + rest;
      var out := Insert(key, rest);
      forall j | 0 <= j < |out| ensures !Less(out[j], keys[0]) {
        assert out[j] in multiset(out);
        if out[j] != key {
          assert out[j] in multiset(rest);
          var i :| 0 <= i < |rest| && rest[i] == out[j];
          assert keys[i + 1] == out[j];
        }
      }
    }
  }

  lemma {:induction false} SortIsSorted(keys: seq<Str>)
    ensures Sorted(Sort(keys)) && multiset(Sort(keys)) == multiset(keys)
  {
    if keys != [] {
      SortIsSorted(keys[1..]);
      InsertSorted(keys[0], Sort(keys[1..]));
      assert keys == [keys[0]] + keys[1..];
    }
  }

  lemma SortedHead(a: seq<Str>, b: seq<Str>)
    requires a != [] && b != [] && Sorted(a) && b[0] in multiset(a)
    ensures !Less(b[0], a[0])
  {
    LessIrreflexive(a[0]);
    var i :| 0 <= i < |a| && a[i] == b[0];
  }

  lemma HeadAndTail(a: seq<Str>)
    requires a != []
    ensures a == [a[0]] + a[1..] && multiset(a[1..]) == multiset(a) - multiset{a[0]}
    ensures Sorted(a) ==> Sorted(a[1..])
  {
  }

  lemma {:induction false} SortedUnique(a: seq<Str>, b: seq<Str>)
    requires Sorted(a) && Sorted(b) && multiset(a) == multiset(b)
    ensures a == b
  {
    if a == [] {
      assert |multiset(b)| == 0;
    } else {
      assert |multiset(a)| == |a| && |multiset(b)| == |b|;
      assert a[0] in multiset(b) && b[0] in multiset(a);
      SortedHead(a, b);
      SortedHead(b, a);
      LessTotal(a[0], b[0]);
      HeadAndTail(a);
      HeadAndTail(b);
      SortedUnique(a[1..], b[1..]);
    }
  }

  /** The order in which keys are given makes no difference. */
  lemma SortForgetsOrder(a: seq<Str>, b: seq<Str>)
    requires multiset(a) == multiset(b)
    ensures Sort(a) == Sort(b)
  {
    SortIsSorted(a);
    SortIsSorted(b);
    SortedUnique(Sort(a), Sort(b));
  }

  /** An ascending sequence is determined by its elements. */
  lemma {:induction false} AscendingUnique(a: seq<Str>, b: seq<Str>)
    requires Ascending(a) && Ascending(b)
    requires forall k :: k in a <==> k in b
    ensures a == b
  {
    assert a != [] ==> a[0] in b;
    assert b != [] ==> b[0] in a;
    if a != [] {
      HeadIsLeast(a, b);
      HeadIsLeast(b, a);
      LessTotal(a[0], b[0]);
      forall k ensures k in a[1..] <==> k in b[1..] {
        TailElements(a, k);
        TailElements(b, k);
      }
      AscendingUnique(a[1..], b[1..]);
    }
  }

  lemma HeadIsLeast(a: seq<Str>, b: seq<Str>)
    requires a != [] && b != [] && Ascending(a) && b[0] in a
    ensures a[0] == b[0] || Less(a[0], b[0])
  {
    var i :| 0 <= i < |a| && a[i] == b[0];
  }

  lemma TailElements(a: seq<Str>, k: Str)
    requires a != [] && Ascending(a)
    ensures k in a[1..] <==> k in a && k != a[0]
  {
    LessIrreflexive(a[0]);
    assert a == [a[0]] + a[1..];
    if k in a[1..] {
      var i :| 0 <= i < |a[1..]| && a[1..][i] == k;
      assert a[i + 1] == k;
    }
  }

  // ---------- concatenation is associative ----------

  function Min(a: nat, b: nat): nat { if a < b then a else b }

  function Max(a: nat, b: nat): nat { if a > b then a else b }

  lemma SubsetSize<T>(a: set<T>, b: set<T>)
    requires a <= b
    ensures |a| <= |b|
  {
    if a != {} {
      var k :| k in a;
      SubsetSize(a - {k}, b - {k});
    }
  }

  lemma Assoc<T>(a: seq<T>, b: seq<T>, c: seq<T>)
    ensures (a + b) + c == a + (b + c)
  {
  }

  // ---------- split and join on one separator ----------

  /** Array.prototype.join. */
  function Join(parts: seq<Str>, sep: CodeUnit): Str {
    if parts == [] then [] else if |parts| == 1 then parts[0]
    else parts[0] + [sep] + Join(parts[1..], sep)
  }

  /** String.prototype.split: never empty, the pieces between separators. */
  function Split(s: Str, sep: CodeUnit): (parts: seq<Str>)
    ensures |parts| >= 1
  {
    if s == [] then [[]]
    else if s[0] == sep then [[]] + Split(s[1..], sep)
    else var rest := Split(s[1..], sep); [[s[0]] + rest[0]] + rest[1..]
  }

  lemma {:induction false} SplitWithout(s: Str, sep: CodeUnit)
    requires sep !in s
    ensures Split(s, sep) == [s]
  {
    if s != [] {
      SplitWithout(s[1..], sep);
      assert [s[0]] + s[1..] == s;
    }
  }

  function Push(c: CodeUnit, parts: seq<Str>, sep: CodeUnit): seq<Str>
    requires parts != []
  {
    if c == sep then [[]] + parts else [[c] + parts[0]] + parts[1..]
  }

  lemma SplitCons(c: CodeUnit, t: Str, sep: CodeUnit)
    ensures Split([c] + t, sep) == Push(c, Split(t, sep), sep)
  {
    assert ([c] + t)[1..] == t;
  }

  lemma PushAppend(c: CodeUnit, l: seq<Str>, r: seq<Str>, sep: CodeUnit)
    requires l != []
    ensures Push(c, l + r, sep) == Push(c, l, sep) + r
  {
    assert (l + r)[1..] == l[1..] + r;
  }

  lemma {:induction false} SplitAtSeparator(a: Str, b: Str, sep: CodeUnit)
    ensures Split(a + [sep] + b, sep) == Split(a, sep) + Split(b, sep)
  {
    if a == [] {
      assert a + [sep] + b == [sep] + b;
      SplitCons(sep, b, sep);
    } else {
      var t := a[1..];
      SplitAtSeparator(t, b, sep);
      assert a == [a[0]] + t && a + [sep] + b == [a[0]] + (t + [sep] + b);
      SplitCons(a[0], t, sep);
      SplitCons(a[0], t + [sep] + b, sep);
      PushAppend(a[0], Split(t, sep), Split(b, sep), sep);
    }
  }

  lemma {:induction false} SplitJoin(parts: seq<Str>, sep: CodeUnit)
    requires parts != [] && forall p :: p in parts ==> sep !in p
    ensures Split(Join(parts, sep), sep) == parts
  {
    SplitWithout(parts[0], sep);
    if |parts| > 1 {
      SplitJoin(parts[1..], sep);
      SplitAtSeparator(parts[0], Join(parts[1..], sep), sep);
      assert parts == [parts[0]] + parts[1..];
    }
  }

  lemma {:induction false} JoinSplit(s: Str, sep: CodeUnit)
    ensures Join(Split(s, sep), sep) == s
  {
    if s != [] {
      var parts := Split(s[1..], sep);
      JoinSplit(s[1..], sep);
      assert s == [s[0]] + s[1..];
      if s[0] == sep {
        assert ([[]] + parts)[1..] == parts;
      } else {
        JoinPush(s[0], parts, sep);
      }
    }
  }

  lemma JoinPush(c: CodeUnit, parts: seq<Str>, sep: CodeUnit)
    requires parts != []
    ensures Join([[c] + parts[0]] + parts[1..], sep) == [c] + Join(parts, sep)
  {
    var longer := [[c] + parts[0]] + parts[1..];
    assert longer[1..] == parts[1..];
  }

  /** The pieces hold no separator. */
  lemma {:induction false} SplitPieces(s: Str, sep: CodeUnit)
    ensures forall p :: p in Split(s, sep) ==> sep !in p
  {
    if s != [] { SplitPieces(s[1..], sep); }
  }

  /** The first separator parts a composed text. */
  lemma FirstSeparator(a: Str, b: Str, c: Str, d: Str, sep: CodeUnit)
    requires sep !in a && sep !in c && a + [sep] + b == c + [sep] + d
    ensures a == c && b == d
  {
    var s := a + [sep] + b;
    assert s[|a|] == sep && s[|c|] == sep;
    assert forall k :: 0 <= k < |a| ==> s[k] == a[k];
    assert forall k :: 0 <= k < |c| ==> s[k] == c[k];
    assert |a| == |c|;
    assert a == s[..|a|] && c == s[..|a|] && b == s[|a| + 1..] && d == s[|a| + 1..];
  }

  // ---------- hexadecimal digits ----------

  type Nibble = n: int | 0 <= n < 16

  function HexUpper(n: Nibble): CodeUnit {
    if n < 10 then '0' as int + n else 'A' as int + n - 10
  }

  function HexLower(n: Nibble): CodeUnit {
    if n < 10 then '0' as int + n else 'a' as int + n - 10
  }

  /** Value of a hexadecimal digit of either case. */
  function HexValue(u: CodeUnit): Option<Nibble> {
    if IsDigit(u) then Some(u - '0' as int)
    else if 'A' as int <= u <= 'F' as int then Some(u - 'A' as int + 10)
    else if 'a' as int <= u <= 'f' as int then Some(u - 'a' as int + 10)
    else None
  }
}
