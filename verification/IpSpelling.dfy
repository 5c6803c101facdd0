/** Every way to write eight groups - leading zeros, one run of zeros as "::", the last 32
    bits dotted - is read as the same 128-bit number. */
module IpSpelling {
  import opened Text
  import opened Bits
  import opened IpAddress
  import A = Amounts

  type Group = g: Str | 1 <= |g| <= 4 && (forall i :: 0 <= i < |g| ==> HexValue(g[i]).Some?) witness ['0' as int]

  type Octet = o: int | 0 <= o < 256

  datatype Quad = Quad(a: Octet, b: Octet, c: Octet, d: Octet)

  /** `left` then, after "::", `right`; a dotted quad ends the last side. */
  datatype Spelling = Spelling(left: seq<Group>, gap: bool, right: seq<Group>, quad: Option<Quad>)

  function Count(sp: Spelling): nat { |sp.left| + |sp.right| + if sp.quad.Some? then 2 else 0 }

  ghost predicate Legal(sp: Spelling) {
    if sp.gap then Count(sp) <= 8 else Count(sp) == 8 && sp.right == []
  }

  function QuadText(q: Quad): Str {
    Join([A.DecimalText(q.a), A.DecimalText(q.b), A.DecimalText(q.c), A.DecimalText(q.d)], DOT)
  }

  function Sides(left: seq<Str>, gap: bool, right: seq<Str>): Str {
    if gap then Join(left, COLON) + [COLON, COLON] + Join(right, COLON) else Join(left, COLON)
  }

  function Spell(sp: Spelling): Str {
    var tail := if sp.quad.Some? then [QuadText(sp.quad.value)] else [];
    if sp.gap then Sides(sp.left, true, sp.right + tail) else Sides(sp.left + tail, false, [])
  }

  // ---------- the number a spelling stands for ----------

  function GroupNumber(g: Group): nat { GroupIsHex(g); GroupValue(g).value }

  function Numbers(gs: seq<Group>): (ns: seq<nat>)
    ensures |ns| == |gs|
  {
    if gs == [] then [] else [GroupNumber(gs[0])] + Numbers(gs[1..])
  }

  function Nothing(n: nat): (ns: seq<nat>)
    ensures |ns| == n
  {
    seq(n, _ => 0)
  }

  function QuadNumbers(q: Option<Quad>): seq<nat> {
    match q
    case None => []
    case Some(Quad(a, b, c, d)) => [a * 256 + b, c * 256 + d]
  }

  /** The eight 16-bit numbers. */
  function Expand(sp: Spelling): seq<nat>
    requires Legal(sp)
  {
    Numbers(sp.left) + Nothing(8 - Count(sp)) + Numbers(sp.right) + QuadNumbers(sp.quad)
  }

  /** The number with these 16-bit digits, most significant first. */
  function Positional(ns: seq<nat>): nat {
    if ns == [] then 0 else ns[0] * Pow2(16 * (|ns| - 1)) + Positional(ns[1..])
  }

  // ---------- groups ----------

  lemma {:induction false} HexBound(g: Str)
    requires forall i :: 0 <= i < |g| ==> HexValue(g[i]).Some?
    ensures HexDigits(g).Some? && HexDigits(g).value < Pow2(4 * |g|)
  {
    if g != [] {
      HexBound(g[..|g| - 1]);
      assert Pow2(4) == 16;
      PowAdd(4, 4 * (|g| - 1));
    }
  }

  lemma GroupIsHex(g: Group)
    ensures GroupValue(g).Some? && GroupValue(g).value < 65536
  {
    HexBound(g);
    TwoTo16();
    PowMonotone(4 * |g|, 16);
  }

  lemma TwoTo16()
    ensures Pow2(16) == 65536
  {
    assert Pow2(8) == 256;
    PowAdd(8, 8);
  }

  lemma {:induction false} PositionalSnoc(ns: seq<nat>, x: nat)
    ensures Positional(ns + [x]) == Positional(ns) * 65536 + x
  {
    if ns == [] {
      assert ns + [x] == [x] && [x][1..] == [];
    } else {
      PositionalSnoc(ns[1..], x);
      assert (ns + [x])[1..] == ns[1..] + [x];
      TwoTo16();
      PowAdd(16, 16 * (|ns| - 1));
      Move(ns[0], Pow2(16 * (|ns| - 1)), Positional(ns[1..]));
    }
  }

  lemma Move(n: nat, p: nat, rest: nat)
    ensures n * (65536 * p) + rest * 65536 == (n * p + rest) * 65536
  {
  }

  ghost predicate Reads(gs: seq<Str>, ns: seq<nat>) {
    |gs| == |ns| && forall i :: 0 <= i < |gs| ==> GroupValue(gs[i]) == Some(ns[i]) && ns[i] < 65536
  }

  /** The loop's shifts and ors add up to the positional number. */
  lemma {:induction false} FoldIsPositional(gs: seq<Str>, ns: seq<nat>)
    requires Reads(gs, ns)
    ensures FoldGroups(gs) == Some(Positional(ns))
  {
    if gs != [] {
      var k := |gs| - 1;
      assert Reads(gs[..k], ns[..k]);
      FoldIsPositional(gs[..k], ns[..k]);
      assert ns == ns[..k] + [ns[k]];
      PositionalSnoc(ns[..k], ns[k]);
      TwoTo16();
      OrDisjoint(Positional(ns[..k]), 16, ns[k]);
    }
  }

  lemma {:induction false} NumbersRead(gs: seq<Group>)
    ensures Reads(gs, Numbers(gs))
  {
    if gs != [] {
      GroupIsHex(gs[0]);
      NumbersRead(gs[1..]);
      assert gs == [gs[0]] + gs[1..];
    }
  }

  lemma ReadsConcat(a: seq<Str>, m: seq<nat>, b: seq<Str>, n: seq<nat>)
    requires Reads(a, m) && Reads(b, n)
    ensures Reads(a + b, m + n)
  {
  }

  lemma FillReads(n: nat)
    ensures Reads(Fill(n), Nothing(n))
  {
    assert GroupValue(ZERO) == Some(0) by {
      assert ZERO[..0] == [] && HexDigits(ZERO[..0]) == Some(0);
      assert |ZERO| == 1 && HexValue(ZERO[0]) == Some(0);
    }
  }

  // ---------- the dotted quad ----------

  lemma OctetReads(o: Octet)
    ensures OctetValue(A.DecimalText(o)) == Some(o) && DOT !in A.DecimalText(o) && COLON !in A.DecimalText(o)
  {
    A.DigitsOfText(o);
  }

  lemma FoldOctetsSnoc(os: seq<Str>, o: Str)
    ensures FoldOctets(os + [o]) == match (FoldOctets(os), OctetValue(o))
      case (Some(acc), Some(v)) => Some(Or(ShiftLeft(acc, 8), v))
      case _ => None
  {
    assert (os + [o])[..|os|] == os;
  }

  lemma OctetStep(os: seq<Str>, acc: nat, o: Octet)
    requires FoldOctets(os) == Some(acc)
    ensures FoldOctets(os + [A.DecimalText(o)]) == Some(acc * 256 + o)
  {
    OctetReads(o);
    FoldOctetsSnoc(os, A.DecimalText(o));
    assert Pow2(8) == 256;
    OrDisjoint(acc, 8, o);
  }

  /** The 32 bits of a dotted quad. */
  function QuadNumber(q: Quad): nat { ((q.a * 256 + q.b) * 256 + q.c) * 256 + q.d }

  lemma TwoOctets(a: Octet, b: Octet)
    ensures FoldOctets([A.DecimalText(a), A.DecimalText(b)]) == Some(a * 256 + b)
  {
    OctetStep([], 0, a);
    assert [] + [A.DecimalText(a)] == [A.DecimalText(a)];
    OctetStep([A.DecimalText(a)], a, b);
    assert [A.DecimalText(a)] + [A.DecimalText(b)] == [A.DecimalText(a), A.DecimalText(b)];
  }

  lemma QuadFolds(q: Quad)
    ensures FoldOctets([A.DecimalText(q.a), A.DecimalText(q.b), A.DecimalText(q.c), A.DecimalText(q.d)])
      == Some(QuadNumber(q))
  {
    var a, b, c, d := A.DecimalText(q.a), A.DecimalText(q.b), A.DecimalText(q.c), A.DecimalText(q.d);
    TwoOctets(q.a, q.b);
    OctetStep([a, b], q.a * 256 + q.b, q.c);
    assert [a, b] + [c] == [a, b, c];
    OctetStep([a, b, c], (q.a * 256 + q.b) * 256 + q.c, q.d);
    assert [a, b, c] + [d] == [a, b, c, d];
  }

  lemma QuadSplits(q: Quad)
    ensures Text.Split(QuadText(q), DOT) ==
      [A.DecimalText(q.a), A.DecimalText(q.b), A.DecimalText(q.c), A.DecimalText(q.d)]
  {
    OctetReads(q.a);
    OctetReads(q.b);
    OctetReads(q.c);
    OctetReads(q.d);
    SplitJoin([A.DecimalText(q.a), A.DecimalText(q.b), A.DecimalText(q.c), A.DecimalText(q.d)], DOT);
  }

  lemma QuadReads(q: Quad)
    ensures Ipv4Value(QuadText(q)) == Some(QuadNumber(q))
  {
    QuadFolds(q);
    QuadSplits(q);
  }

  lemma JoinTwo(x: Str, rest: seq<Str>)
    requires rest != []
    ensures Join([x] + rest, DOT) == x + [DOT] + Join(rest, DOT)
  {
    assert ([x] + rest)[1..] == rest;
  }

  lemma QuadUnits(q: Quad)
    ensures DOT in QuadText(q) && COLON !in QuadText(q)
  {
    var a, b, c, d := A.DecimalText(q.a), A.DecimalText(q.b), A.DecimalText(q.c), A.DecimalText(q.d);
    OctetReads(q.a);
    OctetReads(q.b);
    OctetReads(q.c);
    OctetReads(q.d);
    JoinTwo(c, [d]);
    JoinTwo(b, [c, d]);
    JoinTwo(a, [b, c, d]);
    assert [c] + [d] == [c, d] && [b] + [c, d] == [b, c, d] && [a] + [b, c, d] == [a, b, c, d];
  }

  // ---------- splitting the text into sides ----------

  ghost predicate NoDouble(s: Str) {
    forall i :: 0 <= i && i + 1 < |s| ==> !(s[i] == COLON && s[i + 1] == COLON)
  }

  lemma {:induction false} JoinedGroups(gs: seq<Str>)
    requires forall g :: g in gs ==> g != [] && COLON !in g
    ensures NoDouble(Join(gs, COLON))
    ensures gs != [] ==> var s := Join(gs, COLON); s != [] && s[0] != COLON && s[|s| - 1] != COLON
    ensures SideGroups(Join(gs, COLON)) == gs
  {
    if gs != [] {
      SplitJoin(gs, COLON);
      assert gs[0] in gs;
      if |gs| > 1 {
        var rest := Join(gs[1..], COLON);
        JoinedGroups(gs[1..]);
        NoDoubleAround(gs[0], rest);
        Assoc(gs[0], [COLON], rest);
      }
    }
  }

  lemma NoDoubleAround(g: Str, rest: Str)
    requires g != [] && COLON !in g && rest != [] && rest[0] != COLON && NoDouble(rest)
    ensures var s := g + [COLON] + rest; NoDouble(s) && s[0] != COLON && s[|s| - 1] == rest[|rest| - 1]
  {
    var s := g + [COLON] + rest;
    forall i | 0 <= i && i + 1 < |s| ensures !(s[i] == COLON && s[i + 1] == COLON) {
      if i < |g| { assert s[i] == g[i] && g[i] in g; }
      else if i > |g| { assert s[i] == rest[i - |g| - 1] && s[i + 1] == rest[i - |g|]; }
    }
    assert s[0] == g[0] && g[0] in g;
  }

  lemma DoubleAt(l: Str, r: Str)
    requires NoDouble(l) && (l != [] ==> l[|l| - 1] != COLON)
    ensures var s := l + [COLON, COLON] + r; Double(s) == |l| && s[..|l|] == l && s[|l| + 2..] == r
  {
    var s := l + [COLON, COLON] + r;
    assert s[|l|] == COLON && s[|l| + 1] == COLON;
    forall j | 0 <= j < |l| ensures !(s[j] == COLON && s[j + 1] == COLON) {
      assert s[j] == l[j];
      if j + 1 < |l| { assert s[j + 1] == l[j + 1]; }
    }
  }

  lemma NoDoubleWhole(s: Str)
    requires NoDouble(s)
    ensures SplitDouble(s) == [s]
  {
  }

  ghost predicate Plain(gs: seq<Str>) { forall g :: g in gs ==> g != [] && COLON !in g && DOT !in g }

  /** The groups come back from the text, with the run of zeros filled in. */
  lemma SidesRead(left: seq<Str>, gap: bool, right: seq<Str>)
    requires Plain(left) && Plain(right)
    requires if gap then |left| + |right| <= 8 else |left| == 8 && right == []
    ensures EightGroups(Sides(left, gap, right)) == Some(left + Fill(8 - |left| - |right|) + right)
  {
    var l, r := Join(left, COLON), Join(right, COLON);
    JoinedGroups(left);
    JoinedGroups(right);
    if gap {
      DoubleAt(l, r);
      NoDoubleWhole(r);
      assert SplitDouble(Sides(left, gap, right)) == [l, r];
    } else {
      NoDoubleWhole(l);
      assert left + Fill(0) + right == left;
    }
  }

  lemma PlainGroups(gs: seq<Group>)
    ensures Plain(gs)
  {
    forall g | g in gs ensures g != [] && COLON !in g && DOT !in g {
      var i :| 0 <= i < |gs| && gs[i] == g;
    }
  }

  lemma {:induction false} JoinNoDot(gs: seq<Str>)
    requires Plain(gs)
    ensures DOT !in Join(gs, COLON)
  {
    if |gs| > 1 {
      assert gs == [gs[0]] + gs[1..] && gs[0] in gs;
      assert forall g :: g in gs[1..] ==> g in gs;
      JoinNoDot(gs[1..]);
    }
  }

  // ---------- the theorem, without and with a dotted tail ----------

  lemma UndottedHead(z: Spelling)
    requires Legal(z) && z.quad.None?
    ensures EightGroups(Spell(z)) == Some(z.left + Fill(8 - Count(z)) + z.right)
    ensures DOT !in Spell(z)
  {
    PlainGroups(z.left);
    PlainGroups(z.right);
    JoinNoDot(z.left);
    JoinNoDot(z.right);
    assert z.left + [] == z.left && z.right + [] == z.right;
    SidesRead(z.left, z.gap, z.right);
  }

  lemma GroupsFold(z: Spelling)
    requires Legal(z) && z.quad.None?
    ensures FoldGroups(z.left + Fill(8 - Count(z)) + z.right) == Some(Positional(Expand(z)))
  {
    var n := 8 - Count(z);
    NumbersRead(z.left);
    NumbersRead(z.right);
    FillReads(n);
    ReadsConcat(z.left, Numbers(z.left), Fill(n), Nothing(n));
    ReadsConcat(z.left + Fill(n), Numbers(z.left) + Nothing(n), z.right, Numbers(z.right));
    FoldIsPositional(z.left + Fill(n) + z.right, Numbers(z.left) + Nothing(n) + Numbers(z.right));
    assert Expand(z) == Numbers(z.left) + Nothing(n) + Numbers(z.right);
  }

  lemma UndottedReads(sp: Spelling)
    requires Legal(sp) && sp.quad.None?
    ensures Ipv6Value(Spell(sp)) == Some(Positional(Expand(sp)))
  {
    UndottedHead(sp);
    GroupsFold(sp);
    assert DOT !in Spell(sp)[AfterLast(Spell(sp), COLON)..];
    OrZero(Positional(Expand(sp)));
  }

  lemma OrZero(x: nat)
    ensures Or(x, 0) == x
  {
  }

  /** The text before the dotted quad. */
  function Front(sp: Spelling): Str {
    var side := if sp.gap then sp.right else sp.left;
    var joined := Join(side, COLON) + if side == [] then [] else [COLON];
    if sp.gap then Join(sp.left, COLON) + [COLON, COLON] + joined else joined
  }

  lemma {:induction false} JoinSnoc(gs: seq<Str>, x: Str)
    ensures Join(gs + [x], COLON) == Join(gs, COLON) + (if gs == [] then [] else [COLON]) + x
  {
    if gs == [] {
      assert gs + [x] == [x];
    } else if |gs| == 1 {
      assert (gs + [x])[1..] == [x];
    } else {
      var rest := gs[1..];
      JoinSnoc(rest, x);
      assert (gs + [x])[1..] == rest + [x];
      var j := Join(rest, COLON);
      Assoc(gs[0] + [COLON], j, [COLON]);
      Assoc(gs[0] + [COLON], j + [COLON], x);
    }
  }

  /** The quad follows the front; so do the two zero groups the code puts in its place. */
  lemma FrontIs(sp: Spelling, q: Quad)
    requires sp.quad == Some(q)
    ensures Spell(sp) == Front(sp) + QuadText(q)
    ensures Spell(Zeroed(sp)) == Front(sp) + ZERO + [COLON] + ZERO
  {
    var side: seq<Str> := if sp.gap then sp.right else sp.left;
    var j := Join(side, COLON) + if side == [] then [] else [COLON];
    JoinSnoc(side, QuadText(q));
    JoinSnoc(side, ZERO);
    JoinSnoc(side + [ZERO], ZERO);
    assert side + [ZERO] + [ZERO] == side + [ZERO, ZERO];
    assert side + [ZERO, ZERO] + [] == side + [ZERO, ZERO];
    if sp.gap {
      var l := Join(sp.left, COLON) + [COLON, COLON];
      Assoc(l, j, QuadText(q));
      Assoc(l, j, ZERO);
      Assoc(l, j + ZERO, [COLON]);
      Assoc(l, j + ZERO + [COLON], ZERO);
    }
  }

  /** The spelling with the quad replaced by two zero groups. */
  function Zeroed(sp: Spelling): Spelling {
    if sp.gap then Spelling(sp.left, true, sp.right + [ZERO, ZERO], None)
    else Spelling(sp.left + [ZERO, ZERO], false, [], None)
  }

  lemma FrontEnds(sp: Spelling)
    requires Legal(sp) && sp.quad.Some?
    ensures Front(sp) != [] && Front(sp)[|Front(sp)| - 1] == COLON
  {
  }

  lemma LastColon(front: Str, tail: Str)
    requires front != [] && front[|front| - 1] == COLON && COLON !in tail
    ensures var s := front + tail; AfterLast(s, COLON) == |front| && s[|front|..] == tail && s[..|front|] == front
  {
    var s := front + tail;
    assert s[|front| - 1] == COLON;
    forall j | |front| <= j < |s| ensures s[j] != COLON {
      assert s[j] == tail[j - |front|] && s[j] in tail;
    }
  }

  lemma {:induction false} NumbersConcat(a: seq<Group>, b: seq<Group>)
    ensures Numbers(a + b) == Numbers(a) + Numbers(b)
  {
    if a == [] {
      assert a + b == b;
    } else {
      NumbersConcat(a[1..], b);
      assert (a + b)[1..] == a[1..] + b && (a + b)[0] == a[0];
      assert Numbers(a + b) == [GroupNumber(a[0])] + Numbers(a[1..] + b);
      Assoc([GroupNumber(a[0])], Numbers(a[1..]), Numbers(b));
    }
  }

  lemma ZeroNumbers()
    ensures Numbers([ZERO, ZERO]) == [0, 0]
  {
    FillReads(1);
    assert Fill(1)[0] == ZERO;
    assert [ZERO, ZERO][1..] == [ZERO] && [ZERO][1..] == [];
  }

  lemma DottedIsPositional(sp: Spelling, q: Quad)
    requires Legal(sp) && sp.quad == Some(q)
    ensures Ipv6Value(Spell(sp)) == Some(Positional(Expand(sp)))
  {
    var high := Numbers(sp.left) + Nothing(8 - Count(sp)) + Numbers(sp.right);
    ZeroedExpands(sp, high);
    DottedReads(sp, q);
    TailAdds(high, q);
  }

  /** Every legal spelling is read as its positional number. */
  lemma EverySpellingReads(sp: Spelling)
    requires Legal(sp)
    ensures Ipv6Value(Spell(sp)) == Some(Positional(Expand(sp)))
  {
    if sp.quad.None? {
      UndottedReads(sp);
    } else {
      DottedIsPositional(sp, sp.quad.value);
    }
  }

  lemma DottedReads(sp: Spelling, q: Quad)
    requires Legal(sp) && sp.quad == Some(q) && Legal(Zeroed(sp))
    ensures Ipv6Value(Spell(sp))
      == Some(Or(Positional(Expand(Zeroed(sp))), QuadNumber(q)))
  {
    var front, tail := Front(sp), QuadText(q);
    var v := Positional(Expand(Zeroed(sp)));
    assert front != [] && front[|front| - 1] == COLON by { FrontEnds(sp); }
    assert COLON !in tail && DOT in tail by { QuadUnits(q); }
    assert Ipv4Value(tail) == Some(QuadNumber(q)) by { QuadReads(q); }
    var groups := ZeroedReads(sp, q);
    assert Spell(sp) == front + tail by { FrontIs(sp, q); }
    TailReads(front, tail, QuadNumber(q), groups, v);
  }

  lemma ZeroedReads(sp: Spelling, q: Quad) returns (groups: seq<Str>)
    requires Legal(sp) && sp.quad == Some(q) && Legal(Zeroed(sp))
    ensures EightGroups(Front(sp) + ZERO + [COLON] + ZERO) == Some(groups)
    ensures FoldGroups(groups) == Some(Positional(Expand(Zeroed(sp))))
  {
    var z := Zeroed(sp);
    groups := z.left + Fill(8 - Count(z)) + z.right;
    UndottedHead(z);
    GroupsFold(z);
    FrontIs(sp, q);
  }

  lemma TailReads(front: Str, tail: Str, t: nat, groups: seq<Str>, v: nat)
    requires front != [] && front[|front| - 1] == COLON && COLON !in tail && DOT in tail
    requires Ipv4Value(tail) == Some(t)
    requires EightGroups(front + ZERO + [COLON] + ZERO) == Some(groups) && FoldGroups(groups) == Some(v)
    ensures Ipv6Value(front + tail) == Some(Or(v, t))
  {
    LastColon(front, tail);
  }

  lemma ZerosAfter(gs: seq<Group>)
    ensures Numbers(gs + [ZERO, ZERO]) == Numbers(gs) + [0, 0]
  {
    ZeroNumbers();
    NumbersConcat(gs, [ZERO, ZERO]);
  }

  lemma ZeroedExpands(sp: Spelling, high: seq<nat>)
    requires Legal(sp) && sp.quad.Some?
    requires high == Numbers(sp.left) + Nothing(8 - Count(sp)) + Numbers(sp.right)
    ensures Legal(Zeroed(sp)) && Expand(Zeroed(sp)) == high + [0, 0]
  {
    var left, right, none := Numbers(sp.left), Numbers(sp.right), Nothing(8 - Count(sp));
    if sp.gap {
      ZerosAfter(sp.right);
      assert Expand(Zeroed(sp)) == left + none + (right + [0, 0]) + [];
      assert left + none + (right + [0, 0]) + [] == left + none + right + [0, 0];
    } else {
      ZerosAfter(sp.left);
      assert none == [] && right == [];
      assert Expand(Zeroed(sp)) == (left + [0, 0]) + [] + [] + [];
    }
  }

  lemma SnocTwo(high: seq<nat>, x: nat, y: nat)
    ensures Positional(high + [x, y]) == Positional(high) * 65536 * 65536 + (x * 65536 + y)
  {
    assert high + [x, y] == high + [x] + [y];
    PositionalSnoc(high, x);
    PositionalSnoc(high + [x], y);
  }

  lemma TwoHalves(q: Quad) returns (x: nat, y: nat)
    ensures QuadNumbers(Some(q)) == [x, y] && x < 65536 && y < 65536 && QuadNumber(q) == x * 65536 + y
  {
    x, y := q.a * 256 + q.b, q.c * 256 + q.d;
  }

  lemma TailAdds(high: seq<nat>, q: Quad)
    ensures Or(Positional(high + [0, 0]), QuadNumber(q)) == Positional(high + QuadNumbers(Some(q)))
  {
    var x, y := TwoHalves(q);
    SnocTwo(high, 0, 0);
    SnocTwo(high, x, y);
    LowOr(Positional(high), QuadNumber(q));
  }

  lemma LowOr(p: nat, t: nat)
    requires t < 65536 * 65536
    ensures Or(p * 65536 * 65536 + (0 * 65536 + 0), t) == p * 65536 * 65536 + t
  {
    TwoTo32();
    OrDisjoint(p, 32, t);
    assert ShiftLeft(p, 32) == p * 65536 * 65536;
  }

  // ---------- CIDR matching of spelled addresses ----------

  lemma {:induction false} PositionalBound(ns: seq<nat>)
    requires forall i :: 0 <= i < |ns| ==> ns[i] < 65536
    ensures Positional(ns) < Pow2(16 * |ns|)
  {
    if ns != [] {
      var rest := ns[1..];
      assert forall i :: 0 <= i < |rest| ==> rest[i] == ns[i + 1];
      PositionalBound(rest);
      TwoTo16();
      PowAdd(16, 16 * |rest|);
      Gap(ns[0], 65536, Pow2(16 * |rest|));
    }
  }

  lemma ExpandedBound(sp: Spelling)
    requires Legal(sp)
    ensures Positional(Expand(sp)) < Pow2(128)
  {
    Below(sp.left);
    Below(sp.right);
    assert forall x :: x in QuadNumbers(sp.quad) ==> x < 65536;
    BelowConcat(Numbers(sp.left), Nothing(8 - Count(sp)));
    BelowConcat(Numbers(sp.left) + Nothing(8 - Count(sp)), Numbers(sp.right));
    BelowConcat(Numbers(sp.left) + Nothing(8 - Count(sp)) + Numbers(sp.right), QuadNumbers(sp.quad));
    var ns := Expand(sp);
    assert forall i :: 0 <= i < |ns| ==> ns[i] in ns;
    PositionalBound(ns);
  }

  lemma BelowConcat(a: seq<nat>, b: seq<nat>)
    requires (forall x :: x in a ==> x < 65536) && forall x :: x in b ==> x < 65536
    ensures forall x :: x in a + b ==> x < 65536
  {
  }

  lemma Below(gs: seq<Group>)
    ensures forall x :: x in Numbers(gs) ==> x < 65536
  {
    NumbersRead(gs);
  }

  lemma LastSlash(network: Str, prefix: Str)
    requires SLASH !in prefix
    ensures var cidr := network + [SLASH] + prefix;
      AfterLast(cidr, SLASH) == |network| + 1 && cidr[|network| + 1..] == prefix && cidr[..|network|] == network
  {
    var cidr := network + [SLASH] + prefix;
    assert cidr[|network|] == SLASH;
    forall j | |network| + 1 <= j < |cidr| ensures cidr[j] != SLASH {
      assert cidr[j] == prefix[j - |network| - 1] && cidr[j] in prefix;
    }
  }

  /** However address and network are spelled, the address is in network/k exactly when the
      two numbers agree after division by 2^(128 - k). */
  lemma SpelledMatch(net: Net, ip: Spelling, network: Spelling, prefix: Str, k: int)
    requires Legal(ip) && Legal(network) && net.isIP(Spell(ip)) == 6 && net.isIP(Spell(network)) == 6
    requires SLASH !in prefix && net.number(prefix) == Some(k)
    ensures IpMatchesCidr(net, Spell(ip), Spell(network) + [SLASH] + prefix) <==>
      0 <= k <= 128 && ShiftRight(Positional(Expand(ip)), 128 - k) == ShiftRight(Positional(Expand(network)), 128 - k)
  {
    var a, n := Address(128, Positional(Expand(ip))), Address(128, Positional(Expand(network)));
    SpelledParse(net, ip);
    SpelledParse(net, network);
    MatchText(net, Spell(ip), Spell(network), prefix, a, n);
    MatchSix(a.value, n.value, k);
  }

  lemma SpelledParse(net: Net, sp: Spelling)
    requires Legal(sp) && net.isIP(Spell(sp)) == 6
    ensures ParseIp(net, Spell(sp)) == Some(Address(128, Positional(Expand(sp))))
    ensures Positional(Expand(sp)) < Pow2(128)
  {
    EverySpellingReads(sp);
    ExpandedBound(sp);
  }

  lemma MatchText(net: Net, ip: Str, network: Str, prefix: Str, a: Address, n: Address)
    requires ParseIp(net, ip) == Some(a) && ParseIp(net, network) == Some(n) && SLASH !in prefix
    ensures IpMatchesCidr(net, ip, network + [SLASH] + prefix) == Matches(a, n, Some(net.number(prefix)))
  {
    LastSlash(network, prefix);
  }

  lemma MatchSix(a: nat, n: nat, k: int)
    requires a < Pow2(128) && n < Pow2(128)
    ensures Matches(Address(128, a), Address(128, n), Some(Some(k))) <==>
      0 <= k <= 128 && ShiftRight(a, 128 - k) == ShiftRight(n, 128 - k)
  {
    if 0 <= k <= 128 { MaskIsPrefix(a, n, k, 128); }
  }
}
