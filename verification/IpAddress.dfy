/** IPv4 and IPv6 text to integers, and CIDR matching. */
module IpAddress {
  import opened Text
  import opened Bits
  import A = Amounts

  const DOT: CodeUnit := '.' as int
  const COLON: CodeUnit := ':' as int
  const SLASH: CodeUnit := '/' as int
  const ZERO: Str := ['0' as int]

  /** net.isIP (0, 4 or 6) and Number(text) when it is an integer: decided outside. */
  datatype Net = Net(isIP: Str -> int, number: Str -> Option<int>)

  datatype Address = Address(bits: nat, value: nat)

  // ---------- text to integer ----------

  function OctetValue(octet: Str): Option<nat> {
    if octet != [] && A.AllDigits(octet) then Some(A.DigitsValue(octet)) else None
  }

  /** Shifts each octet in below the ones before it. */
  function FoldOctets(octets: seq<Str>): Option<nat> {
    if octets == [] then Some(0)
    else match (FoldOctets(octets[..|octets| - 1]), OctetValue(octets[|octets| - 1]))
      case (Some(acc), Some(o)) => Some(Or(ShiftLeft(acc, 8), o))
      case _ => None
  }

  function Ipv4Value(ip: Str): Option<nat> { FoldOctets(Text.Split(ip, DOT)) }

  function HexDigits(g: Str): Option<nat> {
    if g == [] then Some(0)
    else match (HexDigits(g[..|g| - 1]), HexValue(g[|g| - 1]))
      case (Some(acc), Some(d)) => Some(acc * 16 + d)
      case _ => None
  }

  /** parseInt(group, 16) of a group net.isIP let through. */
  function GroupValue(g: Str): Option<nat> { if g == [] then None else HexDigits(g) }

  function FoldGroups(groups: seq<Str>): Option<nat> {
    if groups == [] then Some(0)
    else match (FoldGroups(groups[..|groups| - 1]), GroupValue(groups[|groups| - 1]))
      case (Some(acc), Some(g)) => Some(Or(ShiftLeft(acc, 16), g))
      case _ => None
  }

  predicate IsHex(u: CodeUnit) { 48 <= u <= 57 || 65 <= u <= 70 || 97 <= u <= 102 }

  function Digit(u: CodeUnit): nat
    requires IsHex(u)
  {
    if u <= 57 then u - 48 else if u <= 70 then u - 55 else u - 87
  }

  /** Each digit by its place. */
  function ByPlace(g: Str): nat
    requires forall u :: u in g ==> IsHex(u)
  {
    if g == [] then 0
    else
      assert g[0] in g;
      Digit(g[0]) * Pow2(4 * (|g| - 1)) + ByPlace(g[1..])
  }

  lemma {:induction false} ByPlaceSnoc(g: Str, u: CodeUnit)
    requires IsHex(u) && forall x :: x in g ==> IsHex(x)
    ensures ByPlace(g + [u]) == 16 * ByPlace(g) + Digit(u)
  {
    var all := g + [u];
    assert forall x :: x in all ==> x in g || x == u;
    if g == [] {
      assert all == [u] && all[1..] == [];
    } else {
      assert all[1..] == g[1..] + [u] && all[0] == g[0];
      ByPlaceSnoc(g[1..], u);
      PowAdd(4, 4 * (|g| - 1));
      assert Pow2(4) == 16;
      Sixteen(Digit(g[0]), Pow2(4 * (|g| - 1)));
    }
  }

  lemma Sixteen(d: nat, p: nat)
    ensures d * (16 * p) == 16 * (d * p)
  {
  }

  /** A group is read as its digits say by their places, in either case, and no other text is. */
  lemma {:induction false} GroupReads(g: Str)
    ensures HexDigits(g).Some? <==> forall u :: u in g ==> IsHex(u)
    ensures (forall u :: u in g ==> IsHex(u)) ==> HexDigits(g) == Some(ByPlace(g))
  {
    if g != [] {
      var init, last := g[..|g| - 1], g[|g| - 1];
      assert g == init + [last];
      GroupReads(init);
      if forall u :: u in g ==> IsHex(u) {
        assert forall u :: u in init ==> u in g;
        ByPlaceSnoc(init, last);
      }
    }
  }

  /** Position just after the last u in s; 0 when there is none. */
  function AfterLast(s: Str, u: CodeUnit): (i: nat)
    ensures i <= |s|
    ensures i > 0 ==> s[i - 1] == u
    ensures forall j :: i <= j < |s| ==> s[j] != u
  {
    if s == [] then 0 else if s[|s| - 1] == u then |s| else AfterLast(s[..|s| - 1], u)
  }

  /** Position of the first "::", or |s|. */
  function Double(s: Str): (i: nat)
    ensures i <= |s|
    ensures i < |s| ==> i + 1 < |s| && s[i] == COLON && s[i + 1] == COLON
    ensures forall j :: 0 <= j < i && j + 1 < |s| ==> !(s[j] == COLON && s[j + 1] == COLON)
  {
    if s == [] then 0
    else if |s| > 1 && s[0] == COLON && s[1] == COLON then 0
    else 1 + Double(s[1..])
  }

  /** split('::') */
  function SplitDouble(s: Str): (parts: seq<Str>)
    ensures |parts| >= 1
  {
    var i := Double(s);
    if i == |s| then [s] else [s[..i]] + SplitDouble(s[i + 2..])
  }

  function SideGroups(side: Str): seq<Str> { if side == [] then [] else Text.Split(side, COLON) }

  function Fill(n: nat): (gs: seq<Str>)
    ensures |gs| == n && forall i :: 0 <= i < n ==> gs[i] == ZERO
  {
    seq(n, _ => ZERO)
  }

  /** The eight groups of an address without a dotted tail; None when there are not eight. */
  function EightGroups(head: Str): Option<seq<Str>> {
    var sides := SplitDouble(head);
    if |sides| > 2 then None
    else
      var left := SideGroups(sides[0]);
      if |sides| == 1 then if |left| == 8 then Some(left) else None
      else
        var right := SideGroups(sides[1]);
        if |left| + |right| > 8 then None
        else Some(left + Fill(8 - |left| - |right|) + right)
  }

  function Ipv6Value(ip: Str): Option<nat> {
    var cut := AfterLast(ip, COLON);
    var dotted := DOT in ip[cut..];
    var tail := if dotted then Ipv4Value(ip[cut..]) else Some(0);
    var head := if dotted then ip[..cut] + ZERO + [COLON] + ZERO else ip;
    match (tail, EightGroups(head))
    case (Some(t), Some(groups)) =>
      (match FoldGroups(groups)
       case Some(v) => Some(Or(v, t))
       case None => None)
    case _ => None
  }

  /** The accumulator of ipv6ToBigInt, group by group. */
  method Accumulate(gs: seq<Str>) returns (r: Option<nat>)
    ensures r == FoldGroups(gs)
  {
    var value := 0;
    for i := 0 to |gs|
      invariant FoldGroups(gs[..i]) == Some(value)
    {
      assert gs[..i + 1][..i] == gs[..i];
      var g := GroupValue(gs[i]);
      if g.None? {
        StuckFold(gs, i + 1);
        return None;
      }
      value := Or(ShiftLeft(value, 16), g.value);
    }
    assert gs[..|gs|] == gs;
    r := Some(value);
  }

  /** ipv6ToBigInt */
  method Ipv6ToBigInt(ip: Str) returns (r: Option<nat>)
    ensures r == Ipv6Value(ip)
  {
    var tailValue := 0;
    var head := ip;
    var cut := AfterLast(ip, COLON);
    var tail := ip[cut..];
    if DOT in tail {
      var v4 := Ipv4Value(tail);
      if v4.None? { return None; }
      tailValue := v4.value;
      head := ip[..cut] + ZERO + [COLON] + ZERO;
    }
    var groups := EightGroups(head);
    if groups.None? { return None; }
    var value := Accumulate(groups.value);
    if value.None? { return None; }
    r := Some(Or(value.value, tailValue));
  }

  lemma {:induction false} StuckFold(groups: seq<Str>, i: nat)
    requires i <= |groups| && FoldGroups(groups[..i]).None?
    ensures FoldGroups(groups).None?
    decreases |groups|
  {
    if i == |groups| {
      assert groups[..i] == groups;
    } else {
      assert groups[..|groups| - 1][..i] == groups[..i];
      StuckFold(groups[..|groups| - 1], i);
    }
  }

  /** parseIp of trimmed text. */
  function ParseIp(net: Net, text: Str): Option<Address> {
    if net.isIP(text) == 4 then
      match Ipv4Value(text) case Some(v) => Some(Address(32, v)) case None => None
    else if net.isIP(text) == 6 then
      match Ipv6Value(text) case Some(v) => Some(Address(128, v)) case None => None
    else None
  }

  // ---------- CIDR ----------

  predicate IsMapped(value: nat) { ShiftRight(value, 32) == 0xffff }

  /** An IPv4-mapped IPv6 address as the IPv4 address it carries. */
  function Unmapped(a: Address): Address { Address(32, And(a.value, 0xffff_ffff)) }

  /** Both addresses in one family, when they can be. */
  function OneFamily(addr: Address, network: Address): Option<(Address, Address)> {
    if addr.bits == network.bits then Some((addr, network))
    else if addr.bits == 128 && IsMapped(addr.value) then Some((Unmapped(addr), network))
    else if network.bits == 128 && IsMapped(network.value) then Some((addr, Unmapped(network)))
    else None
  }

  function Mask(prefix: nat, bits: nat): nat
    requires prefix <= bits
  {
    if prefix == 0 then 0 else ShiftLeft(Pow2(prefix) - 1, bits - prefix)
  }

  /** The comparison once both sides are parsed; no prefix means an exact match. */
  predicate Matches(addr: Address, network: Address, prefix: Option<Option<int>>) {
    match OneFamily(addr, network)
    case None => false
    case Some((a, n)) =>
      match prefix
      case None => a.value == n.value
      case Some(None) => false
      case Some(Some(p)) =>
        0 <= p <= n.bits && And(a.value, Mask(p, n.bits)) == And(n.value, Mask(p, n.bits))
  }

  /** ipMatchesCidr */
  predicate IpMatchesCidr(net: Net, ip: Str, cidr: Str) {
    var cut := AfterLast(cidr, SLASH);
    var network := if cut == 0 then cidr else cidr[..cut - 1];
    var prefix := if cut == 0 then None else Some(net.number(cidr[cut..]));
    match (ParseIp(net, ip), ParseIp(net, network))
    case (Some(a), Some(n)) => Matches(a, n, prefix)
    case _ => false
  }

  // ---------- the mask test is a prefix test ----------

  lemma ShiftInjective(x: nat, y: nat, k: nat)
    ensures ShiftLeft(x, k) == ShiftLeft(y, k) <==> x == y
  {
    if x < y { Gap(x, y, Pow2(k)); }
    if y < x { Gap(y, x, Pow2(k)); }
  }

  lemma QuotientBound(x: nat, p: nat, k: nat)
    requires x < Pow2(p + k)
    ensures ShiftRight(x, k) < Pow2(p)
  {
    PowAdd(p, k);
    Bits.Split(x, Pow2(k));
    if ShiftRight(x, k) >= Pow2(p) {
      if ShiftRight(x, k) > Pow2(p) { Gap(Pow2(p), ShiftRight(x, k), Pow2(k)); }
    }
  }

  lemma SmallMod(x: nat, m: nat)
    requires x < m
    ensures x % m == x
  {
  }

  /** Two addresses agree under the mask exactly when they agree after dropping the low
      bits - prefix bits. */
  lemma MaskIsPrefix(a: nat, n: nat, prefix: nat, bits: nat)
    requires prefix <= bits && a < Pow2(bits) && n < Pow2(bits)
    ensures And(a, Mask(prefix, bits)) == And(n, Mask(prefix, bits))
      <==> ShiftRight(a, bits - prefix) == ShiftRight(n, bits - prefix)
  {
    var k := bits - prefix;
    QuotientBound(a, prefix, k);
    QuotientBound(n, prefix, k);
    if prefix == 0 {
      assert ShiftRight(a, k) == 0 && ShiftRight(n, k) == 0;
    } else {
      AndMask(a, prefix, k);
      AndMask(n, prefix, k);
      SmallMod(ShiftRight(a, k), Pow2(prefix));
      SmallMod(ShiftRight(n, k), Pow2(prefix));
      ShiftInjective(ShiftRight(a, k), ShiftRight(n, k), k);
    }
  }

  lemma ShiftTwice(x: nat, j: nat, k: nat)
    ensures ShiftRight(ShiftRight(x, j), k) == ShiftRight(x, j + k)
  {
    PowAdd(j, k);
    DivTwice(x, Pow2(j), Pow2(k));
  }

  lemma DivTwice(x: nat, p: nat, q: nat)
    requires p >= 1 && q >= 1
    ensures p * q >= 1 && x / p / q == x / (p * q)
  {
    var d := x / p;
    var e, r, s := d / q, d % q, x % p;
    Bits.Split(x, p);
    Bits.Split(d, q);
    Spread(e, q, r, p);
    Gap(r, q, p);
    Positive(p, q);
    DivUnique(x, p * q, e, r * p + s);
  }

  lemma Spread(e: nat, q: nat, r: nat, p: nat)
    ensures (e * q + r) * p == e * (p * q) + r * p && q * p == p * q
  {
  }

  lemma ShorterMask(a: nat, n: nat, p: nat, q: nat, bits: nat)
    requires p <= q <= bits && a < Pow2(bits) && n < Pow2(bits)
    requires And(a, Mask(q, bits)) == And(n, Mask(q, bits))
    ensures And(a, Mask(p, bits)) == And(n, Mask(p, bits))
  {
    MaskIsPrefix(a, n, q, bits);
    MaskIsPrefix(a, n, p, bits);
    ShiftTwice(a, bits - q, q - p);
    ShiftTwice(n, bits - q, q - p);
  }

  /** An address as it is parsed. */
  predicate WellFormed(a: Address) { (a.bits == 32 || a.bits == 128) && a.value < Pow2(a.bits) }

  lemma UnmappedWellFormed(a: Address)
    ensures WellFormed(Unmapped(a))
  {
    TwoTo32();
    AndLow(a.value, 32);
  }

  /** A shorter prefix matches everything a longer one does, in either family and across them. */
  lemma ShorterPrefixMatchesMore(addr: Address, network: Address, p: nat, q: nat)
    requires WellFormed(addr) && WellFormed(network) && p <= q
    requires Matches(addr, network, Some(Some(q)))
    ensures Matches(addr, network, Some(Some(p)))
  {
    UnmappedWellFormed(addr);
    UnmappedWellFormed(network);
    var (a, n) := OneFamily(addr, network).value;
    ShorterMask(a.value, n.value, p, q, n.bits);
  }

  /** The addresses of ::ffff:0:0/96. */
  predicate InMapped(value: nat) { 0xffff_0000_0000 <= value < 0x1_0000_0000_0000 }

  lemma MappedExactly(value: nat)
    ensures IsMapped(value) <==> InMapped(value)
    ensures Unmapped(Address(128, value)).value == value % 0x1_0000_0000
  {
    TwoTo32();
    AndLow(value, 32);
  }

  /** `a` is in the network `n` of `bits` bits by this prefix; no prefix is an exact match, and one
      that is no number, negative or too long matches nothing. */
  ghost predicate Within(a: nat, n: nat, bits: nat, prefix: Option<Option<int>>) {
    match prefix
    case None => a == n
    case Some(None) => false
    case Some(Some(p)) => 0 <= p <= bits && a / Pow2(bits - p) == n / Pow2(bits - p)
  }

  lemma WithinExactly(a: Address, n: Address, prefix: Option<Option<int>>)
    requires WellFormed(a) && WellFormed(n) && a.bits == n.bits
    ensures Matches(a, n, prefix) <==> Within(a.value, n.value, n.bits, prefix)
  {
    if prefix.Some? && prefix.value.Some? && 0 <= prefix.value.value <= n.bits {
      MaskIsPrefix(a.value, n.value, prefix.value.value, n.bits);
    }
  }

  /** An address matches a network of its family by its first bits; across the families an
      IPv4-mapped one stands for the IPv4 address it carries, and no other matches. */
  lemma MatchesExactly(a: Address, n: Address, prefix: Option<Option<int>>)
    requires WellFormed(a) && WellFormed(n)
    ensures Matches(a, n, prefix) <==>
      if a.bits == n.bits then Within(a.value, n.value, n.bits, prefix)
      else if a.bits == 128 then InMapped(a.value) && Within(a.value % 0x1_0000_0000, n.value, 32, prefix)
      else InMapped(n.value) && Within(a.value, n.value % 0x1_0000_0000, 32, prefix)
  {
    MappedExactly(a.value);
    MappedExactly(n.value);
    UnmappedWellFormed(a);
    UnmappedWellFormed(n);
    if a.bits == n.bits { WithinExactly(a, n, prefix); }
    else if a.bits == 128 { WithinExactly(Unmapped(a), n, prefix); }
    else { WithinExactly(a, Unmapped(n), prefix); }
  }

  lemma MappedValue(v: nat)
    requires v < Pow2(32)
    ensures IsMapped(0xffff * Pow2(32) + v) && Unmapped(Address(128, 0xffff * Pow2(32) + v)).value == v
  {
    var x := 0xffff * Pow2(32) + v;
    DivUnique(x, Pow2(32), 0xffff, v);
    TwoTo32();
    AndLow(x, 32);
  }

  lemma TwoTo32()
    ensures Pow2(32) == 0x1_0000_0000
  {
    assert Pow2(8) == 256;
    PowAdd(8, 8);
    PowAdd(16, 16);
  }

  /** Against an IPv4 network an IPv4-mapped address, however spelled, matches exactly when
      its dotted form does. */
  lemma MappedMatchesAsDotted(net: Net, mapped: Str, dotted: Str, v: nat, cidr: Str)
    requires v < Pow2(32)
    requires ParseIp(net, dotted) == Some(Address(32, v))
    requires ParseIp(net, mapped) == Some(Address(128, 0xffff * Pow2(32) + v))
    requires var cut := AfterLast(cidr, SLASH); var n := ParseIp(net, if cut == 0 then cidr else cidr[..cut - 1]);
      n.Some? ==> n.value.bits == 32
    ensures IpMatchesCidr(net, mapped, cidr) == IpMatchesCidr(net, dotted, cidr)
  {
    var cut := AfterLast(cidr, SLASH);
    var n := ParseIp(net, if cut == 0 then cidr else cidr[..cut - 1]);
    if n.Some? {
      MappedMatches(v, n.value, if cut == 0 then None else Some(net.number(cidr[cut..])));
    }
  }

  lemma MappedMatches(v: nat, network: Address, prefix: Option<Option<int>>)
    requires v < Pow2(32) && network.bits == 32
    ensures Matches(Address(128, 0xffff * Pow2(32) + v), network, prefix) == Matches(Address(32, v), network, prefix)
  {
    MappedValue(v);
  }

  /** ::ffff:0:0/96 and the 32 bits of an IPv4 address. */
  function Mapped(v: nat): nat { 0xffff * Pow2(32) + v }

  lemma MappedBound(v: nat)
    requires v < Pow2(32)
    ensures Mapped(v) < Pow2(128)
  {
    PowAdd(16, 32);
    assert Pow2(8) == 256;
    PowAdd(8, 8);
    Gap(0xffff, Pow2(16), Pow2(32));
    PowMonotone(48, 128);
  }

  /** At or above bit 32 mapped addresses are all alike. */
  lemma MappedHigh(v: nat, k: nat)
    requires v < Pow2(32)
    ensures ShiftRight(Mapped(v), 32 + k) == ShiftRight(0xffff, k)
  {
    DivUnique(Mapped(v), Pow2(32), 0xffff, v);
    ShiftTwice(Mapped(v), 32, k);
  }

  lemma TopAndRest(c: nat, h: nat, m: nat, q: nat, r: nat)
    ensures c * (h * m) + (q * m + r) == (c * h + q) * m + r
  {
    assert c * (h * m) == (c * h) * m;
    assert (c * h + q) * m == (c * h) * m + q * m;
  }

  lemma QuotientTop(c: nat, h: nat, m: nat, v: nat, t: nat)
    requires m >= 1 && t == h * m
    ensures (c * t + v) / m == c * h + v / m
  {
    Bits.Split(v, m);
    TopAndRest(c, h, m, v / m, v % m);
    DivUnique(c * t + v, m, c * h + v / m, v % m);
  }

  lemma ShiftTop(c: nat, j: nat, k: nat, v: nat)
    ensures ShiftRight(c * Pow2(j + k) + v, k) == c * Pow2(j) + ShiftRight(v, k)
  {
    PowAdd(j, k);
    QuotientTop(c, Pow2(j), Pow2(k), v, Pow2(j + k));
  }

  /** Below bit 32 they differ as their dotted forms do. */
  lemma MappedLow(v: nat, k: nat)
    requires k <= 32
    ensures ShiftRight(Mapped(v), k) == 0xffff * Pow2(32 - k) + ShiftRight(v, k)
  {
    ShiftTop(0xffff, 32 - k, k, v);
  }

  lemma MappedShifts(v: nat, w: nat, p: nat)
    requires v < Pow2(32) && w < Pow2(32) && p <= 128
    ensures ShiftRight(Mapped(w), 128 - p) == ShiftRight(Mapped(v), 128 - p)
      <==> p <= 96 || ShiftRight(w, 128 - p) == ShiftRight(v, 128 - p)
  {
    if p <= 96 {
      MappedHigh(v, 96 - p);
      MappedHigh(w, 96 - p);
    } else {
      MappedLow(v, 128 - p);
      MappedLow(w, 128 - p);
    }
  }

  lemma MappedInMapped(v: nat, w: nat, p: nat)
    requires v < Pow2(32) && w < Pow2(32) && p <= 128
    ensures Matches(Address(128, Mapped(w)), Address(128, Mapped(v)), Some(Some(p)))
      <==> p <= 96 || ShiftRight(w, 128 - p) == ShiftRight(v, 128 - p)
  {
    MappedBound(v);
    MappedBound(w);
    MaskIsPrefix(Mapped(w), Mapped(v), p, 128);
    MappedShifts(v, w, p);
  }

  lemma DottedInMapped(v: nat, w: nat, p: nat)
    requires v < Pow2(32) && w < Pow2(32)
    ensures Matches(Address(32, w), Address(128, Mapped(v)), Some(Some(p)))
      <==> p <= 32 && ShiftRight(w, 32 - p) == ShiftRight(v, 32 - p)
  {
    DottedFamily(v, w);
    if p <= 32 { MaskIsPrefix(w, v, p, 32); }
  }

  lemma DottedFamily(v: nat, w: nat)
    requires v < Pow2(32)
    ensures OneFamily(Address(32, w), Address(128, Mapped(v))) == Some((Address(32, w), Address(32, v)))
  {
    MappedValue(v);
  }

  /** Against an IPv4-mapped network the two forms of an address do not in general match
      alike, for the prefix counts 128 bits against one and 32 against the other. They do
      exactly when a prefix of at most 32 takes in the dotted address, or one past 96 leaves
      out the mapped. */
  lemma MappedNetworkAgreesExactly(v: nat, w: nat, p: nat)
    requires v < Pow2(32) && w < Pow2(32) && p <= 128
    ensures var network := Address(128, Mapped(v));
      Matches(Address(128, Mapped(w)), network, Some(Some(p))) == Matches(Address(32, w), network, Some(Some(p)))
      <==> (p <= 32 && ShiftRight(w, 32 - p) == ShiftRight(v, 32 - p))
           || (p > 96 && ShiftRight(w, 128 - p) != ShiftRight(v, 128 - p))
  {
    MappedInMapped(v, w, p);
    DottedInMapped(v, w, p);
  }
}
