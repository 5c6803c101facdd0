/** resolveClientIp: whose address a forwarded request carries. */
module ClientIp {
  import opened Text

  const COMMA: CodeUnit := ',' as int

  /** The TRUST_PROXY setting: none, a hop count, or a compiled proxy list. */
  datatype Trust = Nobody | Hops(n: nat) | Proxies(trusted: Str -> bool)

  /** Cloudflare's ranges and net.isIP, decided outside. */
  datatype Edge = Edge(cloudflare: Str -> bool, isIP: Str -> bool)

  datatype Request = Request(peer: Option<Str>, cfConnecting: Option<Str>, forwardedFor: Option<Str>)

  /** The trimmed, non-empty pieces. */
  function Kept(pieces: seq<Str>): seq<Str> {
    if pieces == [] then []
    else (if Trim(pieces[0]) == [] then [] else [Trim(pieces[0])]) + Kept(pieces[1..])
  }

  function ParseForwardedFor(raw: Option<Str>): seq<Str> {
    match raw
    case None => []
    case Some(s) => Kept(Split(s, COMMA))
  }

  /** CF-Connecting-IP, when a Cloudflare peer sent a valid one. */
  function EdgeAddress(edge: Edge, req: Request): Option<Str> {
    match (req.peer, req.cfConnecting)
    case (Some(peer), Some(cf)) =>
      if edge.cloudflare(peer) && edge.isIP(Trim(cf)) then Some(Trim(cf)) else None
    case _ => None
  }

  /** Entry left of the trust boundary, or the peer when the chain is too short. */
  function HopAddress(forwarded: seq<Str>, peer: Option<Str>, hops: nat): Option<Str> {
    if hops > |forwarded| || hops == 0 then peer else Some(forwarded[|forwarded| - hops])
  }

  /** The untrusted entry closest to us; with none, the leftmost entry. */
  function WalkedAddress(forwarded: seq<Str>, trusted: Str -> bool, otherwise: Str): Str {
    if forwarded == [] then otherwise
    else
      var last := forwarded[|forwarded| - 1];
      if !trusted(last) then last else WalkedAddress(forwarded[..|forwarded| - 1], trusted, last)
  }

  function Resolve(edge: Edge, req: Request, trust: Trust): Option<Str> {
    var forwarded := ParseForwardedFor(req.forwardedFor);
    match EdgeAddress(edge, req)
    case Some(address) => Some(address)
    case None =>
      match trust
      case Nobody => req.peer
      case Hops(n) => HopAddress(forwarded, req.peer, n)
      case Proxies(trusted) =>
        match req.peer
        case None => None
        case Some(peer) =>
          if !trusted(peer) then Some(peer) else Some(WalkedAddress(forwarded, trusted, peer))
  }

  function Reversed<T>(xs: seq<T>): (r: seq<T>)
    ensures |r| == |xs| && forall i :: 0 <= i < |xs| ==> r[i] == xs[|xs| - 1 - i]
  {
    seq(|xs|, i requires 0 <= i < |xs| => xs[|xs| - 1 - i])
  }

  lemma {:induction false} WalkSkips(forwarded: seq<Str>, trusted: Str -> bool, otherwise: Str, k: nat)
    requires k <= |forwarded|
    requires forall i :: |forwarded| - k <= i < |forwarded| ==> trusted(forwarded[i])
    ensures WalkedAddress(forwarded, trusted, otherwise)
      == WalkedAddress(forwarded[..|forwarded| - k], trusted, if k == 0 then otherwise else forwarded[|forwarded| - k])
  {
    if k == 0 {
      assert forwarded[..|forwarded|] == forwarded;
    } else {
      var n := |forwarded|;
      var init := forwarded[..n - 1];
      WalkSkips(init, trusted, forwarded[n - 1], k - 1);
      assert init[..n - k] == forwarded[..n - k];
    }
  }

  lemma WalkStops(forwarded: seq<Str>, trusted: Str -> bool, otherwise: Str, k: nat)
    requires k < |forwarded| && !trusted(forwarded[|forwarded| - k - 1])
    requires forall i :: |forwarded| - k <= i < |forwarded| ==> trusted(forwarded[i])
    ensures WalkedAddress(forwarded, trusted, otherwise) == forwarded[|forwarded| - k - 1]
  {
    WalkSkips(forwarded, trusted, otherwise, k);
  }

  /** The chain as it is walked: the peer, then the forwarded entries from the last. */
  function Chain(forwarded: seq<Str>, peer: Str): (chain: seq<Str>)
    ensures |chain| == |forwarded| + 1 && chain[0] == peer
    ensures forall i :: 0 <= i < |forwarded| ==> forwarded[i] == chain[|forwarded| - i]
  {
    [peer] + Reversed(forwarded)
  }

  /** Walks the reversed chain from the peer outwards to the first untrusted entry. */
  method WalkProxies(forwarded: seq<Str>, peer: Str, trusted: Str -> bool) returns (ip: Str)
    ensures ip == if !trusted(peer) then peer else WalkedAddress(forwarded, trusted, peer)
  {
    var chain := Chain(forwarded, peer);
    for k := 0 to |chain|
      invariant forall i :: 0 <= i < k ==> trusted(chain[i])
    {
      if !trusted(chain[k]) {
        if k > 0 {
          assert forwarded[|forwarded| - k] == chain[k];
          WalkStops(forwarded, trusted, peer, k - 1);
        }
        return chain[k];
      }
    }
    WalkSkips(forwarded, trusted, peer, |forwarded|);
    ip := chain[|chain| - 1];
  }

  /** resolveClientIp */
  method ResolveClientIp(edge: Edge, req: Request, trust: Trust) returns (ip: Option<Str>)
    ensures ip == Resolve(edge, req, trust)
  {
    var cf := EdgeAddress(edge, req);
    if cf.Some? { return cf; }
    var forwarded := ParseForwardedFor(req.forwardedFor);
    match trust {
      case Nobody => ip := req.peer;
      case Hops(n) =>
        var boundary := |forwarded| - n;
        ip := if boundary < 0 || boundary == |forwarded| then req.peer else Some(forwarded[boundary]);
      case Proxies(trusted) =>
        if req.peer.None? { return None; }
        var walked := WalkProxies(forwarded, req.peer.value, trusted);
        ip := Some(walked);
    }
  }

  // ---------- whose address it is ----------

  /** Entries with white space around them, and commas between, are read as they are. */
  lemma {:induction false} EntriesAreRead(pieces: seq<Str>, entries: seq<Str>)
    requires |pieces| == |entries| && forall i :: 0 <= i < |pieces| ==> Trim(pieces[i]) == entries[i] != []
    ensures Kept(pieces) == entries
  {
    if pieces != [] {
      EntriesAreRead(pieces[1..], entries[1..]);
      assert entries == [entries[0]] + entries[1..];
    }
  }

  lemma HeaderIsRead(pieces: seq<Str>, entries: seq<Str>)
    requires pieces != [] && |pieces| == |entries| && forall p :: p in pieces ==> COMMA !in p
    requires forall i :: 0 <= i < |pieces| ==> Trim(pieces[i]) == entries[i] != []
    ensures ParseForwardedFor(Some(Join(pieces, COMMA))) == entries
  {
    SplitJoin(pieces, COMMA);
    EntriesAreRead(pieces, entries);
  }

  /** The entry at `i` is the last that is not trusted. */
  ghost predicate LastUntrusted(forwarded: seq<Str>, trusted: Str -> bool, i: int) {
    0 <= i < |forwarded| && !trusted(forwarded[i]) && forall j :: i < j < |forwarded| ==> trusted(forwarded[j])
  }

  lemma {:induction false} WalkedExactly(forwarded: seq<Str>, trusted: Str -> bool, otherwise: Str)
    ensures forall i :: LastUntrusted(forwarded, trusted, i) ==>
      WalkedAddress(forwarded, trusted, otherwise) == forwarded[i]
    ensures (forall e :: e in forwarded ==> trusted(e)) ==>
      WalkedAddress(forwarded, trusted, otherwise) == if forwarded == [] then otherwise else forwarded[0]
  {
    if forwarded != [] {
      var init, last := forwarded[..|forwarded| - 1], forwarded[|forwarded| - 1];
      assert forwarded == init + [last];
      WalkedExactly(init, trusted, last);
      forall i | LastUntrusted(forwarded, trusted, i)
        ensures WalkedAddress(forwarded, trusted, otherwise) == forwarded[i]
      {
        if i < |init| { assert LastUntrusted(init, trusted, i); }
      }
    }
  }

  /** A valid address that a Cloudflare peer says it connects for. */
  predicate EdgeSays(edge: Edge, req: Request, address: Str) {
    && req.peer.Some? && edge.cloudflare(req.peer.value)
    && req.cfConnecting.Some? && Trim(req.cfConnecting.value) == address && edge.isIP(address)
  }

  /** Whose address a request has: what a Cloudflare edge says, and where none says so, whatever
      CF-Connecting-IP holds, the peer where nobody is trusted; the entry as many hops from the
      right as are trusted, or the peer of a shorter chain; or the last entry that the list does not
      trust, the peer itself where it does not trust that, and the first entry where it trusts all. */
  lemma ResolvesExactly(edge: Edge, req: Request, trust: Trust)
    ensures forall a :: EdgeSays(edge, req, a) ==> Resolve(edge, req, trust) == Some(a)
    ensures var forwarded, answer := ParseForwardedFor(req.forwardedFor), Resolve(edge, req, trust);
      (forall a :: !EdgeSays(edge, req, a)) ==>
        match trust
        case Nobody => answer == req.peer
        case Hops(n) => answer == if 1 <= n <= |forwarded| then Some(forwarded[|forwarded| - n]) else req.peer
        case Proxies(trusted) =>
          && (req.peer.None? || !trusted(req.peer.value) ==> answer == req.peer)
          && (req.peer.Some? && trusted(req.peer.value) ==>
                && (forall i :: LastUntrusted(forwarded, trusted, i) ==> answer == Some(forwarded[i]))
                && ((forall e :: e in forwarded ==> trusted(e)) ==>
                      answer == if forwarded == [] then req.peer else Some(forwarded[0])))
  {
    if EdgeAddress(edge, req).Some? {
      assert EdgeSays(edge, req, EdgeAddress(edge, req).value);
    }
    if trust.Proxies? && req.peer.Some? {
      WalkedExactly(ParseForwardedFor(req.forwardedFor), trust.trusted, req.peer.value);
    }
  }

  // ---------- what stands left of the boundary never matters ----------

  lemma {:induction false} KeptConcat(a: seq<Str>, b: seq<Str>)
    ensures Kept(a + b) == Kept(a) + Kept(b)
  {
    if a == [] {
      assert a + b == b;
    } else {
      KeptConcat(a[1..], b);
      assert (a + b)[1..] == a[1..] + b && (a + b)[0] == a[0];
      var first: seq<Str> := if Trim(a[0]) == [] then [] else [Trim(a[0])];
      assert Kept(a + b) == first + Kept(a[1..] + b);
      Assoc(first, Kept(a[1..]), Kept(b));
    }
  }

  lemma PrependedEntries(t: Str, raw: Str)
    ensures ParseForwardedFor(Some(t + [COMMA] + raw)) == ParseForwardedFor(Some(t)) + ParseForwardedFor(Some(raw))
  {
    SplitAtSeparator(t, raw, COMMA);
    KeptConcat(Split(t, COMMA), Split(raw, COMMA));
  }

  /** The same request with text and a comma in front of its X-Forwarded-For. */
  function Prepended(req: Request, t: Str): Request
    requires req.forwardedFor.Some?
  {
    req.(forwardedFor := Some(t + [COMMA] + req.forwardedFor.value))
  }

  /** The chain is decided by entries a trusted hop vouches for. */
  predicate Decided(edge: Edge, req: Request, trust: Trust) {
    var forwarded := ParseForwardedFor(req.forwardedFor);
    EdgeAddress(edge, req).Some? ||
    match trust
    case Nobody => true
    case Hops(n) => n <= |forwarded|
    case Proxies(trusted) =>
      req.peer.None? || !trusted(req.peer.value) || exists e :: e in forwarded && !trusted(e)
  }

  lemma {:induction false} WalkIgnoresFront(front: seq<Str>, forwarded: seq<Str>, trusted: Str -> bool, otherwise: Str)
    requires exists e :: e in forwarded && !trusted(e)
    ensures WalkedAddress(front + forwarded, trusted, otherwise) == WalkedAddress(forwarded, trusted, otherwise)
  {
    var n := |forwarded| - 1;
    var last := forwarded[n];
    assert (front + forwarded)[|front + forwarded| - 1] == last;
    assert (front + forwarded)[..|front + forwarded| - 1] == front + forwarded[..n];
    if trusted(last) {
      assert forwarded == forwarded[..n] + [last];
      WalkIgnoresFront(front, forwarded[..n], trusted, last);
    }
  }

  lemma PrependingIsIgnored(edge: Edge, req: Request, trust: Trust, t: Str)
    requires req.forwardedFor.Some? && Decided(edge, req, trust)
    ensures Resolve(edge, Prepended(req, t), trust) == Resolve(edge, req, trust)
  {
    var raw := req.forwardedFor.value;
    PrependedEntries(t, raw);
    var front, forwarded := ParseForwardedFor(Some(t)), ParseForwardedFor(Some(raw));
    if trust.Proxies? && exists e :: e in forwarded && !trust.trusted(e) {
      WalkIgnoresFront(front, forwarded, trust.trusted, if req.peer.Some? then req.peer.value else []);
    }
  }

  /** A piece of nothing but white space is no entry. */
  lemma BlanksAreSkipped(a: seq<Str>, blank: Str, b: seq<Str>)
    requires Trim(blank) == []
    ensures Kept(a + [blank] + b) == Kept(a + b)
  {
    KeptConcat(a + [blank], b);
    KeptConcat(a, [blank]);
    KeptConcat(a, b);
  }

  // ---------- and an undecided chain is the caller's to choose ----------

  /** k copies of a one-letter entry. */
  function Copies(u: CodeUnit, k: nat): Str
    requires k >= 1
  {
    if k == 1 then [u] else [u, COMMA] + Copies(u, k - 1)
  }

  lemma {:induction false} CopiesParse(u: CodeUnit, k: nat)
    requires k >= 1 && !JsSpace(u) && u != COMMA
    ensures ParseForwardedFor(Some(Copies(u, k))) == seq(k, _ => [u])
  {
    SplitWithout([u], COMMA);
    assert Trim([u]) == [u];
    if k == 1 {
      assert Kept([[u]]) == [[u]];
      assert seq(1, _ => [u]) == [[u]];
    } else {
      CopiesParse(u, k - 1);
      assert Copies(u, k) == [u] + [COMMA] + Copies(u, k - 1);
      PrependedEntries([u], Copies(u, k - 1));
      assert Kept([[u]]) == [[u]];
      assert seq(k, _ => [u]) == [[u]] + seq(k - 1, _ => [u]);
    }
  }

  lemma {:induction false} AllTrusted(front: Str, forwarded: seq<Str>, trusted: Str -> bool, otherwise: Str)
    requires forall e :: e in forwarded ==> trusted(e)
    ensures WalkedAddress([front] + forwarded, trusted, otherwise) == front
  {
    var all := [front] + forwarded;
    if forwarded == [] {
      assert all[..0] == [];
    } else {
      var n := |forwarded| - 1;
      assert all[..|all| - 1] == [front] + forwarded[..n];
      AllTrusted(front, forwarded[..n], trusted, forwarded[n]);
    }
  }

  lemma SomeoneElseDecides(edge: Edge, req: Request, trust: Trust, u: CodeUnit) returns (t: Str)
    requires req.forwardedFor.Some? && !Decided(edge, req, trust) && !JsSpace(u) && u != COMMA
    ensures Resolve(edge, Prepended(req, t), trust) == Some([u])
  {
    var raw := req.forwardedFor.value;
    var forwarded := ParseForwardedFor(Some(raw));
    var k := if trust.Hops? then trust.n - |forwarded| else 1;
    t := Copies(u, k);
    CopiesParse(u, k);
    PrependedEntries(t, raw);
    if trust.Proxies? {
      AllTrusted([u], forwarded, trust.trusted, req.peer.value);
      assert seq(1, _ => [u]) == [[u]];
    }
  }

  /** Text in front of X-Forwarded-For is without effect, whatever it is, exactly when the
      chain is decided: a Cloudflare edge address, an untrusted entry in list mode, or at
      least as many entries as hops in hop mode. */
  lemma PrependingIgnoredExactly(edge: Edge, req: Request, trust: Trust)
    requires req.forwardedFor.Some?
    ensures Decided(edge, req, trust) <==>
      forall t :: Resolve(edge, Prepended(req, t), trust) == Resolve(edge, req, trust)
  {
    if Decided(edge, req, trust) {
      forall t ensures Resolve(edge, Prepended(req, t), trust) == Resolve(edge, req, trust) {
        PrependingIsIgnored(edge, req, trust, t);
      }
    } else {
      var x, y: CodeUnit := 'x' as int, 'y' as int;
      var s := SomeoneElseDecides(edge, req, trust, x);
      var t := SomeoneElseDecides(edge, req, trust, y);
      assert [x] != [y];
    }
  }

  /** Hop mode believes the last `hops` entries and the peer, and nobody else: the answer is
      one of them, and text in front of the header can change it exactly when the header has
      fewer entries than hops, where as it stands the answer is the peer. */
  lemma HopModeBelieves(edge: Edge, req: Request, hops: nat)
    requires EdgeAddress(edge, req).None?
    ensures var forwarded := ParseForwardedFor(req.forwardedFor);
      Resolve(edge, req, Hops(hops)) == req.peer
      || exists i :: 0 <= i < |forwarded| && |forwarded| - hops <= i
           && Resolve(edge, req, Hops(hops)) == Some(forwarded[i])
    ensures req.forwardedFor.Some? ==>
      ((exists t :: Resolve(edge, Prepended(req, t), Hops(hops)) != Resolve(edge, req, Hops(hops)))
       <==> hops > |ParseForwardedFor(req.forwardedFor)|)
    ensures hops > |ParseForwardedFor(req.forwardedFor)| ==> Resolve(edge, req, Hops(hops)) == req.peer
  {
    if req.forwardedFor.Some? { PrependingIgnoredExactly(edge, req, Hops(hops)); }
    var forwarded := ParseForwardedFor(req.forwardedFor);
    if 0 < hops <= |forwarded| {
      assert Resolve(edge, req, Hops(hops)) == Some(forwarded[|forwarded| - hops]);
    }
  }
}
