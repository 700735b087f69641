/** Service ids and the keys a registration occupies (etcd/core.go, consul/core.go). */
module ServiceId {
  import opened Text

  const SERVICE_REGISTRY_ROOT := "services"

  // ---------- decimal numbers ----------

  function Digit(d: nat): char
    requires d < 10
  {
    ('0' as int + d) as char
  }

  predicate AllDigits(s: string) {
    forall i | 0 <= i < |s| :: '0' <= s[i] <= '9'
  }

  /** The `%d` verb on a non-negative number. */
  function Decimal(n: nat): (s: string)
    ensures s != "" && AllDigits(s)
  {
    if n < 10 then [Digit(n)] else Decimal(n / 10) + [Digit(n % 10)]
  }

  /** The inverse: the number a digit string spells. */
  function Value(s: string): nat
    requires AllDigits(s)
  {
    if s == "" then 0 else 10 * Value(s[..|s| - 1]) + (s[|s| - 1] as int - '0' as int)
  }

  lemma {:induction false} ValueDecimal(n: nat)
    ensures Value(Decimal(n)) == n
  {
    if n >= 10 {
      ValueDecimal(n / 10);
      assert Decimal(n)[..|Decimal(n)| - 1] == Decimal(n / 10);
    } else {
      assert [Digit(n)][..0] == "";
    }
  }

  /** `s` spells `n`, with no zero in front. */
  predicate Spells(s: string, n: nat) {
    s != "" && AllDigits(s) && Value(s) == n && (|s| > 1 ==> s[0] != '0')
  }

  /** The one spelling there is. */
  lemma {:induction false} DecimalSpells(n: nat, s: string)
    ensures Spells(s, n) <==> s == Decimal(n)
    decreases n, |s|
  {
    ValueDecimal(n);
    NoZeroInFront(n);
    if Spells(s, n) {
      var front := s[..|s| - 1];
      assert s == front + [s[|s| - 1]];
      if front == "" {
        assert Value(front) == 0;
      } else {
        FrontSpells(s, n);
        DecimalSpells(n / 10, front);
      }
    }
  }

  lemma FrontSpells(s: string, n: nat)
    requires |s| > 1 && Spells(s, n)
    ensures n >= 10 && Spells(s[..|s| - 1], n / 10) && s[|s| - 1] == Digit(n % 10)
  {
    PositiveValue(s[..|s| - 1]);
  }

  lemma {:induction false} NoZeroInFront(n: nat)
    ensures n > 0 ==> Decimal(n)[0] != '0'
    ensures |Decimal(n)| > 1 ==> Decimal(n)[0] != '0'
  {
    if n >= 10 { NoZeroInFront(n / 10); }
  }

  lemma {:induction false} PositiveValue(s: string)
    requires s != "" && AllDigits(s) && s[0] != '0'
    ensures Value(s) > 0
    decreases |s|
  {
    if |s| > 1 { PositiveValue(s[..|s| - 1]); }
  }

  /** Dropping last digits of `q` one by one leads to `p`. */
  predicate Truncates(q: nat, p: nat) {
    q == p || (q >= 10 && Truncates(q / 10, p))
  }

  lemma {:induction false} DecimalPrefix(p: nat, q: nat)
    ensures Decimal(p) <= Decimal(q) <==> Truncates(q, p)
    decreases q
  {
    ValueDecimal(p);
    ValueDecimal(q);
    if q >= 10 {
      DecimalPrefix(p, q / 10);
      var shorter := Decimal(q / 10);
      assert Decimal(q) == shorter + [Digit(q % 10)];
      if Decimal(p) <= Decimal(q) && q != p {
        assert Decimal(p) != Decimal(q);
        assert |Decimal(p)| <= |shorter|;
        assert Decimal(p) == Decimal(q)[..|Decimal(p)|] == shorter[..|Decimal(p)|];
      }
      if Truncates(q / 10, p) {
        assert Decimal(p) <= shorter <= Decimal(q);
      }
    } else if Decimal(p) <= Decimal(q) {
      assert Decimal(p) == Decimal(q);
    }
  }

  // ---------- addresses and ids ----------

  type Octet = n: nat | n < 256
  datatype IPv4 = IPv4(a: Octet, b: Octet, c: Octet, d: Octet)

  predicate IsUnspecified(ip: IPv4) {
    ip == IPv4(0, 0, 0, 0)
  }

  /** `net.IP.String()` for an IPv4 address. */
  function IpText(ip: IPv4): string {
    Decimal(ip.a) + ("." + (Decimal(ip.b) + ("." + (Decimal(ip.c) + ("." + Decimal(ip.d))))))
  }

  /** `strings.Replace(s, ".", "-", -1)`. */
  function DotsToDashes(s: string): string {
    seq(|s|, i requires 0 <= i < |s| => if s[i] == '.' then '-' else s[i])
  }

  function GeneratedId(service: string, ip: IPv4, port: nat): string {
    service + "-" + DotsToDashes(IpText(ip)) + "-" + Decimal(port)
  }

  /** The id under which an instance registers. */
  function EffectiveId(service: string, id: string, ip: IPv4, port: nat): string {
    if |id| == 0 then GeneratedId(service, ip, port) else id
  }

  function PeersKey(service: string): string {
    SERVICE_REGISTRY_ROOT + "/" + service + "/peers"
  }

  function PeerKey(service: string, id: string): string {
    PeersKey(service) + "/" + id
  }

  /** What a heartbeat writes: "%s:%d". */
  function AddrText(ip: IPv4, port: nat): string {
    IpText(ip) + ":" + Decimal(port)
  }

  predicate SpellNumbers(fields: seq<string>, ns: seq<nat>) {
    |fields| == |ns| && forall i | 0 <= i < |ns| :: Spells(fields[i], ns[i])
  }

  function Octets(ip: IPv4): seq<nat> {
    [ip.a, ip.b, ip.c, ip.d]
  }

  /** Four numbers between dots, a colon, and the port. */
  predicate SpellsAddress(s: string, ip: IPv4, port: nat) {
    var parts := Fields(s, ':');
    |parts| == 2 && SpellNumbers(Fields(parts[0], '.'), Octets(ip)) && Spells(parts[1], port)
  }

  lemma DecimalIs(n: nat)
    ensures Spells(Decimal(n), n) && '.' !in Decimal(n) && ':' !in Decimal(n) && '-' !in Decimal(n)
    ensures forall sep: char | sep !in Decimal(n) :: Fields(Decimal(n), sep) == [Decimal(n)]
  {
    DecimalSpells(n, Decimal(n));
  }

  /** Numbers with a separator between them. */
  function Joined(ns: seq<nat>, sep: char): string
    requires ns != []
  {
    if |ns| == 1 then Decimal(ns[0]) else Decimal(ns[0]) + ([sep] + Joined(ns[1..], sep))
  }

  lemma {:induction false} JoinedReadsBack(ns: seq<nat>, sep: char)
    requires ns != [] && (sep == '.' || sep == '-')
    ensures SpellNumbers(Fields(Joined(ns, sep), sep), ns)
    decreases |ns|
  {
    DecimalIs(ns[0]);
    if |ns| > 1 {
      JoinedReadsBack(ns[1..], sep);
      FieldsOf(Decimal(ns[0]), sep, Joined(ns[1..], sep));
    }
  }

  lemma JoinedLess(n: nat, ns: seq<nat>, sep: char)
    requires ns != []
    ensures Joined([n] + ns, sep) == Decimal(n) + ([sep] + Joined(ns, sep))
  {
    assert ([n] + ns)[1..] == ns;
  }

  lemma IpJoined(ip: IPv4)
    ensures IpText(ip) == Joined(Octets(ip), '.')
  {
    var d := [ip.d];
    JoinedLess(ip.c, d, '.');
    JoinedLess(ip.b, [ip.c] + d, '.');
    JoinedLess(ip.a, [ip.b] + ([ip.c] + d), '.');
    assert [ip.a] + ([ip.b] + ([ip.c] + d)) == Octets(ip);
  }

  lemma NoColon(ip: IPv4)
    ensures ':' !in IpText(ip)
  {
    DecimalIs(ip.a);
    DecimalIs(ip.b);
    DecimalIs(ip.c);
    DecimalIs(ip.d);
  }

  lemma IpReadsBack(ip: IPv4)
    ensures SpellNumbers(Fields(IpText(ip), '.'), Octets(ip)) && ':' !in IpText(ip)
  {
    IpJoined(ip);
    JoinedReadsBack(Octets(ip), '.');
    NoColon(ip);
  }

  /** The written address reads back. */
  lemma AddrReadsBack(ip: IPv4, port: nat)
    ensures SpellsAddress(AddrText(ip, port), ip, port)
  {
    IpReadsBack(ip);
    DecimalIs(port);
    assert AddrText(ip, port) == IpText(ip) + ([':'] + Decimal(port));
    FieldsOf(IpText(ip), ':', Decimal(port));
  }

  /** So does a generated id: the service, and five numbers between dashes. */
  lemma GeneratedIdReadsBack(service: string, ip: IPv4, port: nat)
    ensures var id := GeneratedId(service, ip, port);
            && service + "-" <= id
            && SpellNumbers(Fields(id[|service| + 1..], '-'), Octets(ip) + [port])
  {
    IdShape(service, ip, port);
    TailReadsBack(ip, port);
    assert GeneratedId(service, ip, port)[|service| + 1..] == IdTail(ip, port);
  }

  lemma TailReadsBack(ip: IPv4, port: nat)
    ensures SpellNumbers(Fields(IdTail(ip, port), '-'), Octets(ip) + [port])
  {
    TailJoined(ip, port);
    JoinedReadsBack(Octets(ip) + [port], '-');
  }

  lemma TailJoined(ip: IPv4, port: nat)
    ensures IdTail(ip, port) == Joined(Octets(ip) + [port], '-')
  {
    var p := [port];
    JoinedLess(ip.d, p, '-');
    JoinedLess(ip.c, [ip.d] + p, '-');
    JoinedLess(ip.b, [ip.c] + ([ip.d] + p), '-');
    JoinedLess(ip.a, [ip.b] + ([ip.c] + ([ip.d] + p)), '-');
    assert [ip.a] + ([ip.b] + ([ip.c] + ([ip.d] + p))) == Octets(ip) + p;
  }

  /** A peer lies at services/<service>/peers/<id>. */
  lemma PeerKeyFields(service: string, id: string)
    requires '/' !in service && '/' !in id
    ensures Fields(PeerKey(service, id), '/') == ["services", service, "peers", id]
  {
    assert PeerKey(service, id) == "services" + ("/" + UnderRoot(service, id));
    FieldsOf("services", '/', UnderRoot(service, id));
    UnderRootFields(service, id);
  }

  function UnderRoot(service: string, id: string): string {
    service + ("/" + ("peers" + ("/" + id)))
  }

  lemma UnderRootFields(service: string, id: string)
    requires '/' !in service && '/' !in id
    ensures Fields(UnderRoot(service, id), '/') == [service] + ["peers", id]
  {
    FieldsOf("peers", '/', id);
    FieldsOf(service, '/', "peers" + ("/" + id));
  }

  /** The prefix `deregister` deletes. */
  function DeregisteredPrefix(service: string, id: string, ip: IPv4, port: nat): string {
    if IsUnspecified(ip) || port == 0 then PeersKey(service)
    else PeerKey(service, EffectiveId(service, id, ip, port))
  }

  // ---------- splitting at dashes ----------

  function IdTail(ip: IPv4, port: nat): string {
    Decimal(ip.a) + ("-" + (Decimal(ip.b) + ("-" + (Decimal(ip.c) + ("-" + (Decimal(ip.d) + ("-" + Decimal(port))))))))
  }

  lemma NoDots(s: string)
    requires AllDigits(s)
    ensures DotsToDashes(s) == s && '-' !in s && '/' !in s
  {
  }

  lemma DotAfter(n: nat, rest: string, tail: string)
    ensures DotsToDashes(Decimal(n) + ("." + rest)) == Decimal(n) + ("-" + DotsToDashes(rest))
    ensures Decimal(n) + ("-" + rest) + tail == Decimal(n) + ("-" + (rest + tail))
  {
  }

  lemma IdShape(service: string, ip: IPv4, port: nat)
    ensures GeneratedId(service, ip, port) == (service + "-") + IdTail(ip, port)
  {
    var tail := "-" + Decimal(port);
    var d := Decimal(ip.d);
    var c := Decimal(ip.c) + ("." + d);
    var b := Decimal(ip.b) + ("." + c);
    NoDots(d);
    DotAfter(ip.c, d, tail);
    DotAfter(ip.b, c, tail);
    DotAfter(ip.b, DotsToDashes(c), tail);
    DotAfter(ip.a, b, tail);
    DotAfter(ip.a, DotsToDashes(b), tail);
    assert DotsToDashes(IpText(ip)) + tail == IdTail(ip, port);
    Regroup(service + "-", DotsToDashes(IpText(ip)), "-", Decimal(port));
  }

  lemma Regroup(w: string, x: string, y: string, z: string)
    ensures w + x + y + z == w + (x + (y + z))
  {
  }

  /** A separator that occurs in neither right part lets both sides be read off from the right. */
  lemma CutAtLast(x: string, s: string, y: string, t: string, sep: char)
    requires sep !in s && sep !in t
    requires x + [sep] + s == y + [sep] + t
    ensures x == y && s == t
  {
    var z := x + [sep] + s;
    assert z[|x|] == sep && z[|y|] == sep;
    assert forall k | |x| < k < |z| :: z[k] == s[k - |x| - 1];
    assert forall k | |y| < k < |z| :: z[k] == t[k - |y| - 1];
    assert x == z[..|x|] && y == z[..|y|] && s == z[|x| + 1..] && t == z[|y| + 1..];
  }

  /** A separator that occurs in neither left part: a prefix test goes part by part. */
  lemma CutAtFirst(x: string, s: string, y: string, t: string, sep: char)
    requires sep !in x && sep !in y
    ensures x + ([sep] + s) <= y + ([sep] + t) <==> x == y && s <= t
  {
    if x + ([sep] + s) <= y + ([sep] + t) {
      var p, z := x + ([sep] + s), y + ([sep] + t);
      assert z[|x|] == p[|x|] == sep && z[|y|] == sep;
      assert forall k | 0 <= k < |y| :: z[k] == y[k];
      assert forall k | 0 <= k < |x| :: z[k] == p[k] == x[k];
      assert x == p[..|x|] == z[..|x|] == y;
      PrefixCancel(x, [sep] + s, [sep] + t);
      PrefixCancel([sep], s, t);
    }
    if x == y && s <= t {
      PrefixCancel([sep], s, t);
      PrefixCancel(x, [sep] + s, [sep] + t);
    }
  }

  /** Generated ids name their service, address and port: no two instances share one,
      whatever dashes and digits the service names hold. */
  lemma GeneratedIdInjective(service: string, ip: IPv4, port: nat, service': string, ip': IPv4, port': nat)
    requires GeneratedId(service, ip, port) == GeneratedId(service', ip', port')
    ensures service == service' && ip == ip' && port == port'
  {
    var x0, x0' := service + "-" + Decimal(ip.a), service' + "-" + Decimal(ip'.a);
    var x1, x1' := x0 + "-" + Decimal(ip.b), x0' + "-" + Decimal(ip'.b);
    var x2, x2' := x1 + "-" + Decimal(ip.c), x1' + "-" + Decimal(ip'.c);
    var x3, x3' := x2 + "-" + Decimal(ip.d), x2' + "-" + Decimal(ip'.d);
    IdFromTheRight(service, ip, port);
    IdFromTheRight(service', ip', port');
    LastNumber(x3, port, x3', port');
    LastNumber(x2, ip.d, x2', ip'.d);
    LastNumber(x1, ip.c, x1', ip'.c);
    LastNumber(x0, ip.b, x0', ip'.b);
    LastNumber(service, ip.a, service', ip'.a);
  }

  lemma IdFromTheRight(service: string, ip: IPv4, port: nat)
    ensures GeneratedId(service, ip, port) ==
            service + "-" + Decimal(ip.a) + "-" + Decimal(ip.b) + "-" + Decimal(ip.c) + "-" + Decimal(ip.d)
            + "-" + Decimal(port)
  {
    IdShape(service, ip, port);
    LeftToRight(service + "-", Decimal(ip.a), Decimal(ip.b), Decimal(ip.c), Decimal(ip.d), Decimal(port));
  }

  lemma LeftToRight(w: string, a: string, b: string, c: string, d: string, e: string)
    ensures w + (a + ("-" + (b + ("-" + (c + ("-" + (d + ("-" + e)))))))) ==
            w + a + "-" + b + "-" + c + "-" + d + "-" + e
  {
    var x := d + ("-" + e);
    var y := c + ("-" + x);
    var z := b + ("-" + y);
    ThreeParts(w, a, z);
    ThreeParts(w + a + "-", b, y);
    ThreeParts(w + a + "-" + b + "-", c, x);
    ThreeParts(w + a + "-" + b + "-" + c + "-", d, e);
  }

  lemma ThreeParts(w: string, a: string, rest: string)
    ensures w + (a + ("-" + rest)) == w + a + "-" + rest
  {
  }

  lemma LastNumber(x: string, m: nat, y: string, n: nat)
    requires x + "-" + Decimal(m) == y + "-" + Decimal(n)
    ensures x == y && m == n
  {
    NoDots(Decimal(m));
    NoDots(Decimal(n));
    CutAtLast(x, Decimal(m), y, Decimal(n), '-');
    ValueDecimal(m);
    ValueDecimal(n);
  }

  lemma OctetCut(x: Octet, s: string, y: Octet, t: string)
    ensures Decimal(x) + ("-" + s) <= Decimal(y) + ("-" + t) <==> x == y && s <= t
  {
    NoDots(Decimal(x));
    NoDots(Decimal(y));
    CutAtFirst(Decimal(x), s, Decimal(y), t, '-');
    ValueDecimal(x);
    ValueDecimal(y);
  }

  lemma ReachesInto(p: string, peer: string, below: string)
    requires p <= peer + below
    ensures |p| <= |peer| || (below != "" && below[0] in p)
  {
    assert |p| > |peer| ==> p[|peer|] == (peer + below)[|peer|] == below[0];
  }

  /** A slash-free id is a prefix of what lies under a peer just when it is a prefix of the peer's id. */
  lemma PrefixUnderPeer(id: string, peer: string, below: string)
    requires '/' !in id && (below == "" || below[0] == '/')
    ensures id <= peer + below <==> id <= peer
  {
    if id <= peer + below {
      ReachesInto(id, peer, below);
      assert id == (peer + below)[..|id|] == peer[..|id|];
    }
    if id <= peer { assert id <= peer <= peer + below; }
  }

  /** Which generated ids a generated id is a prefix of. */
  lemma GeneratedPrefix(service: string, ip: IPv4, port: nat, ip': IPv4, port': nat, below: string)
    requires below == "" || below[0] == '/'
    ensures GeneratedId(service, ip, port) <= GeneratedId(service, ip', port') + below <==>
            ip == ip' && Truncates(port', port)
  {
    IdShape(service, ip, port);
    IdShape(service, ip', port');
    var p, p' := Decimal(port), Decimal(port') + below;
    var d, d' := Decimal(ip.d) + ("-" + p), Decimal(ip'.d) + ("-" + p');
    var c, c' := Decimal(ip.c) + ("-" + d), Decimal(ip'.c) + ("-" + d');
    var b, b' := Decimal(ip.b) + ("-" + c), Decimal(ip'.b) + ("-" + c');
    var a, a' := Decimal(ip.a) + ("-" + b), Decimal(ip'.a) + ("-" + b');
    assert GeneratedId(service, ip', port') + below == (service + "-") + a';
    PrefixCancel(service + "-", a, a');
    OctetCut(ip.a, b, ip'.a, b');
    OctetCut(ip.b, c, ip'.b, c');
    OctetCut(ip.c, d, ip'.c, d');
    OctetCut(ip.d, p, ip'.d, p');
    NoDots(p);
    PrefixUnderPeer(p, Decimal(port'), below);
    DecimalPrefix(port, port');
  }
}
