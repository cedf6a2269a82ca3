/** Addresses, their canonical form, the acceptance policy and the stored key. */
module Net {

  type Byte = n: int | 0 <= n < 256
  type Port = n: int | 0 <= n < 65536

  type Octets4 = s: seq<Byte> | |s| == 4 witness [0, 0, 0, 0]
  type Octets16 = s: seq<Byte> | |s| == 16 witness [0, 0, 0, 0, 0, 0, 0, 0, 0, 0, 0, 0, 0, 0, 0, 0]

  datatype Ip = V4(v4: Octets4) | V6(v6: Octets16)

  datatype NetAddress = NetAddress(ip: Ip, port: Port)

  /** `::ffff:a.b.c.d`, the IPv6 spelling of an IPv4 host. */
  predicate IsMapped(o: Octets16) {
    && (forall i :: 0 <= i < 10 ==> o[i] == 0)
    && o[10] == 255 && o[11] == 255
  }

  function CanonicalizeIp(ip: Ip): (r: Ip)
    ensures IsCanonical(r)
    ensures IsCanonical(ip) <==> r == ip
  {
    match ip
    case V6(o) => if IsMapped(o) then V4(o[12..]) else ip
    case V4(_) => ip
  }

  predicate IsCanonical(ip: Ip) {
    ip.V6? ==> !IsMapped(ip.v6)
  }

  function NetFrom(addr: NetAddress): (net: NetAddress)
    ensures IsCanonical(net.ip) && net.port == addr.port
    ensures IsCanonical(addr.ip) <==> net == addr
  {
    NetAddress(CanonicalizeIp(addr.ip), addr.port)
  }

  /** Exactly the addresses in `::ffff:0:0/96` change, and each becomes the IPv4 host of its last four octets. */
  lemma CanonicalizeMeans(ip: Ip)
    ensures CanonicalizeIp(ip) != ip <==> ip.V6? && ip.v6[..12] == [0, 0, 0, 0, 0, 0, 0, 0, 0, 0, 255, 255]
    ensures CanonicalizeIp(ip) != ip ==>
              CanonicalizeIp(ip) == V4([ip.v6[12], ip.v6[13], ip.v6[14], ip.v6[15]])
  {
    if ip.V6? {
      assert forall i :: 0 <= i < 12 ==> ip.v6[..12][i] == ip.v6[i];
      assert ip.v6[12..] == [ip.v6[12], ip.v6[13], ip.v6[14], ip.v6[15]];
    }
  }

  predicate IsMulticast(ip: Ip) {
    match ip
    case V4(o) => 224 <= o[0] < 240
    case V6(o) => o[0] == 255
  }

  const EPHEMERAL_PORT_FLOOR: int := 32768

  /** The port policy of a running seeder; `routable` is the p2p library's routability table. */
  datatype Policy = Policy(defaultPort: Port, strictPort: bool, routable: Ip -> bool)

  predicate IsAcceptable(a: NetAddress, p: Policy) {
    && a.port != 0
    && (if p.strictPort then a.port == p.defaultPort else a.port < EPHEMERAL_PORT_FLOOR)
    && !IsMulticast(a.ip)
    && p.routable(a.ip)
  }

  /** Acceptable are routable hosts outside 224/4 and ff00::/8, on the default port or, if not strict, on 1 to 32767. */
  lemma AcceptableMeans(a: NetAddress, p: Policy)
    ensures IsAcceptable(a, p) <==>
              && p.routable(a.ip)
              && (p.strictPort ==> a.port == p.defaultPort && 1 <= a.port)
              && (!p.strictPort ==> 1 <= a.port <= 32767)
              && (a.ip.V4? ==> a.ip.v4[0] <= 223 || 240 <= a.ip.v4[0])
              && (a.ip.V6? ==> a.ip.v6[0] <= 254)
  {
  }

  /** What every address written to the store has to satisfy. */
  predicate Storable(a: NetAddress, p: Policy) {
    IsCanonical(a.ip) && IsAcceptable(a, p)
  }

  // ---------------------------------------------------------------- stored key

  /** bincode's standard `u16`: one byte up to 250, else the marker 251 and two little-endian bytes. */
  function EncodePort(p: Port): (b: seq<Byte>)
    ensures 1 <= |b| <= 3
  {
    if p <= 250 then [p] else [251, p % 256, p / 256]
  }

  function EncodeKey(a: NetAddress): (b: seq<Byte>)
    ensures |b| >= 6
  {
    match a.ip
    case V4(o) => [0] + o + EncodePort(a.port)
    case V6(o) => [1] + o + EncodePort(a.port)
  }

  function DecodePort(b: seq<Byte>): (p: int) {
    if |b| == 1 then b[0]
    else if |b| == 3 then
      var hi: int := b[2];
      b[1] + 256 * hi
    else -1
  }

  lemma EncodePortRoundTrip(p: Port)
    ensures DecodePort(EncodePort(p)) == p
  {
  }

  /** The key's bytes: the family, the octets in order, then the port in one byte or as 251 and two, low byte first. */
  lemma KeyLayout(a: NetAddress)
    ensures var b, n := EncodeKey(a), if a.ip.V4? then 4 else 16;
            && b[0] == (if a.ip.V4? then 0 else 1)
            && b[1..n + 1] == (if a.ip.V4? then a.ip.v4 else a.ip.v6)
            && (a.port <= 250 ==> |b| == n + 2 && b[n + 1] == a.port)
            && (a.port > 250 ==> |b| == n + 4 && b[n + 1] == 251 && b[n + 2] as int + 256 * b[n + 3] as int == a.port)
  {
    var n := if a.ip.V4? then 4 else 16;
    assert EncodeKey(a)[1..n + 1] == if a.ip.V4? then a.ip.v4 else a.ip.v6;
    EncodePortRoundTrip(a.port);
  }

  /** Two addresses share a key only if they are the same address. */
  lemma EncodeKeyInjective(a: NetAddress, b: NetAddress)
    requires EncodeKey(a) == EncodeKey(b)
    ensures a == b
  {
    var x, y := EncodeKey(a), EncodeKey(b);
    assert x[0] == y[0];
    var n := if a.ip.V4? then 4 else 16;
    assert x[1..n + 1] == if a.ip.V4? then a.ip.v4 else a.ip.v6;
    assert y[1..n + 1] == if b.ip.V4? then b.ip.v4 else b.ip.v6;
    assert x[n + 1..] == EncodePort(a.port);
    assert y[n + 1..] == EncodePort(b.port);
    EncodePortRoundTrip(a.port);
    EncodePortRoundTrip(b.port);
  }

  /** Byte-string order, the order in which the database walks keys. */
  predicate LexLess(s: seq<Byte>, t: seq<Byte>) {
    if t == [] then false
    else if s == [] then true
    else if s[0] != t[0] then s[0] < t[0]
    else LexLess(s[1..], t[1..])
  }

  /** The strings agree up to `k`, where the first ends or has the smaller byte. */
  predicate LessAt(s: seq<Byte>, t: seq<Byte>, k: nat) {
    && k <= |s| && k < |t| && s[..k] == t[..k]
    && (k < |s| ==> s[k] < t[k])
  }

  lemma {:induction false} LexLessMeans(s: seq<Byte>, t: seq<Byte>)
    ensures LexLess(s, t) <==> exists k: nat :: LessAt(s, t, k)
  {
    if s != [] && t != [] && s[0] == t[0] {
      LexLessMeans(s[1..], t[1..]);
      forall k: nat | LessAt(s[1..], t[1..], k) ensures LessAt(s, t, k + 1) {
        assert s[..k + 1] == [s[0]] + s[1..][..k] && t[..k + 1] == [t[0]] + t[1..][..k];
      }
      forall k: nat | LessAt(s, t, k) ensures k > 0 && LessAt(s[1..], t[1..], k - 1) {
        assert s[..k][1..] == s[1..][..k - 1] && t[..k][1..] == t[1..][..k - 1];
      }
    } else if t != [] && LexLess(s, t) {
      assert LessAt(s, t, 0);
    } else {
      forall k: nat ensures !LessAt(s, t, k) {
        if 0 < k <= |s| && k <= |t| { assert s[..k][0] == s[0] && t[..k][0] == t[0]; }
      }
    }
  }

  lemma {:induction false} LexIrreflexive(s: seq<Byte>)
    ensures !LexLess(s, s)
  {
    if s != [] { LexIrreflexive(s[1..]); }
  }

  lemma {:induction false} LexTransitive(s: seq<Byte>, t: seq<Byte>, u: seq<Byte>)
    requires LexLess(s, t) && LexLess(t, u)
    ensures LexLess(s, u)
  {
    if s != [] && s[0] == t[0] && t[0] == u[0] { LexTransitive(s[1..], t[1..], u[1..]); }
  }

  lemma {:induction false} LexTotal(s: seq<Byte>, t: seq<Byte>)
    ensures s == t || LexLess(s, t) || LexLess(t, s)
  {
    if s != [] && t != [] && s[0] == t[0] {
      LexTotal(s[1..], t[1..]);
      assert s == [s[0]] + s[1..] && t == [t[0]] + t[1..];
    }
  }
}
