/**
 * Socket addresses as the raw bytes the proxy copies and compares.
 *
 * A `struct sockaddr_in6` is 28 bytes: family (2, host order), port (2,
 * network order), flow info (4), address (16), scope id (4).  A `struct
 * sockaddr_in` is 16 bytes: family (2), port (2), address (4), padding (8).
 * The host is taken to be little-endian Linux, where AF_INET is 2 and
 * AF_INET6 is 10.
 */
module Addr {
  import opened Wrappers

  type Byte = bv8

  /** A `struct sockaddr_in6`, byte for byte. */
  type Sa6 = s: seq<Byte> | |s| == 28 witness seq(28, _ => 0 as bv8)

  /** A `struct sockaddr_in`, byte for byte. */
  type SaIn = s: seq<Byte> | |s| == 16 witness seq(16, _ => 0 as bv8)

  const AfInetBytes: seq<Byte> := [2, 0]
  const AfInet6Bytes: seq<Byte> := [10, 0]

  /** The 0:0:0:0:0:ffff prefix of an IPv4-mapped IPv6 address (section 2.5.5.2 of RFC 4291). */
  const V4MappedPrefix: seq<Byte> := [0, 0, 0, 0, 0, 0, 0, 0, 0, 0, 0xff, 0xff]

  /** The all-zero `struct sockaddr_in6` (`= { 0 }`). */
  const ZeroSa6: Sa6 := seq(28, _ => 0 as bv8)

  // Field views of a sockaddr_in6.
  function Family(a: Sa6): seq<Byte> { a[0..2] }
  function Port(a: Sa6): seq<Byte> { a[2..4] }
  function FlowInfo(a: Sa6): seq<Byte> { a[4..8] }
  function Addr6(a: Sa6): seq<Byte> { a[8..24] }
  function ScopeId(a: Sa6): seq<Byte> { a[24..28] }

  // Field views of a sockaddr_in.
  function InFamily(a: SaIn): seq<Byte> { a[0..2] }
  function InPort(a: SaIn): seq<Byte> { a[2..4] }
  function InAddr(a: SaIn): seq<Byte> { a[4..8] }

  /**
   * Rewrites the family, port and address fields of `prev` into the
   * IPv4-mapped form of `sin`; the flow info and scope id bytes of `prev`
   * are not written and keep whatever they held.
   */
  function ToMapped(sin: SaIn, prev: Sa6): (r: Sa6)
    ensures Family(r) == AfInet6Bytes
    ensures Port(r) == InPort(sin)
    ensures forall i :: 0 <= i < 10 ==> Addr6(r)[i] == 0
    ensures Addr6(r)[10] == 0xff && Addr6(r)[11] == 0xff
    ensures Addr6(r)[12..] == InAddr(sin)
    ensures FlowInfo(r) == FlowInfo(prev) && ScopeId(r) == ScopeId(prev)
  {
    AfInet6Bytes + sin[2..4] + prev[4..8] + V4MappedPrefix + sin[4..8] + prev[24..28]
  }

  /** The IPv4 port and address carried by an IPv4-mapped sockaddr_in6, if it is one. */
  function MappedV4(a: Sa6): Option<(seq<Byte>, seq<Byte>)>
  {
    if Family(a) == AfInet6Bytes && Addr6(a)[..12] == V4MappedPrefix
    then Some((Port(a), Addr6(a)[12..]))
    else None
  }

  /** Mapping an IPv4 address and reading it back gives the same port and address. */
  lemma MappedRoundTrip(sin: SaIn, prev: Sa6)
    ensures MappedV4(ToMapped(sin, prev)) == Some((InPort(sin), InAddr(sin)))
  {
    var r := ToMapped(sin, prev);
    assert Addr6(r)[..12] == V4MappedPrefix;
  }

  /**
   * Every IPv4-mapped sockaddr_in6 is the image of the IPv4 address it
   * carries: mapping it again over itself changes nothing.
   */
  lemma MappedComplete(a: Sa6, port: seq<Byte>, v4: seq<Byte>)
    requires MappedV4(a) == Some((port, v4))
    ensures |port| == 2 && |v4| == 4
    ensures ToMapped(AfInetBytes + port + v4 + seq(8, _ => 0 as bv8), a) == a
  {
    var sin: SaIn := AfInetBytes + port + v4 + seq(8, _ => 0 as bv8);
    var r := ToMapped(sin, a);
    assert r[0..2] == a[0..2];
    assert r[2..4] == a[2..4];
    assert r[4..8] == a[4..8];
    assert r[8..20] == a[8..20] by {
      assert a[8..20] == Addr6(a)[..12] == V4MappedPrefix;
      assert r[8..20] == Addr6(r)[..12];
      assert forall i :: 0 <= i < 12 ==> Addr6(r)[i] == V4MappedPrefix[i];
    }
    assert r[20..24] == a[20..24];
    assert r[24..28] == a[24..28];
    assert r == r[0..2] + r[2..4] + r[4..8] + r[8..20] + r[20..24] + r[24..28];
    assert a == a[0..2] + a[2..4] + a[4..8] + a[8..20] + a[20..24] + a[24..28];
  }

  /** Two IPv4 sources written over the same buffer collide only if port and address agree. */
  lemma MappedInjective(s1: SaIn, s2: SaIn, prev: Sa6)
    requires ToMapped(s1, prev) == ToMapped(s2, prev)
    ensures InPort(s1) == InPort(s2) && InAddr(s1) == InAddr(s2)
  {
    MappedRoundTrip(s1, prev);
    MappedRoundTrip(s2, prev);
  }

  /** What the resolver hands back in `ai_family`/`ai_addr`. */
  datatype Resolved = AiInet(sin: SaIn) | AiInet6(sin6: Sa6) | AiOther

  /**
   * `hev_socks5_tproxy_sockaddr` without the resolver call: `resolved` is
   * None when the lookup failed.  An IPv4 result is mapped, an IPv6 one
   * copied whole, any other family leaves the output as it was.
   */
  function TproxySockaddr(resolved: Option<Resolved>, prev: Sa6): (r: (int, Sa6))
    ensures r.0 == -1 <==> resolved.None?
    ensures r.0 == 0 || r.0 == -1
    ensures resolved.Some? && resolved.value.AiInet? ==>
              MappedV4(r.1) == Some((InPort(resolved.value.sin), InAddr(resolved.value.sin))) &&
              FlowInfo(r.1) == FlowInfo(prev) && ScopeId(r.1) == ScopeId(prev)
    ensures resolved.Some? && resolved.value.AiInet6? ==> r.1 == resolved.value.sin6
    ensures resolved.None? || (resolved.Some? && resolved.value.AiOther?) ==> r.1 == prev
  {
    match resolved
    case None => (-1, prev)
    case Some(AiInet(sin)) => MappedRoundTrip(sin, prev); (0, ToMapped(sin, prev))
    case Some(AiInet6(sin6)) => (0, sin6)
    case Some(AiOther) => (0, prev)
  }

  /** The original-destination control message that `recvmsg` found, if any. */
  datatype OrigDst = OrigDstV4(sin: SaIn) | OrigDstV6(sin6: Sa6)

  /**
   * The destination address `hev_socks5_udp_recvmsg` writes into `daddr`:
   * the mapped form of an IPv4 original destination, an IPv6 one copied
   * whole, or `prev` untouched when no such control message arrived.
   */
  function RecvOrigDst(cm: Option<OrigDst>, prev: Sa6): (r: Sa6)
    ensures cm.Some? && cm.value.OrigDstV4? ==>
              MappedV4(r) == Some((InPort(cm.value.sin), InAddr(cm.value.sin))) &&
              FlowInfo(r) == FlowInfo(prev) && ScopeId(r) == ScopeId(prev)
    ensures cm.Some? && cm.value.OrigDstV6? ==> r == cm.value.sin6
    ensures cm.None? ==> r == prev
  {
    match cm
    case None => prev
    case Some(OrigDstV4(sin)) => MappedRoundTrip(sin, prev); ToMapped(sin, prev)
    case Some(OrigDstV6(sin6)) => sin6
  }

  /**
   * The sign of `memcmp (a, b, n)`: bytes compared as unsigned values,
   * first difference decides.
   */
  function Memcmp(a: seq<Byte>, b: seq<Byte>): (r: int)
    requires |a| == |b|
    ensures -1 <= r <= 1
    ensures r == 0 <==> a == b
    decreases |a|
  {
    if |a| == 0 then 0
    else if a[0] < b[0] then -1
    else if a[0] > b[0] then 1
    else
      var r := Memcmp(a[1..], b[1..]);
      assert a == [a[0]] + a[1..] && b == [b[0]] + b[1..];
      r
  }

  /** Swapping the operands of memcmp flips the sign. */
  lemma {:induction false} MemcmpAntisymmetric(a: seq<Byte>, b: seq<Byte>)
    requires |a| == |b|
    ensures Memcmp(a, b) == -Memcmp(b, a)
    decreases |a|
  {
    if |a| > 0 && a[0] == b[0] {
      MemcmpAntisymmetric(a[1..], b[1..]);
    }
  }

  /** memcmp's "less than" is transitive. */
  lemma {:induction false} MemcmpTransitive(a: seq<Byte>, b: seq<Byte>, c: seq<Byte>)
    requires |a| == |b| == |c|
    requires Memcmp(a, b) < 0 && Memcmp(b, c) < 0
    ensures Memcmp(a, c) < 0
    decreases |a|
  {
    if a[0] == b[0] && b[0] == c[0] {
      MemcmpTransitive(a[1..], b[1..], c[1..]);
    }
  }
}
