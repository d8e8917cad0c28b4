/**
 The address formatters of InetSocket (src/Socket.cc): `IPAddrString`, which
 renders an IPv4 address as four dotted decimal octets, and the two
 `AddrString` overloads, which append a port.

 The source applies `htonl` to its argument before splitting it into octets.
 The byte-order primitive is not modelled: the functions here take the
 address already in host order, so that the most significant byte is the
 first octet printed.

 A parser for the same texts is the partner of each formatter: reading the
 text back recovers the address and port.
 */
module Address {
  import opened Basics
  import opened Decimal

  /** The four octets of a host-order address, most significant first:
      `(hl & 0xFF000000) >> 24`, ..., `hl & 0x000000FF`. */
  function Octets(hl: uint32): (o: seq<uint8>)
    ensures |o| == 4
  {
    [hl / 0x100_0000, (hl / 0x1_0000) % 0x100, (hl / 0x100) % 0x100, hl % 0x100]
  }

  /** Reassembles four octets into a host-order address. */
  function Pack(o: seq<uint8>): uint32
    requires |o| == 4
  {
    (o[0] as int) * 0x100_0000 + (o[1] as int) * 0x1_0000 + (o[2] as int) * 0x100 + (o[3] as int)
  }

  lemma PackOctets(hl: uint32)
    ensures Pack(Octets(hl)) == hl
  {
    var t1 := hl / 0x100;
    var t2 := hl / 0x1_0000;
    assert hl == t1 * 0x100 + hl % 0x100;
    assert t2 == t1 / 0x100;
    assert t1 == t2 * 0x100 + t1 % 0x100;
    assert hl / 0x100_0000 == t2 / 0x100;
    assert t2 == (hl / 0x100_0000) * 0x100 + t2 % 0x100;
    assert t1 % 0x100 == (hl / 0x100) % 0x100;
  }

  lemma OctetsPack(o: seq<uint8>)
    requires |o| == 4
    ensures Octets(Pack(o)) == o
  {
    var a, b, c, d := o[0] as int, o[1] as int, o[2] as int, o[3] as int;
    var p := Pack(o) as int;
    var u := a * 0x1_0000 + b * 0x100 + c;
    var v := a * 0x100 + b;
    DivModOf(p, 0x100, u, d);
    DivModOf(u, 0x100, v, c);
    DivModOf(v, 0x100, a, b);
    DivModOf(p, 0x1_0000, v, c * 0x100 + d);
    DivModOf(p, 0x100_0000, a, b * 0x1_0000 + c * 0x100 + d);
  }

  /** Quotient and remainder are determined by any decomposition with the
      remainder in range. */
  lemma DivModOf(x: int, m: int, q: int, r: int)
    requires m > 0 && 0 <= r < m && x == q * m + r
    ensures x / m == q && x % m == r
  {
    var q', r' := x / m, x % m;
    assert (q - q') * m == r' - r;
    if q > q' {
      MulAtLeast(q - q', m);
    } else if q < q' {
      MulAtLeast(q' - q, m);
    }
  }

  lemma MulAtLeast(k: int, m: int)
    requires k >= 1 && m > 0
    ensures k * m >= m
  {
  }

  /** Reads one decimal octet. */
  function ParseOctet(s: string): Option<uint8>
  {
    match ParseDecimal(s)
    case Some(n) => if n < 0x100 then Some(n) else None
    case None => None
  }

  /** Reads a dotted-quad text back into a host-order address. */
  function ParseIP(s: string): Option<uint32>
  {
    match SplitFirst(s, '.')
    case None => None
    case Some(p0) =>
      match SplitFirst(p0.1, '.')
      case None => None
      case Some(p1) =>
        match SplitFirst(p1.1, '.')
        case None => None
        case Some(p2) =>
          match (ParseOctet(p0.0), ParseOctet(p1.0), ParseOctet(p2.0), ParseOctet(p2.1))
          case (Some(a), Some(b), Some(c), Some(d)) => Some(Pack([a, b, c, d]))
          case _ => None
  }

  lemma DigitsHaveNo(s: string, c: char)
    requires AllDigits(s)
    requires !IsDigit(c)
    ensures c !in s
  {
  }

  lemma ParseOctetString(n: uint8)
    ensures ParseOctet(DecimalString(n)) == Some(n)
  {
    ParseDecimalString(n);
  }

  /** A dotted text whose first three parts hold no dot splits at its dots. */
  lemma {:induction false} SplitDotted(s0: string, s1: string, s2: string, s3: string)
    requires '.' !in s0 && '.' !in s1 && '.' !in s2
    ensures SplitFirst(s0 + "." + s1 + "." + s2 + "." + s3, '.') == Some((s0, s1 + "." + s2 + "." + s3))
    ensures SplitFirst(s1 + "." + s2 + "." + s3, '.') == Some((s1, s2 + "." + s3))
    ensures SplitFirst(s2 + "." + s3, '.') == Some((s2, s3))
  {
    assert s0 + "." + s1 + "." + s2 + "." + s3 == s0 + ['.'] + (s1 + "." + s2 + "." + s3);
    SplitFirstJoin(s0, '.', s1 + "." + s2 + "." + s3);
    assert s1 + "." + s2 + "." + s3 == s1 + ['.'] + (s2 + "." + s3);
    SplitFirstJoin(s1, '.', s2 + "." + s3);
    assert s2 + "." + s3 == s2 + ['.'] + s3;
    SplitFirstJoin(s2, '.', s3);
  }

  /** Reads a port number in the uint16 range. */
  function ParsePort(s: string): Option<uint16>
  {
    match ParseDecimal(s)
    case Some(n) => if n < 0x1_0000 then Some(n) else None
    case None => None
  }

  /** Reads back the text of AddrString(uint32, uint16): no colon means port 0. */
  function ParseAddr(s: string): Option<(uint32, uint16)>
  {
    match SplitFirst(s, ':')
    case None =>
      (match ParseIP(s)
       case Some(a) => Some((a, 0))
       case None => None)
    case Some(p) =>
      match (ParseIP(p.0), ParsePort(p.1))
      case (Some(a), Some(port)) => Some((a, port))
      case _ => None
  }

  /** Four decimal octets joined by dots. */
  function QuadText(o: seq<uint8>): string
    requires |o| == 4
  {
    DecimalString(o[0]) + "." + DecimalString(o[1]) + "." + DecimalString(o[2]) + "." + DecimalString(o[3])
  }

  /** The dotted quad of an address parses back to it. */
  lemma {:induction false} ParseQuadText(hl: uint32)
    ensures ParseIP(QuadText(Octets(hl))) == Some(hl)
  {
    var o := Octets(hl);
    var s0, s1, s2, s3 := DecimalString(o[0]), DecimalString(o[1]), DecimalString(o[2]), DecimalString(o[3]);
    DigitsHaveNo(s0, '.');
    DigitsHaveNo(s1, '.');
    DigitsHaveNo(s2, '.');
    SplitDotted(s0, s1, s2, s3);
    ParseOctetString(o[0]);
    ParseOctetString(o[1]);
    ParseOctetString(o[2]);
    ParseOctetString(o[3]);
    assert [o[0], o[1], o[2], o[3]] == o;
    PackOctets(hl);
  }

  /** A dotted quad holds digits and dots only. */
  lemma QuadTextChars(o: seq<uint8>)
    requires |o| == 4
    ensures forall i :: 0 <= i < |QuadText(o)| ==> IsDigit(QuadText(o)[i]) || QuadText(o)[i] == '.'
  {
    var s0, s1, s2, s3 := DecimalString(o[0]), DecimalString(o[1]), DecimalString(o[2]), DecimalString(o[3]);
    assert QuadText(o) == s0 + "." + s1 + "." + s2 + "." + s3;
  }

  /** `InetSocket::IPAddrString`: the text holds digits and dots only and
      parses back to the address. */
  function IPAddrString(hl: uint32): (r: string)
    ensures forall i :: 0 <= i < |r| ==> IsDigit(r[i]) || r[i] == '.'
    ensures ParseIP(r) == Some(hl)
  {
    ParseQuadText(hl);
    QuadTextChars(Octets(hl));
    QuadText(Octets(hl))
  }

  /** `InetSocket::AddrString(uint32_t, uint16_t)`: the port is appended only
      when it is not 0, and the text parses back to address and port either
      way. */
  function AddrString(hl: uint32, port: uint16): (r: string)
    ensures ParseAddr(r) == Some((hl, port))
  {
    var ip := IPAddrString(hl);
    assert ':' !in ip by {
      assert forall i :: 0 <= i < |ip| ==> ip[i] != ':';
    }
    if port != 0 then
      var r := ip + ":" + DecimalString(port);
      assert r == ip + [':'] + DecimalString(port);
      SplitFirstJoin(ip, ':', DecimalString(port));
      ParseDecimalString(port);
      r
    else ip
  }

  /** `InetSocket::AddrString(const string&, uint16_t)`: the port is always
      appended, 0 included; for a text without a colon, the part after the
      first colon is the port and reads back to it. */
  function AddrStringOf(ip: string, port: uint16): (r: string)
    ensures ':' !in ip ==> SplitFirst(r, ':') == Some((ip, DecimalString(port)))
    ensures ParsePort(DecimalString(port)) == Some(port)
  {
    var r := ip + ":" + DecimalString(port);
    assert r == ip + [':'] + DecimalString(port);
    ParseDecimalString(port);
    if ':' in ip then r
    else
      SplitFirstJoin(ip, ':', DecimalString(port));
      r
  }

  /** The two overloads agree on a non-zero port and differ on port 0, where
      only the string overload prints ":0". */
  lemma {:induction false} AddrStringOverloads(hl: uint32, port: uint16)
    ensures port != 0 ==> AddrStringOf(IPAddrString(hl), port) == AddrString(hl, port)
    ensures port == 0 ==> AddrStringOf(IPAddrString(hl), port) == AddrString(hl, port) + ":0"
    ensures port == 0 ==> AddrStringOf(IPAddrString(hl), port) != AddrString(hl, port)
  {
    if port == 0 {
      var s := IPAddrString(hl);
      assert DecimalString(0) == "0";
      assert |AddrStringOf(s, 0)| == |s| + 2;
    }
  }
}
