/** The field-level meaning of the 42-byte header the benchmark sends: an
    Ethernet II header (14 bytes), an IPv4 header without options (RFC 791,
    section 3.1; 20 bytes) and a UDP header (RFC 768; 8 bytes). Multi-byte
    fields are big-endian. */
module Wire {
  import opened Bytes
  import opened Config

  const ETHERNET_LEN: nat := 14
  const IPV4_LEN: nat := 20
  const UDP_LEN: nat := 8

  /** Ethernet II: destination and source hardware address, EtherType. */
  datatype Ethernet = Ethernet(dst: seq<byte>, src: seq<byte>, etherType: nat)

  /** A dotted-quad IPv4 address. */
  datatype Address = Address(a: byte, b: byte, c: byte, d: byte)

  /** The fixed part of an IPv4 header (RFC 791, section 3.1); the two 3- and
      13-bit fields sharing bytes 6-7 are kept as one 16-bit word. */
  datatype Ipv4 = Ipv4(
    version: nat, ihl: nat, tos: byte, totalLength: nat,
    identification: nat, flagsFragment: nat,
    ttl: byte, protocol: byte, checksum: nat,
    src: Address, dst: Address)

  /** A UDP header (RFC 768). */
  datatype Udp = Udp(srcPort: nat, dstPort: nat, length: nat, checksum: nat)

  /** The whole header in wire order. */
  datatype Header = Header(eth: Ethernet, ip: Ipv4, udp: Udp)

  predicate EthernetWellFormed(e: Ethernet)
  {
    |e.dst| == 6 && |e.src| == 6 && e.etherType < U16_LIMIT
  }

  predicate Ipv4WellFormed(h: Ipv4)
  {
    && h.version < 16 && h.ihl < 16
    && h.totalLength < U16_LIMIT
    && h.identification < U16_LIMIT
    && h.flagsFragment < U16_LIMIT
    && h.checksum < U16_LIMIT
  }

  predicate UdpWellFormed(u: Udp)
  {
    && u.srcPort < U16_LIMIT && u.dstPort < U16_LIMIT
    && u.length < U16_LIMIT && u.checksum < U16_LIMIT
  }

  /** The field values that fit their slots on the wire. */
  predicate WellFormed(h: Header)
  {
    EthernetWellFormed(h.eth) && Ipv4WellFormed(h.ip) && UdpWellFormed(h.udp)
  }

  function EncodeEthernet(e: Ethernet): (b: seq<byte>)
    requires EthernetWellFormed(e)
    ensures |b| == ETHERNET_LEN
  {
    e.dst + e.src + [HighByte(e.etherType), LowByte(e.etherType)]
  }

  function DecodeEthernet(b: seq<byte>): (e: Ethernet)
    requires |b| == ETHERNET_LEN
    ensures EthernetWellFormed(e)
  {
    Ethernet(b[..6], b[6..12], U16(b[12], b[13]))
  }

  function EncodeIpv4(h: Ipv4): (b: seq<byte>)
    requires Ipv4WellFormed(h)
    ensures |b| == IPV4_LEN
  {
    [ h.version * 16 + h.ihl, h.tos,
      HighByte(h.totalLength), LowByte(h.totalLength),
      HighByte(h.identification), LowByte(h.identification),
      HighByte(h.flagsFragment), LowByte(h.flagsFragment),
      h.ttl, h.protocol,
      HighByte(h.checksum), LowByte(h.checksum),
      h.src.a, h.src.b, h.src.c, h.src.d,
      h.dst.a, h.dst.b, h.dst.c, h.dst.d ]
  }

  function DecodeIpv4(b: seq<byte>): (h: Ipv4)
    requires |b| == IPV4_LEN
    ensures Ipv4WellFormed(h)
  {
    Ipv4(
      b[0] / 16, b[0] % 16, b[1], U16(b[2], b[3]),
      U16(b[4], b[5]), U16(b[6], b[7]),
      b[8], b[9], U16(b[10], b[11]),
      Address(b[12], b[13], b[14], b[15]),
      Address(b[16], b[17], b[18], b[19]))
  }

  function EncodeUdp(u: Udp): (b: seq<byte>)
    requires UdpWellFormed(u)
    ensures |b| == UDP_LEN
  {
    [ HighByte(u.srcPort), LowByte(u.srcPort),
      HighByte(u.dstPort), LowByte(u.dstPort),
      HighByte(u.length), LowByte(u.length),
      HighByte(u.checksum), LowByte(u.checksum) ]
  }

  function DecodeUdp(b: seq<byte>): (u: Udp)
    requires |b| == UDP_LEN
    ensures UdpWellFormed(u)
  {
    Udp(U16(b[0], b[1]), U16(b[2], b[3]), U16(b[4], b[5]), U16(b[6], b[7]))
  }

  /** Lays a header out as its 42 bytes. */
  function Encode(h: Header): (b: seq<byte>)
    requires WellFormed(h)
    ensures |b| == HEADER_LEN
  {
    EncodeEthernet(h.eth) + EncodeIpv4(h.ip) + EncodeUdp(h.udp)
  }

  /** Reads a header out of 42 bytes. */
  function Decode(b: seq<byte>): (h: Header)
    requires |b| == HEADER_LEN
    ensures WellFormed(h)
  {
    Header(
      DecodeEthernet(b[..ETHERNET_LEN]),
      DecodeIpv4(b[ETHERNET_LEN..ETHERNET_LEN + IPV4_LEN]),
      DecodeUdp(b[ETHERNET_LEN + IPV4_LEN..]))
  }

  /** Where the two length fields sit: bytes 16-17 and 38-39. */
  lemma DecodeLengths(b: seq<byte>)
    requires |b| == HEADER_LEN
    ensures Decode(b).ip.totalLength == U16(b[16], b[17])
    ensures Decode(b).udp.length == U16(b[38], b[39])
  {
  }

  lemma DecodeEncodeEthernet(e: Ethernet)
    requires EthernetWellFormed(e)
    ensures DecodeEthernet(EncodeEthernet(e)) == e
  {
    var b := EncodeEthernet(e);
    assert b[..6] == e.dst;
    assert b[6..12] == e.src;
  }

  lemma EncodeDecodeEthernet(b: seq<byte>)
    requires |b| == ETHERNET_LEN
    ensures EncodeEthernet(DecodeEthernet(b)) == b
  {
  }

  lemma DecodeEncodeIpv4(h: Ipv4)
    requires Ipv4WellFormed(h)
    ensures DecodeIpv4(EncodeIpv4(h)) == h
  {
    Nibbles(h.version, h.ihl);
    BigEndianExact(h.totalLength);
    BigEndianExact(h.identification);
    BigEndianExact(h.flagsFragment);
    BigEndianExact(h.checksum);
  }

  lemma EncodeDecodeIpv4(b: seq<byte>)
    requires |b| == IPV4_LEN
    ensures EncodeIpv4(DecodeIpv4(b)) == b
  {
    assert b[0] == (b[0] / 16) * 16 + b[0] % 16;
    BigEndianRoundTrip(b[2], b[3]);
    BigEndianRoundTrip(b[4], b[5]);
    BigEndianRoundTrip(b[6], b[7]);
    BigEndianRoundTrip(b[10], b[11]);
  }

  lemma DecodeEncodeUdp(u: Udp)
    requires UdpWellFormed(u)
    ensures DecodeUdp(EncodeUdp(u)) == u
  {
    BigEndianExact(u.srcPort);
    BigEndianExact(u.dstPort);
    BigEndianExact(u.length);
    BigEndianExact(u.checksum);
  }

  lemma EncodeDecodeUdp(b: seq<byte>)
    requires |b| == UDP_LEN
    ensures EncodeUdp(DecodeUdp(b)) == b
  {
    BigEndianRoundTrip(b[0], b[1]);
    BigEndianRoundTrip(b[2], b[3]);
    BigEndianRoundTrip(b[4], b[5]);
    BigEndianRoundTrip(b[6], b[7]);
  }

  /** Reading back what was laid out gives the same header. */
  lemma DecodeEncode(h: Header)
    requires WellFormed(h)
    ensures Decode(Encode(h)) == h
  {
    var e := EncodeEthernet(h.eth);
    var i := EncodeIpv4(h.ip);
    var u := EncodeUdp(h.udp);
    var b := e + i + u;
    assert b[..ETHERNET_LEN] == e;
    assert b[ETHERNET_LEN..ETHERNET_LEN + IPV4_LEN] == i;
    assert b[ETHERNET_LEN + IPV4_LEN..] == u;
    DecodeEncodeEthernet(h.eth);
    DecodeEncodeIpv4(h.ip);
    DecodeEncodeUdp(h.udp);
  }

  /** Every 42-byte string is the layout of the header read from it, so the
      byte view and the field view of a header carry the same information. */
  lemma EncodeDecode(b: seq<byte>)
    requires |b| == HEADER_LEN
    ensures Encode(Decode(b)) == b
  {
    EncodeDecodeEthernet(b[..ETHERNET_LEN]);
    EncodeDecodeIpv4(b[ETHERNET_LEN..ETHERNET_LEN + IPV4_LEN]);
    EncodeDecodeUdp(b[ETHERNET_LEN + IPV4_LEN..]);
    assert b == b[..ETHERNET_LEN] + b[ETHERNET_LEN..ETHERNET_LEN + IPV4_LEN] + b[ETHERNET_LEN + IPV4_LEN..];
  }
}
