/** The header template built once before the transmit loop: a literal frame
    header whose two length fields are derived from the packet size, with
    both hardware addresses then overwritten. */
module Template {
  import opened Bytes
  import opened Config
  import opened Wire

  /** The source address written in the literal; it is always overwritten by
      the device's own address. */
  const LITERAL_SRC_MAC: Mac := [0x00, 0x16, 0x31, 0xff, 0xa6, 0x42]

  /** The header literal for frames of `packetSize` bytes. The two
      subtractions are unsigned, so a packet size below 34 is refused; the
      length bytes go through truncating `u8` casts. */
  function Literal(packetSize: nat): (t: seq<byte>)
    requires packetSize >= 34
    ensures |t| == HEADER_LEN
  {
    [0x90, 0xe2, 0xba, 0x8c, 0x66, 0x88]                // dst MAC
    + [0x00, 0x16, 0x31, 0xff, 0xa6, 0x42]              // src MAC
    + [0x08, 0x00]                                      // EtherType: IPv4
    + [0x45, 0x00]                                      // version, IHL, TOS
    + [HighByte(packetSize - 14), LowByte(packetSize - 14)]
    + [0x00, 0x00, 0x00, 0x00]                          // id, flags, fragment
    + [0x40, 0x11, 0x00, 0x00]                          // TTL, protocol, checksum
    + [0x0A, 0x00, 0x00, 0x01]                          // src IP
    + [0x0A, 0x00, 0x00, 0x02]                          // dst IP
    + [0x00, 0x2A, 0x05, 0x39]                          // src and dst port
    + [HighByte(packetSize - 20 - 14), LowByte(packetSize - 20 - 14)]
    + [0x00, 0x00]                                      // UDP checksum
  }

  /** What the literal says, field by field: IPv4 over Ethernet, version 4
      with a 5-word header, TTL 64, protocol UDP, header checksum left 0,
      10.0.0.1 to 10.0.0.2, port 42 to port 1337, UDP checksum 0 ("not
      computed"), and the two lengths reduced modulo 2^16. */
  lemma LiteralFields(packetSize: nat)
    requires packetSize >= 34
    ensures Decode(Literal(packetSize)) == Header(
      Ethernet(DST_MAC, LITERAL_SRC_MAC, 0x0800),
      Ipv4(4, 5, 0, (packetSize - 14) % U16_LIMIT, 0, 0, 64, 17, 0,
           Address(10, 0, 0, 1), Address(10, 0, 0, 2)),
      Udp(42, 1337, (packetSize - 34) % U16_LIMIT, 0))
  {
    var t := Literal(packetSize);
    assert t[..6] == DST_MAC;
    assert t[6..12] == LITERAL_SRC_MAC;
    LiteralBytes(packetSize);
    var ip := t[ETHERNET_LEN..ETHERNET_LEN + IPV4_LEN];
    var udp := t[ETHERNET_LEN + IPV4_LEN..];
    assert ip[0] == 0x45;
    Nibbles(4, 5);
    assert DecodeIpv4(ip).totalLength == U16(t[16], t[17]) == (packetSize - 14) % U16_LIMIT;
    assert DecodeUdp(udp).length == U16(t[38], t[39]) == (packetSize - 34) % U16_LIMIT;
  }

  /** The fixed bytes the literal puts where the protocol headers expect
      them: EtherType 0x0800, version/IHL 0x45, TTL 64, protocol 17 and a
      zero UDP checksum; and the two length fields as truncated byte pairs. */
  lemma LiteralBytes(packetSize: nat)
    requires packetSize >= 34
    ensures var t := Literal(packetSize);
      && t[12] == 0x08 && t[13] == 0x00
      && t[14] == 0x45
      && t[22] == 0x40 && t[23] == 0x11
      && t[40] == 0 && t[41] == 0
      && U16(t[16], t[17]) == (packetSize - 14) % U16_LIMIT
      && U16(t[38], t[39]) == (packetSize - 34) % U16_LIMIT
  {
    BigEndianTruncates(packetSize - 14);
    BigEndianTruncates(packetSize - 34);
  }

  /** The IPv4 total length reads back as the packet size less the Ethernet
      header, and the UDP length as the packet size less both lower headers,
      exactly when those differences fit in 16 bits. */
  lemma LengthFieldsExact(packetSize: nat)
    requires packetSize >= 34
    ensures Decode(Literal(packetSize)).ip.totalLength == packetSize - 14
            <==> packetSize - 14 < U16_LIMIT
    ensures Decode(Literal(packetSize)).udp.length == packetSize - 34
            <==> packetSize - 34 < U16_LIMIT
  {
    var t := Literal(packetSize);
    LiteralBytes(packetSize);
    DecodeLengths(t);
    BigEndianExact(packetSize - 14);
    BigEndianExact(packetSize - 34);
  }

  /** Overwrites bytes 0-5 with `dst` and bytes 6-11 with `src`. */
  function PatchMacs(t: seq<byte>, dst: Mac, src: Mac): (r: seq<byte>)
    requires |t| == HEADER_LEN
    ensures |r| == HEADER_LEN
    ensures r[..6] == dst && r[6..12] == src && r[12..] == t[12..]
  {
    dst + src + t[12..]
  }

  /** Patching changes the two Ethernet addresses and no other field. */
  lemma PatchMacsFields(t: seq<byte>, dst: Mac, src: Mac)
    requires |t| == HEADER_LEN
    ensures Decode(PatchMacs(t, dst, src))
            == Decode(t).(eth := Decode(t).eth.(dst := dst, src := src))
  {
    var r := PatchMacs(t, dst, src);
    assert r[12] == t[12] && r[13] == t[13];
    assert r[ETHERNET_LEN..ETHERNET_LEN + IPV4_LEN] == t[ETHERNET_LEN..ETHERNET_LEN + IPV4_LEN];
    assert r[ETHERNET_LEN + IPV4_LEN..] == t[ETHERNET_LEN + IPV4_LEN..];
  }

  /** The template actually used: the literal for `PACKET_SIZE`, addressed
      from the device's own hardware address `deviceMac` to `DST_MAC`. */
  function Build(deviceMac: Mac): (t: seq<byte>)
    ensures |t| == HEADER_LEN
    ensures t[..6] == DST_MAC && t[6..12] == deviceMac
    ensures t[12..] == Literal(PACKET_SIZE)[12..]
    ensures t[12] == 0x08 && t[13] == 0x00
    ensures t[14] == 0x45
    ensures t[22] == 0x40 && t[23] == 0x11
    ensures t[40] == 0 && t[41] == 0
    ensures U16(t[16], t[17]) == PACKET_SIZE - 14
    ensures U16(t[38], t[39]) == PACKET_SIZE - 34
  {
    var l := Literal(PACKET_SIZE);
    var t := PatchMacs(l, DST_MAC, deviceMac);
    assert t[12] == l[12] && t[13] == l[13] && t[14] == l[14];
    assert t[16] == l[16] && t[17] == l[17];
    assert t[22] == l[22] && t[23] == l[23];
    assert t[38] == l[38] && t[39] == l[39];
    assert t[40] == l[40] && t[41] == l[41];
    LiteralBytes(PACKET_SIZE);
    t
  }

  /** The template, field by field: only the source address depends on the
      device, and both length fields are exact for 1500-byte frames. */
  lemma BuildFields(deviceMac: Mac)
    ensures Decode(Build(deviceMac)) == Header(
      Ethernet(DST_MAC, deviceMac, 0x0800),
      Ipv4(4, 5, 0, 1486, 0, 0, 64, 17, 0, Address(10, 0, 0, 1), Address(10, 0, 0, 2)),
      Udp(42, 1337, 1466, 0))
  {
    LiteralFields(PACKET_SIZE);
    PatchMacsFields(Literal(PACKET_SIZE), DST_MAC, deviceMac);
  }
}
