/** The compile-time configuration of the transmit benchmark. */
module Config {
  import opened Bytes

  /** Packets handed to the device per transmit call. */
  const BATCH_SIZE: nat := 32
  /** Length of every generated frame, in bytes. */
  const PACKET_SIZE: nat := 1500

  /** Decimal (1000-based) prefixes. */
  const MB: nat := 1000 * 1000
  const GB: nat := 1000 * MB
  /** The run stops once this many bytes have been accounted. */
  const MAX_BYTES: nat := 50 * GB

  /** Length of the Ethernet + IPv4 + UDP header stamped onto each buffer. */
  const HEADER_LEN: nat := 42

  /** A 6-byte hardware address. */
  type Mac = m: seq<byte> | |m| == 6 witness [0, 0, 0, 0, 0, 0]

  /** The fixed destination address of every generated frame. */
  const DST_MAC: Mac := [0x90, 0xe2, 0xba, 0x8c, 0x66, 0x88]
}
