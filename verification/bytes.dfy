/** Octets and the two integer-to-byte conversions the benchmark uses when it
    writes a 16-bit length field into its header template. */
module Bytes {

  /** A `u8`. */
  type byte = x: int | 0 <= x < 256

  /** One past the largest value a 16-bit field can hold. */
  const U16_LIMIT: nat := 65536

  /** `(x >> 8) as u8`: the shift keeps everything above the low byte and the
      cast keeps only the low eight bits of what is left. */
  function HighByte(x: nat): (b: byte)
  {
    (x / 256) % 256
  }

  /** `(x & 0xFF) as u8`. */
  function LowByte(x: nat): (b: byte)
  {
    x % 256
  }

  /** The value of a big-endian 16-bit field whose bytes are `hi`, `lo`. */
  function U16(hi: byte, lo: byte): (n: nat)
    ensures n < U16_LIMIT
    ensures n / 256 == hi && n % 256 == lo
  {
    hi * 256 + lo
  }

  /** Writing a number with the high/low byte pair and reading it back as a
      big-endian 16-bit field gives the number reduced modulo 2^16: the casts
      silently drop everything above bit 15. */
  lemma BigEndianTruncates(x: nat)
    ensures U16(HighByte(x), LowByte(x)) == x % U16_LIMIT
  {
    var l := x % 256;
    var h := x / 256;
    var hq := h / 256;
    var hh := h % 256;
    assert x == h * 256 + l;
    assert h == hq * 256 + hh;
    assert x == hq * U16_LIMIT + (hh * 256 + l);
    ModUnique(x, hq, hh * 256 + l);
  }

  /** A remainder below the divisor is the remainder. */
  lemma ModUnique(x: nat, q: nat, r: nat)
    requires x == q * U16_LIMIT + r && r < U16_LIMIT
    ensures x % U16_LIMIT == r
  {
  }

  /** Hence the byte pair reads back as exactly `x` if and only if `x` fits in
      16 bits. */
  lemma BigEndianExact(x: nat)
    ensures U16(HighByte(x), LowByte(x)) == x <==> x < U16_LIMIT
  {
    BigEndianTruncates(x);
    if x < U16_LIMIT {
      ModUnique(x, 0, x);
    }
  }

  /** Splitting a 16-bit value into its two bytes and reading them back is the
      identity. */
  lemma BigEndianRoundTrip(hi: byte, lo: byte)
    ensures HighByte(U16(hi, lo)) == hi && LowByte(U16(hi, lo)) == lo
  {
  }

  /** A byte built from two 4-bit halves splits back into them. */
  lemma Nibbles(hi: nat, lo: nat)
    requires hi < 16 && lo < 16
    ensures (hi * 16 + lo) / 16 == hi && (hi * 16 + lo) % 16 == lo
  {
  }
}
