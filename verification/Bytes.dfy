/** Words on the wire: big-endian, most significant byte first, as in Appendix B of RFC 791. The Java
    streams and htonl/ntohl agree on it; a 32-bit word is read back as a signed int, a 16-bit word as
    an unsigned one. */
module Bytes {
  type byte = b: int | 0 <= b < 256

  const WORD := 0x1_0000_0000
  const HALF := 0x1_0000

  predicate IsInt32(v: int) {
    -0x8000_0000 <= v < 0x8000_0000
  }

  predicate IsUint16(v: int) {
    0 <= v < HALF
  }

  /** The low 32 bits of `v`. */
  function PutInt(v: int): (bs: seq<byte>)
    ensures |bs| == 4
  {
    var u := v % WORD;
    [u / 0x100_0000, u / 0x1_0000 % 256, u / 0x100 % 256, u % 256]
  }

  /** The low 16 bits of `v`. */
  function PutShort(v: int): (bs: seq<byte>)
    ensures |bs| == 2
  {
    var u := v % HALF;
    [u / 256, u % 256]
  }

  function GetInt(bs: seq<byte>): (v: int)
    requires |bs| >= 4
    ensures IsInt32(v)
  {
    var b0: int, b1: int, b2: int, b3: int := bs[0], bs[1], bs[2], bs[3];
    var u := b0 * 0x100_0000 + b1 * 0x1_0000 + b2 * 0x100 + b3;
    if u < 0x8000_0000 then u else u - WORD
  }

  function GetShort(bs: seq<byte>): (v: int)
    requires |bs| >= 2
    ensures IsUint16(v)
  {
    var b0: int, b1: int := bs[0], bs[1];
    b0 * 256 + b1
  }

  lemma RemainderOfHalf(v: int, k: int, r: int)
    requires v == HALF * k + r && 0 <= r < HALF
    ensures v % HALF == r
  {
  }

  lemma RemainderOfByte(v: int, k: int, r: int)
    requires v == 256 * k + r && 0 <= r < 256
    ensures v % 256 == r
  {
  }

  lemma LowShort(v: int)
    ensures v % WORD % HALF == v % HALF
  {
    var q, u := v / WORD, v % WORD;
    RemainderOfHalf(v, HALF * q + u / HALF, u % HALF);
  }

  lemma LowByte(v: int)
    ensures v % HALF % 256 == v % 256
  {
    var q, u := v / HALF, v % HALF;
    RemainderOfByte(v, 256 * q + u / 256, u % 256);
  }

  lemma FourBytes(u: int)
    requires 0 <= u < WORD
    ensures u / HALF / 256 == u / 0x100_0000 && u / HALF < HALF
    ensures u % HALF / 256 == u / 0x100 % 256 && u % HALF % 256 == u % 256
  {
    LowByte(u);
  }

  /** The order of the bytes: a word is its high short and then its low short, a short its high byte and
      then its low byte. */
  lemma NetworkOrder(v: int)
    ensures PutInt(v) == PutShort(v % WORD / HALF) + PutShort(v)
    ensures PutShort(v) == [v % HALF / 256, v % 256]
  {
    var u := v % WORD;
    LowShort(v);
    LowByte(v);
    FourBytes(u);
    LowByte(u / HALF);
  }

  /** Every signed word survives the wire, whatever follows it. */
  lemma IntRoundTrip(v: int, tail: seq<byte>)
    requires IsInt32(v)
    ensures GetInt(PutInt(v) + tail) == v && (PutInt(v) + tail)[4..] == tail
  {
    var u := v % WORD;
    var h := u / 0x1_0000;
    assert u / 0x100_0000 == h / 256;
    assert u == h * 0x1_0000 + u / 0x100 % 256 * 0x100 + u % 256;
    assert h == h / 256 * 256 + h % 256;
  }

  /** A short keeps its low 16 bits only. */
  lemma ShortRoundTrip(v: int, tail: seq<byte>)
    ensures GetShort(PutShort(v) + tail) == v % HALF && (PutShort(v) + tail)[2..] == tail
  {
  }
}
