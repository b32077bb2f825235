/** The payloads of the binary formats and the temperatures they stand for. */
module SerialValues {
  import opened SerialCodec

  // ---------------------------------------------------------------------------------- Rounding

  /** std::round: to the nearest whole number, halves away from zero. */
  function Round(x: real): int { if x >= 0.0 then (x + 0.5).Floor else -((-x + 0.5).Floor) }

  function Clamp(x: real, low: real, high: real): real { if x < low then low else if x > high then high else x }

  lemma RoundIsNearest(x: real)
    ensures -0.5 <= Round(x) as real - x <= 0.5
    ensures Round(x) as real - x == -0.5 ==> x < 0.0
    ensures Round(x) as real - x == 0.5 ==> x > 0.0
  {}

  /** The byte reached by counting. */
  function Counted(n: nat): Byte
    requires n < 256
  {
    if n == 0 then 0 else Counted(n - 1) + 1
  }

  lemma NextByte(b: Byte)
    requires b != 255
    ensures (b + 1) as int == b as int + 1
  {}

  lemma LastByte(b: Byte)
    ensures b == 255 <==> b as int == 255
  {}

  lemma {:induction false} CountedIs(n: nat)
    requires n < 256
    ensures Counted(n) as int == n
  {
    if n > 0 {
      CountedIs(n - 1);
      LastByte(Counted(n - 1));
      NextByte(Counted(n - 1));
    }
  }

  lemma ByteAndBack(b: Byte)
    ensures (b as int) as Byte == b
  {}

  /** A number below 256 is the value of its byte. */
  lemma ByteOf(n: nat)
    requires n < 256
    ensures (n as Byte) as int == n
  {
    CountedIs(n);
    ByteAndBack(Counted(n));
    assert n as Byte == Counted(n);
  }

  // ---------------------------------------------------------------------------------- One byte

  function EncodeByte(value: real): seq<Byte> {
    var n := Round(Clamp(value, -128.0, 127.0));
    ByteRange(value);
    [if n < 0 then (n + 256) as Byte else n as Byte]
  }

  lemma ByteRange(value: real)
    ensures -128 <= Round(Clamp(value, -128.0, 127.0)) <= 127
  {}

  /** static_cast<int8_t> of the byte. */
  function DecodeByte(data: seq<Byte>): int
    requires |data| == 1
  {
    if data[0] < 128 then data[0] as int else data[0] as int - 256
  }

  /** What comes back is the nearest whole number, within the range of the byte. */
  lemma ByteRoundTrip(value: real)
    ensures var back := DecodeByte(EncodeByte(value));
            && back == Round(Clamp(value, -128.0, 127.0))
            && -0.5 <= back as real - Clamp(value, -128.0, 127.0) <= 0.5
            && (back as real - Clamp(value, -128.0, 127.0) == -0.5 ==> Clamp(value, -128.0, 127.0) < 0.0)
            && (back as real - Clamp(value, -128.0, 127.0) == 0.5 ==> Clamp(value, -128.0, 127.0) > 0.0)
  {
    hide Round, Clamp;
    RoundIsNearest(Clamp(value, -128.0, 127.0));
    ByteRange(value);
    var n := Round(Clamp(value, -128.0, 127.0));
    ByteOf(if n < 0 then n + 256 else n);
    HighBit(EncodeByte(value)[0]);
  }

  lemma HighBit(b: Byte)
    ensures b < 128 <==> b as int < 128
  {}

  // ---------------------------------------------------------------------------------- Two bytes

  const TWO_16 := 0x1_0000

  /** The 16-bit pattern of a signed number, as an unsigned one. */
  function Pattern(n: int): (t: nat)
    requires -0x8000 <= n < 0x8000
    ensures t < TWO_16
  {
    if n < 0 then n + TWO_16 else n
  }

  /** In tenths, high byte first; a value whose tenths do not fit 16 bits has no defined conversion. */
  function EncodeFixed(value: real): seq<Byte>
    requires -0x8000 <= Round(value * 10.0) < 0x8000
  {
    var t := Pattern(Round(value * 10.0));
    [(t / 256) as Byte, (t % 256) as Byte]
  }

  /** The decoder reads the two bytes as an unsigned number. */
  function DecodeFixed(data: seq<Byte>): real
    requires |data| == 2
  {
    ((data[0] as int) * 256 + data[1] as int) as real / 10.0
  }

  /** The tenths come back if they are not negative, and only then: negative tenths come back 6553.6 too high. */
  lemma FixedRoundTrip(value: real)
    requires -0x8000 <= Round(value * 10.0) < 0x8000
    ensures var tenths := Round(value * 10.0);
            DecodeFixed(EncodeFixed(value)) == (if tenths >= 0 then tenths else tenths + TWO_16) as real / 10.0
    ensures DecodeFixed(EncodeFixed(value)) == Round(value * 10.0) as real / 10.0 <==> Round(value * 10.0) >= 0
  {
    hide Round;
    var t := Pattern(Round(value * 10.0));
    ByteOf(t / 256);
    ByteOf(t % 256);
  }

  // ---------------------------------------------------------------------------------- Four bytes

  /** The bit pattern of a float, most significant byte first. */
  function EncodeFloat(bits: bv32): seq<Byte> {
    [((bits >> 24) & 0xFF) as Byte, ((bits >> 16) & 0xFF) as Byte, ((bits >> 8) & 0xFF) as Byte, (bits & 0xFF) as Byte]
  }

  function DecodeFloat(data: seq<Byte>): bv32
    requires |data| == 4
  {
    ((data[0] as bv32) << 24) | ((data[1] as bv32) << 16) | ((data[2] as bv32) << 8) | (data[3] as bv32)
  }

  /** Every bit pattern comes back, those of infinities and NaNs as well. */
  lemma FloatRoundTrip(bits: bv32)
    ensures DecodeFloat(EncodeFloat(bits)) == bits
  {
    QuartersRejoin(bits);
  }

  lemma QuartersRejoin(bits: bv32)
    ensures ((((bits >> 24) & 0xFF) as bv8) as bv32 << 24) | ((((bits >> 16) & 0xFF) as bv8) as bv32 << 16) |
            ((((bits >> 8) & 0xFF) as bv8) as bv32 << 8) | (((bits & 0xFF) as bv8) as bv32) == bits
  {}
}
