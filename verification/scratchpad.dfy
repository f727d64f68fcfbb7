/** Decoding the 9-byte scratchpad of the sensor.

    Layout: bytes 0-1 the temperature register (little-endian), byte 2 the high alarm
    threshold, byte 3 the low alarm threshold, byte 4 the configuration register,
    bytes 5-7 reserved, byte 8 the CRC of bytes 0-7. The temperature is kept exact,
    as a real, instead of as a 32-bit float. */
module Scratchpad {
  import opened OneWire
  import opened ResolutionCodec

  /** A two's-complement 8-bit integer. */
  type I8 = x: int | -0x80 <= x < 0x80

  /** One reading of the sensor. */
  datatype SensorData = SensorData(
    temperature: real,
    resolution: Resolution,
    alarmTempLow: I8,
    alarmTempHigh: I8)

  /** A byte read as a two's-complement signed byte. */
  function I8OfByte(b: Byte): (x: I8)
    ensures x < 0 <==> b >= 0x80
  {
    if b < 0x80 then b else b - 0x100
  }

  /** The two's-complement byte of a signed byte. */
  function ByteOfI8(x: I8): (b: Byte)
    ensures I8OfByte(b) == x
  {
    if x < 0 then x + 0x100 else x
  }

  /** The two conversions are inverse bijections, and both keep the value modulo 256. */
  lemma I8RoundTrip(x: I8, b: Byte)
    ensures I8OfByte(ByteOfI8(x)) == x
    ensures ByteOfI8(I8OfByte(b)) == b
    ensures (ByteOfI8(x) - x) % 0x100 == 0 && (b - I8OfByte(b)) % 0x100 == 0
  {
  }

  /** Two bytes, least significant first, as an unsigned 16-bit integer. */
  function LeU16(lo: Byte, hi: Byte): (v: nat)
    ensures v < 0x10000
  {
    lo + 0x100 * hi
  }

  /** Two bytes, least significant first, as a two's-complement 16-bit integer. */
  function LeI16(lo: Byte, hi: Byte): (v: int)
    ensures -0x8000 <= v < 0x8000
    ensures v == LeU16(lo, hi) || v == LeU16(lo, hi) - 0x10000
    ensures v < 0 <==> hi >= 0x80
  {
    var u := LeU16(lo, hi);
    if u < 0x8000 then u else u - 0x10000
  }

  /** The two bytes, least significant first, of a 16-bit two's-complement integer. */
  function I16Le(v: int): (bytes: seq<Byte>)
    requires -0x8000 <= v < 0x8000
    ensures |bytes| == 2 && LeI16(bytes[0], bytes[1]) == v
  {
    var u := v % 0x10000;
    [u % 0x100, u / 0x100]
  }

  /** The scale of the temperature register: it counts units of 1/Divisor degree,
      1/16 at 12 bits and twice as coarse for every bit fewer. */
  function Divisor(r: Resolution): (d: nat)
    ensures d >= 2
  {
    Pow2(Bits(r) - 8)
  }

  /** The register value divided by the resolution's divisor, as the driver computes it. */
  function Scale(raw: int, r: Resolution): (t: real)
    ensures t * Divisor(r) as real == raw as real
    ensures 0 <= raw ==> 0.0 <= t <= raw as real / 2.0
    ensures raw < 0 ==> raw as real / 2.0 <= t < 0.0
  {
    match r
    case Bits12 => raw as real / 16.0
    case Bits11 => raw as real / 8.0
    case Bits10 => raw as real / 4.0
    case Bits9 => raw as real / 2.0
  }

  /** Decoding with a given reading of the temperature register. */
  function DecodeWith(pad: seq<Byte>, raw: int): (r: Result<SensorData>)
    requires |pad| == 9
    ensures r.Err? <==> FromConfigRegister(pad[4]).None?
    ensures r.Err? ==> r.error == CrcMismatch
    ensures r.Ok? ==> ToConfigRegister(r.value.resolution) == pad[4]
    ensures r.Ok? ==> r.value.temperature * Divisor(r.value.resolution) as real == raw as real
    ensures r.Ok? ==> (0 <= raw ==> 0.0 <= r.value.temperature <= raw as real / 2.0)
    ensures r.Ok? ==> (raw < 0 ==> raw as real / 2.0 <= r.value.temperature < 0.0)
    ensures r.Ok? ==> ByteOfI8(r.value.alarmTempHigh) == pad[2] && ByteOfI8(r.value.alarmTempLow) == pad[3]
  {
    match FromConfigRegister(pad[4])
    case None => Err(CrcMismatch)
    case Some(resolution) =>
      ConfigRegisterInverse(pad[4]);
      Ok(SensorData(Scale(raw, resolution), resolution, I8OfByte(pad[3]), I8OfByte(pad[2])))
  }

  /** The decoder as the driver writes it: the temperature register is read unsigned. */
  function DecodeUnsigned(pad: seq<Byte>): (r: Result<SensorData>)
    requires |pad| == 9
    ensures r.Err? <==> FromConfigRegister(pad[4]).None?
    ensures r.Err? ==> r.error == CrcMismatch
    ensures r.Ok? ==> ToConfigRegister(r.value.resolution) == pad[4]
    ensures r.Ok? ==> r.value.temperature * Divisor(r.value.resolution) as real == LeU16(pad[0], pad[1]) as real
    ensures r.Ok? ==> ByteOfI8(r.value.alarmTempHigh) == pad[2] && ByteOfI8(r.value.alarmTempLow) == pad[3]
  {
    DecodeWith(pad, LeU16(pad[0], pad[1]))
  }

  /** The decoder with the temperature register read as the signed quantity it is. */
  function Decode(pad: seq<Byte>): (r: Result<SensorData>)
    requires |pad| == 9
    ensures r.Err? <==> FromConfigRegister(pad[4]).None?
    ensures r.Err? ==> r.error == CrcMismatch
    ensures r.Ok? ==> ToConfigRegister(r.value.resolution) == pad[4]
    ensures r.Ok? ==> r.value.temperature * Divisor(r.value.resolution) as real == LeI16(pad[0], pad[1]) as real
    ensures r.Ok? ==> ByteOfI8(r.value.alarmTempHigh) == pad[2] && ByteOfI8(r.value.alarmTempLow) == pad[3]
  {
    DecodeWith(pad, LeI16(pad[0], pad[1]))
  }

  /** Read unsigned, a temperature is never negative and at most 65535 / 2 degrees. */
  lemma DecodeUnsignedRange(pad: seq<Byte>)
    requires |pad| == 9 && DecodeUnsigned(pad).Ok?
    ensures 0.0 <= DecodeUnsigned(pad).value.temperature <= 65535.0 / 2.0
  {
    var raw := LeU16(pad[0], pad[1]);
    assert DecodeUnsigned(pad) == DecodeWith(pad, raw);
  }

  /** Read signed, a temperature is negative exactly when the register's sign bit (bit 7
      of byte 1) is set, and lies between -16384 and 32767 / 2 degrees. */
  lemma DecodeRange(pad: seq<Byte>)
    requires |pad| == 9 && Decode(pad).Ok?
    ensures -16384.0 <= Decode(pad).value.temperature <= 32767.0 / 2.0
    ensures Decode(pad).value.temperature < 0.0 <==> pad[1] >= 0x80
  {
    var raw := LeI16(pad[0], pad[1]);
    assert Decode(pad) == DecodeWith(pad, raw);
  }

  /** Every temperature register value comes back from Decode, scaled by the divisor. */
  lemma DecodeTemperatureRoundTrip(raw: int, res: Resolution, pad: seq<Byte>)
    requires -0x8000 <= raw < 0x8000
    requires |pad| == 9 && pad[..2] == I16Le(raw) && pad[4] == ToConfigRegister(res)
    ensures Decode(pad).Ok? && Decode(pad).value.resolution == res
    ensures Decode(pad).value.temperature == raw as real / Divisor(res) as real
  {
    ConfigRegisterRoundTrip(res);
    assert pad[0] == pad[..2][0] && pad[1] == pad[..2][1];
    assert Decode(pad) == DecodeWith(pad, raw);
    var t := Decode(pad).value.temperature;
    match res
    case Bits9 => assert Divisor(res) == 2 && t * 2.0 == raw as real;
    case Bits10 => assert Divisor(res) == 4 && t * 4.0 == raw as real;
    case Bits11 => assert Divisor(res) == 8 && t * 8.0 == raw as real;
    case Bits12 => assert Divisor(res) == 16 && t * 16.0 == raw as real;
  }

  /** The unsigned reading breaks that round trip for every negative register value:
      it reports the value plus 65536, scaled, and never a negative temperature. */
  lemma DecodeUnsignedMisreadsNegative(raw: int, res: Resolution, pad: seq<Byte>)
    requires -0x8000 <= raw < 0
    requires |pad| == 9 && LeI16(pad[0], pad[1]) == raw && pad[4] == ToConfigRegister(res)
    ensures DecodeUnsigned(pad).Ok? && Decode(pad).Ok?
    ensures DecodeUnsigned(pad).value.temperature * Divisor(res) as real == (raw + 0x10000) as real
    ensures DecodeUnsigned(pad).value.temperature >= 0.0 > Decode(pad).value.temperature
  {
    ConfigRegisterRoundTrip(res);
    DecodeRange(pad);
  }

  /** A concrete instance: -0.5 degrees at 12 bits is register 0xFFF8; read unsigned it
      becomes 4095.5 degrees. */
  lemma MinusHalfDegreeExample()
    ensures DecodeUnsigned([0xF8, 0xFF, 0, 0, 0x7F, 0, 0, 0, 0]).value.temperature == 4095.5
    ensures Decode([0xF8, 0xFF, 0, 0, 0x7F, 0, 0, 0, 0]).value.temperature == -0.5
  {
  }

  /** The power-on reading of 85 degrees, register 0x0550 at the default 12 bits. */
  lemma PowerOnReading(pad: seq<Byte>)
    requires |pad| == 9 && pad[0] == 0x50 && pad[1] == 0x05 && pad[4] == 0x7F
    ensures Decode(pad) == DecodeUnsigned(pad)
    ensures Decode(pad).Ok? && Decode(pad).value.temperature == 85.0
  {
  }

  /** 25 degrees with alarm thresholds 25 and -10 at 12 bits, with either decoder. */
  lemma ReadingExample(pad: seq<Byte>)
    requires |pad| == 9 && pad[..5] == [0x90, 0x01, 25, 0xF6, 0x7F]
    ensures DecodeUnsigned(pad) == Ok(SensorData(25.0, Bits12, -10, 25))
    ensures Decode(pad) == Ok(SensorData(25.0, Bits12, -10, 25))
  {
    assert pad[0] == 0x90 && pad[1] == 0x01 && pad[2] == 25 && pad[3] == 0xF6 && pad[4] == 0x7F;
  }
}
