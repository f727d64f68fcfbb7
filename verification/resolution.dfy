/** The four conversion resolutions of the sensor, their configuration-register
    encodings and their worst-case conversion times. */
module ResolutionCodec {
  import opened OneWire

  datatype Resolution = Bits9 | Bits10 | Bits11 | Bits12

  /** The number of bits a conversion produces. */
  function Bits(r: Resolution): (n: nat)
    ensures 9 <= n <= 12
  {
    match r
    case Bits9 => 9
    case Bits10 => 10
    case Bits11 => 11
    case Bits12 => 12
  }

  function Pow2(n: nat): (p: nat)
    ensures p >= 1
  {
    if n == 0 then 1 else 2 * Pow2(n - 1)
  }

  /** The longest a conversion may take: 750 ms at 12 bits, halved for every bit
      fewer, rounded up to a whole millisecond. */
  function MaxMeasurementTimeMillis(r: Resolution): (t: nat)
    ensures (t - 1) * Pow2(12 - Bits(r)) < 750 <= t * Pow2(12 - Bits(r))
  {
    match r
    case Bits9 => 94
    case Bits10 => 188
    case Bits11 => 375
    case Bits12 => 750
  }

  /** A finer resolution never converts faster. */
  lemma MaxMeasurementTimeIncreasing(a: Resolution, b: Resolution)
    requires Bits(a) < Bits(b)
    ensures MaxMeasurementTimeMillis(a) < MaxMeasurementTimeMillis(b)
  {
  }

  /** The configuration register is 0 R1 R0 1 1 1 1 1, with R1 R0 = bits - 9. */
  function ToConfigRegister(r: Resolution): (config: Byte)
    ensures config % 32 == 31 && config / 32 == Bits(r) - 9
  {
    match r
    case Bits9 => 0x1F
    case Bits10 => 0x3F
    case Bits11 => 0x5F
    case Bits12 => 0x7F
  }

  /** Only the four exact register patterns name a resolution; every other byte has none. */
  function FromConfigRegister(config: Byte): (r: Option<Resolution>)
    ensures r.Some? <==> config % 32 == 31 && config / 32 < 4
    ensures r.Some? ==> config / 32 == Bits(r.value) - 9
  {
    match config
    case 0x1F => Some(Bits9)
    case 0x3F => Some(Bits10)
    case 0x5F => Some(Bits11)
    case 0x7F => Some(Bits12)
    case _ => None
  }

  /** Encoding a resolution and decoding the byte gives the resolution back. */
  lemma ConfigRegisterRoundTrip(r: Resolution)
    ensures FromConfigRegister(ToConfigRegister(r)) == Some(r)
  {
  }

  /** A byte that decodes to a resolution is that resolution's encoding. */
  lemma ConfigRegisterInverse(config: Byte)
    requires FromConfigRegister(config).Some?
    ensures ToConfigRegister(FromConfigRegister(config).value) == config
  {
  }
}
