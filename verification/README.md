# DS18B20 asynchronous driver — a Dafny model

This project models the asynchronous driver for the Maxim DS18B20 one-wire temperature
sensor (`src/asynch.rs`): the resolution codec, the device handle, the bus sequences of
every operation, the scratchpad decoder, the EEPROM recall poll and the EEPROM save.

Modules:

- `OneWire` — the one-wire transport the driver uses, as an abstraction. Each primitive
  (reset, match ROM, skip ROM, write a byte, read a bit, read a block, wait) appends one
  event to the bus's trace. An oracle decides what the bus answers; it sees the whole
  history up to the current event. `RunScript` runs a fixed event sequence and stops at
  the first fault, which is what the driver's `?` chains do. The class `Bus` holds the
  trace and has one method per primitive, plus `send_command`.
- `Commands` — the command bytes and the family code. They follow the DS18B20 datasheet.
- `ResolutionCodec` — `ResolutionAsync`: its configuration-register encoding and decoding,
  and the maximum conversion time at each resolution.
- `Scratchpad` — `SensorData` and the decoding of a nine-byte scratchpad into it.
- `Protocol` — the free functions of the driver:
  - the simultaneous operations, addressed to every device;
  - `read_scratchpad` and `read_data`;
  - `recall_from_eeprom` and `save_to_eeprom`.
  Each is a module-level method that takes the `Bus` as a parameter. Its postcondition
  says the result and the events issued equal a specification function of the oracle and
  the earlier history. Lemmas state the driver's promises about those functions.
- `Device` — the `Ds18b20Async` handle, with its checked constructor and its per-device
  operations. They delegate to `Protocol`.

The temperature is an exact real, the raw reading divided by 16, 8, 4 or 2 depending on
the resolution. `read_data` reads the raw reading as an unsigned 16-bit value, and the
bus-facing `ReadData` of the model does the same. The DS18B20 register is signed, so this
misreads every temperature below zero; see "## Findings". The model also defines the
corrected signed decoder and a corrected `ReadDataCorrectedSpec`, and relates the two.

Two places where the code says less, or other, than its comments suggest. The model
follows the code in both:

- The recall poll waits "up to 10 ms" by making `10000 / READ_SLOT_DURATION_MICROS + 1`
  reads, with floor division. `Protocol.MaxRetriesVersusCeiling` relates this count to a
  ceiling-based bound. When the slot duration divides 10000 the count is the ceiling plus
  one. Otherwise it is the ceiling itself, which is still the least number of slots that
  together last longer than 10 ms.
- The doc comment of `new` says it reads configuration data. The code only checks the
  family code and never touches the bus, so `Device.Ds18b20.New` is a pure function.

## Model

| member | source | states |
|---|---|---|
| ResolutionCodec.MaxMeasurementTimeMillis | src/asynch.rs:17-24 | the time is 750 ms halved once per bit below 12, rounded up: (t-1)·2^(12-bits) < 750 <= t·2^(12-bits) |
| ResolutionCodec.MaxMeasurementTimeIncreasing | src/asynch.rs:17-24 | a strictly higher resolution takes strictly longer to convert |
| ResolutionCodec.ToConfigRegister | src/asynch.rs:9-14 | the register has its five low bits set, and bits 5-6 hold the resolution minus 9 |
| ResolutionCodec.FromConfigRegister | src/asynch.rs:32-40 | a byte decodes exactly when its five low bits are set and bit 7 is clear; the resolution is then 9 plus bits 5-6 |
| ResolutionCodec.ConfigRegisterRoundTrip | src/asynch.rs:32-44 | decoding the encoding of a resolution gives it back |
| ResolutionCodec.ConfigRegisterInverse | src/asynch.rs:32-44 | a byte that decodes is the encoding of what it decodes to |
| Scratchpad.I8OfByte | src/asynch.rs:260-261 | the byte read as i8 is negative exactly when its top bit is set |
| Scratchpad.ByteOfI8 | src/asynch.rs:133-136 | the byte written for an i8 reads back as that i8 |
| Scratchpad.I8RoundTrip | src/asynch.rs:133-136 | writing then reading an i8 gives it back, reading then writing a byte gives it back, and both conversions keep the value modulo 256 |
| Scratchpad.LeU16 | src/asynch.rs:250 | the little-endian unsigned 16-bit value of two bytes is below 2^16 |
| Scratchpad.LeI16 | src/asynch.rs:250 | the signed 16-bit value is in i16 range, equals the unsigned value or that minus 2^16, and is negative exactly when the high byte's top bit is set |
| Scratchpad.Scale | src/asynch.rs:251-256 | the temperature times the resolution's divisor (2, 4, 8, 16) is the raw value, and the temperature has the raw value's sign and at most half its magnitude |
| Scratchpad.DecodeWith | src/asynch.rs:244-262 | the decode fails with CrcMismatch exactly when byte 4 is not a register pattern; otherwise the resolution encodes to byte 4, the temperature scales back to the raw value, and the high and low thresholds are bytes 2 and 3 |
| Scratchpad.DecodeUnsigned | src/asynch.rs:244-262 | the decoder as written: the same, with the raw value read unsigned from bytes 0-1 |
| Scratchpad.Decode | src/asynch.rs:244-262 | the corrected decoder: the same, with the raw value read signed from bytes 0-1 |
| Scratchpad.DecodeUnsignedRange | src/asynch.rs:250-256 | the decoder as written never reports a negative temperature |
| Scratchpad.DecodeRange | src/asynch.rs:250-256 | the corrected temperature lies in [-16384, 32767/2] and is negative exactly when the high byte's top bit is set |
| Scratchpad.DecodeTemperatureRoundTrip | src/asynch.rs:250-256 | a scratchpad that holds an i16 reading and a valid register decodes to that resolution and to the reading divided by the resolution's divisor |
| Scratchpad.DecodeUnsignedMisreadsNegative | src/asynch.rs:250 | for every negative reading, the decoder as written reports the reading plus 2^16, scaled, a non-negative temperature, where the corrected one reports a negative temperature |
| Scratchpad.MinusHalfDegreeExample | src/asynch.rs:250-256 | bytes F8 FF at 12 bits decode to 4095.5 as written and to -0.5 corrected |
| Scratchpad.PowerOnReading | src/asynch.rs:50-51 | the power-on reading 0x0550 at 12 bits decodes to 85 degrees with either decoder |
| Scratchpad.ReadingExample | src/asynch.rs:244-262 | a sample scratchpad decodes to 25 degrees, 12 bits, thresholds -10 and 25, with the decoder as written and with the corrected one |
| OneWire.RunScript | src/asynch.rs:129-141 | a fallible sequence issues a prefix of its steps; it issues all of them on success; on failure every step before the last one went through, and the last one faulted with the reported error, so it stops at the first fault |
| OneWire.RunScriptSucceedsIff | src/asynch.rs:129-141 | a sequence succeeds exactly when none of its steps faults |
| OneWire.Bus.SendCommand | src/asynch.rs:96-98 | sending a command is a reset, a match or skip of the address, then the command byte, stopping at the first fault |
| Protocol.StartSimultaneousTempMeasurement | src/asynch.rs:172-185 | reset, skip ROM, CONVERT_TEMP, stopping at the first fault |
| Protocol.SimultaneousRecallFromEeprom | src/asynch.rs:188-198 | equals RecallFromEepromSpec addressed to every device |
| Protocol.SimultaneousSaveToEeprom | src/asynch.rs:201-211 | equals RunScript of SaveToEepromScript addressed to every device |
| Protocol.ReadScratchpadSpec | src/asynch.rs:213-230 | the read issues reset, match, READ_SCRATCHPAD and a nine-byte read, stopping at the first fault (every event before the last one went through) and reporting that fault as itself, including a fault of the nine-byte read; success means all four went through and the nine bytes from the bus pass the CRC |
| Protocol.ReadScratchpad | src/asynch.rs:213-230 | the method fills a nine-byte buffer from the bus and returns exactly what ReadScratchpadSpec describes |
| Protocol.ReadScratchpadChecksCrc | src/asynch.rs:227-229 | once the transfers went through, the read succeeds exactly when the CRC holds, and otherwise fails with CrcMismatch |
| Protocol.ReadData | src/asynch.rs:232-263 | equals ReadDataSpec: the read of the scratchpad followed by the decoder as written (unsigned raw value); a failed read is passed through unchanged |
| Protocol.ReadDataCorrectionScope | src/asynch.rs:242-256 | ReadDataSpec and the corrected ReadDataCorrectedSpec issue the same events and agree whenever the high temperature byte has its top bit clear; otherwise, with a valid register, the one as written reports a non-negative temperature where the corrected one reports a negative temperature |
| Protocol.ReadDataRejectsUnknownConfig | src/asynch.rs:244-249 | a scratchpad that passes the CRC but has an unknown byte 4 is rejected with CrcMismatch |
| Protocol.MaxRetries | src/asynch.rs:280 | the read count is the least number of read slots that together last longer than 10 ms |
| Protocol.MaxRetriesVersusCeiling | src/asynch.rs:280 | the read count is the ceiling of 10000/slot plus one when the slot divides 10000, and the ceiling itself otherwise |
| Protocol.RecallFromEeprom | src/asynch.rs:265-287 | equals RecallFromEepromSpec: the method sends RECALL_EEPROM, then reads bits one at a time, up to MaxRetries of them, as the specification function Poll describes |
| Protocol.PollOutcome | src/asynch.rs:281-286 | the poll only reads bits, at most n of them; it times out after exactly n zeros; it succeeds at the first 1 and reads nothing after it; a fault ends it at that read with that fault |
| Protocol.RecallTimesOutAfterMaxRetries | src/asynch.rs:275-286 | a recall whose command went through and whose reads all answer 0 fails with Timeout after exactly MaxRetries reads |
| Protocol.RecallCommandFailure | src/asynch.rs:275-277 | a recall whose command fails reports that fault and reads no bit |
| Protocol.SaveToEeprom | src/asynch.rs:289-304 | equals RunScript of SaveToEepromScript: COPY_SCRATCHPAD, then a 10 ms wait |
| Protocol.SaveToEepromAlwaysDelays | src/asynch.rs:299-303 | a save fails exactly when its command fails; once the command went through, it ends with the 10 ms wait and succeeds |
| Protocol.SaveToEepromNeverPolls | src/asynch.rs:299-303 | a save never reads the bus |
| Protocol.SetConfigRoundTrip | src/asynch.rs:129-141 | set_config issues reset, match and WRITE_SCRATCHPAD, then three data bytes; placed at scratchpad positions 2-4, those bytes decode to the given high threshold, low threshold and resolution, with the decoder as written and with the corrected one |
| Device.Ds18b20.New | src/asynch.rs:70-81 | a device is created exactly when the address's family code is the DS18B20's, and it keeps that address; otherwise the result is FamilyCodeMismatch; the handle it returns has the `Handle` type, whose values all carry the family code |
| Device.Ds18b20.StartTempMeasurement | src/asynch.rs:86-100 | reset, match this device, CONVERT_TEMP, stopping at the first fault |
| Device.Ds18b20.ReadData | src/asynch.rs:102-114 | equals ReadDataSpec for this device's address: the scratchpad read and the decoder as written |
| Device.Ds18b20.SetConfig | src/asynch.rs:116-142 | equals RunScript of SetConfigScript for this device: WRITE_SCRATCHPAD, then the high threshold, the low threshold and the register, stopping at the first fault |
| Device.Ds18b20.SaveToEeprom | src/asynch.rs:144-155 | equals RunScript of SaveToEepromScript addressed to this device |
| Device.Ds18b20.RecallFromEeprom | src/asynch.rs:157-168 | equals RecallFromEepromSpec addressed to this device |

## Left out

- The one-wire transport (`one_wire_bus`) is not part of this model. Its primitives are
  trace events. An oracle supplies their faults, bits and bytes; the wire timing and the
  presence pulse are not modelled. The oracle may answer any `Error` for a transfer, a
  superset of what the transport raises; `Transport(code)` stands for the transport's own
  variants (pin errors, a bus that is not high).
- `check_crc8` is not part of this model. The CRC is an uninterpreted predicate of the
  oracle, so no lemma can state that a corrupted byte fails the CRC.
- `src/lib.rs` is not part of this model. The command bytes and `FAMILY_CODE` take the
  DS18B20 datasheet values, and no proof depends on them except that they are bytes.
  `READ_SLOT_DURATION_MICROS` is a positive parameter of the bus.
- `Address::family_code` is not part of this model. It is taken as the address's low byte.
- `f32` arithmetic: temperatures are exact reals. Every reading is a multiple of 1/16,
  small enough to be exact in `f32`, so no rounding is lost.
- `async`/`await`, the `DelayNs` provider and the pin type parameters: operations run to
  completion, and a delay is an event in the trace.
- `delay_for_measurement_time` only waits for `max_measurement_time_millis`, which is modelled.
- `Ds18b20Async::address` is the `address` field of the `Ds18b20` datatype.
- OneWire.Bus.ReadBytes: on a fault the model leaves the buffer as it was. The real
  transport may have filled part of it, but the driver discards the buffer on any fault.
- Scratchpad.SensorData: the Rust type has no equality, and the model compares values structurally.

## Findings

| source | as written | input that shows it | evidently intended | confidence | as-written member | corrected member |
|---|---|---|---|---|---|---|
| src/asynch.rs:250 | the raw temperature is read with `u16::from_le_bytes` | scratchpad bytes 0-1 = F8 FF with register 0x7F (12 bits): reported as 4095.5 °C | the DS18B20 register is two's complement; read it with `i16::from_le_bytes`, giving -0.5 °C | high; not executed | Scratchpad.DecodeUnsigned, Scratchpad.DecodeUnsignedMisreadsNegative, Scratchpad.MinusHalfDegreeExample, Protocol.ReadData | Scratchpad.Decode, Scratchpad.DecodeTemperatureRoundTrip, Scratchpad.DecodeRange, Protocol.ReadDataCorrectionScope |
