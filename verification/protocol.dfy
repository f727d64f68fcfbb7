/** The bus-facing operations of the DS18B20 driver, both those that address every
    device at once and those the device handle delegates to.

    Each operation is a module-level method that takes the bus handle as a parameter; its
    postcondition equates its result and the events it issued with a specification
    function of the bus's oracle and the history before the call. The lemmas below state
    what the driver promises about those functions: the order of the events, the
    addressing, when an operation fails, and the bound of the completion poll. */
module Protocol {
  import opened OneWire
  import opened Commands
  import opened ResolutionCodec
  import opened Scratchpad

  /** The time the EEPROM copy is given to complete, in microseconds. */
  const EEPROM_WRITE_MICROS: nat := 10000

  // ---------------------------------------------------------------------------------
  // Specifications of the operations

  /** WRITE_SCRATCHPAD to one device, then the high threshold, the low threshold and
      the configuration register. */
  function SetConfigScript(address: Address, alarmTempLow: I8, alarmTempHigh: I8, resolution: Resolution): seq<Event>
  {
    SendCommandScript(WRITE_SCRATCHPAD, One(address))
      + [Write(ByteOfI8(alarmTempHigh)), Write(ByteOfI8(alarmTempLow)), Write(ToConfigRegister(resolution))]
  }

  /** COPY_SCRATCHPAD, then the fixed wait for the EEPROM write. */
  function SaveToEepromScript(target: Target): seq<Event>
  {
    SendCommandScript(COPY_SCRATCHPAD, target) + [Delay(EEPROM_WRITE_MICROS)]
  }

  /** READ_SCRATCHPAD to one device, then a block of nine bytes. */
  function ReadScratchpadScript(address: Address): seq<Event>
  {
    SendCommandScript(READ_SCRATCHPAD, One(address)) + [ReadBlock(9)]
  }

  /** The block of n bytes the bus answers to the last event of h. */
  function Block(o: Oracle, h: seq<Event>, n: nat): seq<Byte>
  {
    seq<Byte>(n, i requires 0 <= i < n => o.byte(h, i))
  }

  function ReadSlots(k: nat): seq<Event>
  {
    seq(k, _ => ReadSlot)
  }

  /** The number of bit reads the recall poll makes at most: the 10 ms the recall may
      take, floor-divided by the read slot duration, plus one. It is the least number of
      slots that together last longer than 10 ms. */
  function MaxRetries(readSlotMicros: Positive): (n: nat)
    ensures n * readSlotMicros > 10000
    ensures (n - 1) * readSlotMicros <= 10000
  {
    var q := 10000 / readSlotMicros;
    assert q * readSlotMicros + 10000 % readSlotMicros == 10000;
    q + 1
  }

  /** The completion poll: read one bit at a time, at most n times; a 1 ends it with
      success, a fault ends it with that fault, n zeros end it with Timeout. */
  function Poll(o: Oracle, h: seq<Event>, n: nat): (Result<()>, seq<Event>)
    decreases n
  {
    if n == 0 then (Err(Timeout), h)
    else
      var t := h + [ReadSlot];
      match Fault(o, h, ReadSlot)
      case Some(e) => (Err(e), t)
      case None => if o.bit(t) then (Ok(()), t) else Poll(o, t, n - 1)
  }

  function RecallFromEepromSpec(o: Oracle, h: seq<Event>, target: Target, readSlotMicros: Positive): (Result<()>, seq<Event>)
  {
    var sent := RunScript(o, h, SendCommandScript(RECALL_EEPROM, target));
    if sent.0.Err? then sent else Poll(o, sent.1, MaxRetries(readSlotMicros))
  }

  /** The scratchpad read: on success, nine bytes from the bus whose CRC is valid. */
  function ReadScratchpadSpec(o: Oracle, h: seq<Event>, address: Address): (out: (Result<seq<Byte>>, seq<Event>))
    ensures |h| < |out.1| <= |h| + |ReadScratchpadScript(address)|
    ensures out.1 == h + ReadScratchpadScript(address)[..|out.1| - |h|]
    // a read that stops early stops at a fault of the last event it issued
    ensures out.1 != h + ReadScratchpadScript(address) ==>
      out.0.Err? && Fault(o, out.1[..|out.1| - 1], out.1[|out.1| - 1]) == Some(out.0.error)
    // every event before the last one issued went through, and on success all of them did
    ensures forall k :: 0 <= k < |out.1| - |h| - 1 ==>
      Fault(o, h + ReadScratchpadScript(address)[..k], ReadScratchpadScript(address)[k]).None?
    ensures out.0.Ok? ==> Fault(o, h + ReadScratchpadScript(address)[..3], ReadBlock(9)).None?
    // a fault of the nine-byte read is reported as itself
    ensures out.1 == h + ReadScratchpadScript(address) && Fault(o, h + ReadScratchpadScript(address)[..3], ReadBlock(9)).Some? ==>
      out.0 == Err(Fault(o, h + ReadScratchpadScript(address)[..3], ReadBlock(9)).value)
    ensures out.0.Ok? ==> out.1 == h + ReadScratchpadScript(address)
    ensures out.0.Ok? ==> |out.0.value| == 9 && o.crcValid(out.0.value)
    ensures out.0.Ok? ==> forall i :: 0 <= i < 9 ==> out.0.value[i] == o.byte(out.1, i)
  {
    var s := SendCommandScript(READ_SCRATCHPAD, One(address));
    assert ReadScratchpadScript(address)[..3] == s;
    assert forall k :: 0 <= k < 3 ==> ReadScratchpadScript(address)[..k] == s[..k] && ReadScratchpadScript(address)[k] == s[k];
    var sent := RunScript(o, h, s);
    if sent.0.Err? then (Err(sent.0.error), sent.1)
    else
      RunScriptSucceedsIff(o, h, s);
      var read := Step(o, sent.1, ReadBlock(9));
      assert read.1 == h + ReadScratchpadScript(address);
      if read.0.Err? then (Err(read.0.error), read.1)
      else
        var pad := Block(o, read.1, 9);
        if o.crcValid(pad) then (Ok(pad), read.1) else (Err(CrcMismatch), read.1)
  }

  /** read_data as written: the scratchpad read, then the decoder that reads the raw
      temperature unsigned. */
  function ReadDataSpec(o: Oracle, h: seq<Event>, address: Address): (Result<SensorData>, seq<Event>)
  {
    var p := ReadScratchpadSpec(o, h, address);
    if p.0.Err? then (Err(p.0.error), p.1) else (DecodeUnsigned(p.0.value), p.1)
  }

  /** read_data with the raw temperature read as two's complement. */
  function ReadDataCorrectedSpec(o: Oracle, h: seq<Event>, address: Address): (Result<SensorData>, seq<Event>)
  {
    var p := ReadScratchpadSpec(o, h, address);
    if p.0.Err? then (Err(p.0.error), p.1) else (Decode(p.0.value), p.1)
  }

  // ---------------------------------------------------------------------------------
  // Operations on the bus

  /** Starts a conversion on every device of the bus at once. */
  method StartSimultaneousTempMeasurement(onewire: Bus) returns (r: Result<()>)
    modifies onewire
    ensures (r, onewire.trace) == RunScript(onewire.oracle, old(onewire.trace), SendCommandScript(CONVERT_TEMP, All))
  {
    ghost var s := SendCommandScript(CONVERT_TEMP, All);
    ghost var h := onewire.trace;
    assert s[1..][1..][1..] == [];
    r := onewire.Reset();
    if r.Err? {
      return;
    }
    assert RunScript(onewire.oracle, h, s) == RunScript(onewire.oracle, onewire.trace, s[1..]);
    ghost var h1 := onewire.trace;
    r := onewire.SkipAddress();
    if r.Err? {
      return;
    }
    assert RunScript(onewire.oracle, h1, s[1..]) == RunScript(onewire.oracle, onewire.trace, s[1..][1..]);
    r := onewire.WriteByte(CONVERT_TEMP);
  }

  method SimultaneousRecallFromEeprom(onewire: Bus) returns (r: Result<()>)
    modifies onewire
    ensures (r, onewire.trace) == RecallFromEepromSpec(onewire.oracle, old(onewire.trace), All, onewire.readSlotMicros)
  {
    r := RecallFromEeprom(All, onewire);
  }

  method SimultaneousSaveToEeprom(onewire: Bus) returns (r: Result<()>)
    modifies onewire
    ensures (r, onewire.trace) == RunScript(onewire.oracle, old(onewire.trace), SaveToEepromScript(All))
  {
    r := SaveToEeprom(All, onewire);
  }

  /** Reads the nine scratchpad bytes of one device into a buffer and checks their CRC. */
  method ReadScratchpad(address: Address, onewire: Bus) returns (r: Result<seq<Byte>>)
    modifies onewire
    ensures (r, onewire.trace) == ReadScratchpadSpec(onewire.oracle, old(onewire.trace), address)
  {
    ghost var s := SendCommandScript(READ_SCRATCHPAD, One(address));
    ghost var h := onewire.trace;
    assert s[1..][1..][1..] == [];
    var sent := onewire.Reset();
    if sent.Err? {
      return Err(sent.error);
    }
    assert RunScript(onewire.oracle, h, s) == RunScript(onewire.oracle, onewire.trace, s[1..]);
    ghost var h1 := onewire.trace;
    sent := onewire.MatchAddress(address);
    if sent.Err? {
      return Err(sent.error);
    }
    assert RunScript(onewire.oracle, h1, s[1..]) == RunScript(onewire.oracle, onewire.trace, s[1..][1..]);
    sent := onewire.WriteByte(READ_SCRATCHPAD);
    if sent.Err? {
      return Err(sent.error);
    }
    var scratchpad := new Byte[9](_ => 0);
    var read := onewire.ReadBytes(scratchpad);
    if read.Err? {
      return Err(read.error);
    }
    assert scratchpad[..] == Block(onewire.oracle, onewire.trace, 9);
    if !onewire.oracle.crcValid(scratchpad[..]) {
      return Err(CrcMismatch);
    }
    r := Ok(scratchpad[..]);
  }

  /** Reads the scratchpad of one device and decodes it. */
  method ReadData(address: Address, onewire: Bus) returns (r: Result<SensorData>)
    modifies onewire
    ensures (r, onewire.trace) == ReadDataSpec(onewire.oracle, old(onewire.trace), address)
  {
    var scratchpad := ReadScratchpad(address, onewire);
    if scratchpad.Err? {
      return Err(scratchpad.error);
    }
    r := DecodeUnsigned(scratchpad.value);
  }

  /** Copies the scratchpad to EEPROM, then always waits the full write time. */
  method SaveToEeprom(target: Target, onewire: Bus) returns (r: Result<()>)
    modifies onewire
    ensures (r, onewire.trace) == RunScript(onewire.oracle, old(onewire.trace), SaveToEepromScript(target))
  {
    ghost var h := onewire.trace;
    RunScriptAppend(onewire.oracle, h, SendCommandScript(COPY_SCRATCHPAD, target), [Delay(EEPROM_WRITE_MICROS)]);
    r := onewire.SendCommand(COPY_SCRATCHPAD, target);
    if r.Err? {
      return;
    }
    onewire.DelayUs(EEPROM_WRITE_MICROS);
    r := Ok(());
  }

  /** Copies EEPROM to the scratchpad, then polls for completion. */
  method RecallFromEeprom(target: Target, onewire: Bus) returns (r: Result<()>)
    modifies onewire
    ensures (r, onewire.trace) == RecallFromEepromSpec(onewire.oracle, old(onewire.trace), target, onewire.readSlotMicros)
  {
    r := onewire.SendCommand(RECALL_EEPROM, target);
    if r.Err? {
      return;
    }
    var maxRetries := 10000 / onewire.readSlotMicros + 1;
    assert maxRetries == MaxRetries(onewire.readSlotMicros);
    ghost var start := onewire.trace;
    for i := 0 to maxRetries
      invariant onewire.trace == start + ReadSlots(i)
      invariant Poll(onewire.oracle, start, maxRetries) == Poll(onewire.oracle, onewire.trace, maxRetries - i)
    {
      ReadSlotsShift(start, i);
      var bit := onewire.ReadBit();
      if bit.Err? {
        return Err(bit.error);
      }
      if bit.value {
        return Ok(());
      }
    }
    r := Err(Timeout);
  }

  // ---------------------------------------------------------------------------------
  // Properties

  lemma ReadSlotsShift(h: seq<Event>, j: nat)
    ensures h + ReadSlots(j) + [ReadSlot] == h + ReadSlots(j + 1)
    ensures h + [ReadSlot] + ReadSlots(j) == h + ReadSlots(j + 1)
  {
    assert ReadSlots(j) + [ReadSlot] == ReadSlots(j + 1);
    assert [ReadSlot] + ReadSlots(j) == ReadSlots(j + 1);
  }

  /** The first k reads of a poll after history h each answered 0 without a fault. */
  ghost predicate Quiet(o: Oracle, h: seq<Event>, k: nat)
  {
    forall j :: 0 <= j < k ==> Fault(o, h + ReadSlots(j), ReadSlot).None? && !o.bit(h + ReadSlots(j) + [ReadSlot])
  }

  /** After a first quiet read, the reads that follow are quiet exactly when the
      whole poll from the start is. */
  lemma QuietShift(o: Oracle, h: seq<Event>, k: nat)
    requires Fault(o, h, ReadSlot).None? && !o.bit(h + [ReadSlot])
    ensures Quiet(o, h, k + 1) <==> Quiet(o, h + [ReadSlot], k)
  {
    var t := h + [ReadSlot];
    assert h + ReadSlots(0) == h;
    forall j | 0 <= j
      ensures t + ReadSlots(j) == h + ReadSlots(j + 1)
      ensures t + ReadSlots(j) + [ReadSlot] == h + ReadSlots(j + 1) + [ReadSlot]
    {
      ReadSlotsShift(h, j);
    }
    if Quiet(o, h, k + 1) {
      forall j | 0 <= j < k
        ensures Fault(o, t + ReadSlots(j), ReadSlot).None? && !o.bit(t + ReadSlots(j) + [ReadSlot])
      {
        assert t + ReadSlots(j) == h + ReadSlots(j + 1);
      }
    }
    if Quiet(o, t, k) {
      forall j | 0 <= j < k + 1
        ensures Fault(o, h + ReadSlots(j), ReadSlot).None? && !o.bit(h + ReadSlots(j) + [ReadSlot])
      {
        if j > 0 {
          assert t + ReadSlots(j - 1) == h + ReadSlots(j);
        }
      }
    }
  }

  /** The poll reads only bits, at most n of them. It times out exactly after n quiet
      reads; it succeeds on the first read that answers 1 and reads nothing after it;
      a fault ends it at the read that faulted, with that fault. */
  lemma {:induction false} PollOutcome(o: Oracle, h: seq<Event>, n: nat)
    ensures |h| <= |Poll(o, h, n).1| <= |h| + n
    ensures Poll(o, h, n).1 == h + ReadSlots(|Poll(o, h, n).1| - |h|)
    ensures Quiet(o, h, n) ==> Poll(o, h, n) == (Err(Timeout), h + ReadSlots(n))
    ensures Poll(o, h, n).0.Ok? ==>
      var k := |Poll(o, h, n).1| - |h|;
      k >= 1 && Quiet(o, h, k - 1) && Fault(o, h + ReadSlots(k - 1), ReadSlot).None? && o.bit(Poll(o, h, n).1)
    ensures Poll(o, h, n).0.Err? && !Quiet(o, h, n) ==>
      var k := |Poll(o, h, n).1| - |h|;
      k >= 1 && Quiet(o, h, k - 1) && Fault(o, h + ReadSlots(k - 1), ReadSlot) == Some(Poll(o, h, n).0.error)
    decreases n
  {
    assert h + ReadSlots(0) == h;
    if n > 0 {
      var t := h + [ReadSlot];
      assert h + ReadSlots(1) == t;
      if Fault(o, h, ReadSlot).None? && !o.bit(t) {
        PollOutcome(o, t, n - 1);
        forall j | 0 <= j ensures t + ReadSlots(j) == h + ReadSlots(j + 1) {
          ReadSlotsShift(h, j);
        }
        QuietShift(o, h, n - 1);
        var out := Poll(o, t, n - 1);
        assert Poll(o, h, n) == out;
        var k' := |out.1| - |t|;
        assert out.1 == h + ReadSlots(k' + 1);
        if out.0.Ok? || (out.0.Err? && !Quiet(o, t, n - 1)) {
          QuietShift(o, h, k' - 1);
          assert t + ReadSlots(k' - 1) == h + ReadSlots(k');
        }
      }
    }
  }

  /** With every read quiet, a recall whose command went through times out after
      exactly MaxRetries reads, no more and no fewer. */
  lemma RecallTimesOutAfterMaxRetries(o: Oracle, h: seq<Event>, target: Target, readSlotMicros: Positive)
    requires RunScript(o, h, SendCommandScript(RECALL_EEPROM, target)).0.Ok?
    requires Quiet(o, h + SendCommandScript(RECALL_EEPROM, target), MaxRetries(readSlotMicros))
    ensures RecallFromEepromSpec(o, h, target, readSlotMicros) ==
      (Err(Timeout), h + SendCommandScript(RECALL_EEPROM, target) + ReadSlots(MaxRetries(readSlotMicros)))
  {
    PollOutcome(o, h + SendCommandScript(RECALL_EEPROM, target), MaxRetries(readSlotMicros));
  }

  /** A recall whose command fails reads no bit and reports the command's fault. */
  lemma RecallCommandFailure(o: Oracle, h: seq<Event>, target: Target, readSlotMicros: Positive)
    requires RunScript(o, h, SendCommandScript(RECALL_EEPROM, target)).0.Err?
    ensures RecallFromEepromSpec(o, h, target, readSlotMicros).0 == RunScript(o, h, SendCommandScript(RECALL_EEPROM, target)).0
    ensures ReadSlot !in RecallFromEepromSpec(o, h, target, readSlotMicros).1[|h|..]
  {
    RunScriptIssuesOnlyScript(o, h, SendCommandScript(RECALL_EEPROM, target), ReadSlot);
  }

  /** The loop bound against the ceiling of 10000 / slot: when the slot duration divides
      10000, MaxRetries - 1 slots last exactly 10 ms, so MaxRetries is that ceiling plus
      one; otherwise MaxRetries - 1 slots fall short of 10 ms and MaxRetries slots
      exceed it, so MaxRetries is the ceiling itself, one read fewer. */
  lemma MaxRetriesVersusCeiling(readSlotMicros: Positive)
    ensures 10000 % readSlotMicros == 0 ==> (MaxRetries(readSlotMicros) - 1) * readSlotMicros == 10000
    ensures 10000 % readSlotMicros != 0 ==>
      (MaxRetries(readSlotMicros) - 1) * readSlotMicros < 10000 < MaxRetries(readSlotMicros) * readSlotMicros
  {
    var s: int := readSlotMicros;
    assert (10000 / s) * s + 10000 % s == 10000;
    assert MaxRetries(readSlotMicros) - 1 == 10000 / s;
  }

  /** A save fails only when its command fails, and once the command went through it
      always ends with the full EEPROM write wait. */
  lemma SaveToEepromAlwaysDelays(o: Oracle, h: seq<Event>, target: Target)
    ensures RunScript(o, h, SaveToEepromScript(target)).0 == RunScript(o, h, SendCommandScript(COPY_SCRATCHPAD, target)).0
    ensures RunScript(o, h, SaveToEepromScript(target)).0.Ok? ==>
      RunScript(o, h, SaveToEepromScript(target)).1 == h + SendCommandScript(COPY_SCRATCHPAD, target) + [Delay(EEPROM_WRITE_MICROS)]
  {
    var cmd := SendCommandScript(COPY_SCRATCHPAD, target);
    var wait := [Delay(EEPROM_WRITE_MICROS)];
    assert SaveToEepromScript(target) == cmd + wait;
    RunScriptAppend(o, h, cmd, wait);
    var sent := RunScript(o, h, cmd);
    if sent.0.Ok? {
      assert wait[1..] == [];
      assert RunScript(o, sent.1, wait) == (Ok(()), sent.1 + wait);
      assert sent.0.value == ();
    }
  }

  /** A save never reads the bus: it does not poll for completion. */
  lemma SaveToEepromNeverPolls(o: Oracle, h: seq<Event>, target: Target)
    ensures ReadSlot !in RunScript(o, h, SaveToEepromScript(target)).1[|h|..]
  {
    RunScriptIssuesOnlyScript(o, h, SaveToEepromScript(target), ReadSlot);
  }

  /** The three data bytes set_config writes, placed at scratchpad positions 2, 3 and 4,
      decode to the thresholds and the resolution it was given, with the decoder as
      written and with the corrected one; they follow a reset, the device's address and
      WRITE_SCRATCHPAD. */
  lemma SetConfigRoundTrip(address: Address, alarmTempLow: I8, alarmTempHigh: I8, resolution: Resolution, pad: seq<Byte>)
    requires |pad| == 9
    requires SetConfigScript(address, alarmTempLow, alarmTempHigh, resolution)[3..] == [Write(pad[2]), Write(pad[3]), Write(pad[4])]
    ensures SetConfigScript(address, alarmTempLow, alarmTempHigh, resolution)[..3] == [ResetPulse, Match(address), Write(WRITE_SCRATCHPAD)]
    ensures DecodeUnsigned(pad).Ok? && Decode(pad).Ok?
    ensures DecodeUnsigned(pad).value.resolution == resolution && Decode(pad).value.resolution == resolution
    ensures DecodeUnsigned(pad).value.alarmTempHigh == alarmTempHigh && DecodeUnsigned(pad).value.alarmTempLow == alarmTempLow
    ensures Decode(pad).value.alarmTempHigh == alarmTempHigh && Decode(pad).value.alarmTempLow == alarmTempLow
  {
    var s := SetConfigScript(address, alarmTempLow, alarmTempHigh, resolution);
    assert s[3..][0] == s[3] && s[3..][1] == s[4] && s[3..][2] == s[5];
    ConfigRegisterRoundTrip(resolution);
    I8RoundTrip(alarmTempHigh, pad[2]);
    I8RoundTrip(alarmTempLow, pad[3]);
  }

  /** Once the command and the nine-byte read went through, the read succeeds exactly
      when the CRC of those nine bytes is valid, and fails with CrcMismatch otherwise. */
  lemma ReadScratchpadChecksCrc(o: Oracle, h: seq<Event>, address: Address)
    requires RunScript(o, h, SendCommandScript(READ_SCRATCHPAD, One(address))).0.Ok?
    requires Fault(o, h + SendCommandScript(READ_SCRATCHPAD, One(address)), ReadBlock(9)).None?
    ensures ReadScratchpadSpec(o, h, address).1 == h + ReadScratchpadScript(address)
    ensures ReadScratchpadSpec(o, h, address).0.Ok? <==> o.crcValid(Block(o, h + ReadScratchpadScript(address), 9))
    ensures ReadScratchpadSpec(o, h, address).0.Err? ==> ReadScratchpadSpec(o, h, address).0.error == CrcMismatch
    ensures ReadScratchpadSpec(o, h, address).0.Ok? ==> ReadScratchpadSpec(o, h, address).0.value == Block(o, h + ReadScratchpadScript(address), 9)
  {
  }

  /** The decoder as written and the corrected one issue the same events and agree
      on every reading whose high byte has its top bit clear; on every other reading
      with a valid register the one as written reports a non-negative temperature
      where the corrected one reports a negative one. */
  lemma ReadDataCorrectionScope(o: Oracle, h: seq<Event>, address: Address)
    ensures ReadDataSpec(o, h, address).1 == ReadDataCorrectedSpec(o, h, address).1
    ensures var p := ReadScratchpadSpec(o, h, address).0;
      p.Err? || p.value[1] < 0x80 ==> ReadDataSpec(o, h, address).0 == ReadDataCorrectedSpec(o, h, address).0
    ensures var p := ReadScratchpadSpec(o, h, address).0;
      p.Ok? && p.value[1] >= 0x80 && FromConfigRegister(p.value[4]).Some? ==>
        ReadDataSpec(o, h, address).0.Ok? && ReadDataCorrectedSpec(o, h, address).0.Ok? &&
        ReadDataCorrectedSpec(o, h, address).0.value.temperature < 0.0 <= ReadDataSpec(o, h, address).0.value.temperature
  {
    var p := ReadScratchpadSpec(o, h, address).0;
    if p.Ok? && FromConfigRegister(p.value[4]).Some? {
      DecodeUnsignedRange(p.value);
      DecodeRange(p.value);
    }
  }

  /** A read that gets its nine bytes with a valid CRC but a byte 4 that is none of
      the four register patterns fails with CrcMismatch, whatever the other bytes are. */
  lemma ReadDataRejectsUnknownConfig(o: Oracle, h: seq<Event>, address: Address)
    requires ReadScratchpadSpec(o, h, address).0.Ok?
    requires FromConfigRegister(ReadScratchpadSpec(o, h, address).0.value[4]).None?
    ensures ReadDataSpec(o, h, address).0 == Err(CrcMismatch)
    ensures ReadDataSpec(o, h, address).1 == h + ReadScratchpadScript(address)
  {
  }
}
