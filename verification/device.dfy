/** The DS18B20 device handle: a validated address, and the operations that target
    just that device. The handle holds nothing else and never changes. */
module Device {
  import opened OneWire
  import opened Commands
  import opened ResolutionCodec
  import opened Scratchpad
  import opened Protocol

  /** A handle whose address carries the DS18B20 family code: the only handles `New`
      hands out, as the Rust handle's private field leaves `new` the only way to build
      one. The per-device operations require it. */
  type Handle = d: Ds18b20 | d.Valid() witness Ds18b20(FAMILY_CODE)

  datatype Ds18b20 = Ds18b20(address: Address)
  {
    /** The address is of the DS18B20 family. */
    predicate Valid()
    {
      FamilyCode(address) == FAMILY_CODE
    }

    /** A handle exists only for an address of the DS18B20 family; constructing one
        takes no bus. */
    static function New(address: Address): (r: Result<Handle>)
      ensures r.Ok? <==> FamilyCode(address) == FAMILY_CODE
      ensures r.Ok? ==> r.value.address == address
      ensures r.Err? ==> r.error == FamilyCodeMismatch
    {
      if FamilyCode(address) == FAMILY_CODE then Ok(Ds18b20(address)) else Err(FamilyCodeMismatch)
    }

    /** Starts a conversion on this device only; does not wait for it. */
    method StartTempMeasurement(onewire: Bus) returns (r: Result<()>)
      requires Valid()
      modifies onewire
      ensures (r, onewire.trace) == RunScript(onewire.oracle, old(onewire.trace), SendCommandScript(CONVERT_TEMP, One(address)))
    {
      r := onewire.SendCommand(CONVERT_TEMP, One(address));
    }

    method ReadData(onewire: Bus) returns (r: Result<SensorData>)
      requires Valid()
      modifies onewire
      ensures (r, onewire.trace) == ReadDataSpec(onewire.oracle, old(onewire.trace), address)
    {
      r := Protocol.ReadData(address, onewire);
    }

    /** Writes the alarm thresholds and the resolution; nothing is read back. */
    method SetConfig(alarmTempLow: I8, alarmTempHigh: I8, resolution: Resolution, onewire: Bus) returns (r: Result<()>)
      requires Valid()
      modifies onewire
      ensures (r, onewire.trace) == RunScript(onewire.oracle, old(onewire.trace), SetConfigScript(address, alarmTempLow, alarmTempHigh, resolution))
    {
      ghost var h := onewire.trace;
      ghost var data := [Write(ByteOfI8(alarmTempHigh)), Write(ByteOfI8(alarmTempLow)), Write(ToConfigRegister(resolution))];
      RunScriptAppend(onewire.oracle, h, SendCommandScript(WRITE_SCRATCHPAD, One(address)), data);
      assert data[1..][1..][1..] == [];
      r := onewire.SendCommand(WRITE_SCRATCHPAD, One(address));
      if r.Err? {
        return;
      }
      ghost var h1 := onewire.trace;
      r := onewire.WriteByte(ByteOfI8(alarmTempHigh));
      if r.Err? {
        return;
      }
      assert RunScript(onewire.oracle, h1, data) == RunScript(onewire.oracle, onewire.trace, data[1..]);
      ghost var h2 := onewire.trace;
      r := onewire.WriteByte(ByteOfI8(alarmTempLow));
      if r.Err? {
        return;
      }
      assert RunScript(onewire.oracle, h2, data[1..]) == RunScript(onewire.oracle, onewire.trace, data[1..][1..]);
      ghost var h3 := onewire.trace;
      r := onewire.WriteByte(ToConfigRegister(resolution));
      assert r.Ok? ==> RunScript(onewire.oracle, h3, data[1..][1..]) == RunScript(onewire.oracle, onewire.trace, []);
    }

    method SaveToEeprom(onewire: Bus) returns (r: Result<()>)
      requires Valid()
      modifies onewire
      ensures (r, onewire.trace) == RunScript(onewire.oracle, old(onewire.trace), SaveToEepromScript(One(address)))
    {
      r := Protocol.SaveToEeprom(One(address), onewire);
    }

    method RecallFromEeprom(onewire: Bus) returns (r: Result<()>)
      requires Valid()
      modifies onewire
      ensures (r, onewire.trace) == RecallFromEepromSpec(onewire.oracle, old(onewire.trace), One(address), onewire.readSlotMicros)
    {
      r := Protocol.RecallFromEeprom(One(address), onewire);
    }
  }
}
