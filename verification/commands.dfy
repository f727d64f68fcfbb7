/** The function-command bytes of the DS18B20 and its one-wire family code, with the
    values of the DS18B20 datasheet. No proof depends on them beyond their being bytes. */
module Commands {
  import opened OneWire

  const FAMILY_CODE: Byte := 0x28

  const CONVERT_TEMP: Byte := 0x44
  const WRITE_SCRATCHPAD: Byte := 0x4E
  const READ_SCRATCHPAD: Byte := 0xBE
  const COPY_SCRATCHPAD: Byte := 0x48
  const RECALL_EEPROM: Byte := 0xB8
}
