/** The command catalog: the fixed frames the driver can send, and the mode
    bytes the startup check accepts. */
module Catalog {
  import opened Bits

  /** Mode bytes a configured controller reports in byte 1 of a read:
      0x41 digital, 0x73 analog. */
  const ValidModes: seq<Byte> := [0x41, 0x73]

  /** Mode byte of a controller reporting in analog mode. */
  const AnalogMode: Byte := 0x73

  const CmdConfigEnter: seq<Byte> := [0x01, 0x43, 0x00, 0x01, 0x00, 0x00, 0x00, 0x00, 0x00]

  /** Byte 3 selects analog mode (0x01), byte 4 leaves the analog lock off (0x00). */
  const CmdConfigMode: seq<Byte> := [0x01, 0x44, 0x00, 0x01, 0x00, 0x00, 0x00, 0x00, 0x00]

  const CmdConfigExit: seq<Byte> := [0x01, 0x43, 0x00, 0x00, 0x5A, 0x5A, 0x5A, 0x5A, 0x5A]

  /** Bytes 3 and 4 carry motor control once the motors are configured. */
  const CmdReadData: seq<Byte> := [0x01, 0x42, 0x00, 0x00, 0x00, 0x00, 0x00, 0x00, 0x00]

  /** Byte 3 is the small motor (0x00 on), byte 4 the large motor's power. */
  const CmdMotorEnable: seq<Byte> := [0x01, 0x4D, 0x00, 0x00, 0x01, 0xFF, 0xFF, 0xFF, 0xFF]

  const CmdSetDataLarge: seq<Byte> := [0x01, 0x4F, 0x00, 0xFF, 0xFF, 0x03, 0x00, 0x00, 0x00]

  const CmdReadDataLarge: seq<Byte> :=
    [0x01, 0x42, 0x00, 0x00, 0x00, 0x00, 0x00, 0x00, 0x00,
     0x00, 0x00, 0x00, 0x00, 0x00, 0x00, 0x00, 0x00, 0x00]

  const CmdGetStatus: seq<Byte> := [0x01, 0x45, 0x00, 0x5A, 0x5A, 0x5A, 0x5A, 0x5A, 0x5A]

  /** The frames the configuration sequence sends, in order. The motor-enable
      frame is in the catalog but not in this sequence. */
  const ConfigSequence: seq<seq<Byte>> := [CmdConfigEnter, CmdConfigMode, CmdConfigExit]

  /** Every catalog frame opens with the 0x01 start byte; the large read is
      18 bytes long and every other frame 9. */
  lemma CatalogShape()
    ensures |CmdConfigEnter| == |CmdConfigMode| == |CmdConfigExit| == 9
    ensures |CmdReadData| == |CmdMotorEnable| == |CmdSetDataLarge| == |CmdGetStatus| == 9
    ensures |CmdReadDataLarge| == 18
    ensures CmdConfigEnter[0] == CmdConfigMode[0] == CmdConfigExit[0] == CmdReadData[0] == 0x01
    ensures CmdMotorEnable[0] == CmdSetDataLarge[0] == CmdReadDataLarge[0] == CmdGetStatus[0] == 0x01
    ensures CmdMotorEnable !in ConfigSequence
  {
  }
}
