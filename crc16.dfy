/** The table-driven CRC-16 both wire formats append to a telegram:
    polynomial 0x1021, initial value 0x0000, no reflection, no final XOR
    (the parameter set catalogued as CRC-16/XMODEM). */
module Crc16 {
  import opened Bytes
  import opened Crc16Division

  type TableRow = row: seq<bv16> | |row| == 16 witness seq(16, _ => 0)

  /** `CRC16_TABLE`: the 256 entries exactly as both protocol classes list
      them (the two source tables are identical), sixteen to a row. */
  const CRC16_TABLE: seq<TableRow> := [
    ROW_0, ROW_1, ROW_2, ROW_3, ROW_4, ROW_5, ROW_6, ROW_7,
    ROW_8, ROW_9, ROW_A, ROW_B, ROW_C, ROW_D, ROW_E, ROW_F
  ]

  const ROW_0: TableRow := [0x0000, 0x1021, 0x2042, 0x3063, 0x4084, 0x50A5, 0x60C6, 0x70E7, 0x8108, 0x9129, 0xA14A, 0xB16B, 0xC18C, 0xD1AD, 0xE1CE, 0xF1EF]
  const ROW_1: TableRow := [0x1231, 0x0210, 0x3273, 0x2252, 0x52B5, 0x4294, 0x72F7, 0x62D6, 0x9339, 0x8318, 0xB37B, 0xA35A, 0xD3BD, 0xC39C, 0xF3FF, 0xE3DE]
  const ROW_2: TableRow := [0x2462, 0x3443, 0x0420, 0x1401, 0x64E6, 0x74C7, 0x44A4, 0x5485, 0xA56A, 0xB54B, 0x8528, 0x9509, 0xE5EE, 0xF5CF, 0xC5AC, 0xD58D]
  const ROW_3: TableRow := [0x3653, 0x2672, 0x1611, 0x0630, 0x76D7, 0x66F6, 0x5695, 0x46B4, 0xB75B, 0xA77A, 0x9719, 0x8738, 0xF7DF, 0xE7FE, 0xD79D, 0xC7BC]
  const ROW_4: TableRow := [0x48C4, 0x58E5, 0x6886, 0x78A7, 0x0840, 0x1861, 0x2802, 0x3823, 0xC9CC, 0xD9ED, 0xE98E, 0xF9AF, 0x8948, 0x9969, 0xA90A, 0xB92B]
  const ROW_5: TableRow := [0x5AF5, 0x4AD4, 0x7AB7, 0x6A96, 0x1A71, 0x0A50, 0x3A33, 0x2A12, 0xDBFD, 0xCBDC, 0xFBBF, 0xEB9E, 0x9B79, 0x8B58, 0xBB3B, 0xAB1A]
  const ROW_6: TableRow := [0x6CA6, 0x7C87, 0x4CE4, 0x5CC5, 0x2C22, 0x3C03, 0x0C60, 0x1C41, 0xEDAE, 0xFD8F, 0xCDEC, 0xDDCD, 0xAD2A, 0xBD0B, 0x8D68, 0x9D49]
  const ROW_7: TableRow := [0x7E97, 0x6EB6, 0x5ED5, 0x4EF4, 0x3E13, 0x2E32, 0x1E51, 0x0E70, 0xFF9F, 0xEFBE, 0xDFDD, 0xCFFC, 0xBF1B, 0xAF3A, 0x9F59, 0x8F78]
  const ROW_8: TableRow := [0x9188, 0x81A9, 0xB1CA, 0xA1EB, 0xD10C, 0xC12D, 0xF14E, 0xE16F, 0x1080, 0x00A1, 0x30C2, 0x20E3, 0x5004, 0x4025, 0x7046, 0x6067]
  const ROW_9: TableRow := [0x83B9, 0x9398, 0xA3FB, 0xB3DA, 0xC33D, 0xD31C, 0xE37F, 0xF35E, 0x02B1, 0x1290, 0x22F3, 0x32D2, 0x4235, 0x5214, 0x6277, 0x7256]
  const ROW_A: TableRow := [0xB5EA, 0xA5CB, 0x95A8, 0x8589, 0xF56E, 0xE54F, 0xD52C, 0xC50D, 0x34E2, 0x24C3, 0x14A0, 0x0481, 0x7466, 0x6447, 0x5424, 0x4405]
  const ROW_B: TableRow := [0xA7DB, 0xB7FA, 0x8799, 0x97B8, 0xE75F, 0xF77E, 0xC71D, 0xD73C, 0x26D3, 0x36F2, 0x0691, 0x16B0, 0x6657, 0x7676, 0x4615, 0x5634]
  const ROW_C: TableRow := [0xD94C, 0xC96D, 0xF90E, 0xE92F, 0x99C8, 0x89E9, 0xB98A, 0xA9AB, 0x5844, 0x4865, 0x7806, 0x6827, 0x18C0, 0x08E1, 0x3882, 0x28A3]
  const ROW_D: TableRow := [0xCB7D, 0xDB5C, 0xEB3F, 0xFB1E, 0x8BF9, 0x9BD8, 0xABBB, 0xBB9A, 0x4A75, 0x5A54, 0x6A37, 0x7A16, 0x0AF1, 0x1AD0, 0x2AB3, 0x3A92]
  const ROW_E: TableRow := [0xFD2E, 0xED0F, 0xDD6C, 0xCD4D, 0xBDAA, 0xAD8B, 0x9DE8, 0x8DC9, 0x7C26, 0x6C07, 0x5C64, 0x4C45, 0x3CA2, 0x2C83, 0x1CE0, 0x0CC1]
  const ROW_F: TableRow := [0xEF1F, 0xFF3E, 0xCF5D, 0xDF7C, 0xAF9B, 0xBFBA, 0x8FD9, 0x9FF8, 0x6E17, 0x7E36, 0x4E55, 0x5E74, 0x2E93, 0x3EB2, 0x0ED1, 0x1EF0]

  /** `CRC16_TABLE[index]` */
  function CrcTable(index: bv8): bv16
  {
    assert |CRC16_TABLE| == 16;
    CRC16_TABLE[(index >> 4) as int][(index & 0x0F) as int]
  }

  /** The table entry the polynomial defines for index `i`: `i << 8`
      shifted MSB-first eight times. */
  function TableEntry(i: bv8): bv16
  {
    Shift8((i as bv16) << 8)
  }

  /** One byte of `SBusProtocol._calculate_crc`:
      `crc = ((crc << 8) ^ CRC16_TABLE[(crc >> 8) ^ byte]) & 0xFFFF`,
      with Python's unbounded `crc << 8` held in 32 bits. */
  function UpdateCrc(crc: bv16, b: Byte): bv16
  {
    var index := ((crc >> 8) as bv8) ^ (b as bv8);
    ((((crc as bv32) << 8) ^ (CrcTable(index) as bv32)) & 0xFFFF) as bv16
  }

  /** The CRC of `data`: the register after feeding every byte, in order,
      from the initial value 0x0000. */
  function Crc(data: Bytes): bv16
  {
    if data == [] then 0 else UpdateCrc(Crc(data[..|data| - 1]), data[|data| - 1])
  }

  /** `SBusProtocol._calculate_crc` */
  method CalculateCrc(data: Bytes) returns (crc: bv16)
    ensures crc == Crc(data)
  {
    crc := 0x0000;
    for i := 0 to |data|
      invariant crc == Crc(data[..i])
    {
      crc := UpdateCrc(crc, data[i]);
      assert data[..i + 1][..i] == data[..i];
    }
    assert data[..|data|] == data;
  }

  /** One byte of `SBusProtocolBase.calculate_crc`: the mask is applied to
      the shifted register before the table entry is XORed in. */
  function UpdateCrcBase(crc: bv16, b: Byte): bv16
  {
    var index := ((crc >> 8) as bv8) ^ (b as bv8);
    ((((crc as bv32) << 8) & 0xFFFF) ^ (CrcTable(index) as bv32)) as bv16
  }

  function CrcBase(data: Bytes): bv16
  {
    if data == [] then 0 else UpdateCrcBase(CrcBase(data[..|data| - 1]), data[|data| - 1])
  }

  /** `SBusProtocolBase.calculate_crc` */
  method CalculateCrcBase(data: Bytes) returns (crc: bv16)
    ensures crc == CrcBase(data)
  {
    crc := 0x0000;
    for i := 0 to |data|
      invariant crc == CrcBase(data[..i])
    {
      crc := UpdateCrcBase(crc, data[i]);
      assert data[..i + 1][..i] == data[..i];
    }
    assert data[..|data|] == data;
  }

  /** Where the mask is applied makes no difference: every table entry is
      below 0x10000. */
  lemma UpdateCrcAgree(crc: bv16, b: Byte)
    ensures UpdateCrcBase(crc, b) == UpdateCrc(crc, b)
  {
  }

  /** The two protocol classes compute the same CRC on every input. */
  lemma {:induction false} CrcAgree(data: Bytes)
    ensures CrcBase(data) == Crc(data)
    decreases |data|
  {
    if data != [] {
      CrcAgree(data[..|data| - 1]);
      UpdateCrcAgree(Crc(data[..|data| - 1]), data[|data| - 1]);
    }
  }

  /** The CRC starts from 0x0000, so an empty input has CRC 0. */
  lemma CrcOfEmpty()
    ensures Crc([]) == 0 && CrcBase([]) == 0
  {
  }
}
