/** The literal CRC table agrees, entry by entry, with the table that
    polynomial 0x1021 generates, and the table-driven CRC agrees with
    plain bitwise polynomial division. */
module Crc16Table {
  import opened Bytes
  import opened Crc16
  import opened Crc16Division

  lemma Row0(i: bv8)
    requires 0 <= i < 16
    ensures CrcTable(i) == TableEntry(i)
  {
    if i == 0 {
    } else if i == 1 {
    } else if i == 2 {
    } else if i == 3 {
    } else if i == 4 {
    } else if i == 5 {
    } else if i == 6 {
    } else if i == 7 {
    } else if i == 8 {
    } else if i == 9 {
    } else if i == 10 {
    } else if i == 11 {
    } else if i == 12 {
    } else if i == 13 {
    } else if i == 14 {
    } else {
    }
  }

  lemma Row1(i: bv8)
    requires 16 <= i < 32
    ensures CrcTable(i) == TableEntry(i)
  {
    if i == 16 {
    } else if i == 17 {
    } else if i == 18 {
    } else if i == 19 {
    } else if i == 20 {
    } else if i == 21 {
    } else if i == 22 {
    } else if i == 23 {
    } else if i == 24 {
    } else if i == 25 {
    } else if i == 26 {
    } else if i == 27 {
    } else if i == 28 {
    } else if i == 29 {
    } else if i == 30 {
    } else {
    }
  }

  lemma Row2(i: bv8)
    requires 32 <= i < 48
    ensures CrcTable(i) == TableEntry(i)
  {
    if i == 32 {
    } else if i == 33 {
    } else if i == 34 {
    } else if i == 35 {
    } else if i == 36 {
    } else if i == 37 {
    } else if i == 38 {
    } else if i == 39 {
    } else if i == 40 {
    } else if i == 41 {
    } else if i == 42 {
    } else if i == 43 {
    } else if i == 44 {
    } else if i == 45 {
    } else if i == 46 {
    } else {
    }
  }

  lemma Row3(i: bv8)
    requires 48 <= i < 64
    ensures CrcTable(i) == TableEntry(i)
  {
    if i == 48 {
    } else if i == 49 {
    } else if i == 50 {
    } else if i == 51 {
    } else if i == 52 {
    } else if i == 53 {
    } else if i == 54 {
    } else if i == 55 {
    } else if i == 56 {
    } else if i == 57 {
    } else if i == 58 {
    } else if i == 59 {
    } else if i == 60 {
    } else if i == 61 {
    } else if i == 62 {
    } else {
    }
  }

  lemma Row4(i: bv8)
    requires 64 <= i < 80
    ensures CrcTable(i) == TableEntry(i)
  {
    if i == 64 {
    } else if i == 65 {
    } else if i == 66 {
    } else if i == 67 {
    } else if i == 68 {
    } else if i == 69 {
    } else if i == 70 {
    } else if i == 71 {
    } else if i == 72 {
    } else if i == 73 {
    } else if i == 74 {
    } else if i == 75 {
    } else if i == 76 {
    } else if i == 77 {
    } else if i == 78 {
    } else {
    }
  }

  lemma Row5(i: bv8)
    requires 80 <= i < 96
    ensures CrcTable(i) == TableEntry(i)
  {
    if i == 80 {
    } else if i == 81 {
    } else if i == 82 {
    } else if i == 83 {
    } else if i == 84 {
    } else if i == 85 {
    } else if i == 86 {
    } else if i == 87 {
    } else if i == 88 {
    } else if i == 89 {
    } else if i == 90 {
    } else if i == 91 {
    } else if i == 92 {
    } else if i == 93 {
    } else if i == 94 {
    } else {
    }
  }

  lemma Row6(i: bv8)
    requires 96 <= i < 112
    ensures CrcTable(i) == TableEntry(i)
  {
    if i == 96 {
    } else if i == 97 {
    } else if i == 98 {
    } else if i == 99 {
    } else if i == 100 {
    } else if i == 101 {
    } else if i == 102 {
    } else if i == 103 {
    } else if i == 104 {
    } else if i == 105 {
    } else if i == 106 {
    } else if i == 107 {
    } else if i == 108 {
    } else if i == 109 {
    } else if i == 110 {
    } else {
    }
  }

  lemma Row7(i: bv8)
    requires 112 <= i < 128
    ensures CrcTable(i) == TableEntry(i)
  {
    if i == 112 {
    } else if i == 113 {
    } else if i == 114 {
    } else if i == 115 {
    } else if i == 116 {
    } else if i == 117 {
    } else if i == 118 {
    } else if i == 119 {
    } else if i == 120 {
    } else if i == 121 {
    } else if i == 122 {
    } else if i == 123 {
    } else if i == 124 {
    } else if i == 125 {
    } else if i == 126 {
    } else {
    }
  }

  lemma Row8(i: bv8)
    requires 128 <= i < 144
    ensures CrcTable(i) == TableEntry(i)
  {
    if i == 128 {
    } else if i == 129 {
    } else if i == 130 {
    } else if i == 131 {
    } else if i == 132 {
    } else if i == 133 {
    } else if i == 134 {
    } else if i == 135 {
    } else if i == 136 {
    } else if i == 137 {
    } else if i == 138 {
    } else if i == 139 {
    } else if i == 140 {
    } else if i == 141 {
    } else if i == 142 {
    } else {
    }
  }

  lemma Row9(i: bv8)
    requires 144 <= i < 160
    ensures CrcTable(i) == TableEntry(i)
  {
    if i == 144 {
    } else if i == 145 {
    } else if i == 146 {
    } else if i == 147 {
    } else if i == 148 {
    } else if i == 149 {
    } else if i == 150 {
    } else if i == 151 {
    } else if i == 152 {
    } else if i == 153 {
    } else if i == 154 {
    } else if i == 155 {
    } else if i == 156 {
    } else if i == 157 {
    } else if i == 158 {
    } else {
    }
  }

  lemma Row10(i: bv8)
    requires 160 <= i < 176
    ensures CrcTable(i) == TableEntry(i)
  {
    if i == 160 {
    } else if i == 161 {
    } else if i == 162 {
    } else if i == 163 {
    } else if i == 164 {
    } else if i == 165 {
    } else if i == 166 {
    } else if i == 167 {
    } else if i == 168 {
    } else if i == 169 {
    } else if i == 170 {
    } else if i == 171 {
    } else if i == 172 {
    } else if i == 173 {
    } else if i == 174 {
    } else {
    }
  }

  lemma Row11(i: bv8)
    requires 176 <= i < 192
    ensures CrcTable(i) == TableEntry(i)
  {
    if i == 176 {
    } else if i == 177 {
    } else if i == 178 {
    } else if i == 179 {
    } else if i == 180 {
    } else if i == 181 {
    } else if i == 182 {
    } else if i == 183 {
    } else if i == 184 {
    } else if i == 185 {
    } else if i == 186 {
    } else if i == 187 {
    } else if i == 188 {
    } else if i == 189 {
    } else if i == 190 {
    } else {
    }
  }

  lemma Row12(i: bv8)
    requires 192 <= i < 208
    ensures CrcTable(i) == TableEntry(i)
  {
    if i == 192 {
    } else if i == 193 {
    } else if i == 194 {
    } else if i == 195 {
    } else if i == 196 {
    } else if i == 197 {
    } else if i == 198 {
    } else if i == 199 {
    } else if i == 200 {
    } else if i == 201 {
    } else if i == 202 {
    } else if i == 203 {
    } else if i == 204 {
    } else if i == 205 {
    } else if i == 206 {
    } else {
    }
  }

  lemma Row13(i: bv8)
    requires 208 <= i < 224
    ensures CrcTable(i) == TableEntry(i)
  {
    if i == 208 {
    } else if i == 209 {
    } else if i == 210 {
    } else if i == 211 {
    } else if i == 212 {
    } else if i == 213 {
    } else if i == 214 {
    } else if i == 215 {
    } else if i == 216 {
    } else if i == 217 {
    } else if i == 218 {
    } else if i == 219 {
    } else if i == 220 {
    } else if i == 221 {
    } else if i == 222 {
    } else {
    }
  }

  lemma Row14(i: bv8)
    requires 224 <= i < 240
    ensures CrcTable(i) == TableEntry(i)
  {
    if i == 224 {
    } else if i == 225 {
    } else if i == 226 {
    } else if i == 227 {
    } else if i == 228 {
    } else if i == 229 {
    } else if i == 230 {
    } else if i == 231 {
    } else if i == 232 {
    } else if i == 233 {
    } else if i == 234 {
    } else if i == 235 {
    } else if i == 236 {
    } else if i == 237 {
    } else if i == 238 {
    } else {
    }
  }

  lemma Row15(i: bv8)
    requires 240 <= i
    ensures CrcTable(i) == TableEntry(i)
  {
    if i == 240 {
    } else if i == 241 {
    } else if i == 242 {
    } else if i == 243 {
    } else if i == 244 {
    } else if i == 245 {
    } else if i == 246 {
    } else if i == 247 {
    } else if i == 248 {
    } else if i == 249 {
    } else if i == 250 {
    } else if i == 251 {
    } else if i == 252 {
    } else if i == 253 {
    } else if i == 254 {
    } else {
    }
  }

  /** Every entry of `CRC16_TABLE` is `i << 8` shifted MSB-first eight
      times under polynomial 0x1021. */
  lemma TableMatchesPolynomial(i: bv8)
    ensures CrcTable(i) == TableEntry(i)
  {
    if i < 16 {
      Row0(i);
    } else if i < 32 {
      Row1(i);
    } else if i < 48 {
      Row2(i);
    } else if i < 64 {
      Row3(i);
    } else if i < 80 {
      Row4(i);
    } else if i < 96 {
      Row5(i);
    } else if i < 112 {
      Row6(i);
    } else if i < 128 {
      Row7(i);
    } else if i < 144 {
      Row8(i);
    } else if i < 160 {
      Row9(i);
    } else if i < 176 {
      Row10(i);
    } else if i < 192 {
      Row11(i);
    } else if i < 208 {
      Row12(i);
    } else if i < 224 {
      Row13(i);
    } else if i < 240 {
      Row14(i);
    } else {
      Row15(i);
    }
  }

  /** An input byte as the low byte of a 16-bit value. */
  function Low(b: Byte): (v: bv16)
    ensures v & 0xFF00 == 0
  {
    (b as bv8) as bv16
  }

  /** The bitwise form of one CRC step: the byte is XORed into the top of
      the register, which is then divided eight times. */
  function BitwiseUpdate(crc: bv16, b: Byte): bv16
  {
    Shift(crc ^ (Low(b) << 8), 8)
  }

  /** CRC-16 with polynomial 0x1021 and initial value 0x0000, computed bit
      by bit: the reference the table-driven code stands for. */
  function BitwiseCrc(data: Bytes): bv16
  {
    if data == [] then 0 else BitwiseUpdate(BitwiseCrc(data[..|data| - 1]), data[|data| - 1])
  }

  /** Entry `i` of the table is eight division steps of `i << 8`. */
  lemma TableIsShift(i: bv8)
    ensures CrcTable(i) == Shift((i as bv16) << 8, 8)
  {
    TableMatchesPolynomial(i);
    Shift8IsShift((i as bv16) << 8);
  }

  /** A table step is the register shifted up a byte, XORed with the entry
      its top byte and the input byte select. */
  lemma UpdateCrcForm(crc: bv16, b: Byte)
    ensures UpdateCrc(crc, b) == (crc << 8) ^ CrcTable(((crc >> 8) as bv8) ^ (b as bv8))
  {
    MaskedShift(crc, CrcTable(((crc >> 8) as bv8) ^ (b as bv8)));
  }

  /** The table index, widened, is the register's top byte XOR the input
      byte. */
  lemma IndexWidened(crc: bv16, y: bv8)
    ensures (((crc >> 8) as bv8) ^ y) as bv16 == (crc >> 8) ^ (y as bv16)
  {
  }

  /** The entry a table step selects is eight division steps of (top byte
      XOR input byte) moved to the top. */
  lemma SelectedEntry(crc: bv16, b: Byte)
    ensures CrcTable(((crc >> 8) as bv8) ^ (b as bv8)) == Shift(((crc >> 8) ^ Low(b)) << 8, 8)
  {
    TableIsShift(((crc >> 8) as bv8) ^ (b as bv8));
    IndexWidened(crc, b as bv8);
  }

  /** The table step in division form. */
  lemma UpdateCrcDivides(crc: bv16, b: Byte)
    ensures UpdateCrc(crc, b) == (crc << 8) ^ Shift(((crc >> 8) ^ Low(b)) << 8, 8)
  {
    UpdateCrcForm(crc, b);
    SelectedEntry(crc, b);
  }

  /** The bitwise step in the same form. */
  lemma BitwiseUpdateDivides(crc: bv16, b: Byte)
    ensures BitwiseUpdate(crc, b) == (crc << 8) ^ Shift(((crc >> 8) ^ Low(b)) << 8, 8)
  {
    ByteStep(crc, Low(b));
  }

  /** One table step is one bitwise step. */
  lemma UpdateCrcIsBitwise(crc: bv16, b: Byte)
    ensures UpdateCrc(crc, b) == BitwiseUpdate(crc, b)
  {
    UpdateCrcDivides(crc, b);
    BitwiseUpdateDivides(crc, b);
  }

  /** The table-driven CRC of both protocol classes is the bitwise CRC. */
  lemma {:induction false} CrcIsBitwise(data: Bytes)
    ensures Crc(data) == BitwiseCrc(data) && CrcBase(data) == BitwiseCrc(data)
    decreases |data|
  {
    CrcAgree(data);
    if data != [] {
      CrcIsBitwise(data[..|data| - 1]);
      UpdateCrcIsBitwise(Crc(data[..|data| - 1]), data[|data| - 1]);
    }
  }
}
