/**
 * The CRC-7 checksum carried in the last byte of every MMC/SD command frame
 * (generator polynomial x^7 + x^3 + 1, section 4.5 of the SD Physical Layer
 * Simplified Specification), computed as `crc7` in os/hal/src/mmc_spi.c does:
 * one lookup in a 256-entry table per input byte.
 *
 * Beside the table-driven fold the module defines the textbook bit-serial
 * shift register that divides the message by the generator, and proves that
 * the table and the fold compute exactly that division.
 */
module Crc7 {

  /** Row `hi` of `crc7_lookup_table`: entries 16 * hi to 16 * hi + 15, in
      the order the table lists them, the first in the most significant byte. */
  function Row(hi: bv8): (row: bv128)
    ensures row & 0x80808080_80808080_80808080_80808080 == 0
  {
    if hi == 0x0 then 0x00_09_12_1b_24_2d_36_3f_48_41_5a_53_6c_65_7e_77
    else if hi == 0x1 then 0x19_10_0b_02_3d_34_2f_26_51_58_43_4a_75_7c_67_6e
    else if hi == 0x2 then 0x32_3b_20_29_16_1f_04_0d_7a_73_68_61_5e_57_4c_45
    else if hi == 0x3 then 0x2b_22_39_30_0f_06_1d_14_63_6a_71_78_47_4e_55_5c
    else if hi == 0x4 then 0x64_6d_76_7f_40_49_52_5b_2c_25_3e_37_08_01_1a_13
    else if hi == 0x5 then 0x7d_74_6f_66_59_50_4b_42_35_3c_27_2e_11_18_03_0a
    else if hi == 0x6 then 0x56_5f_44_4d_72_7b_60_69_1e_17_0c_05_3a_33_28_21
    else if hi == 0x7 then 0x4f_46_5d_54_6b_62_79_70_07_0e_15_1c_23_2a_31_38
    else if hi == 0x8 then 0x41_48_53_5a_65_6c_77_7e_09_00_1b_12_2d_24_3f_36
    else if hi == 0x9 then 0x58_51_4a_43_7c_75_6e_67_10_19_02_0b_34_3d_26_2f
    else if hi == 0xA then 0x73_7a_61_68_57_5e_45_4c_3b_32_29_20_1f_16_0d_04
    else if hi == 0xB then 0x6a_63_78_71_4e_47_5c_55_22_2b_30_39_06_0f_14_1d
    else if hi == 0xC then 0x25_2c_37_3e_01_08_13_1a_6d_64_7f_76_49_40_5b_52
    else if hi == 0xD then 0x3c_35_2e_27_18_11_0a_03_74_7d_66_6f_50_59_42_4b
    else if hi == 0xE then 0x17_1e_05_0c_33_3a_21_28_5f_56_4d_44_7b_72_69_60
    else 0x0e_07_1c_15_2a_23_38_31_46_4f_54_5d_62_6b_70_79
  }

  /** Entry `lo` of a row. */
  function Entry(row: bv128, lo: bv8): (e: bv8)
    requires lo < 16
    ensures row & 0x80808080_80808080_80808080_80808080 == 0 ==> e < 0x80
  {
    ((row >> ((15 - lo as bv128) * 8)) & 0xFF) as bv8
  }

  /** The table index `(crc << 1) ^ byte` as C computes it, in an int-sized
      value: it stays inside the table exactly when the running CRC fits in
      7 bits. */
  function TableIndex(crc: bv8, b: bv8): (i: bv16)
    ensures crc < 0x80 ==> i < 256 && i as bv8 == (crc << 1) ^ b
    ensures crc >= 0x80 ==> i >= 256
  {
    ((crc as bv16) << 1) ^ (b as bv16)
  }

  /** `crc7_lookup_table[i]`: the remainder of the 8-bit value i shifted
      through a cleared register. */
  function Lookup(i: bv16): (r: bv8)
    requires i < 256
    ensures r < 0x80
  {
    Entry(Row((i >> 4) as bv8), (i & 0x0F) as bv8)
  }

  /** `crc7(crc, buffer, len)`: the table-driven fold over the bytes, oldest
      first. A 7-bit seed gives a 7-bit result; no bytes leave the seed as is. */
  function Crc7(crc: bv8, data: seq<bv8>): (r: bv8)
    requires crc < 0x80
    ensures r < 0x80
    ensures data == [] ==> r == crc
    decreases |data|
  {
    if data == [] then crc else Crc7(Lookup(TableIndex(crc, data[0])), data[1..])
  }

  /** One clock of the CRC-7 shift register: the register bit 6 XOR the
      incoming bit is the feedback, the register shifts left within 7 bits and
      the feedback is added back at the x^3 and x^0 taps. */
  function BitStep(reg: bv8, bit: bv8): (r: bv8)
    ensures r < 0x80
  {
    var feedback := ((reg >> 6) ^ bit) & 1;
    ((reg << 1) & 0x7F) ^ (feedback * 0x09)
  }

  /** Four clocks: the low nibble of `n` shifted in most significant bit first. */
  function ShiftNibble(reg: bv8, n: bv8): bv8 {
    var r3 := BitStep(reg, (n >> 3) & 1);
    var r2 := BitStep(r3, (n >> 2) & 1);
    var r1 := BitStep(r2, (n >> 1) & 1);
    BitStep(r1, n & 1)
  }

  /** Eight clocks: byte `b` shifted into the register most significant bit first. */
  function ShiftByte(reg: bv8, b: bv8): bv8 {
    ShiftNibble(ShiftNibble(reg, b >> 4), b & 0x0F)
  }

  /** The bit-serial reference: the remainder of the message, seeded with `reg`,
      modulo x^7 + x^3 + 1. */
  function Crc7Serial(reg: bv8, data: seq<bv8>): bv8
    decreases |data|
  {
    if data == [] then reg else Crc7Serial(ShiftByte(reg, data[0]), data[1..])
  }

  /** Every table entry is the remainder its index leaves in a cleared register. */
  lemma RowMatchesDivision(hi: bv8, lo: bv8)
    requires hi < 16 && lo < 16
    ensures Entry(Row(hi), lo) == ShiftByte(0, (hi << 4) | lo)
  {
    if hi == 0x0 { }
    else if hi == 0x1 { }
    else if hi == 0x2 { }
    else if hi == 0x3 { }
    else if hi == 0x4 { }
    else if hi == 0x5 { }
    else if hi == 0x6 { }
    else if hi == 0x7 { }
    else if hi == 0x8 { }
    else if hi == 0x9 { }
    else if hi == 0xA { }
    else if hi == 0xB { }
    else if hi == 0xC { }
    else if hi == 0xD { }
    else if hi == 0xE { }
  }

  /** The table trick: shifting byte b into register crc is the same as
      shifting `(crc << 1) ^ b` into a cleared register. */
  lemma ShiftByteAligned(crc: bv8, b: bv8)
    requires crc < 0x80
    ensures ShiftByte(crc, b) == ShiftByte(0, (crc << 1) ^ b)
  {
  }

  /** One step of the table fold is eight clocks of the shift register. */
  lemma LookupIsByteShift(crc: bv8, b: bv8)
    requires crc < 0x80
    ensures Lookup(TableIndex(crc, b)) == ShiftByte(crc, b)
  {
    ShiftByteAligned(crc, b);
    var i := TableIndex(crc, b);
    RowMatchesDivision((i >> 4) as bv8, (i & 0x0F) as bv8);
    assert (((i >> 4) as bv8) << 4) | (i & 0x0F) as bv8 == i as bv8;
  }

  /** The table-driven `crc7` computes the bit-serial remainder: for every
      7-bit seed and every message the two agree. */
  lemma {:induction false} Crc7IsPolynomialDivision(crc: bv8, data: seq<bv8>)
    requires crc < 0x80
    ensures Crc7(crc, data) == Crc7Serial(crc, data)
    decreases |data|
  {
    if data != [] {
      LookupIsByteShift(crc, data[0]);
      Crc7IsPolynomialDivision(Lookup(TableIndex(crc, data[0])), data[1..]);
    }
  }
}
