/** The checksum is the CRC-32 of RFC 1952 and no other: what it gives on every message followed by its own
    checksum, and on known messages. */
module Crc32Check {
  import opened Crc32

  /** Eight shifts, one after the other. */
  lemma EightShifts(c0: bv32, c1: bv32, c2: bv32, c3: bv32, c4: bv32, c5: bv32, c6: bv32, c7: bv32, c8: bv32)
    requires Shift(c0) == c1 && Shift(c1) == c2 && Shift(c2) == c3 && Shift(c3) == c4
    requires Shift(c4) == c5 && Shift(c5) == c6 && Shift(c6) == c7 && Shift(c7) == c8
    ensures Shift8(c0) == c8
  {
    Unrolled(Shift, c0);
  }

  lemma Unrolled<T>(f: T -> T, c: T)
    ensures Iterate(f, c, 8) == f(f(f(f(f(f(f(f(c))))))))
  {
    assert Iterate(f, c, 2) == f(f(c));
    assert Iterate(f, c, 4) == f(f(f(f(c))));
    assert Iterate(f, c, 6) == f(f(f(f(f(f(c))))));
  }

  // ---------- The residue ----------

  lemma ShiftOnes()
    ensures Shift8(0xFFFF_FFFF) == 0x2DFD_1072
  {
    EightShifts(0xFFFF_FFFF, 0x9247_7CDF, 0xA49B_3D4F, 0xBFF5_1D87, 0xB242_0DE3,
                0xB499_85D1, 0xB7F4_41C8, 0x5BFA_20E4, 0x2DFD_1072);
  }

  lemma ShiftOnes8()
    ensures Shift8(0x2DFD_1072) == 0xBE26_ED00
  {
    EightShifts(0x2DFD_1072, 0x16FE_8839, 0xE6C7_C73C, 0x7363_E39E, 0x39B1_F1CF,
                0xF160_7BC7, 0x9508_BEC3, 0xA73C_DC41, 0xBE26_ED00);
  }

  lemma ShiftOnes16()
    ensures Shift8(0xBE26_ED00) == 0x00BE_26ED
  {
    EightShifts(0xBE26_ED00, 0x5F13_7680, 0x2F89_BB40, 0x17C4_DDA0, 0x0BE2_6ED0,
                0x05F1_3768, 0x02F8_9BB4, 0x017C_4DDA, 0x00BE_26ED);
  }

  lemma ShiftOnes24()
    ensures Shift8(0x00BE_26ED) == 0xDEBB_20E3
  {
    EightShifts(0x00BE_26ED, 0xEDE7_9056, 0x76F3_C82B, 0xD6C1_6735, 0x86D8_30BA,
                0x436C_185D, 0xCC0E_8F0E, 0x6607_4787, 0xDEBB_20E3);
  }

  /** The four bytes of a checksum, least significant first. */
  function Bytes(c: bv32): (s: seq<bv8>)
    ensures |s| == 4
  {
    [(c & 0xFF) as bv8, ((c >> 8) & 0xFF) as bv8, ((c >> 16) & 0xFF) as bv8, (c >> 24) as bv8]
  }

  lemma WordOfBytes(c: bv32)
    ensures Word((c & 0xFF) as bv8, ((c >> 8) & 0xFF) as bv8, ((c >> 16) & 0xFF) as bv8, (c >> 24) as bv8) == c
  {
  }

  lemma OwnChecksum(c: bv32)
    ensures Xor(c, c ^ 0xFFFF_FFFF) == 0xFFFF_FFFF
  {
  }

  /** A message followed by its own checksum, least significant byte first, has the same checksum whatever
      the message. */
  lemma Residue(d: seq<bv8>)
    ensures Crc(d + Bytes(Crc(d))) == 0x2144_DF1C
  {
    var c := Update(0xFFFF_FFFF, d);
    UpdateOwn(c);
    FoldAppend(Step, 0xFFFF_FFFF, d, Bytes(Crc(d)));
  }

  lemma UpdateOwn(c: bv32)
    ensures Update(c, Bytes(c ^ 0xFFFF_FFFF)) == 0xDEBB_20E3
  {
    var k := c ^ 0xFFFF_FFFF;
    var w := Bytes(k);
    FoldFour(Step, c, w);
    FourStepsAreOneWord();
    WordOfBytes(k);
    OwnChecksum(c);
    ShiftedOnes();
  }

  lemma ShiftedOnes()
    ensures Shift8(Shift8(Shift8(Shift8(0xFFFF_FFFF)))) == 0xDEBB_20E3
  {
    ShiftOnes();
    ShiftOnes8();
    ShiftOnes16();
    ShiftOnes24();
  }

  // ---------- Known messages ----------

  lemma UpdateOne(c: bv32, data: seq<bv8>, next: bv32)
    requires data != [] && Shift8(c ^ (data[0] as bv32)) == next
    ensures Update(c, data) == Update(next, data[1..])
  {
  }

  /** One byte of value zero. */
  lemma ChecksumOfZero()
    ensures Crc([0]) == 0xD202_EF8D
  {
    ShiftOnes();
    UpdateOne(0xFFFF_FFFF, [0], 0x2DFD_1072);
    assert [0 as bv8][1..] == [];
  }

  lemma Digit1()
    ensures Shift8(0xFFFF_FFFF ^ 0x31) == 0x7C23_1048
  {
    EightShifts(0xFFFF_FFCE, 0x7FFF_FFE7, 0xD247_7CD3, 0x849B_3D49, 0xAFF5_1D84,
                0x57FA_8EC2, 0x2BFD_4761, 0xF846_2090, 0x7C23_1048);
  }

  lemma Digit2()
    ensures Shift8(0x7C23_1048 ^ 0x32) == 0xB0AC_BB32
  {
    EightShifts(0x7C23_107A, 0x3E11_883D, 0xF2B0_473E, 0x7958_239F, 0xD114_92EF,
                0x8532_CA57, 0xAF21_E60B, 0xBA28_7025, 0xB0AC_BB32);
  }

  lemma Digit3()
    ensures Shift8(0xB0AC_BB32 ^ 0x33) == 0x77B7_9C2D
  {
    EightShifts(0xB0AC_BB01, 0xB5EE_DEA0, 0x5AF7_6F50, 0x2D7B_B7A8, 0x16BD_DBD4,
                0x0B5E_EDEA, 0x05AF_76F5, 0xEF6F_385A, 0x77B7_9C2D);
  }

  lemma Digit4()
    ensures Shift8(0x77B7_9C2D ^ 0x34) == 0x641C_1F5C
  {
    EightShifts(0x77B7_9C19, 0xD663_4D2C, 0x6B31_A696, 0x3598_D34B, 0xF774_EA85,
                0x9602_F662, 0x4B01_7B31, 0xC838_3EB8, 0x641C_1F5C);
  }

  lemma Digit5()
    ensures Shift8(0x641C_1F5C ^ 0x35) == 0x340A_C5E3
  {
    EightShifts(0x641C_1F69, 0xDFB6_8C94, 0x6FDB_464A, 0x37ED_A325, 0xF64E_52B2,
                0x7B27_2959, 0xD02B_178C, 0x6815_8BC6, 0x340A_C5E3);
  }

  lemma Digit6()
    ensures Shift8(0x340A_C5E3 ^ 0x36) == 0xF68D_2C9E
  {
    EightShifts(0x340A_C5D5, 0xF7BD_E1CA, 0x7BDE_F0E5, 0xD057_FB52, 0x682B_FDA9,
                0xD9AD_7DF4, 0x6CD6_BEFA, 0x366B_5F7D, 0xF68D_2C9E);
  }

  lemma Digit7()
    ensures Shift8(0xF68D_2C9E ^ 0x37) == 0xAFFC_9660
  {
    EightShifts(0xF68D_2CA9, 0x96FE_1574, 0x4B7F_0ABA, 0x25BF_855D, 0xFF67_418E,
                0x7FB3_A0C7, 0xD261_5343, 0x8488_2A81, 0xAFFC_9660);
  }

  lemma Digit8()
    ensures Shift8(0xAFFC_9660 ^ 0x38) == 0x651F_2550
  {
    EightShifts(0xAFFC_9658, 0x57FE_4B2C, 0x2BFF_2596, 0x15FF_92CB, 0xE747_4A45,
                0x9E1B_2602, 0x4F0D_9301, 0xCA3E_4AA0, 0x651F_2550);
  }

  lemma Digit9()
    ensures Shift8(0x651F_2550 ^ 0x39) == 0x340B_C6D9
  {
    EightShifts(0x651F_2569, 0xDF37_1194, 0x6F9B_88CA, 0x37CD_C465, 0xF65E_6112,
                0x7B2F_3089, 0xD02F_1B64, 0x6817_8DB2, 0x340B_C6D9);
  }

  lemma UpdateThree(c: bv32, data: seq<bv8>, c1: bv32, c2: bv32, c3: bv32)
    requires |data| >= 3 && Shift8(c ^ (data[0] as bv32)) == c1
    requires Shift8(c1 ^ (data[1] as bv32)) == c2 && Shift8(c2 ^ (data[2] as bv32)) == c3
    ensures Update(c, data) == Update(c3, data[3..])
  {
    UpdateOne(c, data, c1);
    UpdateOne(c1, data[1..], c2);
    UpdateOne(c2, data[1..][1..], c3);
    assert data[1..][1..][1..] == data[3..];
  }

  lemma FirstThree(data: seq<bv8>)
    requires |data| >= 3 && data[0] == 0x31 && data[1] == 0x32 && data[2] == 0x33
    ensures Update(0xFFFF_FFFF, data) == Update(0x77B7_9C2D, data[3..])
  {
    Digit1();
    Digit2();
    Digit3();
    UpdateThree(0xFFFF_FFFF, data, 0x7C23_1048, 0xB0AC_BB32, 0x77B7_9C2D);
  }

  lemma SecondThree(data: seq<bv8>)
    requires |data| >= 3 && data[0] == 0x34 && data[1] == 0x35 && data[2] == 0x36
    ensures Update(0x77B7_9C2D, data) == Update(0xF68D_2C9E, data[3..])
  {
    Digit4();
    Digit5();
    Digit6();
    UpdateThree(0x77B7_9C2D, data, 0x641C_1F5C, 0x340A_C5E3, 0xF68D_2C9E);
  }

  lemma ThirdThree(data: seq<bv8>)
    requires |data| >= 3 && data[0] == 0x37 && data[1] == 0x38 && data[2] == 0x39
    ensures Update(0xF68D_2C9E, data) == Update(0x340B_C6D9, data[3..])
  {
    Digit7();
    Digit8();
    Digit9();
    UpdateThree(0xF68D_2C9E, data, 0xAFFC_9660, 0x651F_2550, 0x340B_C6D9);
  }

  /** The digits 1 to 9 in ASCII: the check value by which the checksum is known. */
  lemma ChecksumOfDigits()
    ensures Crc([0x31, 0x32, 0x33, 0x34, 0x35, 0x36, 0x37, 0x38, 0x39]) == 0xCBF4_3926
  {
    var d: seq<bv8> := [0x31, 0x32, 0x33, 0x34, 0x35, 0x36, 0x37, 0x38, 0x39];
    FirstThree(d);
    SecondThree(d[3..]);
    ThirdThree(d[3..][3..]);
    NothingMore(d);
  }

  lemma NothingMore(d: seq<bv8>)
    requires |d| == 9
    ensures d[3..][3..][3..] == []
  {
  }
}
