/** The published check value, which fixes the generator and both bit orders of `Crc64Spec`. */
module Crc64CheckValue {
  import opened Crc64Spec

  lemma EightClocks(v: bv64)
    ensures ZeroBits(8, v) == ZeroBit(ZeroBit(ZeroBit(ZeroBit(ZeroBit(ZeroBit(ZeroBit(ZeroBit(v))))))))
  {
    hide ZeroBit;
    var a := ZeroBit(ZeroBit(v));
    var b := ZeroBit(ZeroBit(a));
    var c := ZeroBit(ZeroBit(b));
    assert ZeroBits(8, v) == ZeroBits(6, a);
    assert ZeroBits(6, a) == ZeroBits(4, b);
    assert ZeroBits(4, b) == ZeroBits(2, c);
    TwoClocks(c);
  }

  lemma ByteCheck(v: bv64, b: Byte, w: bv64)
    requires ZeroBit(ZeroBit(ZeroBit(ZeroBit(ZeroBit(ZeroBit(ZeroBit(ZeroBit(v ^ (b as bv64))))))))) == w
    ensures CrcByte(v, b) == w
  {
    EightClocks(v ^ (b as bv64));
    hide ZeroBits, ZeroBit;
  }

  lemma {:induction false} CrcLast(crc: bv64, s: seq<Byte>, b: Byte)
    ensures Crc(crc, s + [b]) == CrcByte(Crc(crc, s), b)
  {
    hide CrcByte;
    CrcAppend(crc, s, [b]);
    var c := Crc(crc, s);
    assert Crc(CrcByte(c, b), [b][1..]) == CrcByte(c, b);
  }

  /** The checksum of "123456789" that the source's own test prints. */
  lemma CheckValue()
    ensures Crc(0, [0x31, 0x32, 0x33, 0x34, 0x35, 0x36, 0x37, 0x38, 0x39]) == 0xe9c6_d914_c4b8_d9ca
  {
    CheckDigits1();
    CheckDigits2();
    CheckDigits3();
    hide CrcByte;
    assert Crc(0, []) == 0;
    var s: seq<Byte> := [];
    CrcLast(0, s, 0x31);
    s := s + [0x31];
    CrcLast(0, s, 0x32);
    s := s + [0x32];
    CrcLast(0, s, 0x33);
    s := s + [0x33];
    CrcLast(0, s, 0x34);
    s := s + [0x34];
    CrcLast(0, s, 0x35);
    s := s + [0x35];
    CrcLast(0, s, 0x36);
    s := s + [0x36];
    CrcLast(0, s, 0x37);
    s := s + [0x37];
    CrcLast(0, s, 0x38);
    s := s + [0x38];
    CrcLast(0, s, 0x39);
    assert s + [0x39] == [0x31, 0x32, 0x33, 0x34, 0x35, 0x36, 0x37, 0x38, 0x39];
  }

  lemma CheckDigits1()
    ensures CrcByte(0x0000_0000_0000_0000, 0x31) == 0xfdc1_7184_a9f7_39fa
    ensures CrcByte(0xfdc1_7184_a9f7_39fa, 0x32) == 0xe103_6451_3a98_ed96
    ensures CrcByte(0xe103_6451_3a98_ed96, 0x33) == 0xd5bc_fb81_4479_b1ac
  {
    ByteCheck(0x0000_0000_0000_0000, 0x31, 0xfdc1_7184_a9f7_39fa);
    ByteCheck(0xfdc1_7184_a9f7_39fa, 0x32, 0xe103_6451_3a98_ed96);
    ByteCheck(0xe103_6451_3a98_ed96, 0x33, 0xd5bc_fb81_4479_b1ac);
  }

  lemma CheckDigits2()
    ensures CrcByte(0xd5bc_fb81_4479_b1ac, 0x34) == 0x4359_3c5d_cda5_21f0
    ensures CrcByte(0x4359_3c5d_cda5_21f0, 0x35) == 0xf075_8513_239c_7e0d
    ensures CrcByte(0xf075_8513_239c_7e0d, 0x36) == 0xa3a9_0925_b2ab_4903
  {
    ByteCheck(0xd5bc_fb81_4479_b1ac, 0x34, 0x4359_3c5d_cda5_21f0);
    ByteCheck(0x4359_3c5d_cda5_21f0, 0x35, 0xf075_8513_239c_7e0d);
    ByteCheck(0xf075_8513_239c_7e0d, 0x36, 0xa3a9_0925_b2ab_4903);
  }

  lemma CheckDigits3()
    ensures CrcByte(0xa3a9_0925_b2ab_4903, 0x37) == 0x4782_4d36_2431_ad45
    ensures CrcByte(0x4782_4d36_2431_ad45, 0x38) == 0x49ec_20b3_15e8_6dc2
    ensures CrcByte(0x49ec_20b3_15e8_6dc2, 0x39) == 0xe9c6_d914_c4b8_d9ca
  {
    ByteCheck(0xa3a9_0925_b2ab_4903, 0x37, 0x4782_4d36_2431_ad45);
    ByteCheck(0x4782_4d36_2431_ad45, 0x38, 0x49ec_20b3_15e8_6dc2);
    ByteCheck(0x49ec_20b3_15e8_6dc2, 0x39, 0xe9c6_d914_c4b8_d9ca);
  }
}
