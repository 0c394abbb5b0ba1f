/** The polynomial of section 8 of RFC 1952, and the customary check value of CRC-32. */
module Crc32Vectors {
  import opened Crc32

  // The polynomial's terms below x^32, the lowest exponent in the highest bit.
  lemma Terms()
    ensures POLY == (1 << 31) | (1 << 30) | (1 << 29) | (1 << 27) | (1 << 26) | (1 << 24) | (1 << 23)
                  | (1 << 21) | (1 << 20) | (1 << 19) | (1 << 15) | (1 << 9) | (1 << 8) | (1 << 5)
  {}

  const DIGITS: seq<bv8> := [0x31, 0x32, 0x33, 0x34, 0x35, 0x36, 0x37, 0x38, 0x39]

  lemma Digit1()
    ensures ByteStep(0xffffffff, 0x31) == 0x7c231048
  {
    assert Bits(0xaff51d84, 4) == 0x7c231048;
  }

  lemma Digit2()
    ensures ByteStep(0x7c231048, 0x32) == 0xb0acbb32
  {
    assert Bits(0xd11492ef, 4) == 0xb0acbb32;
  }

  lemma Digit3()
    ensures ByteStep(0xb0acbb32, 0x33) == 0x77b79c2d
  {
    assert Bits(0x16bddbd4, 4) == 0x77b79c2d;
  }

  lemma Digit4()
    ensures ByteStep(0x77b79c2d, 0x34) == 0x641c1f5c
  {
    assert Bits(0xf774ea85, 4) == 0x641c1f5c;
  }

  lemma Digit5()
    ensures ByteStep(0x641c1f5c, 0x35) == 0x340ac5e3
  {
    assert Bits(0xf64e52b2, 4) == 0x340ac5e3;
  }

  lemma Digit6()
    ensures ByteStep(0x340ac5e3, 0x36) == 0xf68d2c9e
  {
    assert Bits(0x682bfda9, 4) == 0xf68d2c9e;
  }

  lemma Digit7()
    ensures ByteStep(0xf68d2c9e, 0x37) == 0xaffc9660
  {
    assert Bits(0xff67418e, 4) == 0xaffc9660;
  }

  lemma Digit8()
    ensures ByteStep(0xaffc9660, 0x38) == 0x651f2550
  {
    assert Bits(0xe7474a45, 4) == 0x651f2550;
  }

  lemma Digit9()
    ensures ByteStep(0x651f2550, 0x39) == 0x340bc6d9
  {
    assert Bits(0xf65e6112, 4) == 0x340bc6d9;
  }

  lemma OneMore(d: seq<bv8>, k: nat, b: bv8, c: bv32)
    requires k < |d| && d[k] == b && Register(ONES, d[..k]) == c
    ensures Register(ONES, d[..k + 1]) == ByteStep(c, b)
  {
    hide Register, ByteStep;
    RegisterByte(ONES, d, k);
  }

  lemma RegisterAll(d: seq<bv8>)
    requires |d| == 9 && forall i | 0 <= i < 9 :: d[i] == DIGITS[i]
    ensures Register(ONES, d) == 0x340bc6d9
  {
    hide Register, ByteStep;
    RegisterEmpty(ONES, d);
    Digit1();
    OneMore(d, 0, 0x31, 0xffffffff);
    Digit2();
    OneMore(d, 1, 0x32, 0x7c231048);
    Digit3();
    OneMore(d, 2, 0x33, 0xb0acbb32);
    Digit4();
    OneMore(d, 3, 0x34, 0x77b79c2d);
    Digit5();
    OneMore(d, 4, 0x35, 0x641c1f5c);
    Digit6();
    OneMore(d, 5, 0x36, 0x340ac5e3);
    Digit7();
    OneMore(d, 6, 0x37, 0xf68d2c9e);
    Digit8();
    OneMore(d, 7, 0x38, 0xaffc9660);
    Digit9();
    OneMore(d, 8, 0x39, 0x651f2550);
    assert d[..9] == d;
  }

  // CRC-32("123456789") = cbf43926
  lemma CheckValue()
    ensures Crc(DIGITS) == 0xcbf43926
  {
    RegisterAll(DIGITS);
    hide Register, DIGITS;
  }
}
