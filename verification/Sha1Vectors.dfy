/** The operations of SHA-1 against their laws, and the first test of section 7.3 of RFC 3174:
    the digest of "abc", followed through all eighty rounds. */
module Sha1Vectors {
  import opened Sha1

  // ---------------------------------------------------------------------------
  // The operations
  // ---------------------------------------------------------------------------

  // b chooses between c and d, bit by bit.
  lemma ChooseLaw(b: bv32, c: bv32, d: bv32)
    ensures b & Choose(b, c, d) == b & c && !b & Choose(b, c, d) == !b & d
  {}

  // Every bit is the parity of the three.
  lemma ParityLaw(b: bv32, c: bv32, d: bv32)
    ensures Parity(b, c, d) ^ d == b ^ c
  {}

  // Every bit is what at least two of the three agree on.
  lemma MajorityLaw(b: bv32, c: bv32, d: bv32)
    ensures Majority(b, b, d) == b
    ensures Majority(b, c, d) == Majority(c, b, d)
  {}

  lemma MajorityTurns(b: bv32, c: bv32, d: bv32)
    ensures Majority(b, c, d) == Majority(b, d, c)
  {}

  // ... each bit from the bits in its place alone.
  lemma MajorityMasked(b: bv32, c: bv32, d: bv32, m: bv32)
    ensures Majority(b & m, c & m, d & m) == Majority(b, c, d) & m
  {}

  // Which of them is used when, and with what constant.
  lemma RoundFunctions(t: nat, b: bv32, c: bv32, d: bv32)
    requires t < 80
    ensures F(t, b, c, d) ==
            match t / 20 case 0 => Choose(b, c, d) case 2 => Majority(b, c, d) case _ => Parity(b, c, d)
    ensures K(t) == match t / 20 case 0 => 0x5a827999 case 1 => 0x6ed9eba1 case 2 => 0x8f1bbcdc case _ => 0xca62c1d6
  {
    hide Choose, Parity, Majority;
  }

  // The constants are the integral parts of 2^30 times the square roots of 2, 3, 5 and 10.
  lemma Roots()
    ensures 0x5a827999 * 0x5a827999 <= 2 * 0x1000_0000_0000_0000 < 0x5a82799a * 0x5a82799a
    ensures 0x6ed9eba1 * 0x6ed9eba1 <= 3 * 0x1000_0000_0000_0000 < 0x6ed9eba2 * 0x6ed9eba2
    ensures 0x8f1bbcdc * 0x8f1bbcdc <= 5 * 0x1000_0000_0000_0000 < 0x8f1bbcdd * 0x8f1bbcdd
    ensures 0xca62c1d6 * 0xca62c1d6 <= 10 * 0x1000_0000_0000_0000 < 0xca62c1d7 * 0xca62c1d7
  {}

  lemma Rotations(x: bv32)
    ensures Rotl1(x) == x.RotateLeft(1) && Rotl5(x) == x.RotateLeft(5) && Rotl30(x) == x.RotateLeft(30)
  {}

  // ---------------------------------------------------------------------------
  // The message
  // ---------------------------------------------------------------------------

  const ABC: seq<bv8> := [0x61, 0x62, 0x63]

  const M: Block := [0x61626380] + seq(14, _ => 0) + [0x00000018]

  lemma LowByteZero()
    ensures LowByte(0) == 0
  {}

  lemma LowByteAbc()
    ensures LowByte(24) == 24
  {}

  lemma AbcLength()
    ensures LengthBytes(24) == [0, 0, 0, 0, 0, 0, 0, 24]
  {
    hide LowByte;
    LowByteZero();
    LowByteAbc();
  }

  // A bit count that uses all eight bytes, highest first.
  const COUNT := 0x0102_0304_0506_0708

  lemma CountByte0()
    ensures LengthByte(COUNT, 0) == 8
  {
    assert COUNT / 0x1 == 0x102030405060708 && 0x102030405060708 % 256 == 8;
  }

  lemma CountByte1()
    ensures LengthByte(COUNT, 1) == 7
  {
    assert COUNT / 0x100 == 0x1020304050607 && 0x1020304050607 % 256 == 7;
  }

  lemma CountByte2()
    ensures LengthByte(COUNT, 2) == 6
  {
    assert COUNT / 0x10000 == 0x10203040506 && 0x10203040506 % 256 == 6;
  }

  lemma CountByte3()
    ensures LengthByte(COUNT, 3) == 5
  {
    assert COUNT / 0x1000000 == 0x102030405 && 0x102030405 % 256 == 5;
  }

  lemma CountByte4()
    ensures LengthByte(COUNT, 4) == 4
  {
    assert COUNT / 0x100000000 == 0x1020304 && 0x1020304 % 256 == 4;
  }

  lemma CountByte5()
    ensures LengthByte(COUNT, 5) == 3
  {
    assert COUNT / 0x10000000000 == 0x10203 && 0x10203 % 256 == 3;
  }

  lemma CountByte6()
    ensures LengthByte(COUNT, 6) == 2
  {
    assert COUNT / 0x1000000000000 == 0x102 && 0x102 % 256 == 2;
  }

  lemma CountByte7()
    ensures LengthByte(COUNT, 7) == 1
  {
    assert COUNT / 0x100000000000000 == 0x1 && 0x1 % 256 == 1;
  }

  lemma LongLength()
    ensures LengthBytes(COUNT) == [1, 2, 3, 4, 5, 6, 7, 8]
  {
    hide LengthByte, COUNT;
    CountByte0();
    CountByte1();
    CountByte2();
    CountByte3();
    CountByte4();
    CountByte5();
    CountByte6();
    CountByte7();
  }

  lemma AbcPadded()
    ensures Padded(ABC) == [0x61, 0x62, 0x63, 0x80] + Zeros(52) + [0, 0, 0, 0, 0, 0, 0, 24]
  {
    AbcLength();
    hide LengthBytes;
    assert PadZeros(3) == 52;
    assert ABC + [0x80] == [0x61, 0x62, 0x63, 0x80];
  }

  // The block that the padding makes of the message.
  lemma AbcBlock()
    ensures |Padded(ABC)| == 64 && Words(Padded(ABC)) == M
  {
    hide Padded, LengthBytes;
    AbcPadded();
    WordValues();
    hide Word;
    var p := Padded(ABC);
    assert forall i | 4 <= i < 63 :: p[i] == 0;
    assert forall i | 1 <= i < 15 :: Words(p)[i] == Word(0, 0, 0, 0);
  }

  lemma WordValues()
    ensures Word(0x61, 0x62, 0x63, 0x80) == 0x61626380 && Word(0, 0, 0, 0) == 0 && Word(0, 0, 0, 24) == 0x00000018
  {}

  // ---------------------------------------------------------------------------
  // The schedule
  // ---------------------------------------------------------------------------

  lemma FirstWords()
    ensures W(M, 0) == 0x61626380 && W(M, 15) == 0x00000018 && forall t | 1 <= t < 15 :: W(M, t) == 0
  {}

  lemma Next(t: nat, x: bv32, y: bv32, z: bv32, v: bv32)
    requires t >= 16 && W(M, t - 3) == x && W(M, t - 8) == y && W(M, t - 14) == z && W(M, t - 16) == v
    ensures W(M, t) == Mix(x, y, z, v)
  {
    hide Mix, M;
  }

  lemma Words16()
    ensures W(M, 16) == 0xc2c4c700 && W(M, 17) == 0x00000000
    ensures W(M, 18) == 0x00000030 && W(M, 19) == 0x85898e01
    ensures W(M, 20) == 0x00000000 && W(M, 21) == 0x00000060
    ensures W(M, 22) == 0x0b131c03 && W(M, 23) == 0x00000030
  {
    hide W, M;
    FirstWords();
    Next(16, 0x00000000, 0x00000000, 0x00000000, 0x61626380);
    Next(17, 0x00000000, 0x00000000, 0x00000000, 0x00000000);
    Next(18, 0x00000018, 0x00000000, 0x00000000, 0x00000000);
    Next(19, 0xc2c4c700, 0x00000000, 0x00000000, 0x00000000);
    Next(20, 0x00000000, 0x00000000, 0x00000000, 0x00000000);
    Next(21, 0x00000030, 0x00000000, 0x00000000, 0x00000000);
    Next(22, 0x85898e01, 0x00000000, 0x00000000, 0x00000000);
    Next(23, 0x00000000, 0x00000018, 0x00000000, 0x00000000);
  }

  lemma Words24()
    ensures W(M, 24) == 0x85898ec1 && W(M, 25) == 0x16263806
    ensures W(M, 26) == 0x00000000 && W(M, 27) == 0x00000180
    ensures W(M, 28) == 0x2c4c700c && W(M, 29) == 0x000000f0
    ensures W(M, 30) == 0x93afb507 && W(M, 31) == 0x5898e048
  {
    hide W, M;
    FirstWords();
    Words16();
    Next(24, 0x00000060, 0xc2c4c700, 0x00000000, 0x00000000);
    Next(25, 0x0b131c03, 0x00000000, 0x00000000, 0x00000000);
    Next(26, 0x00000030, 0x00000030, 0x00000000, 0x00000000);
    Next(27, 0x85898ec1, 0x85898e01, 0x00000000, 0x00000000);
    Next(28, 0x16263806, 0x00000000, 0x00000000, 0x00000000);
    Next(29, 0x00000000, 0x00000060, 0x00000018, 0x00000000);
    Next(30, 0x00000180, 0x0b131c03, 0xc2c4c700, 0x00000000);
    Next(31, 0x2c4c700c, 0x00000030, 0x00000000, 0x00000018);
  }

  lemma Words32()
    ensures W(M, 32) == 0x8e9a9202 && W(M, 33) == 0x00000600
    ensures W(M, 34) == 0xb131c0f0 && W(M, 35) == 0x16263bc6
    ensures W(M, 36) == 0x4ebed41e && W(M, 37) == 0x626380a1
    ensures W(M, 38) == 0x16263806 && W(M, 39) == 0x000018c0
  {
    hide W, M;
    Words16();
    Words24();
    Next(32, 0x000000f0, 0x85898ec1, 0x00000030, 0xc2c4c700);
    Next(33, 0x93afb507, 0x16263806, 0x85898e01, 0x00000000);
    Next(34, 0x5898e048, 0x00000000, 0x00000000, 0x00000030);
    Next(35, 0x8e9a9202, 0x00000180, 0x00000060, 0x85898e01);
    Next(36, 0x00000600, 0x2c4c700c, 0x0b131c03, 0x00000000);
    Next(37, 0xb131c0f0, 0x000000f0, 0x00000030, 0x00000060);
    Next(38, 0x16263bc6, 0x93afb507, 0x85898ec1, 0x0b131c03);
    Next(39, 0x4ebed41e, 0x5898e048, 0x16263806, 0x00000030);
  }

  lemma Words40()
    ensures W(M, 40) == 0xd2e138c4 && W(M, 41) == 0x00000f00
    ensures W(M, 42) == 0x3afb5079 && W(M, 43) == 0x898e04e5
    ensures W(M, 44) == 0xe2ba3c2b && W(M, 45) == 0x000060c0
    ensures W(M, 46) == 0x053a37cd && W(M, 47) == 0x74458547
  {
    hide W, M;
    Words24();
    Words32();
    Next(40, 0x626380a1, 0x8e9a9202, 0x00000000, 0x85898ec1);
    Next(41, 0x16263806, 0x00000600, 0x00000180, 0x16263806);
    Next(42, 0x000018c0, 0xb131c0f0, 0x2c4c700c, 0x00000000);
    Next(43, 0xd2e138c4, 0x16263bc6, 0x000000f0, 0x00000180);
    Next(44, 0x00000f00, 0x4ebed41e, 0x93afb507, 0x2c4c700c);
    Next(45, 0x3afb5079, 0x626380a1, 0x5898e048, 0x000000f0);
    Next(46, 0x898e04e5, 0x16263806, 0x8e9a9202, 0x93afb507);
    Next(47, 0xe2ba3c2b, 0x000018c0, 0x00000600, 0x5898e048);
  }

  lemma Words48()
    ensures W(M, 48) == 0xda9415ed && W(M, 49) == 0x26380a16
    ensures W(M, 50) == 0x626383a1 && W(M, 51) == 0x4ebf54de
    ensures W(M, 52) == 0x3835b44b && W(M, 53) == 0x0000f600
    ensures W(M, 54) == 0x1e84c7a3 && W(M, 55) == 0x98e04d98
  {
    hide W, M;
    Words32();
    Words40();
    Next(48, 0x000060c0, 0xd2e138c4, 0xb131c0f0, 0x8e9a9202);
    Next(49, 0x053a37cd, 0x00000f00, 0x16263bc6, 0x00000600);
    Next(50, 0x74458547, 0x3afb5079, 0x4ebed41e, 0xb131c0f0);
    Next(51, 0xda9415ed, 0x898e04e5, 0x626380a1, 0x16263bc6);
    Next(52, 0x26380a16, 0xe2ba3c2b, 0x16263806, 0x4ebed41e);
    Next(53, 0x626383a1, 0x000060c0, 0x000018c0, 0x626380a1);
    Next(54, 0x4ebf54de, 0x053a37cd, 0xd2e138c4, 0x16263806);
    Next(55, 0x3835b44b, 0x74458547, 0x00000f00, 0x000018c0);
  }

  lemma Words56()
    ensures W(M, 56) == 0x651d16a0 && W(M, 57) == 0x62658ca1
    ensures W(M, 58) == 0x458544d6 && W(M, 59) == 0x44584cb7
    ensures W(M, 60) == 0x7ba06619 && W(M, 61) == 0x6380aea2
    ensures W(M, 62) == 0x0ae55269 && W(M, 63) == 0x627b49a1
  {
    hide W, M;
    Words40();
    Words48();
    Next(56, 0x0000f600, 0xda9415ed, 0x3afb5079, 0xd2e138c4);
    Next(57, 0x1e84c7a3, 0x26380a16, 0x898e04e5, 0x00000f00);
    Next(58, 0x98e04d98, 0x626383a1, 0xe2ba3c2b, 0x3afb5079);
    Next(59, 0x651d16a0, 0x4ebf54de, 0x000060c0, 0x898e04e5);
    Next(60, 0x62658ca1, 0x3835b44b, 0x053a37cd, 0xe2ba3c2b);
    Next(61, 0x458544d6, 0x0000f600, 0x74458547, 0x000060c0);
    Next(62, 0x44584cb7, 0x1e84c7a3, 0xda9415ed, 0x053a37cd);
    Next(63, 0x7ba06619, 0x98e04d98, 0x26380a16, 0x74458547);
  }

  lemma Words64()
    ensures W(M, 64) == 0x7cd45c9d && W(M, 65) == 0x000f0000
    ensures W(M, 66) == 0xfb50753a && W(M, 67) == 0xec6765e8
    ensures W(M, 68) == 0xba3c2be2 && W(M, 69) == 0x0060c000
    ensures W(M, 70) == 0x3a37cd05 && W(M, 71) == 0x458546f4
  {
    hide W, M;
    Words48();
    Words56();
    Next(64, 0x6380aea2, 0x651d16a0, 0x626383a1, 0xda9415ed);
    Next(65, 0x0ae55269, 0x62658ca1, 0x4ebf54de, 0x26380a16);
    Next(66, 0x627b49a1, 0x458544d6, 0x3835b44b, 0x626383a1);
    Next(67, 0x7cd45c9d, 0x44584cb7, 0x0000f600, 0x4ebf54de);
    Next(68, 0x000f0000, 0x7ba06619, 0x1e84c7a3, 0x3835b44b);
    Next(69, 0xfb50753a, 0x6380aea2, 0x98e04d98, 0x0000f600);
    Next(70, 0xec6765e8, 0x0ae55269, 0x651d16a0, 0x1e84c7a3);
    Next(71, 0xba3c2be2, 0x627b49a1, 0x62658ca1, 0x98e04d98);
  }

  lemma Words72()
    ensures W(M, 72) == 0xb8599dd6 && W(M, 73) == 0x380a1a26
    ensures W(M, 74) == 0x01e02203 && W(M, 75) == 0xe7cc3456
    ensures W(M, 76) == 0xe6e60b69 && W(M, 77) == 0x00f60a00
    ensures W(M, 78) == 0x5795ef4f && W(M, 79) == 0x822e0879
  {
    hide W, M;
    Words56();
    Words64();
    Next(72, 0x0060c000, 0x7cd45c9d, 0x458544d6, 0x651d16a0);
    Next(73, 0x3a37cd05, 0x000f0000, 0x44584cb7, 0x62658ca1);
    Next(74, 0x458546f4, 0xfb50753a, 0x7ba06619, 0x458544d6);
    Next(75, 0xb8599dd6, 0xec6765e8, 0x6380aea2, 0x44584cb7);
    Next(76, 0x380a1a26, 0xba3c2be2, 0x0ae55269, 0x7ba06619);
    Next(77, 0x01e02203, 0x0060c000, 0x627b49a1, 0x6380aea2);
    Next(78, 0xe7cc3456, 0x3a37cd05, 0x7cd45c9d, 0x0ae55269);
    Next(79, 0xe6e60b69, 0x458546f4, 0x000f0000, 0x627b49a1);
  }

  // ---------------------------------------------------------------------------
  // The rounds
  // ---------------------------------------------------------------------------

  lemma Advance(t: nat, r: Regs, w: bv32)
    requires t < 80 && Rounds(M, IV, t) == r && W(M, t) == w
    ensures Rounds(M, IV, t + 1) == Round(t, r, w)
  {
    hide Round, W, M, IV;
  }

  lemma Rounds8()
    ensures Rounds(M, IV, 8) == Regs(0x9e8c07d4, 0x993e30c1, 0x0ff1f290, 0xb3f52677, 0xf3763846)
  {
    hide Rounds, W, M, IV;
    RoundsStart(M, IV);
    Initial();
    FirstWords();
    Advance(0, Regs(0x67452301, 0xefcdab89, 0x98badcfe, 0x10325476, 0xc3d2e1f0), 0x61626380);
    Advance(1, Regs(0x0116fc33, 0x67452301, 0x7bf36ae2, 0x98badcfe, 0x10325476), 0x00000000);
    Advance(2, Regs(0x8990536d, 0x0116fc33, 0x59d148c0, 0x7bf36ae2, 0x98badcfe), 0x00000000);
    Advance(3, Regs(0xa1390f08, 0x8990536d, 0xc045bf0c, 0x59d148c0, 0x7bf36ae2), 0x00000000);
    Advance(4, Regs(0xcdd8e11b, 0xa1390f08, 0x626414db, 0xc045bf0c, 0x59d148c0), 0x00000000);
    Advance(5, Regs(0xcfd499de, 0xcdd8e11b, 0x284e43c2, 0x626414db, 0xc045bf0c), 0x00000000);
    Advance(6, Regs(0x3fc7ca40, 0xcfd499de, 0xf3763846, 0x284e43c2, 0x626414db), 0x00000000);
    Advance(7, Regs(0x993e30c1, 0x3fc7ca40, 0xb3f52677, 0xf3763846, 0x284e43c2), 0x00000000);
  }

  lemma Rounds16()
    ensures Rounds(M, IV, 16) == Regs(0x20bdd62f, 0x196bee77, 0x644a3da5, 0x1181ed99, 0x18c623f9)
  {
    hide Rounds, W, M, IV;
    Rounds8();
    FirstWords();
    Advance(8, Regs(0x9e8c07d4, 0x993e30c1, 0x0ff1f290, 0xb3f52677, 0xf3763846), 0x00000000);
    Advance(9, Regs(0x4b6ae328, 0x9e8c07d4, 0x664f8c30, 0x0ff1f290, 0xb3f52677), 0x00000000);
    Advance(10, Regs(0x8351f929, 0x4b6ae328, 0x27a301f5, 0x664f8c30, 0x0ff1f290), 0x00000000);
    Advance(11, Regs(0xfbda9e89, 0x8351f929, 0x12dab8ca, 0x27a301f5, 0x664f8c30), 0x00000000);
    Advance(12, Regs(0x63188fe4, 0xfbda9e89, 0x60d47e4a, 0x12dab8ca, 0x27a301f5), 0x00000000);
    Advance(13, Regs(0x4607b664, 0x63188fe4, 0x7ef6a7a2, 0x60d47e4a, 0x12dab8ca), 0x00000000);
    Advance(14, Regs(0x9128f695, 0x4607b664, 0x18c623f9, 0x7ef6a7a2, 0x60d47e4a), 0x00000000);
    Advance(15, Regs(0x196bee77, 0x9128f695, 0x1181ed99, 0x18c623f9, 0x7ef6a7a2), 0x00000018);
  }

  lemma Rounds24()
    ensures Rounds(M, IV, 24) == Regs(0xd541f12d, 0x21283486, 0x0ce88eff, 0x868dec32, 0x7f67875f)
  {
    hide Rounds, W, M, IV;
    Rounds16();
    Words16();
    Advance(16, Regs(0x20bdd62f, 0x196bee77, 0x644a3da5, 0x1181ed99, 0x18c623f9), 0xc2c4c700);
    Advance(17, Regs(0x4e925823, 0x20bdd62f, 0xc65afb9d, 0x644a3da5, 0x1181ed99), 0x00000000);
    Advance(18, Regs(0x82aa6728, 0x4e925823, 0xc82f758b, 0xc65afb9d, 0x644a3da5), 0x00000030);
    Advance(19, Regs(0xdc64901d, 0x82aa6728, 0xd3a49608, 0xc82f758b, 0xc65afb9d), 0x85898e01);
    Advance(20, Regs(0xfd9e1d7d, 0xdc64901d, 0x20aa99ca, 0xd3a49608, 0xc82f758b), 0x00000000);
    Advance(21, Regs(0x1a37b0ca, 0xfd9e1d7d, 0x77192407, 0x20aa99ca, 0xd3a49608), 0x00000060);
    Advance(22, Regs(0x33a23bfc, 0x1a37b0ca, 0x7f67875f, 0x77192407, 0x20aa99ca), 0x0b131c03);
    Advance(23, Regs(0x21283486, 0x33a23bfc, 0x868dec32, 0x7f67875f, 0x77192407), 0x00000030);
  }

  lemma Rounds32()
    ensures Rounds(M, IV, 32) == Regs(0x3b845d33, 0x1267b407, 0x717eebd7, 0xa0dc2d4b, 0xd2aa1365)
  {
    hide Rounds, W, M, IV;
    Rounds24();
    Words24();
    Advance(24, Regs(0xd541f12d, 0x21283486, 0x0ce88eff, 0x868dec32, 0x7f67875f), 0x85898ec1);
    Advance(25, Regs(0xc7567dc6, 0xd541f12d, 0x884a0d21, 0x0ce88eff, 0x868dec32), 0x16263806);
    Advance(26, Regs(0x48413ba4, 0xc7567dc6, 0x75507c4b, 0x884a0d21, 0x0ce88eff), 0x00000000);
    Advance(27, Regs(0xbe35fbd5, 0x48413ba4, 0xb1d59f71, 0x75507c4b, 0x884a0d21), 0x00000180);
    Advance(28, Regs(0x4aa84d97, 0xbe35fbd5, 0x12104ee9, 0xb1d59f71, 0x75507c4b), 0x2c4c700c);
    Advance(29, Regs(0x8370b52e, 0x4aa84d97, 0x6f8d7ef5, 0x12104ee9, 0xb1d59f71), 0x000000f0);
    Advance(30, Regs(0xc5fbaf5d, 0x8370b52e, 0xd2aa1365, 0x6f8d7ef5, 0x12104ee9), 0x93afb507);
    Advance(31, Regs(0x1267b407, 0xc5fbaf5d, 0xa0dc2d4b, 0xd2aa1365, 0x6f8d7ef5), 0x5898e048);
  }

  lemma Rounds40()
    ensures Rounds(M, IV, 40) == Regs(0x32de1cba, 0x4c986405, 0xf718e5cf, 0x03d447f6, 0xf72eec32)
  {
    hide Rounds, W, M, IV;
    Rounds32();
    Words32();
    Advance(32, Regs(0x3b845d33, 0x1267b407, 0x717eebd7, 0xa0dc2d4b, 0xd2aa1365), 0x8e9a9202);
    Advance(33, Regs(0x046faa0a, 0x3b845d33, 0xc499ed01, 0x717eebd7, 0xa0dc2d4b), 0x00000600);
    Advance(34, Regs(0x2c0ebc11, 0x046faa0a, 0xcee1174c, 0xc499ed01, 0x717eebd7), 0xb131c0f0);
    Advance(35, Regs(0x21796ad4, 0x2c0ebc11, 0x811bea82, 0xcee1174c, 0xc499ed01), 0x16263bc6);
    Advance(36, Regs(0xdcbbb0cb, 0x21796ad4, 0x4b03af04, 0x811bea82, 0xcee1174c), 0x4ebed41e);
    Advance(37, Regs(0x0f511fd8, 0xdcbbb0cb, 0x085e5ab5, 0x4b03af04, 0x811bea82), 0x626380a1);
    Advance(38, Regs(0xdc63973f, 0x0f511fd8, 0xf72eec32, 0x085e5ab5, 0x4b03af04), 0x16263806);
    Advance(39, Regs(0x4c986405, 0xdc63973f, 0x03d447f6, 0xf72eec32, 0x085e5ab5), 0x000018c0);
  }

  lemma Rounds48()
    ensures Rounds(M, IV, 48) == Regs(0xbead02ca, 0xa01b846c, 0x8714787c, 0x503ca382, 0xfb86c6ab)
  {
    hide Rounds, W, M, IV;
    Rounds40();
    Words40();
    Advance(40, Regs(0x32de1cba, 0x4c986405, 0xf718e5cf, 0x03d447f6, 0xf72eec32), 0xd2e138c4);
    Advance(41, Regs(0xfc87dedf, 0x32de1cba, 0x53261901, 0xf718e5cf, 0x03d447f6), 0x00000f00);
    Advance(42, Regs(0x970a0d5c, 0xfc87dedf, 0x8cb7872e, 0x53261901, 0xf718e5cf), 0x3afb5079);
    Advance(43, Regs(0x7f193dc5, 0x970a0d5c, 0xff21f7b7, 0x8cb7872e, 0x53261901), 0x898e04e5);
    Advance(44, Regs(0xee1b1aaf, 0x7f193dc5, 0x25c28357, 0xff21f7b7, 0x8cb7872e), 0xe2ba3c2b);
    Advance(45, Regs(0x40f28e09, 0xee1b1aaf, 0x5fc64f71, 0x25c28357, 0xff21f7b7), 0x000060c0);
    Advance(46, Regs(0x1c51e1f2, 0x40f28e09, 0xfb86c6ab, 0x5fc64f71, 0x25c28357), 0x053a37cd);
    Advance(47, Regs(0xa01b846c, 0x1c51e1f2, 0x503ca382, 0xfb86c6ab, 0x5fc64f71), 0x74458547);
  }

  lemma Rounds56()
    ensures Rounds(M, IV, 56) == Regs(0x5e6456af, 0x7b71f76d, 0x09fa7c76, 0x792410db, 0x8e11eb59)
  {
    hide Rounds, W, M, IV;
    Rounds48();
    Words48();
    Advance(48, Regs(0xbead02ca, 0xa01b846c, 0x8714787c, 0x503ca382, 0xfb86c6ab), 0xda9415ed);
    Advance(49, Regs(0xbaf39337, 0xbead02ca, 0x2806e11b, 0x8714787c, 0x503ca382), 0x26380a16);
    Advance(50, Regs(0x120731c5, 0xbaf39337, 0xafab40b2, 0x2806e11b, 0x8714787c), 0x626383a1);
    Advance(51, Regs(0x641db2ce, 0x120731c5, 0xeebce4cd, 0xafab40b2, 0x2806e11b), 0x4ebf54de);
    Advance(52, Regs(0x3847ad66, 0x641db2ce, 0x4481cc71, 0xeebce4cd, 0xafab40b2), 0x3835b44b);
    Advance(53, Regs(0xe490436d, 0x3847ad66, 0x99076cb3, 0x4481cc71, 0xeebce4cd), 0x0000f600);
    Advance(54, Regs(0x27e9f1d8, 0xe490436d, 0x8e11eb59, 0x99076cb3, 0x4481cc71), 0x1e84c7a3);
    Advance(55, Regs(0x7b71f76d, 0x27e9f1d8, 0x792410db, 0x8e11eb59, 0x99076cb3), 0x98e04d98);
  }

  lemma Rounds64()
    ensures Rounds(M, IV, 64) == Regs(0x6b61c9e1, 0xb66c020b, 0x9523272c, 0xf5d5b051, 0x8fd4b796)
  {
    hide Rounds, W, M, IV;
    Rounds56();
    Words56();
    Advance(56, Regs(0x5e6456af, 0x7b71f76d, 0x09fa7c76, 0x792410db, 0x8e11eb59), 0x651d16a0);
    Advance(57, Regs(0xc846093f, 0x5e6456af, 0x5edc7ddb, 0x09fa7c76, 0x792410db), 0x62658ca1);
    Advance(58, Regs(0xd262ff50, 0xc846093f, 0xd79915ab, 0x5edc7ddb, 0x09fa7c76), 0x458544d6);
    Advance(59, Regs(0x09d785fd, 0xd262ff50, 0xf211824f, 0xd79915ab, 0x5edc7ddb), 0x44584cb7);
    Advance(60, Regs(0x3f52de5a, 0x09d785fd, 0x3498bfd4, 0xf211824f, 0xd79915ab), 0x7ba06619);
    Advance(61, Regs(0xd756c147, 0x3f52de5a, 0x4275e17f, 0x3498bfd4, 0xf211824f), 0x6380aea2);
    Advance(62, Regs(0x548c9cb2, 0xd756c147, 0x8fd4b796, 0x4275e17f, 0x3498bfd4), 0x0ae55269);
    Advance(63, Regs(0xb66c020b, 0x548c9cb2, 0xf5d5b051, 0x8fd4b796, 0x4275e17f), 0x627b49a1);
  }

  lemma Rounds72()
    ensures Rounds(M, IV, 72) == Regs(0x39859de7, 0xc199f8c7, 0x8fc96230, 0x125c24f0, 0xde37534a)
  {
    hide Rounds, W, M, IV;
    Rounds64();
    Words64();
    Advance(64, Regs(0x6b61c9e1, 0xb66c020b, 0x9523272c, 0xf5d5b051, 0x8fd4b796), 0x7cd45c9d);
    Advance(65, Regs(0x19dfa7ac, 0x6b61c9e1, 0xed9b0082, 0x9523272c, 0xf5d5b051), 0x000f0000);
    Advance(66, Regs(0x101655f9, 0x19dfa7ac, 0x5ad87278, 0xed9b0082, 0x9523272c), 0xfb50753a);
    Advance(67, Regs(0x0c3df2b4, 0x101655f9, 0x0677e9eb, 0x5ad87278, 0xed9b0082), 0xec6765e8);
    Advance(68, Regs(0x78dd4d2b, 0x0c3df2b4, 0x4405957e, 0x0677e9eb, 0x5ad87278), 0xba3c2be2);
    Advance(69, Regs(0x497093c0, 0x78dd4d2b, 0x030f7cad, 0x4405957e, 0x0677e9eb), 0x0060c000);
    Advance(70, Regs(0x3f2588c2, 0x497093c0, 0xde37534a, 0x030f7cad, 0x4405957e), 0x3a37cd05);
    Advance(71, Regs(0xc199f8c7, 0x3f2588c2, 0x125c24f0, 0xde37534a, 0x030f7cad), 0x458546f4);
  }

  lemma Rounds80()
    ensures Rounds(M, IV, 80) == Regs(0x42541b35, 0x5738d5e1, 0x21834873, 0x681e6df6, 0xd8fdf6ad)
  {
    hide Rounds, W, M, IV;
    Rounds72();
    Words72();
    Advance(72, Regs(0x39859de7, 0xc199f8c7, 0x8fc96230, 0x125c24f0, 0xde37534a), 0xb8599dd6);
    Advance(73, Regs(0xedb42de4, 0x39859de7, 0xf0667e31, 0x8fc96230, 0x125c24f0), 0x380a1a26);
    Advance(74, Regs(0x11793f6f, 0xedb42de4, 0xce616779, 0xf0667e31, 0x8fc96230), 0x01e02203);
    Advance(75, Regs(0x5ee76897, 0x11793f6f, 0x3b6d0b79, 0xce616779, 0xf0667e31), 0xe7cc3456);
    Advance(76, Regs(0x63f7dab7, 0x5ee76897, 0xc45e4fdb, 0x3b6d0b79, 0xce616779), 0xe6e60b69);
    Advance(77, Regs(0xa079b7d9, 0x63f7dab7, 0xd7b9da25, 0xc45e4fdb, 0x3b6d0b79), 0x00f60a00);
    Advance(78, Regs(0x860d21cc, 0xa079b7d9, 0xd8fdf6ad, 0xd7b9da25, 0xc45e4fdb), 0x5795ef4f);
    Advance(79, Regs(0x5738d5e1, 0x860d21cc, 0x681e6df6, 0xd8fdf6ad, 0xd7b9da25), 0x822e0879);
  }

  lemma Initial()
    ensures IV == Regs(0x67452301, 0xefcdab89, 0x98badcfe, 0x10325476, 0xc3d2e1f0)
  {}

  lemma AbcHash()
    ensures Hash(IV, Padded(ABC)) == Regs(0xa9993e36, 0x4706816a, 0xba3e2571, 0x7850c26c, 0x9cd0d89d)
  {
    hide Rounds, Padded, Words, M;
    AbcBlock();
    Rounds80();
    var p := Padded(ABC);
    assert p[..64] == p && p[64..] == [];
    assert Hash(IV, p) == Hash(Compress(IV, Words(p)), []);
  }

  // SHA-1("abc") = a9993e36 4706816a ba3e2571 7850c26c 9cd0d89d
  lemma AbcDigest()
    ensures Digest(ABC) == [
              0xa9, 0x99, 0x3e, 0x36,
              0x47, 0x06, 0x81, 0x6a,
              0xba, 0x3e, 0x25, 0x71,
              0x78, 0x50, 0xc2, 0x6c,
              0x9c, 0xd0, 0xd8, 0x9d
            ]
  {
    hide Hash, Padded;
    AbcHash();
  }
}
