/** Bytes as numbers: exclusive or, and taking larger numbers apart into bytes. */
module Octets {
  type byte = x: int | 0 <= x < 256

  function Pow2(k: nat): (p: nat)
    ensures p > 0
  {
    if k == 0 then 1 else 2 * Pow2(k - 1)
  }

  lemma PowZero()
    ensures Pow2(0) == 1
  {}

  // A quotient and remainder are known by their sizes.
  lemma Quotient(n: int, d: int, q: int, r: int)
    requires d > 0 && n == d * q + r && 0 <= r < d
    ensures n / d == q && n % d == r
  {
    var e := n / d - q;
    assert n == d * (n / d) + n % d;
    assert d * (n / d) == d * q + d * e;
    assert e >= 1 ==> d * e >= d;
    assert e <= -1 ==> d * e <= -d;
  }

  lemma HalfAgain(n: nat, k: nat)
    ensures n / 2 / Pow2(k) == n / Pow2(k + 1)
  {
    var p, q, r := Pow2(k), n / 2 / Pow2(k), n / 2 % Pow2(k);
    assert n / 2 == p * q + r;
    assert n == 2 * (p * q + r) + n % 2;
    assert n == (2 * p) * q + (2 * r + n % 2) by { assert 2 * (p * q) == (2 * p) * q; }
    Quotient(n, 2 * p, q, 2 * r + n % 2);
  }

  // c << (8 * k)
  function Shifted(c: byte, k: nat): nat
    requires k < 8
  {
    match k
    case 0 => c
    case 1 => c * 0x100
    case 2 => c * 0x1_0000
    case 3 => c * 0x100_0000
    case 4 => c * 0x1_0000_0000
    case 5 => c * 0x100_0000_0000
    case 6 => c * 0x1_0000_0000_0000
    case 7 => c * 0x100_0000_0000_0000
  }

  // (n >> (8 * k)) & 0xff
  function Digit(n: nat, k: nat): byte
    requires k < 8
  {
    match k
    case 0 => n % 256
    case 1 => n / 0x100 % 256
    case 2 => n / 0x1_0000 % 256
    case 3 => n / 0x100_0000 % 256
    case 4 => n / 0x1_0000_0000 % 256
    case 5 => n / 0x100_0000_0000 % 256
    case 6 => n / 0x1_0000_0000_0000 % 256
    case 7 => n / 0x100_0000_0000_0000 % 256
  }

  // What the last k digits add up to.
  function Low(n: nat, k: nat): nat
    requires k <= 8
  {
    match k
    case 0 => 0
    case 1 => n % 0x100
    case 2 => n % 0x1_0000
    case 3 => n % 0x100_0000
    case _ => n
  }

  lemma Low16(n: nat)
    ensures n % 0x1_0000 == (n / 0x100 % 256) * 0x100 + n % 0x100
  {
    Quotient(n, 0x1_0000, n / 0x100 / 256, (n / 0x100 % 256) * 0x100 + n % 0x100);
  }

  lemma Low24(n: nat)
    ensures n % 0x100_0000 == (n / 0x1_0000 % 256) * 0x1_0000 + n % 0x1_0000
  {
    Quotient(n, 0x100_0000, n / 0x1_0000 / 256, (n / 0x1_0000 % 256) * 0x1_0000 + n % 0x1_0000);
  }

  lemma Low32(n: nat)
    requires n < 0x8000_0000
    ensures n == (n / 0x100_0000 % 256) * 0x100_0000 + n % 0x100_0000
    ensures n / 0x1_0000_0000 == 0
  {}

  lemma LowNext(n: nat, k: nat)
    requires k < 8 && n < 0x8000_0000
    ensures Low(n, k + 1) == Shifted(Digit(n, k), k) + Low(n, k)
  {
    match k
    case 0 =>
    case 1 => Low16(n);
    case 2 => Low24(n);
    case 3 => Low32(n);
    case _ => HighDigit(n, k);
  }

  lemma LowEnds(n: nat)
    requires n < 0x8000_0000
    ensures Low(n, 0) == 0 && Low(n, 8) == n && Digit(n, 7) == 0
  {
    HighDigit(n, 7);
  }

  // Above the fourth byte there is nothing.
  lemma HighDigit(n: nat, k: nat)
    requires 4 <= k < 8 && n < 0x8000_0000
    ensures Digit(n, k) == 0
  {}

  // Exclusive or of k-bit numbers, lowest bit first.
  function XorBits(a: nat, b: nat, k: nat): (r: nat)
    ensures r < Pow2(k)
    decreases k
  {
    if k == 0 then 0 else (if a % 2 == b % 2 then 0 else 1) + 2 * XorBits(a / 2, b / 2, k - 1)
  }

  function Xor(a: byte, b: byte): byte {
    assert Pow2(8) == 256;
    XorBits(a, b, 8)
  }

  // The lowest bit of an exclusive or, and the others.
  lemma XorBitsParts(a: nat, b: nat, k: nat)
    requires k > 0
    ensures XorBits(a, b, k) / 2 == XorBits(a / 2, b / 2, k - 1)
    ensures XorBits(a, b, k) % 2 == if a % 2 == b % 2 then 0 else 1
  {}

  lemma HalfBelow(a: nat, k: nat)
    requires k > 0 && a < Pow2(k)
    ensures a / 2 < Pow2(k - 1)
  {}

  lemma {:induction false} XorBitsTwice(a: nat, b: nat, k: nat)
    requires a < Pow2(k)
    ensures XorBits(XorBits(a, b, k), b, k) == a && XorBits(a, 0, k) == a
    decreases k
  {
    if k > 0 {
      var x := XorBits(a, b, k);
      HalfBelow(a, k);
      XorBitsTwice(a / 2, b / 2, k - 1);
      XorBitsParts(a, b, k);
      XorBitsParts(x, b, k);
      XorBitsParts(a, 0, k);
      hide XorBits, Pow2;
    }
  }

  lemma XorTwice(a: byte, b: byte)
    ensures Xor(Xor(a, b), b) == a && Xor(a, 0) == a
  {
    assert Pow2(8) == 256;
    XorBitsTwice(a, b, 8);
  }

  // Bit k of a number.
  predicate BitOf(n: nat, k: nat) { n / Pow2(k) % 2 == 1 }

  lemma {:induction false} XorBitsBit(a: nat, b: nat, n: nat, k: nat)
    requires k < n
    ensures BitOf(XorBits(a, b, n), k) <==> BitOf(a, k) != BitOf(b, k)
    decreases n
  {
    hide Pow2, XorBits;
    var x := XorBits(a, b, n);
    XorBitsParts(a, b, n);
    if k == 0 {
      PowZero();
    } else {
      XorBitsBit(a / 2, b / 2, n - 1, k - 1);
      HalfAgain(a, k - 1);
      HalfAgain(b, k - 1);
      HalfAgain(x, k - 1);
    }
  }

  // A bit of an exclusive or is set when it is set in exactly one of the two bytes.
  lemma XorBit(a: byte, b: byte, k: nat)
    requires k < 8
    ensures BitOf(Xor(a, b), k) <==> BitOf(a, k) != BitOf(b, k)
  {
    hide BitOf;
    XorBitsBit(a, b, 8, k);
  }

  // Taking off the bits from k on does not change the others.
  lemma {:induction false} LowBits(n: nat, k: nat, j: nat)
    requires j < k
    ensures BitOf(n % Pow2(k), j) <==> BitOf(n, j)
    decreases k
  {
    var p, q, r := Pow2(k - 1), n / Pow2(k), n % Pow2(k);
    assert Pow2(k) == 2 * p;
    assert n == 2 * (p * q) + r by {
      assert n == Pow2(k) * q + r;
      assert (2 * p) * q == 2 * (p * q);
    }
    Quotient(n / 2, p, q, r / 2);
    hide Pow2;
    if j == 0 {
      PowZero();
    } else {
      LowBits(n / 2, k - 1, j - 1);
      HalfAgain(n, j - 1);
      HalfAgain(r, j - 1);
    }
  }
}
