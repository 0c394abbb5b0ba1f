/** Combining two CRCs by repeated squaring of the zero-bit operator, a 32 by 32 matrix
    over GF(2) (gf2_matrix_times, gf2_matrix_square and crc32_combine_ of crc32.c). */
module Crc32Combine {
  import opened Crc32

  const DIM := 32

  predicate Odd(v: bv32) { v & 1 == 1 }
  function Half(v: bv32): bv32 { v >> 1 }

  // Rows i.. of the matrix times a vector: the sum of the rows selected by v's bits.
  function Times(mat: seq<bv32>, i: nat, v: bv32): bv32
    requires |mat| == DIM && i <= DIM
    decreases DIM - i
  {
    if i == DIM then 0 else Xor(if Odd(v) then mat[i] else 0, Times(mat, i + 1, Half(v)))
  }

  lemma OddXor(a: bv32, b: bv32)
    ensures Odd(Xor(a, b)) <==> Odd(a) != Odd(b)
  {
    LowXor(a, b);
  }

  lemma HalfXor(a: bv32, b: bv32)
    ensures Half(Xor(a, b)) == Xor(Half(a), Half(b))
  {}

  lemma HalfZero()
    ensures Half(0) == 0 && !Odd(0)
  {}

  lemma XorPairs(p: bv32, q: bv32, a: bv32, b: bv32)
    ensures Xor(Xor(p, a), Xor(q, b)) == Xor(Xor(p, q), Xor(a, b))
  {
    hide Xor;
    XorLaws(p, a, Xor(q, b));
    XorLaws(a, q, b);
    XorLaws(q, a, b);
    XorLaws(p, q, Xor(a, b));
  }

  // ---------------------------------------------------------------------------
  // Every matrix acts linearly, and squaring it is acting twice
  // ---------------------------------------------------------------------------

  lemma {:induction false} TimesZero(mat: seq<bv32>, i: nat)
    requires |mat| == DIM && i <= DIM
    ensures Times(mat, i, 0) == 0
    decreases DIM - i
  {
    hide Xor, Odd, Half;
    if i < DIM {
      HalfZero();
      TimesZero(mat, i + 1);
      XorLaws(0, 0, 0);
    }
  }

  lemma {:induction false} TimesLinear(mat: seq<bv32>, i: nat, a: bv32, b: bv32)
    requires |mat| == DIM && i <= DIM
    ensures Times(mat, i, Xor(a, b)) == Xor(Times(mat, i, a), Times(mat, i, b))
    decreases DIM - i
  {
    hide Xor, Odd, Half;
    XorLaws(0, 0, 0);
    if i < DIM {
      OddXor(a, b);
      HalfXor(a, b);
      TimesLinear(mat, i + 1, Half(a), Half(b));
      var p, q := if Odd(a) then mat[i] else 0, if Odd(b) then mat[i] else 0;
      XorLaws(mat[i], 0, 0);
      XorPairs(p, q, Times(mat, i + 1, Half(a)), Times(mat, i + 1, Half(b)));
    }
  }

  ghost predicate IsSquare(square: seq<bv32>, mat: seq<bv32>) {
    |square| == |mat| == DIM && forall n | 0 <= n < DIM :: square[n] == Times(mat, 0, mat[n])
  }

  lemma {:induction false} SquareComposes(square: seq<bv32>, mat: seq<bv32>, i: nat, v: bv32)
    requires IsSquare(square, mat) && i <= DIM
    ensures Times(square, i, v) == Times(mat, 0, Times(mat, i, v))
    decreases DIM - i
  {
    hide Xor, Odd, Half;
    TimesZero(mat, 0);
    if i < DIM {
      SquareComposes(square, mat, i + 1, Half(v));
      TimesLinear(mat, 0, if Odd(v) then mat[i] else 0, Times(mat, i + 1, Half(v)));
    }
  }

  // The matrix is the operator "k zero bits".
  ghost predicate ZeroBits(mat: seq<bv32>, k: nat) {
    |mat| == DIM && forall v :: Times(mat, 0, v) == Bits(v, k)
  }

  lemma SquareDoubles(square: seq<bv32>, mat: seq<bv32>, k: nat)
    requires IsSquare(square, mat) && ZeroBits(mat, k)
    ensures ZeroBits(square, 2 * k)
  {
    hide Bits, Times;
    forall v ensures Times(square, 0, v) == Bits(v, 2 * k) {
      SquareComposes(square, mat, 0, v);
      BitsAdd(v, k, k);
    }
  }

  // ---------------------------------------------------------------------------
  // The starting matrix is one bit step
  // ---------------------------------------------------------------------------

  ghost predicate Fits(v: bv32, n: nat)
    decreases n
  {
    if n == 0 then v == 0 else Fits(Half(v), n - 1)
  }

  lemma HalfEight(v: bv32)
    ensures Half(Half(Half(Half(Half(Half(Half(Half(v)))))))) == Upper(v)
  {}

  lemma FitsByte(v: bv32, n: nat)
    requires Fits(Upper(v), n)
    ensures Fits(v, n + 8)
  {
    hide Half, Upper;
    HalfEight(v);
    var v1 := Half(v);
    var v2 := Half(v1);
    var v3 := Half(v2);
    var v4 := Half(v3);
    var v5 := Half(v4);
    var v6 := Half(v5);
    var v7 := Half(v6);
    assert Fits(v7, n + 1) && Fits(v6, n + 2) && Fits(v5, n + 3) && Fits(v4, n + 4);
    assert Fits(v3, n + 5) && Fits(v2, n + 6) && Fits(v1, n + 7);
  }

  lemma UpperFour(v: bv32)
    ensures Upper(Upper(Upper(Upper(v)))) == 0
  {}

  lemma FitsAll(v: bv32)
    ensures Fits(v, DIM)
  {
    hide Half, Upper;
    UpperFour(v);
    FitsByte(Upper(Upper(Upper(v))), 0);
    FitsByte(Upper(Upper(v)), 8);
    FitsByte(Upper(v), 16);
    FitsByte(v, 24);
  }

  function Double(v: bv32): bv32 { v << 1 }

  function Shifted(v: bv32, k: nat): bv32
    decreases k
  {
    if k == 0 then v else Double(Shifted(v, k - 1))
  }

  ghost predicate OneZeroBit(mat: seq<bv32>) {
    |mat| == DIM && mat[0] == POLY && forall n | 1 <= n < DIM :: mat[n] == Shifted(1, n - 1)
  }

  lemma DoubleXor(a: bv32, b: bv32)
    ensures Double(Xor(a, b)) == Xor(Double(a), Double(b))
  {}

  lemma DoubleZero()
    ensures Double(0) == 0
  {}

  lemma {:induction false} ShiftedXor(a: bv32, b: bv32, k: nat)
    ensures Shifted(Xor(a, b), k) == Xor(Shifted(a, k), Shifted(b, k)) && Shifted(0, k) == 0
  {
    hide Xor, Double;
    if k > 0 {
      ShiftedXor(a, b, k - 1);
      DoubleXor(Shifted(a, k - 1), Shifted(b, k - 1));
      DoubleZero();
    }
  }

  lemma {:induction false} ShiftedDouble(a: bv32, k: nat)
    ensures Shifted(Double(a), k) == Shifted(a, k + 1)
  {
    hide Double;
    if k > 0 {
      ShiftedDouble(a, k - 1);
    }
  }

  lemma SplitLowBit(v: bv32)
    ensures v == Xor(if Odd(v) then 1 else 0, Double(Half(v)))
  {}

  // The rows below the first put every bit one place lower than it was.
  lemma {:induction false} UnitRows(mat: seq<bv32>, i: nat, v: bv32)
    requires OneZeroBit(mat) && 1 <= i <= DIM && Fits(v, DIM - i)
    ensures Times(mat, i, v) == Shifted(v, i - 1)
    decreases DIM - i
  {
    hide Xor, Odd, Half, Double;
    if i == DIM {
      ShiftedXor(0, 0, i - 1);
    } else {
      UnitRows(mat, i + 1, Half(v));
      SplitLowBit(v);
      ShiftedXor(if Odd(v) then 1 else 0, Double(Half(v)), i - 1);
      ShiftedDouble(Half(v), i - 1);
      ShiftedXor(0, 0, i - 1);
    }
  }

  lemma BitStepCases(v: bv32)
    ensures BitStep(v) == if Odd(v) then Xor(POLY, Half(v)) else Half(v)
  {}

  lemma BitStepParts(v: bv32)
    ensures BitStep(v) == Xor(if Odd(v) then POLY else 0, Half(v))
  {
    hide Xor, Odd, Half, BitStep;
    BitStepCases(v);
    XorLaws(Half(v), 0, 0);
  }

  lemma OneZeroBitStep(mat: seq<bv32>)
    requires OneZeroBit(mat)
    ensures ZeroBits(mat, 1)
  {
    hide Xor, Odd, Half, Double, Bits, BitStep;
    forall v ensures Times(mat, 0, v) == Bits(v, 1) {
      FitsAll(v);
      UnitRows(mat, 1, Half(v));
      BitsOne(v);
      BitStepParts(v);
    }
  }

  // ---------------------------------------------------------------------------
  // The methods
  // ---------------------------------------------------------------------------

  method MatrixTimes(mat: array<bv32>, vec: bv32) returns (sum: bv32)
    requires mat.Length == DIM
    ensures sum == Times(mat[..], 0, vec)
  {
    hide Xor, Odd, Half;
    ghost var m := mat[..];
    sum := 0;
    var v, i := vec, 0;
    FitsAll(vec);
    XorLaws(Times(m, 0, vec), 0, 0);
    XorLaws(0, Times(m, 0, vec), 0);
    while v != 0
      invariant i <= DIM && Fits(v, DIM - i)
      invariant Xor(sum, Times(m, i, v)) == Times(m, 0, vec)
      decreases DIM - i
    {
      var row: bv32 := if Odd(v) then mat[i] else 0;
      XorLaws(sum, row, Times(m, i + 1, Half(v)));
      XorLaws(sum, 0, 0);
      if Odd(v) {
        sum := Xor(sum, mat[i]);
      }
      v := Half(v);
      i := i + 1;
    }
    TimesZero(m, i);
    XorLaws(sum, 0, 0);
  }

  method MatrixSquare(square: array<bv32>, mat: array<bv32>)
    requires square.Length == mat.Length == DIM && square != mat
    modifies square
    ensures IsSquare(square[..], mat[..])
  {
    for n := 0 to DIM
      invariant mat[..] == old(mat[..])
      invariant forall j | 0 <= j < n :: square[j] == Times(mat[..], 0, mat[j])
    {
      square[n] := MatrixTimes(mat, mat[n]);
    }
  }

  // One binary digit of the length: the operator for k zero bits is applied if it is 1.
  lemma DigitStep(c: bv32, k: nat, len: nat)
    ensures Bits(c, k * len) == Bits(if len % 2 == 1 then Bits(c, k) else c, 2 * k * (len / 2))
  {
    hide Bits;
    var h := len / 2;
    assert len == 2 * h + len % 2;
    assert k * (2 * h) == 2 * k * h;
    if len % 2 == 1 {
      assert k * len == k + 2 * k * h;
      BitsAdd(c, k, 2 * k * h);
    }
  }

  // crc32_combine_: crc1 is moved past len2 zero bytes, then crc2 is added.
  method Combine(crc1: bv32, crc2: bv32, len2: int) returns (r: bv32)
    ensures r == if len2 <= 0 then crc1 else Xor(Bits(crc1, 8 * len2), crc2)
    ensures forall a, b :: crc1 == Crc(a) && crc2 == Crc(b) && len2 == |b| ==> r == Crc(a + b)
  {
    hide Bits, Xor, Times, Crc;
    forall a, b | crc1 == Crc(a) && crc2 == Crc(b) && len2 == |b|
      ensures Crc(a + b) == if len2 <= 0 then crc1 else Xor(Bits(crc1, 8 * len2), crc2)
    {
      CombineIsConcatenation(a, b);
    }
    if len2 <= 0 {
      return crc1;
    }
    var even, odd := new bv32[DIM], new bv32[DIM];
    OneBitOperator(odd);
    MatrixSquare(even, odd);
    SquareDoubles(even[..], odd[..], 1);
    MatrixSquare(odd, even);
    SquareDoubles(odd[..], even[..], 2);
    var c, len := crc1, len2;
    ghost var k: nat := 4;
    while true
      invariant len > 0 && ZeroBits(odd[..], k)
      invariant Bits(c, 2 * k * len) == Bits(crc1, 8 * len2)
      decreases len
    {
      MatrixSquare(even, odd);
      SquareDoubles(even[..], odd[..], k);
      k := 2 * k;
      DigitStep(c, k, len);
      if len % 2 == 1 {
        c := MatrixTimes(even, c);
      }
      len := len / 2;
      if len == 0 {
        break;
      }
      MatrixSquare(odd, even);
      SquareDoubles(odd[..], even[..], k);
      k := 2 * k;
      DigitStep(c, k, len);
      if len % 2 == 1 {
        c := MatrixTimes(odd, c);
      }
      len := len / 2;
      if len == 0 {
        break;
      }
    }
    BitsZero(c);
    r := Xor(c, crc2);
  }

  method OneBitOperator(odd: array<bv32>)
    requires odd.Length == DIM
    modifies odd
    ensures ZeroBits(odd[..], 1)
  {
    hide Double, Bits, Times;
    odd[0] := POLY;
    var row: bv32 := 1;
    for n := 1 to DIM
      invariant odd[0] == POLY && row == Shifted(1, n - 1)
      invariant forall j | 1 <= j < n :: odd[j] == Shifted(1, j - 1)
    {
      odd[n] := row;
      row := Double(row);
    }
    OneZeroBitStep(odd[..]);
  }

  // ---------------------------------------------------------------------------
  // Why moving crc1 past zeros is enough
  // ---------------------------------------------------------------------------

  // The register is affine in its starting value.
  lemma {:induction false} RegisterAffine(x: bv32, y: bv32, d: seq<bv8>)
    ensures Register(Xor(x, y), d) == Xor(Register(x, d), Bits(y, 8 * |d|))
    decreases |d|
  {
    hide Xor, Bits, Wide;
    if d == [] {
      BitsZero(y);
    } else {
      var b := Wide(d[0]);
      XorLaws(x, y, b);
      XorLaws(y, b, 0);
      XorLaws(x, b, y);
      BitsLinear(Xor(x, b), y, 8);
      RegisterAffine(ByteStep(x, d[0]), Bits(y, 8), d[1..]);
      BitsAdd(y, 8, 8 * (|d| - 1));
    }
  }

  // The law crc32_combine exists for, on every pair of byte strings.
  lemma CombineIsConcatenation(a: seq<bv8>, b: seq<bv8>)
    ensures Crc(a + b) == Xor(Bits(Crc(a), 8 * |b|), Crc(b))
    ensures b == [] ==> Crc(a + b) == Crc(a)
  {
    hide Xor, Bits, Register;
    UpdateConcat(0, a, b);
    XorLaws(Crc(a), ONES, 0);
    XorLaws(ONES, Crc(a), 0);
    XorLaws(0, ONES, 0);
    XorLaws(ONES, 0, 0);
    RegisterAffine(ONES, Crc(a), b);
    var p, q := Register(ONES, b), Bits(Crc(a), 8 * |b|);
    XorLaws(p, q, ONES);
    XorLaws(q, p, ONES);
    if b == [] {
      assert a + b == a;
    }
  }
}
