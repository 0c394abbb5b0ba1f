/** The CRC-32 of zlib (win32port/zlib/crc32.c): a bit-serial reference, the generated
    tables and the three table-driven forms (one byte at a time, four bytes at a time on a
    little-endian and on a big-endian machine). */
module Crc32 {

  // ---------------------------------------------------------------------------
  // Reference: section 8 of RFC 1952, one bit at a time
  // ---------------------------------------------------------------------------

  const POLY: bv32 := 0xedb88320
  const ONES: bv32 := 0xffffffff

  // Addition of polynomials over GF(2). It has a name so that proofs about the
  // register can hide it: they need its laws, never its bits.
  function Xor(a: bv32, b: bv32): bv32 { a ^ b }

  function Wide(b: bv8): bv32 { b as bv32 }

  // The register after one zero bit has been shifted in.
  function BitStep(c: bv32): bv32 {
    if c & 1 == 1 then POLY ^ (c >> 1) else c >> 1
  }

  // The register after k zero bits.
  function Bits(c: bv32, k: nat): bv32
    decreases k
  {
    if k == 0 then c else Bits(BitStep(c), k - 1)
  }

  function ByteStep(c: bv32, b: bv8): bv32 {
    Bits(Xor(c, Wide(b)), 8)
  }

  function Register(c: bv32, data: seq<bv8>): bv32
    decreases |data|
  {
    if data == [] then c else Register(ByteStep(c, data[0]), data[1..])
  }

  // The running form crc32(crc, buf, len) and the CRC of a whole string.
  function Update(crc: bv32, data: seq<bv8>): bv32 {
    Xor(Register(Xor(crc, ONES), data), ONES)
  }

  function Crc(data: seq<bv8>): bv32 {
    Update(0, data)
  }

  // ---------------------------------------------------------------------------
  // Bit-vector facts, each one purely about 32-bit words
  // ---------------------------------------------------------------------------

  lemma ShiftXor(a: bv32, b: bv32)
    ensures (a ^ b) >> 1 == (a >> 1) ^ (b >> 1)
  {}

  lemma LowXor(a: bv32, b: bv32)
    ensures (a ^ b) & 1 == 1 <==> (a & 1 == 1) != (b & 1 == 1)
  {}

  lemma XorSwap(p: bv32, a: bv32, b: bv32)
    ensures (p ^ a) ^ b == p ^ (a ^ b) == a ^ (p ^ b)
  {}

  lemma XorCancel(p: bv32, a: bv32, b: bv32)
    ensures (p ^ a) ^ (p ^ b) == a ^ b
  {}

  lemma XorLaws(a: bv32, b: bv32, c: bv32)
    ensures Xor(Xor(a, b), c) == Xor(a, Xor(b, c))
    ensures Xor(a, b) == Xor(b, a)
    ensures Xor(a, 0) == a && Xor(a, a) == 0
  {}

  // ---------------------------------------------------------------------------
  // The register is linear, and a low byte can be split off
  // ---------------------------------------------------------------------------

  lemma BitStepLinear(a: bv32, b: bv32)
    ensures BitStep(Xor(a, b)) == Xor(BitStep(a), BitStep(b))
  {
    assert BitStep(a ^ b) == BitStep(a) ^ BitStep(b) by {
      hide Xor;
      ShiftXor(a, b);
      LowXor(a, b);
      XorSwap(POLY, a >> 1, b >> 1);
      XorCancel(POLY, a >> 1, b >> 1);
    }
    hide BitStep;
  }

  lemma {:induction false} BitsLinear(a: bv32, b: bv32, k: nat)
    ensures Bits(Xor(a, b), k) == Xor(Bits(a, k), Bits(b, k))
    decreases k
  {
    hide Xor, BitStep;
    if k > 0 {
      BitStepLinear(a, b);
      BitsLinear(BitStep(a), BitStep(b), k - 1);
    }
  }

  lemma BitsZero(c: bv32)
    ensures Bits(c, 0) == c
  {}

  lemma BitsOne(c: bv32)
    ensures Bits(c, 1) == BitStep(c)
  {
    hide BitStep;
    assert Bits(c, 1) == Bits(BitStep(c), 0);
  }

  lemma {:induction false} BitsAdd(c: bv32, j: nat, k: nat)
    ensures Bits(c, j + k) == Bits(Bits(c, j), k)
    decreases j
  {
    hide BitStep;
    if j > 0 {
      BitsAdd(BitStep(c), j - 1, k);
    }
  }

  function Low(x: bv32): bv8 { (x & 0xff) as bv8 }

  function Upper(x: bv32): bv32 { x >> 8 }

  // The upper 24 bits, moved up k places.
  function High(x: bv32, k: nat): bv32
    requires k <= 8
  {
    match k
    case 0 => Upper(x)
    case 1 => (x >> 8) << 1
    case 2 => (x >> 8) << 2
    case 3 => (x >> 8) << 3
    case 4 => (x >> 8) << 4
    case 5 => (x >> 8) << 5
    case 6 => (x >> 8) << 6
    case 7 => (x >> 8) << 7
    case 8 => (x >> 8) << 8
  }

  lemma LowHigh(x: bv32)
    ensures Xor(Wide(Low(x)), High(x, 8)) == x
  {}

  lemma StepBack(y: bv32, w: bv32)
    requires y & 1 == 0 && y >> 1 == w
    ensures BitStep(y) == w
  {}

  lemma HighStep(x: bv32, k: nat)
    requires k < 8
    ensures BitStep(High(x, k + 1)) == High(x, k)
  {
    hide BitStep;
    match k
    case 0 => StepBack((x >> 8) << 1, x >> 8);
    case 1 => StepBack((x >> 8) << 2, (x >> 8) << 1);
    case 2 => StepBack((x >> 8) << 3, (x >> 8) << 2);
    case 3 => StepBack((x >> 8) << 4, (x >> 8) << 3);
    case 4 => StepBack((x >> 8) << 5, (x >> 8) << 4);
    case 5 => StepBack((x >> 8) << 6, (x >> 8) << 5);
    case 6 => StepBack((x >> 8) << 7, (x >> 8) << 6);
    case 7 => StepBack((x >> 8) << 8, (x >> 8) << 7);
  }

  // Eight zero low bits are simply shifted out.
  lemma {:induction false} HighShift(x: bv32, k: nat)
    requires k <= 8
    ensures Bits(High(x, k), k) == Upper(x)
  {
    if k > 0 {
      HighStep(x, k - 1);
      HighShift(x, k - 1);
      hide BitStep, High;
    }
  }

  // The fact behind every table: the low byte contributes on its own.
  lemma SplitByte(x: bv32, k: nat)
    ensures Bits(x, 8 + k) == Xor(Bits(Wide(Low(x)), 8 + k), Bits(Upper(x), k))
  {
    hide Xor, Bits, Low, High, Upper, Wide;
    LowHigh(x);
    BitsLinear(Wide(Low(x)), High(x, 8), 8 + k);
    BitsAdd(High(x, 8), 8, k);
    HighShift(x, 8);
  }

  // ---------------------------------------------------------------------------
  // Words: four bytes at once, in either byte order
  // ---------------------------------------------------------------------------

  // The word a little-endian machine loads from four consecutive bytes.
  function LittleWord(b0: bv8, b1: bv8, b2: bv8, b3: bv8): bv32 {
    b0 as bv32 | (b1 as bv32 << 8) | (b2 as bv32 << 16) | (b3 as bv32 << 24)
  }

  lemma LittleWordBytes(b0: bv8, b1: bv8, b2: bv8, b3: bv8)
    ensures Low(LittleWord(b0, b1, b2, b3)) == b0
    ensures Upper(LittleWord(b0, b1, b2, b3)) == LittleWord(b1, b2, b3, 0)
    ensures LittleWord(0, 0, 0, 0) == 0
  {}

  // Split a word into a part b and a part h that eight zero bits turn into v.
  lemma Peel(c: bv32, b: bv32, h: bv32, v: bv32, k: nat)
    requires Bits(h, 8) == v
    ensures Bits(Xor(c, Xor(b, h)), 8 + k) == Bits(Xor(Bits(Xor(c, b), 8), v), k)
  {
    hide Xor, Bits;
    XorLaws(c, b, h);
    BitsAdd(Xor(c, Xor(b, h)), 8, k);
    BitsLinear(Xor(c, b), h, 8);
  }

  lemma WordStep(c: bv32, b0: bv8, b1: bv8, b2: bv8, b3: bv8, k: nat)
    ensures Bits(Xor(c, LittleWord(b0, b1, b2, b3)), 8 + k)
         == Bits(Xor(ByteStep(c, b0), LittleWord(b1, b2, b3, 0)), k)
  {
    hide Xor, Bits, LittleWord, Low, High, Upper, Wide;
    var w := LittleWord(b0, b1, b2, b3);
    LittleWordBytes(b0, b1, b2, b3);
    LowHigh(w);
    HighShift(w, 8);
    Peel(c, Wide(Low(w)), High(w, 8), Upper(w), k);
  }

  // Four byte steps are 32 zero bits after adding the little-endian word.
  lemma WordIsFourBytes(c: bv32, d: seq<bv8>)
    requires |d| == 4
    ensures Register(c, d) == Bits(Xor(c, LittleWord(d[0], d[1], d[2], d[3])), 32)
  {
    hide Xor, Bits, LittleWord, ByteStep;
    LittleWordBytes(0, 0, 0, 0);
    assert d[1..][1..] == d[2..] && d[2..][1..] == d[3..] && d[3..][1..] == [];
    var c1 := ByteStep(c, d[0]);
    var c2 := ByteStep(c1, d[1]);
    var c3 := ByteStep(c2, d[2]);
    var c4 := ByteStep(c3, d[3]);
    assert Register(c, d) == Register(c1, d[1..]) == Register(c2, d[2..]) == Register(c3, d[3..]) == c4;
    WordStep(c, d[0], d[1], d[2], d[3], 24);
    WordStep(c1, d[1], d[2], d[3], 0, 16);
    WordStep(c2, d[2], d[3], 0, 0, 8);
    WordStep(c3, d[3], 0, 0, 0, 0);
    XorLaws(c4, 0, 0);
    BitsZero(c4);
  }

  // ---------------------------------------------------------------------------
  // Table lookups compute byte steps and word steps
  // ---------------------------------------------------------------------------

  function Byte(x: bv32, i: nat): bv8
    requires i < 4
  {
    match i
    case 0 => (x & 0xff) as bv8
    case 1 => ((x >> 8) & 0xff) as bv8
    case 2 => ((x >> 16) & 0xff) as bv8
    case 3 => (x >> 24) as bv8
  }

  lemma ByteParts(x: bv32)
    ensures Byte(x, 0) == Low(x) && Byte(x, 1) == Low(Upper(x))
    ensures Byte(x, 2) == Low(Upper(Upper(x)))
    ensures Wide(Byte(x, 3)) == Upper(Upper(Upper(x)))
  {}

  lemma HighXorByte(c: bv32, b: bv8)
    ensures Upper(Xor(c, Wide(b))) == Upper(c)
  {}

  // DO1
  lemma ByteLookup(c: bv32, b: bv8)
    ensures ByteStep(c, b) == Xor(Bits(Wide(Low(Xor(c, Wide(b)))), 8), Upper(c))
  {
    hide Xor, Bits, Low, High, Upper, Wide, Byte;
    SplitByte(Xor(c, Wide(b)), 0);
    HighXorByte(c, b);
    BitsZero(Upper(c));
  }

  // DOLIT4
  lemma WordLookup(x: bv32)
    ensures Bits(x, 32) == Xor(Xor(Xor(Bits(Wide(Byte(x, 0)), 32), Bits(Wide(Byte(x, 1)), 24)),
                                   Bits(Wide(Byte(x, 2)), 16)), Bits(Wide(Byte(x, 3)), 8))
  {
    hide Xor, Bits, Low, High, Upper, Wide, Byte;
    var x1 := Upper(x);
    var x2 := Upper(x1);
    ByteParts(x);
    SplitByte(x, 24);
    SplitByte(x1, 16);
    SplitByte(x2, 8);
    var t3, t2 := Bits(Wide(Byte(x, 0)), 32), Bits(Wide(Byte(x, 1)), 24);
    var t1, t0 := Bits(Wide(Byte(x, 2)), 16), Bits(Wide(Byte(x, 3)), 8);
    XorLaws(t3, t2, Xor(t1, t0));
    XorLaws(Xor(t3, t2), t1, t0);
  }

  // ---------------------------------------------------------------------------
  // Byte reversal, for the big-endian form
  // ---------------------------------------------------------------------------

  function Rev(w: bv32): bv32 {
    ((w >> 24) & 0xff) + ((w >> 8) & 0xff00) + ((w & 0xff00) << 8) + ((w & 0xff) << 24)
  }

  function ShiftUp(w: bv32): bv32 { w << 8 }

  lemma RevLinear(a: bv32, b: bv32)
    ensures Rev(Xor(a, b)) == Xor(Rev(a), Rev(b))
  {}

  lemma RevOnes(a: bv32)
    ensures Rev(Xor(a, ONES)) == Xor(Rev(a), ONES)
  {
    assert Rev(ONES) == ONES;
    hide Rev, Xor;
    RevLinear(a, ONES);
  }

  lemma RevRev(a: bv32)
    ensures Rev(Rev(a)) == a
  {}

  lemma RevParts(a: bv32)
    ensures ShiftUp(Rev(a)) == Rev(Upper(a)) 
    ensures Byte(Rev(a), 3) == Byte(a, 0) && Byte(Rev(a), 2) == Byte(a, 1)
    ensures Byte(Rev(a), 1) == Byte(a, 2) && Byte(Rev(a), 0) == Byte(a, 3)
  {}

  lemma LowXorByte(a: bv32, b: bv8)
    ensures Low(Xor(a, Wide(b))) == Byte(a, 0) ^ b
  {}

  lemma RevWord(b0: bv8, b1: bv8, b2: bv8, b3: bv8)
    ensures Rev(LittleWord(b0, b1, b2, b3)) == LittleWord(b3, b2, b1, b0)
  {}

  // One byte on the reversed register.
  lemma BigByteLookup(c: bv32, b: bv8)
    ensures Rev(ByteStep(c, b)) == Xor(Rev(Bits(Wide(Byte(Rev(c), 3) ^ b), 8)), ShiftUp(Rev(c)))
  {
    hide Xor, Bits, Low, High, Upper, Wide, Byte, Rev, ShiftUp;
    ByteLookup(c, b);
    LowXorByte(c, b);
    RevParts(c);
    RevLinear(Bits(Wide(Byte(c, 0) ^ b), 8), Upper(c));
  }

  // DOBIG4
  lemma BigWordLookup(x: bv32)
    ensures Rev(Bits(x, 32)) == Xor(Xor(Xor(
                Rev(Bits(Wide(Byte(Rev(x), 0)), 8)), Rev(Bits(Wide(Byte(Rev(x), 1)), 16))),
                Rev(Bits(Wide(Byte(Rev(x), 2)), 24))), Rev(Bits(Wide(Byte(Rev(x), 3)), 32)))
  {
    hide Xor, Bits, Low, High, Upper, Wide, Byte, Rev, ShiftUp;
    WordLookup(x);
    RevParts(x);
    var t3, t2 := Bits(Wide(Byte(x, 0)), 32), Bits(Wide(Byte(x, 1)), 24);
    var t1, t0 := Bits(Wide(Byte(x, 2)), 16), Bits(Wide(Byte(x, 3)), 8);
    RevLinear(t3, t2);
    RevLinear(Xor(t3, t2), t1);
    RevLinear(Xor(Xor(t3, t2), t1), t0);
    XorReverse(Rev(t3), Rev(t2), Rev(t1), Rev(t0));
  }

  lemma XorReverse(a: bv32, b: bv32, c: bv32, d: bv32)
    ensures Xor(Xor(Xor(a, b), c), d) == Xor(Xor(Xor(d, c), b), a)
  {
    hide Xor;
    XorLaws(Xor(Xor(a, b), c), d, 0);
    XorLaws(Xor(a, b), c, 0);
    XorLaws(a, b, 0);
    XorLaws(d, c, Xor(b, a));
    XorLaws(Xor(d, c), b, a);
  }

  // ---------------------------------------------------------------------------
  // Splitting the data
  // ---------------------------------------------------------------------------

  lemma {:induction false} RegisterConcat(c: bv32, a: seq<bv8>, b: seq<bv8>)
    ensures Register(c, a + b) == Register(Register(c, a), b)
    decreases |a|
  {
    hide ByteStep;
    if a == [] {
      assert a + b == b;
    } else {
      assert (a + b)[1..] == a[1..] + b;
      RegisterConcat(ByteStep(c, a[0]), a[1..], b);
    }
  }

  lemma RegisterExtend(c: bv32, d: seq<bv8>, i: nat, j: nat)
    requires i <= j <= |d|
    ensures Register(c, d[..j]) == Register(Register(c, d[..i]), d[i..j])
  {
    assert d[..j] == d[..i] + d[i..j];
    RegisterConcat(c, d[..i], d[i..j]);
  }

  lemma RegisterEmpty(c: bv32, d: seq<bv8>)
    ensures Register(c, d[..0]) == c
  {}

  lemma RegisterByte(c: bv32, d: seq<bv8>, i: nat)
    requires i < |d|
    ensures Register(c, d[..i + 1]) == ByteStep(Register(c, d[..i]), d[i])
  {
    hide ByteStep;
    RegisterExtend(c, d, i, i + 1);
    assert d[i..i + 1][1..] == [];
  }

  // crc32(crc32(0, A), B) is crc32(0, A + B)
  lemma UpdateConcat(crc: bv32, a: seq<bv8>, b: seq<bv8>)
    ensures Update(Update(crc, a), b) == Update(crc, a + b)
  {
    hide Xor, Register;
    RegisterConcat(Xor(crc, ONES), a, b);
    var r := Register(Xor(crc, ONES), a);
    XorLaws(r, ONES, ONES);
    XorLaws(ONES, ONES, r);
    XorLaws(r, 0, 0);
  }

  // ---------------------------------------------------------------------------
  // The tables and the table-driven forms
  // ---------------------------------------------------------------------------

  // Row k holds the register after byte n and k further zero bytes; rows 4 to 7 hold
  // rows 0 to 3 with their bytes reversed.
  function Entry(k: nat, n: bv8): bv32
    requires k < 8
  {
    if k < 4 then Bits(Wide(n), 8 * (k + 1)) else Rev(Bits(Wide(n), 8 * (k - 3)))
  }

  lemma IndexRoundTrip(b: bv8)
    ensures 0 <= b as int < 256 && (b as int) as bv8 == b
  {}

  class Tables {
    var empty: bool
    const table: array2<bv32>

    ghost predicate Ready()
      reads table
    {
      table.Length0 == 8 && table.Length1 == 256 &&
      forall k, n | 0 <= k < 8 && 0 <= n < 256 :: table[k, n] == Entry(k, n as bv8)
    }

    ghost predicate Valid()
      reads this, table
    {
      table.Length0 == 8 && table.Length1 == 256 && (!empty ==> Ready())
    }

    constructor ()
      ensures Valid() && empty && fresh(table)
    {
      empty := true;
      table := new bv32[8, 256];
    }

    // crc_table[k][b]
    function At(k: nat, b: bv8): (w: bv32)
      requires Ready() && k < 8
      reads table
      ensures w == Entry(k, b)
    {
      IndexRoundTrip(b);
      table[k, b as int]
    }

    ghost predicate Shaped() { table.Length0 == 8 && table.Length1 == 256 }

    ghost predicate Column(n: nat)
      requires Shaped() && n < 256
      reads table
    {
      forall k | 0 <= k < 8 :: table[k, n] == Entry(k, n as bv8)
    }

    // Each row from the one before by one more zero byte.
    method FillColumn(n: nat)
      requires Shaped() && n < 256
      requires forall i | 0 <= i < 256 :: table[0, i] == Entry(0, i as bv8)
      modifies table
      ensures Column(n)
      ensures forall k, i | 0 <= k < 8 && 0 <= i < 256 && i != n :: table[k, i] == old(table[k, i])
    {
      hide Entry, Rev;
      var b := n as bv8;
      var c0 := table[0, n];
      var c1 := NextEntry(c0, 1, b);
      var c2 := NextEntry(c1, 2, b);
      var c3 := NextEntry(c2, 3, b);
      Store(0, n, c0);
      Store(1, n, c1);
      Store(2, n, c2);
      Store(3, n, c3);
      RevRow(0, b);
      RevRow(1, b);
      RevRow(2, b);
      RevRow(3, b);
    }

    // An entry and its byte reversal, four rows below.
    method Store(k: nat, n: nat, c: bv32)
      requires Shaped() && k < 4 && n < 256
      modifies table
      ensures table[k, n] == c && table[k + 4, n] == Rev(c)
      ensures forall j, i | 0 <= j < 8 && 0 <= i < 256 && !(i == n && (j == k || j == k + 4)) ::
                table[j, i] == old(table[j, i])
    {
      hide Rev;
      table[k, n] := c;
      table[k + 4, n] := Rev(c);
    }

    // c = crc_table[0][c & 0xff] ^ (c >> 8)
    method NextEntry(c: bv32, k: nat, ghost b: bv8) returns (r: bv32)
      requires Shaped() && 1 <= k < 4 && c == Entry(k - 1, b)
      requires forall i | 0 <= i < 256 :: table[0, i] == Entry(0, i as bv8)
      ensures r == Entry(k, b)
    {
      hide Entry, Xor, Low, Upper;
      NextRow(c, k, b);
      var low := Low(c);
      IndexRoundTrip(low);
      r := Xor(table[0, low as int], Upper(c));
    }

    method MakeCrcTable()
      requires Valid()
      modifies this`empty, table
      ensures !empty && Valid()
    {
      hide Entry;
      for n := 0 to 256
        invariant forall i | 0 <= i < n :: table[0, i] == Entry(0, i as bv8)
      {
        var c := FirstRow(n as bv8);
        table[0, n] := c;
      }
      for n := 0 to 256
        invariant forall i | 0 <= i < 256 :: table[0, i] == Entry(0, i as bv8)
        invariant forall i | 0 <= i < n :: Column(i)
      {
        label Before:
        FillColumn(n);
        forall i | 0 <= i < n ensures Column(i) {
          assert old@Before(Column(i));
        }
      }
      assert Ready() by {
        forall k, n | 0 <= k < 8 && 0 <= n < 256 ensures table[k, n] == Entry(k, n as bv8) {
          assert Column(n);
        }
      }
      empty := false;
    }

    // DO1, DOLIT4, their big-endian counterparts on the reversed register.
    method Do1(c: bv32, b: bv8) returns (r: bv32)
      requires Ready()
      ensures r == ByteStep(c, b)
    {
      hide ByteStep, Bits, Xor, Low, Upper, Wide, Rev;
      ByteLookup(c, b);
      r := Xor(At(0, Low(Xor(c, Wide(b)))), Upper(c));
    }

    method DoLit4(c: bv32, d: seq<bv8>) returns (r: bv32)
      requires Ready() && |d| == 4
      ensures r == Register(c, d)
    {
      hide Register, Bits, Xor, Byte, Wide, Rev, LittleWord;
      var x := Xor(c, LittleWord(d[0], d[1], d[2], d[3]));
      WordIsFourBytes(c, d);
      WordLookup(x);
      r := Xor(Xor(Xor(At(3, Byte(x, 0)), At(2, Byte(x, 1))), At(1, Byte(x, 2))), At(0, Byte(x, 3)));
    }

    method DoBig1(c: bv32, b: bv8) returns (r: bv32)
      requires Ready()
      ensures r == Rev(ByteStep(Rev(c), b))
    {
      hide ByteStep, Bits, Xor, Byte, Wide, Rev, ShiftUp;
      BigByteLookup(Rev(c), b);
      RevRev(c);
      r := Xor(At(4, Byte(c, 3) ^ b), ShiftUp(c));
    }

    // A big-endian machine loads the four bytes in the opposite order.
    method DoBig4(c: bv32, d: seq<bv8>) returns (r: bv32)
      requires Ready() && |d| == 4
      ensures r == Rev(Register(Rev(c), d))
    {
      hide Register, Bits, Xor, Byte, Wide, Rev, LittleWord;
      var x := Xor(c, LittleWord(d[3], d[2], d[1], d[0]));
      ghost var w := LittleWord(d[0], d[1], d[2], d[3]);
      WordIsFourBytes(Rev(c), d);
      RevWord(d[0], d[1], d[2], d[3]);
      RevLinear(Rev(c), w);
      RevRev(c);
      BigWordLookup(Xor(Rev(c), w));
      r := Xor(Xor(Xor(At(4, Byte(x, 0)), At(5, Byte(x, 1))), At(6, Byte(x, 2))), At(7, Byte(x, 3)));
    }

    // crc32() without BYFOUR: one byte at a time, unrolled by eight.
    method Bytewise(crc: bv32, d: seq<bv8>) returns (r: bv32)
      requires Ready()
      ensures r == Update(crc, d)
    {
      hide Register, Xor, ByteStep;
      ghost var c0 := Xor(crc, ONES);
      var c, i := Xor(crc, ONES), 0;
      RegisterEmpty(c0, d);
      while |d| - i >= 8
        invariant i <= |d| && c == Register(c0, d[..i])
      {
        for j := i to i + 8
          invariant c == Register(c0, d[..j])
        {
          RegisterByte(c0, d, j);
          c := Do1(c, d[j]);
        }
        i := i + 8;
      }
      while i < |d|
        invariant i <= |d| && c == Register(c0, d[..i])
      {
        RegisterByte(c0, d, i);
        c := Do1(c, d[i]);
        i := i + 1;
      }
      assert d[..i] == d;
      r := Xor(c, ONES);
    }

    // addr is the address of the first byte.
    method Little(crc: bv32, d: seq<bv8>, addr: nat) returns (r: bv32)
      requires Ready()
      ensures r == Update(crc, d)
    {
      hide Register, Xor, ByteStep;
      ghost var c0 := Xor(crc, ONES);
      var c, i := Xor(crc, ONES), 0;
      RegisterEmpty(c0, d);
      while i < |d| && (addr + i) % 4 != 0
        invariant i <= |d| && c == Register(c0, d[..i])
      {
        RegisterByte(c0, d, i);
        c := Do1(c, d[i]);
        i := i + 1;
      }
      while |d| - i >= 32
        invariant i <= |d| && c == Register(c0, d[..i])
      {
        for j := 0 to 8
          invariant c == Register(c0, d[..i + 4 * j])
        {
          var k := i + 4 * j;
          RegisterExtend(c0, d, k, k + 4);
          c := DoLit4(c, d[k..k + 4]);
        }
        i := i + 32;
      }
      while |d| - i >= 4
        invariant i <= |d| && c == Register(c0, d[..i])
      {
        RegisterExtend(c0, d, i, i + 4);
        c := DoLit4(c, d[i..i + 4]);
        i := i + 4;
      }
      while i < |d|
        invariant i <= |d| && c == Register(c0, d[..i])
      {
        RegisterByte(c0, d, i);
        c := Do1(c, d[i]);
        i := i + 1;
      }
      assert d[..i] == d;
      r := Xor(c, ONES);
    }

    method Big(crc: bv32, d: seq<bv8>, addr: nat) returns (r: bv32)
      requires Ready()
      ensures r == Update(crc, d)
    {
      hide Register, Xor, ByteStep, Rev;
      ghost var c0 := Xor(crc, ONES);
      var c, i := Xor(Rev(crc), ONES), 0;
      RevOnes(crc);
      RevRev(c0);
      RegisterEmpty(c0, d);
      while i < |d| && (addr + i) % 4 != 0
        invariant i <= |d| && Rev(c) == Register(c0, d[..i])
      {
        RegisterByte(c0, d, i);
        c := DoBig1(c, d[i]);
        RevRev(Register(c0, d[..i + 1]));
        i := i + 1;
      }
      while |d| - i >= 32
        invariant i <= |d| && Rev(c) == Register(c0, d[..i])
      {
        for j := 0 to 8
          invariant Rev(c) == Register(c0, d[..i + 4 * j])
        {
          var k := i + 4 * j;
          RegisterExtend(c0, d, k, k + 4);
          c := DoBig4(c, d[k..k + 4]);
          RevRev(Register(c0, d[..k + 4]));
        }
        i := i + 32;
      }
      while |d| - i >= 4
        invariant i <= |d| && Rev(c) == Register(c0, d[..i])
      {
        RegisterExtend(c0, d, i, i + 4);
        c := DoBig4(c, d[i..i + 4]);
        RevRev(Register(c0, d[..i + 4]));
        i := i + 4;
      }
      while i < |d|
        invariant i <= |d| && Rev(c) == Register(c0, d[..i])
      {
        RegisterByte(c0, d, i);
        c := DoBig1(c, d[i]);
        RevRev(Register(c0, d[..i + 1]));
        i := i + 1;
      }
      assert d[..i] == d;
      RevOnes(c);
      r := Rev(Xor(c, ONES));
    }

    // crc32(): a null buffer gives 0; the tables are made on first use.
    method Crc32(crc: bv32, buf: Buffer, littleEndian: bool) returns (r: bv32)
      requires Valid()
      modifies this`empty, table
      ensures Valid()
      ensures r == if buf.Null? then 0 else Update(crc, buf.bytes)
    {
      if buf.Null? {
        return 0;
      }
      if empty {
        MakeCrcTable();
      }
      if littleEndian {
        r := Little(crc, buf.bytes, buf.addr);
      } else {
        r := Big(crc, buf.bytes, buf.addr);
      }
    }
  }

  datatype Buffer = Null | At(addr: nat, bytes: seq<bv8>)

  lemma RevRow(k: nat, n: bv8)
    requires k < 4
    ensures Rev(Entry(k, n)) == Entry(k + 4, n)
  {
    hide Bits, Wide, Rev;
  }

  lemma NextRow(c: bv32, k: nat, n: bv8)
    requires 1 <= k < 4 && c == Entry(k - 1, n)
    ensures Xor(Entry(0, Low(c)), Upper(c)) == Entry(k, n)
  {
    hide BitStep, Bits, Wide, Xor, Low, High, Upper, Rev;
    SplitByte(c, 0);
    BitsZero(Upper(c));
    BitsAdd(Wide(n), 8 * k, 8);
  }

  method FirstRow(n: bv8) returns (c: bv32)
    ensures c == Entry(0, n)
  {
    hide BitStep, Bits, Wide, Rev;
    c := Wide(n);
    BitsZero(c);
    for k := 0 to 8
      invariant c == Bits(Wide(n), k)
    {
      BitsAdd(Wide(n), k, 1);
      BitsOne(c);
      c := BitStep(c);
    }
  }
}
