/** The Adler-32 checksum of zlib (win32port/zlib/adler32.c), section 8.2 of RFC 1950: one
    division per block of 5552 bytes, and the combination of two checksums. Sums are 32-bit
    numbers; that none overflows is part of what is proved. */
module Adler32 {
  import opened Octets

  newtype u32 = x: int | 0 <= x < 0x1_0000_0000

  const BASE: u32 := 65521
  const NMAX := 5552

  // ---------------------------------------------------------------------------
  // Reference: two sums, reduced after every byte
  // ---------------------------------------------------------------------------

  datatype Sums = Sums(s1: int, s2: int)

  function Mod(x: int): int { x % 65521 }

  function Next(s: Sums, b: byte): Sums {
    Sums(Mod(s.s1 + b), Mod(s.s2 + Mod(s.s1 + b)))
  }

  function Run(s: Sums, d: seq<byte>): Sums
    decreases |d|
  {
    if d == [] then s else Run(Next(s, d[0]), d[1..])
  }

  // The two halves of a checksum; the high half is s2.
  function Pack(s: Sums): int { s.s1 + 65536 * s.s2 }
  function Unpack(a: u32): Sums { Sums(a as int % 65536, a as int / 65536) }

  predicate Reduced(s: Sums) { 0 <= s.s1 < 65521 && 0 <= s.s2 < 65521 }

  function Adler(d: seq<byte>): Sums { Run(Sums(1, 0), d) }

  // ---------------------------------------------------------------------------
  // The sums without reduction
  // ---------------------------------------------------------------------------

  function Sum(d: seq<byte>): nat {
    if d == [] then 0 else d[0] + Sum(d[1..])
  }

  // The sum of all running sums of d.
  function Twice(d: seq<byte>): nat {
    if d == [] then 0 else |d| * d[0] + Twice(d[1..])
  }

  lemma ModAdd(x: int, y: int)
    ensures Mod(Mod(x) + y) == Mod(x + y)
  {
    assert x == 65521 * (x / 65521) + x % 65521;
  }

  lemma ModMultiple(x: int, k: int)
    ensures Mod(x + 65521 * k) == Mod(x)
  {}

  lemma ModMul(n: int, x: int)
    ensures Mod(n * Mod(x)) == Mod(n * x)
  {
    var q, r := x / 65521, x % 65521;
    assert n * x == n * r + 65521 * (n * q) by {
      assert x == 65521 * q + r;
      assert n * (65521 * q + r) == 65521 * (n * q) + n * r;
    }
    ModMultiple(n * r, n * q);
  }

  // x and n times y, y reduced or not.
  lemma ModMulAdd(x: int, n: int, y: int)
    ensures Mod(x + n * Mod(y)) == Mod(x + n * y)
  {
    hide Mod;
    ModMul(n, y);
    ModAdd(n * Mod(y), x);
    ModAdd(n * y, x);
  }

  // Reducing at every byte or only once gives the same residues.
  function Closed(s: Sums, d: seq<byte>): Sums {
    Sums(Mod(s.s1 + Sum(d)), Mod(s.s2 + |d| * s.s1 + Twice(d)))
  }

  lemma {:induction false} RunClosed(s: Sums, d: seq<byte>)
    requires Reduced(s)
    ensures Run(s, d) == Closed(s, d)
    decreases |d|
  {
    hide Closed, Sum, Twice, Mod;
    if d == [] {
      ClosedNone(s);
    } else {
      NextReduced(s, d[0]);
      RunClosed(Next(s, d[0]), d[1..]);
      ClosedStep(s, d);
    }
  }

  lemma NextReduced(s: Sums, b: byte)
    ensures Reduced(Next(s, b))
  {}

  lemma ClosedNone(s: Sums)
    requires Reduced(s)
    ensures Closed(s, []) == s
  {}

  lemma ClosedStep(s: Sums, d: seq<byte>)
    requires d != []
    ensures Closed(Next(s, d[0]), d[1..]) == Closed(s, d)
  {
    hide Mod;
    ModAdd(s.s1 + d[0], Sum(d[1..]));
    RunStep(s.s2, s.s1, d[0], |d|, Twice(d[1..]));
  }

  lemma RunStep(s2: int, s1: int, b: int, n: int, rest: int)
    ensures Mod(Mod(s2 + Mod(s1 + b)) + (n - 1) * Mod(s1 + b) + rest) == Mod(s2 + n * s1 + (n * b + rest))
  {
    hide Mod;
    var y := Mod(s1 + b);
    ModAdd(s2 + y, (n - 1) * y + rest);
    assert s2 + y + ((n - 1) * y + rest) == (s2 + rest) + n * y;
    ModMulAdd(s2 + rest, n, s1 + b);
    assert (s2 + rest) + n * (s1 + b) == s2 + n * s1 + (n * b + rest);
  }

  // ---------------------------------------------------------------------------
  // Deferred reduction
  // ---------------------------------------------------------------------------

  // After n bytes without reduction, from sums below BASE; the limits of NMAX.
  lemma {:induction false} SumBound(d: seq<byte>)
    ensures Sum(d) <= 255 * |d| && 2 * Twice(d) <= 255 * |d| * (|d| + 1)
    decreases |d|
  {
    if d != [] {
      SumBound(d[1..]);
      var n := |d|;
      assert 255 * n * (n + 1) == 255 * (n - 1) * n + 2 * 255 * n;
      assert n * d[0] <= n * 255;
    }
  }

  lemma {:induction false} SumSnoc(d: seq<byte>, b: byte)
    ensures Sum(d + [b]) == Sum(d) + b && Twice(d + [b]) == Twice(d) + Sum(d) + b
    decreases |d|
  {
    if d == [] {
      assert d + [b] == [b];
    } else {
      assert (d + [b])[1..] == d[1..] + [b];
      SumSnoc(d[1..], b);
      assert (|d| + 1) * d[0] == |d| * d[0] + d[0];
    }
  }

  // NMAX is small enough for 32 bits.
  lemma BlockBound(a: int, s: int, d: seq<byte>)
    requires 0 <= a < 65521 && 0 <= s < 65521 && |d| <= NMAX
    ensures a + Sum(d) < 0x1_0000_0000 && s + |d| * a + Twice(d) < 0x1_0000_0000
  {
    SumBound(d);
    var n := |d|;
    MulBound(n, NMAX, a, 65520);
    MulBound(n, NMAX, n + 1, NMAX + 1);
    assert 255 * n * (n + 1) == 255 * (n * (n + 1));
    hide Sum, Twice;
  }

  lemma MulBound(n: nat, m: nat, a: nat, b: nat)
    requires n <= m && a <= b
    ensures n * a <= m * b
  {
    assert n * a <= m * a <= m * b;
  }

  // The state after the first i bytes from `from` on, nothing reduced yet.
  ghost predicate Partial(a0: u32, s0: u32, d: seq<byte>, a: u32, s: u32) {
    a as int == a0 as int + Sum(d) && s as int == s0 as int + |d| * a0 as int + Twice(d)
  }

  // DO1
  method Do1(a: u32, s: u32, b: byte, ghost a0: u32, ghost s0: u32, ghost d: seq<byte>) returns (a': u32, s': u32)
    requires a0 < BASE && s0 < BASE && |d| < NMAX && Partial(a0, s0, d, a, s)
    ensures Partial(a0, s0, d + [b], a', s')
  {
    BlockBound(a0 as int, s0 as int, d + [b]);
    SumSnoc(d, b);
    assert (|d| + 1) * a0 as int == |d| * a0 as int + a0 as int;
    a' := a + b as u32;
    s' := s + a';
  }

  // Bytes added up sixteen at a time and then singly, without any reduction.
  method Block(a0: u32, s0: u32, buf: seq<byte>, from: nat, count: nat) returns (a: u32, s: u32)
    requires a0 < BASE && s0 < BASE && count <= NMAX && from + count <= |buf|
    ensures Partial(a0, s0, buf[from..from + count], a, s)
  {
    hide Partial;
    a, s := a0, s0;
    PartialStart(a0, s0);
    assert buf[from..from] == [];
    var i := 0;
    while count - i >= 16
      invariant i <= count && Partial(a0, s0, buf[from..from + i], a, s)
    {
      for k := i to i + 16
        invariant Partial(a0, s0, buf[from..from + k], a, s)
      {
        assert buf[from..from + k + 1] == buf[from..from + k] + [buf[from + k]];
        a, s := Do1(a, s, buf[from + k], a0, s0, buf[from..from + k]);
      }
      i := i + 16;
    }
    while i < count
      invariant i <= count && Partial(a0, s0, buf[from..from + i], a, s)
    {
      assert buf[from..from + i + 1] == buf[from..from + i] + [buf[from + i]];
      a, s := Do1(a, s, buf[from + i], a0, s0, buf[from..from + i]);
      i := i + 1;
    }
  }

  lemma PartialStart(a0: u32, s0: u32)
    ensures Partial(a0, s0, [], a0, s0)
  {}

  // One reduction at the end of a block is as good as one per byte.
  lemma BlockReduced(a0: u32, s0: u32, d: seq<byte>, a: u32, s: u32)
    requires a0 < BASE && s0 < BASE && Partial(a0, s0, d, a, s)
    ensures Run(Sums(a0 as int, s0 as int), d) == Sums(Mod(a as int), Mod(s as int))
  {
    hide Sum, Twice, Mod;
    RunClosed(Sums(a0 as int, s0 as int), d);
  }

  lemma {:induction false} RunConcat(s: Sums, c: seq<byte>, d: seq<byte>)
    ensures Run(s, c + d) == Run(Run(s, c), d)
    decreases |c|
  {
    hide Next;
    if c == [] {
      assert c + d == d;
    } else {
      assert (c + d)[1..] == c[1..] + d;
      RunConcat(Next(s, c[0]), c[1..], d);
    }
  }

  datatype Buffer = Null | Bytes(bytes: seq<byte>)

  // adler32(): the initial value for a null buffer, otherwise the reference checksum.
  method Checksum(adler: u32, buf: Buffer) returns (r: u32)
    requires Reduced(Unpack(adler))
    ensures r as int == if buf.Null? then 1 else Pack(Run(Unpack(adler), buf.bytes))
  {
    if buf.Null? {
      return 1;
    }
    var a: u32, s: u32 := adler % 65536, adler / 65536;
    if |buf.bytes| == 1 {
      a, s := Single(a, s, buf.bytes);
    } else if |buf.bytes| < 16 {
      a, s := Short(a, s, buf.bytes);
    } else {
      a, s := Long(a, s, buf.bytes);
    }
    r := a + 65536 * s;
  }

  method Single(a0: u32, s0: u32, d: seq<byte>) returns (a: u32, s: u32)
    requires a0 < BASE && s0 < BASE && |d| == 1
    ensures a < BASE && s < BASE && Sums(a as int, s as int) == Run(Sums(a0 as int, s0 as int), d)
  {
    a := a0 + d[0] as u32;
    if a >= BASE {
      a := a - BASE;
    }
    s := s0 + a;
    if s >= BASE {
      s := s - BASE;
    }
    assert d[1..] == [];
  }

  method Short(a0: u32, s0: u32, d: seq<byte>) returns (a: u32, s: u32)
    requires a0 < BASE && s0 < BASE && |d| < 16
    ensures a < BASE && s < BASE && Sums(a as int, s as int) == Run(Sums(a0 as int, s0 as int), d)
  {
    hide Run, Partial;
    a, s := Block(a0, s0, d, 0, |d|);
    assert d[0..|d|] == d;
    ShortSum(a0, s0, d, a, s);
    BlockReduced(a0, s0, d, a, s);
    if a >= BASE {
      a := a - BASE;
    }
    s := s % BASE;
  }

  lemma ShortSum(a0: u32, s0: u32, d: seq<byte>, a: u32, s: u32)
    requires a0 < BASE && |d| < 16 && Partial(a0, s0, d, a, s)
    ensures a < 2 * BASE && Mod(a as int) == if a < BASE then a as int else (a - BASE) as int
  {
    SumBound(d);
    hide Sum, Twice;
  }

  method Long(a0: u32, s0: u32, d: seq<byte>) returns (a: u32, s: u32)
    requires a0 < BASE && s0 < BASE
    ensures a < BASE && s < BASE && Sums(a as int, s as int) == Run(Sums(a0 as int, s0 as int), d)
  {
    hide Run, Partial;
    ghost var start := Sums(a0 as int, s0 as int);
    a, s := a0, s0;
    var i := 0;
    RunNone(start);
    assert d[..0] == [];
    while |d| - i >= NMAX
      invariant i <= |d| && a < BASE && s < BASE && Sums(a as int, s as int) == Run(start, d[..i])
    {
      a, s := Reduce(a, s, d, i, NMAX, start);
      i := i + NMAX;
    }
    if i < |d| {
      a, s := Reduce(a, s, d, i, |d| - i, start);
    }
    assert d[..|d|] == d;
  }

  // One block with its one reduction.
  method Reduce(a0: u32, s0: u32, d: seq<byte>, i: nat, count: nat, ghost start: Sums) returns (a: u32, s: u32)
    requires a0 < BASE && s0 < BASE && i + count <= |d| && count <= NMAX
    requires Sums(a0 as int, s0 as int) == Run(start, d[..i])
    ensures a < BASE && s < BASE && Sums(a as int, s as int) == Run(start, d[..i + count])
  {
    hide Run, Partial;
    a, s := Block(a0, s0, d, i, count);
    BlockReduced(a0, s0, d[i..i + count], a, s);
    RunConcat(start, d[..i], d[i..i + count]);
    assert d[..i] + d[i..i + count] == d[..i + count];
    a := a % BASE;
    s := s % BASE;
  }

  lemma RunNone(s: Sums)
    ensures Run(s, []) == s
  {}

  // ---------------------------------------------------------------------------
  // Combination
  // ---------------------------------------------------------------------------

  lemma {:induction false} RunReduced(s: Sums, d: seq<byte>)
    requires Reduced(s)
    ensures Reduced(Run(s, d))
    decreases |d|
  {
    if d != [] {
      RunReduced(Next(s, d[0]), d[1..]);
    }
  }

  // The checksum of a concatenation from the two checksums and the second length.
  lemma ConcatSums(a: seq<byte>, b: seq<byte>)
    ensures var x, y, n := Adler(a), Adler(b), |b|;
            Adler(a + b) == Sums(Mod(x.s1 + y.s1 - 1), Mod(x.s2 + y.s2 + n * x.s1 - n))
  {
    var x, n := Adler(a), |b|;
    RunReduced(Sums(1, 0), a);
    RunConcat(Sums(1, 0), a, b);
    RunClosed(x, b);
    RunClosed(Sums(1, 0), b);
    hide Run, Mod, Sum, Twice;
    ModAdd(1 + Sum(b), x.s1 - 1);
    ModAdd(0 + n * 1 + Twice(b), x.s2 + n * x.s1 - n);
  }

  // The same with the length reduced first, as the code has it.
  lemma ReducedLength(n: nat, x: int, z: int)
    ensures Mod(Mod(Mod(n) * x) + z + 65521 - Mod(n)) == Mod(z + n * x - n)
  {
    hide Mod;
    var m := Mod(n);
    ModAdd(m * x, z + 65521 - m);
    assert m * x + (z + 65521 - m) == (z + 65521) + (x - 1) * m;
    ModMulAdd(z + 65521, x - 1, n);
    ModMultiple(z + (x - 1) * n, 1);
    assert z + (x - 1) * n == z + n * x - n;
  }

  lemma Subtracted(v: int, w: int)
    requires 0 <= w < 65521 && (v == w || v == w + 65521 || v == w + 131042 || v == w + 196563)
    ensures w == Mod(v)
  {}

  // adler32_combine_ on the halves. The product rem * sum1 fits 32 bits, and the conditional
  // subtractions leave both halves below BASE.
  method CombineHalves(a1: u32, a2: u32, b1: u32, b2: u32, len2: nat) returns (sum1: u32, sum2: u32)
    requires a1 < BASE && a2 < BASE && b1 < BASE && b2 < BASE
    ensures sum1 < BASE && sum1 as int == Mod(a1 as int + b1 as int - 1)
    ensures sum2 < BASE && sum2 as int == Mod(a2 as int + b2 as int + len2 * a1 as int - len2)
  {
    var rem: u32 := (len2 % 65521) as u32;
    MulBound(rem as int, 65520, a1 as int, 65520);
    sum1 := a1;
    sum2 := rem * sum1;
    assert sum2 as int % 65521 == Mod(Mod(len2) * a1 as int);
    ReducedLength(len2, a1 as int, a2 as int + b2 as int);
    sum2 := sum2 % BASE;
    sum1 := sum1 + (b1 + BASE - 1);
    sum2 := sum2 + (a2 + b2 + BASE - rem);
    ghost var v1, v2 := sum1 as int, sum2 as int;
    if sum1 >= BASE { sum1 := sum1 - BASE; }
    if sum1 >= BASE { sum1 := sum1 - BASE; }
    if sum2 >= 2 * BASE { sum2 := sum2 - 2 * BASE; }
    if sum2 >= BASE { sum2 := sum2 - BASE; }
    Subtracted(v1, sum1 as int);
    Subtracted(v2, sum2 as int);
    ModMultiple(a1 as int + b1 as int - 1, 1);
    hide Mod;
  }

  // adler32_combine_
  method Combine(adler1: u32, adler2: u32, len2: nat) returns (r: u32)
    requires Reduced(Unpack(adler1)) && Reduced(Unpack(adler2))
    ensures Reduced(Unpack(r))
    ensures forall a, b :: Unpack(adler1) == Adler(a) && Unpack(adler2) == Adler(b) && len2 == |b| ==>
                           Unpack(r) == Adler(a + b)
  {
    hide Adler, Mod;
    var sum1, sum2 := CombineHalves(adler1 % 65536, adler1 / 65536, adler2 % 65536, adler2 / 65536, len2);
    r := sum1 + 65536 * sum2;
    assert Unpack(r) == Sums(sum1 as int, sum2 as int);
    forall a, b | Unpack(adler1) == Adler(a) && Unpack(adler2) == Adler(b) && len2 == |b|
      ensures Unpack(r) == Adler(a + b)
    {
      ConcatSums(a, b);
    }
  }
}
