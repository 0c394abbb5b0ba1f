/** The two bit formats of lib/minihuf.c: codes given as right-aligned numbers, and terminal
    flags packed eight to a byte. */
module HuffmanBits {
  import opened Octets

  type Code = seq<bool>

  // ---------------------------------------------------------------------------
  // Codes
  // ---------------------------------------------------------------------------

  // An entry of huf_literal.
  datatype Literal = Literal(code: nat, len: nat)

  // code_bit: bits are numbered from the highest of the len bits on.
  function CodeBit(l: Literal, bit: nat): bool
    requires bit < l.len
  {
    l.code / Pow2(l.len - 1 - bit) % 2 == 1
  }

  function Bits(l: Literal): (s: Code)
    ensures |s| == l.len
  {
    seq(l.len, i requires 0 <= i < l.len => CodeBit(l, i))
  }

  function Codes(ls: seq<Literal>): (s: seq<Code>)
    ensures |s| == |ls|
  {
    seq(|ls|, i requires 0 <= i < |ls| => Bits(ls[i]))
  }

  // The number a bit string spells, highest bit first.
  function NumberOf(s: Code): nat {
    if s == [] then 0 else 2 * NumberOf(s[..|s| - 1]) + (if s[|s| - 1] then 1 else 0)
  }

  // Leaving off the last bit halves the code.
  lemma HalfBits(l: Literal)
    requires l.len > 0
    ensures Bits(l)[..l.len - 1] == Bits(Literal(l.code / 2, l.len - 1))
    ensures Bits(l)[l.len - 1] <==> l.code % 2 == 1
  {
    hide Pow2;
    var h := Literal(l.code / 2, l.len - 1);
    forall i | 0 <= i < h.len ensures CodeBit(l, i) == CodeBit(h, i) {
      HalfAgain(l.code, h.len - 1 - i);
    }
    PowZero();
  }

  // A code's bits spell the code.
  lemma {:induction false} BitsSpell(l: Literal)
    requires l.code < Pow2(l.len)
    ensures NumberOf(Bits(l)) == l.code
    decreases l.len
  {
    hide Bits, NumberOf;
    if l.len == 0 {
      NumberNone(Bits(l));
    } else {
      HalfBits(l);
      BitsSpell(Literal(l.code / 2, l.len - 1));
      NumberSnoc(Bits(l));
    }
  }

  lemma NumberNone(s: Code)
    requires s == []
    ensures NumberOf(s) == 0
  {}

  lemma NumberSnoc(s: Code)
    requires s != []
    ensures NumberOf(s) == 2 * NumberOf(s[..|s| - 1]) + (if s[|s| - 1] then 1 else 0)
  {}

  // ---------------------------------------------------------------------------
  // Flags
  // ---------------------------------------------------------------------------

  // 1 << k
  function Mask(k: nat): bv8
    requires k < 8
  {
    match k
    case 0 => 1
    case 1 => 2
    case 2 => 4
    case 3 => 8
    case 4 => 16
    case 5 => 32
    case 6 => 64
    case 7 => 128
  }

  predicate Test(x: bv8, k: nat)
    requires k < 8
  {
    x & Mask(k) != 0
  }

  function Set(x: bv8, k: nat): bv8
    requires k < 8
  {
    x | Mask(k)
  }

  lemma SetOne(x: bv8, i: nat, j: nat)
    requires i < 8 && j < 8
    ensures Test(Set(x, i), j) <==> i == j || Test(x, j)
  {}

  lemma TestZero(k: nat)
    requires k < 8
    ensures !Test(0, k)
  {}

  // terms[q >> 3] & (1 << (q & 7))
  predicate Flag(terms: seq<bv8>, q: nat) { q / 8 < |terms| && Test(terms[q / 8], q % 8) }

  // terms[q >> 3] |= 1 << (q & 7)
  function Raise(terms: seq<bv8>, q: nat): seq<bv8>
    requires q / 8 < |terms|
  {
    terms[q / 8 := Set(terms[q / 8], q % 8)]
  }

  lemma RaiseOne(terms: seq<bv8>, q: nat, p: nat)
    requires q / 8 < |terms|
    ensures Flag(Raise(terms, q), p) <==> p == q || Flag(terms, p)
  {
    hide Test, Set;
    if p / 8 == q / 8 {
      SetOne(terms[q / 8], q % 8, p % 8);
    }
  }

  // The packed flags are these, and none beyond.
  ghost predicate Packs(terms: seq<bv8>, flags: seq<bool>) {
    forall q: nat :: Flag(terms, q) <==> q < |flags| && flags[q]
  }

  lemma PacksNone(n: nat)
    ensures Packs(seq(n, _ => 0 as bv8), [])
  {
    hide Test;
    var zeros := seq(n, _ => 0 as bv8);
    forall q: nat ensures !Flag(zeros, q) {
      TestZero(q % 8);
    }
  }

  lemma PacksNext(terms: seq<bv8>, flags: seq<bool>, flag: bool)
    requires Packs(terms, flags) && |flags| / 8 < |terms|
    ensures Packs(if flag then Raise(terms, |flags|) else terms, flags + [flag])
  {
    hide Flag, Raise;
    var next := if flag then Raise(terms, |flags|) else terms;
    forall q: nat ensures Flag(next, q) <==> q < |flags| + 1 && (flags + [flag])[q] {
      RaiseOne(terms, |flags|, q);
    }
  }

  // Bytes without flags may be left off.
  lemma PacksPrefix(terms: seq<bv8>, flags: seq<bool>, n: nat)
    requires Packs(terms, flags) && n <= |terms| && |flags| <= 8 * n
    ensures Packs(terms[..n], flags)
  {
    hide Test;
    forall q: nat ensures Flag(terms[..n], q) <==> q < |flags| && flags[q] {
      assert Flag(terms, q) <==> q < |flags| && flags[q];
    }
  }

  // The first n flags.
  function Flags(terms: seq<bv8>, n: nat): (s: seq<bool>)
    ensures |s| == n
  {
    seq(n, q requires 0 <= q < n => Flag(terms, q))
  }

  lemma FlagsPacked(terms: seq<bv8>, flags: seq<bool>)
    requires Packs(terms, flags)
    ensures Flags(terms, |flags|) == flags
  {
    hide Flag;
  }
}
