/** SHA-1 (lib/sha-1.c) against RFC 3174: a 16-word schedule updated in place, input taken
    in any pieces, and padding. */
module Sha1 {

  // ---------------------------------------------------------------------------
  // Reference: sections 3 to 6.1 of RFC 3174
  // ---------------------------------------------------------------------------

  datatype Regs = Regs(a: bv32, b: bv32, c: bv32, d: bv32, e: bv32)

  const IV := Regs(0x67452301, 0xefcdab89, 0x98badcfe, 0x10325476, 0xc3d2e1f0)

  function Rotl1(x: bv32): bv32 { (x << 1) | (x >> 31) }
  function Rotl5(x: bv32): bv32 { (x << 5) | (x >> 27) }
  function Rotl30(x: bv32): bv32 { (x << 30) | (x >> 2) }

  function K(t: nat): bv32
    requires t < 80
  {
    if t < 20 then 0x5a827999 else if t < 40 then 0x6ed9eba1 else if t < 60 then 0x8f1bbcdc else 0xca62c1d6
  }

  function Choose(b: bv32, c: bv32, d: bv32): bv32 { (b & c) | (!b & d) }
  function Parity(b: bv32, c: bv32, d: bv32): bv32 { b ^ c ^ d }
  function Majority(b: bv32, c: bv32, d: bv32): bv32 { (b & c) | (b & d) | (c & d) }

  function F(t: nat, b: bv32, c: bv32, d: bv32): bv32
    requires t < 80
  {
    if t < 20 then Choose(b, c, d)
    else if t < 40 then Parity(b, c, d)
    else if t < 60 then Majority(b, c, d)
    else Parity(b, c, d)
  }

  function Mix(x: bv32, y: bv32, z: bv32, w: bv32): bv32 { Rotl1(x ^ y ^ z ^ w) }

  type Block = b: seq<bv32> | |b| == 16 witness seq(16, _ => 0)

  // The 80-word message schedule.
  function W(m: Block, t: nat): bv32 {
    if t < 16 then m[t] else Mix(W(m, t - 3), W(m, t - 8), W(m, t - 14), W(m, t - 16))
  }

  function Round(t: nat, r: Regs, w: bv32): Regs
    requires t < 80
  {
    Regs(Rotl5(r.a) + F(t, r.b, r.c, r.d) + r.e + w + K(t), r.a, Rotl30(r.b), r.c, r.d)
  }

  function Rounds(m: Block, r: Regs, t: nat): Regs
    requires t <= 80
  {
    if t == 0 then r else Round(t - 1, Rounds(m, r, t - 1), W(m, t - 1))
  }

  function AddRegs(h: Regs, r: Regs): Regs {
    Regs(h.a + r.a, h.b + r.b, h.c + r.c, h.d + r.d, h.e + r.e)
  }

  function Compress(h: Regs, m: Block): Regs { AddRegs(h, Rounds(m, h, 80)) }

  function Word(a: bv8, b: bv8, c: bv8, d: bv8): bv32 {
    (a as bv32 << 24) | (b as bv32 << 16) | (c as bv32 << 8) | d as bv32
  }

  function Words(s: seq<bv8>): Block
    requires |s| == 64
  {
    seq(16, i requires 0 <= i < 16 => Word(s[4 * i], s[4 * i + 1], s[4 * i + 2], s[4 * i + 3]))
  }

  function Hash(h: Regs, s: seq<bv8>): Regs
    requires |s| % 64 == 0
    decreases |s|
  {
    if s == [] then h else Hash(Compress(h, Words(s[..64])), s[64..])
  }

  function Zeros(k: nat): (s: seq<bv8>)
    ensures |s| == k
  {
    seq(k, _ => 0 as bv8)
  }

  // Byte i of a 64-bit number, counted from the low end.
  function LengthByte(n: nat, i: nat): bv8
    requires i < 8
  {
    match i
    case 0 => LowByte(n)
    case 1 => LowByte(n / 0x100)
    case 2 => LowByte(n / 0x1_0000)
    case 3 => LowByte(n / 0x100_0000)
    case 4 => LowByte(n / 0x1_0000_0000)
    case 5 => LowByte(n / 0x100_0000_0000)
    case 6 => LowByte(n / 0x1_0000_0000_0000)
    case 7 => LowByte(n / 0x100_0000_0000_0000)
  }

  function LowByte(n: nat): bv8 { (n % 256) as bv8 }

  function LengthBytes(n: nat): (s: seq<bv8>)
    ensures |s| == 8
  {
    [LengthByte(n, 7), LengthByte(n, 6), LengthByte(n, 5), LengthByte(n, 4),
     LengthByte(n, 3), LengthByte(n, 2), LengthByte(n, 1), LengthByte(n, 0)]
  }

  // How many zero bytes bring the length to eight short of a whole number of blocks.
  function PadZeros(n: nat): nat { if n % 64 <= 55 then 55 - n % 64 else 119 - n % 64 }

  lemma PadLength(n: nat)
    ensures (n + 1 + PadZeros(n) + 8) % 64 == 0
  {
    assert n == 64 * (n / 64) + n % 64;
  }

  // A one bit, as many zero bits as needed, and the length in bits.
  function Padded(msg: seq<bv8>): (s: seq<bv8>)
    ensures |s| % 64 == 0
  {
    PadLength(|msg|);
    msg + [0x80] + Zeros(PadZeros(|msg|)) + LengthBytes(8 * |msg|)
  }

  function WordBytes(w: bv32): (s: seq<bv8>)
    ensures |s| == 4
  {
    [(w >> 24) as bv8, ((w >> 16) & 0xff) as bv8, ((w >> 8) & 0xff) as bv8, (w & 0xff) as bv8]
  }

  function Digest(msg: seq<bv8>): seq<bv8> {
    var h := Hash(IV, Padded(msg));
    WordBytes(h.a) + WordBytes(h.b) + WordBytes(h.c) + WordBytes(h.d) + WordBytes(h.e)
  }

  // ---------------------------------------------------------------------------
  // One block, with a schedule of 16 words
  // ---------------------------------------------------------------------------

  ghost predicate Slot(w: seq<bv32>, m: Block, j: nat) {
    |w| == 16 && w[j % 16] == W(m, j)
  }

  // Before round t the array holds the sixteen newest words of the schedule.
  ghost predicate Window(w: seq<bv32>, m: Block, t: nat) {
    |w| == 16 && forall j :: Base(t) <= j < Base(t) + 16 ==> Slot(w, m, j)
  }

  function Base(t: nat): nat { if t < 16 then 0 else t - 16 }

  // Rounds lo to hi, one of the four loops of sha1_step.
  method Phase(w: array<bv32>, ghost m: Block, ghost h: Regs, r: Regs, lo: nat, hi: nat) returns (q: Regs)
    requires w.Length == 16 && lo <= hi <= 80 && Window(w[..], m, lo) && r == Rounds(m, h, lo)
    modifies w
    ensures Window(w[..], m, hi) && q == Rounds(m, h, hi)
  {
    hide Window, Round, Mix;
    q := r;
    for t := lo to hi
      invariant Window(w[..], m, t) && q == Rounds(m, h, t)
    {
      var s := t % 16;
      WindowNext(w[..], m, t);
      if t >= 16 {
        WindowReads(w[..], m, t);
        ghost var before := w[..];
        w[s] := Mix(w[(s + 13) % 16], w[(s + 8) % 16], w[(s + 2) % 16], w[s]);
        assert w[..] == before[s := W(m, t)];
      }
      q := Round(t, q, w[s]);
    }
  }

  // Indices into the array, as the code computes them and as the schedule counts them.
  lemma Index(t: nat, k: nat)
    requires k <= t && k <= 16
    ensures (t % 16 + (16 - k)) % 16 == (t - k) % 16
  {}

  lemma Distinct(t: nat, j: nat)
    requires t - 16 < j < t
    ensures j % 16 != t % 16
  {}

  lemma SlotAt(w: seq<bv32>, m: Block, t: nat, j: nat)
    requires Window(w, m, t) && Base(t) <= j < Base(t) + 16
    ensures |w| == 16 && w[j % 16] == W(m, j)
  {
    hide W;
    assert Slot(w, m, j);
  }

  lemma WindowRead(w: seq<bv32>, m: Block, t: nat, k: nat)
    requires Window(w, m, t) && t >= 16 && 0 < k <= 16
    ensures |w| == 16 && w[(t % 16 + (16 - k)) % 16] == W(m, t - k)
  {
    hide W, Window;
    SlotAt(w, m, t, t - k);
    Index(t, k);
  }

  lemma WindowReads(w: seq<bv32>, m: Block, t: nat)
    requires Window(w, m, t) && t >= 16
    ensures var s := t % 16;
            && |w| == 16 && w[(s + 13) % 16] == W(m, t - 3) && w[(s + 8) % 16] == W(m, t - 8)
            && w[(s + 2) % 16] == W(m, t - 14) && w[s] == W(m, t - 16)
  {
    hide W, Window;
    WindowRead(w, m, t, 3);
    WindowRead(w, m, t, 8);
    WindowRead(w, m, t, 14);
    WindowRead(w, m, t, 16);
  }

  lemma WindowNext(w: seq<bv32>, m: Block, t: nat)
    requires Window(w, m, t)
    ensures var u := if t < 16 then w else w[t % 16 := W(m, t)];
            Window(u, m, t + 1) && u[t % 16] == W(m, t)
  {
    hide W;
    if t < 16 {
      SlotAt(w, m, t, t);
    } else {
      var u := w[t % 16 := W(m, t)];
      forall j | Base(t + 1) <= j < Base(t + 1) + 16 ensures Slot(u, m, j) {
        if j < t {
          SlotAt(w, m, t, j);
          Distinct(t, j);
        }
      }
    }
  }

  // ---------------------------------------------------------------------------
  // Hashing by pieces
  // ---------------------------------------------------------------------------

  lemma {:induction false} HashBlock(h: Regs, s: seq<bv8>, block: seq<bv8>)
    requires |s| % 64 == 0 && |block| == 64
    ensures Hash(h, s + block) == Compress(Hash(h, s), Words(block))
    decreases |s|
  {
    hide Compress, Words;
    if s == [] {
      assert s + block == block && block[..64] == block && block[64..] == [];
    } else {
      assert (s + block)[..64] == s[..64] && (s + block)[64..] == s[64..] + block;
      HashBlock(Compress(h, Words(s[..64])), s[64..], block);
    }
  }

  // The whole part of what was fed, and the rest.
  function Whole(s: seq<bv8>): (w: seq<bv8>)
    ensures |w| % 64 == 0
  {
    assert (|s| - |s| % 64) % 64 == 0;
    s[..|s| - |s| % 64]
  }

  function Rest(s: seq<bv8>): (r: seq<bv8>)
    ensures |r| == |s| % 64
  {
    s[|s| - |s| % 64..]
  }

  const TWO_64 := 0x1_0000_0000_0000_0000

  type Count64 = x: int | 0 <= x < TWO_64

  class Context {
    var h: Regs
    const m: array<bv8>  // 64 bytes; the source also reads it as 16 words
    var count: nat
    var bits: Count64
    ghost var fed: seq<bv8>  // every byte that went into the blocks, padding included

    // The context is a function of the bytes fed.
    ghost predicate Valid()
      reads this`h, this`count, this`fed, m
    {
      m.Length == 64 && count == |fed| % 64 && h == Hash(IV, Whole(fed)) && m[..] == Rest(fed) + Zeros(64 - count)
    }

    constructor ()
      ensures Valid() && fed == [] && bits == 0 && fresh(m)
    {
      h, count, bits := IV, 0, 0;
      fed := [];
      m := new bv8[64](_ => 0);
    }

    // sha1_step: the full block is compressed and cleared.
    method Step()
      requires m.Length == 64
      modifies this`h, m
      ensures h == Compress(old(h), Words(old(m[..]))) && m[..] == Zeros(64)
    {
      hide Rounds, Words, Window, AddRegs;
      var w := new bv32[16];
      ghost var block := Words(m[..]);
      LoadWords(w);
      WindowStart(w[..], block);
      RoundsStart(block, h);
      var r := Phase(w, block, h, h, 0, 20);
      r := Phase(w, block, h, r, 20, 40);
      r := Phase(w, block, h, r, 40, 60);
      r := Phase(w, block, h, r, 60, 80);
      h := AddRegs(h, r);
      forall i | 0 <= i < 64 {
        m[i] := 0;
      }
    }

    // The words of the block, most significant byte first.
    method LoadWords(w: array<bv32>)
      requires m.Length == 64 && w.Length == 16
      modifies w
      ensures w[..] == Words(m[..])
    {
      hide Word;
      for i := 0 to 16
        invariant forall j | 0 <= j < i :: w[j] == Words(m[..])[j]
      {
        w[i] := Word(m[4 * i], m[4 * i + 1], m[4 * i + 2], m[4 * i + 3]);
      }
    }

    // The copy into the block.
    method Copy(p: seq<bv8>)
      requires m.Length == 64 && count + |p| <= 64
      modifies m
      ensures m[..] == old(m[..])[..count] + p + old(m[..])[count + |p|..]
    {
      forall i | 0 <= i < |p| {
        m[count + i] := p[i];
      }
    }

    // Bytes that fit the current block: copied in, and the block compressed once full.
    method Absorb(p: seq<bv8>)
      requires Valid() && count + |p| <= 64
      modifies this`h, this`count, this`fed, m
      ensures Valid() && fed == old(fed) + p
    {
      hide Hash, Compress, Whole, Rest, Zeros;
      ghost var was := m[..];
      Copy(p);
      if count + |p| < 64 {
        FeedShort(fed, p);
        Filled(fed, p, was);
        count := count + |p|;
      } else {
        FeedFull(fed, p);
        Filled(fed, p, was);
        HashBlock(IV, Whole(fed), Rest(fed) + p);
        Step();
        count := 0;
      }
      fed := fed + p;
      assert Rest(fed) == [] ==> Rest(fed) + Zeros(64) == Zeros(64);
    }

    lemma CountBelow()
      requires Valid()
      ensures count == |fed| % 64
    {}

    // sha1_loop: any amount of input, a block's gap at a time.
    method Loop(input: seq<bv8>)
      requires Valid()
      modifies this`h, this`count, this`fed, this`bits, m
      ensures Valid() && fed == old(fed) + input && bits == (old(bits) + 8 * |input|) % TWO_64
    {
      hide Valid;
      var off := 0;
      while off < |input|
        invariant 0 <= off <= |input| && Valid() && fed == old(fed) + input[..off]
        invariant bits == (old(bits) + 8 * off) % TWO_64
      {
        CountBelow();
        var gap := 64 - count;
        var size := if gap < |input| - off then gap else |input| - off;
        Absorb(input[off..off + size]);
        assert input[..off] + input[off..off + size] == input[..off + size];
        AddMod(old(bits) + 8 * off, 8 * size);
        bits := (bits + 8 * size) % TWO_64;
        off := off + size;
      }
      assert input[..off] == input;
    }

    // sha1_pad
    method Pad(ghost msg: seq<bv8>)
      requires Valid() && fed == msg
      modifies this`h, this`count, this`fed, m
      ensures Valid() && fed == msg + [0x80] + Zeros(PadZeros(|msg|)) + LengthBytes(bits)
    {
      hide Valid, LengthBytes;
      PutPad(0x80);
      CountBelow();
      var zeros := 0;
      if 64 - count < 8 {
        zeros := 64 - count;
        Absorb(Zeros(zeros));
        CountBelow();
        FullMod(|msg| + 1, zeros);
      }
      var more := 64 - count - 8;
      Absorb(Zeros(more));
      PadCount(|msg|);
      assert Zeros(zeros) + Zeros(more) == Zeros(PadZeros(|msg|));
      assert fed == msg + [0x80] + Zeros(PadZeros(|msg|));
      PutLength();
    }

    // PUTPAD
    method PutPad(x: bv8)
      requires Valid()
      modifies this`h, this`count, this`fed, m
      ensures Valid() && fed == old(fed) + [x]
    {
      Absorb([x]);
    }

    method PutPads(x: bv8, y: bv8, z: bv8, w: bv8)
      requires Valid()
      modifies this`h, this`count, this`fed, m
      ensures Valid() && fed == old(fed) + [x, y, z, w]
    {
      hide Valid;
      PutPad(x);
      PutPad(y);
      PutPad(z);
      PutPad(w);
    }

    // The eight bytes of the length.
    method PutLength()
      requires Valid()
      modifies this`h, this`count, this`fed, m
      ensures Valid() && fed == old(fed) + LengthBytes(bits)
    {
      hide Valid, LengthByte;
      PutPads(LengthByte(bits, 7), LengthByte(bits, 6), LengthByte(bits, 5), LengthByte(bits, 4));
      PutPads(LengthByte(bits, 3), LengthByte(bits, 2), LengthByte(bits, 1), LengthByte(bits, 0));
    }

    // sha1_result
    method Result(ghost msg: seq<bv8>) returns (digest: seq<bv8>)
      requires Valid() && fed == msg && bits == 8 * |msg|
      modifies this`h, this`count, this`fed, m
      ensures digest == Digest(msg)
    {
      hide Hash, WordBytes, LengthBytes, Zeros, PadZeros;
      Pad(msg);
      assert fed == Padded(msg);
      WholePadded(fed);
      digest := WordBytes(h.a) + WordBytes(h.b) + WordBytes(h.c) + WordBytes(h.d) + WordBytes(h.e);
    }
  }

  // The zeros that sha1_pad adds in one or two goes.
  lemma PadCount(n: nat)
    ensures var c := (n + 1) % 64; PadZeros(n) == if 64 - c < 8 then 64 - c + 56 else 56 - c
  {}

  lemma WholePadded(s: seq<bv8>)
    requires |s| % 64 == 0
    ensures Whole(s) == s
  {}

  lemma AddMod(x: nat, y: nat)
    ensures (x % TWO_64 + y) % TWO_64 == (x + y) % TWO_64
  {
    assert x == TWO_64 * (x / TWO_64) + x % TWO_64;
  }

  // libwebsockets_SHA1: for every message whose length in bits fits 64 bits, the digest of
  // RFC 3174.
  method DigestOf(d: seq<bv8>) returns (digest: seq<bv8>)
    requires 8 * |d| < TWO_64
    ensures digest == Digest(d)
  {
    hide Digest, Hash, Whole, Rest, Zeros;
    var ctx := new Context();
    ctx.Loop(d);
    assert [] + d == d;
    digest := ctx.Result(d);
  }

  // ---------------------------------------------------------------------------
  // Input in pieces
  // ---------------------------------------------------------------------------

  function Flatten(pieces: seq<seq<bv8>>): seq<bv8> {
    if pieces == [] then [] else Flatten(pieces[..|pieces| - 1]) + pieces[|pieces| - 1]
  }

  // Every field of a context.
  datatype Snapshot = Snapshot(h: Regs, count: nat, bits: int, block: seq<bv8>)

  // The context after msg, as a function of msg alone.
  function After(msg: seq<bv8>): Snapshot {
    Snapshot(Hash(IV, Whole(msg)), |msg| % 64, 8 * |msg| % TWO_64, Rest(msg) + Zeros(64 - |msg| % 64))
  }

  // A fresh context after any number of sha1_loop calls.
  method Feed(pieces: seq<seq<bv8>>) returns (ctx: Context)
    ensures fresh(ctx) && fresh(ctx.m) && ctx.Valid() && ctx.fed == Flatten(pieces)
    ensures ctx.bits == 8 * |Flatten(pieces)| % TWO_64
  {
    hide Hash, Whole, Rest, Zeros;
    ctx := new Context();
    for i := 0 to |pieces|
      invariant fresh(ctx) && fresh(ctx.m) && ctx.Valid() && ctx.fed == Flatten(pieces[..i])
      invariant ctx.bits == 8 * |Flatten(pieces[..i])| % TWO_64
    {
      hide *;
      FlattenNext(pieces, i);
      AddMod(8 * |Flatten(pieces[..i])|, 8 * |pieces[i]|);
      ctx.Loop(pieces[i]);
    }
    assert pieces[..|pieces|] == pieces;
  }

  lemma FlattenNext(pieces: seq<seq<bv8>>, i: nat)
    requires i < |pieces|
    ensures Flatten(pieces[..i + 1]) == Flatten(pieces[..i]) + pieces[i]
  {
    assert pieces[..i + 1][..i] == pieces[..i];
  }

  // Any two ways of splitting the same input over sha1_loop calls leave the same context, bit
  // counter included.
  method SplitsAgree(p: seq<seq<bv8>>, q: seq<seq<bv8>>) returns (x: Snapshot, y: Snapshot)
    requires Flatten(p) == Flatten(q)
    ensures x == y == After(Flatten(p))
  {
    hide Hash, Whole, Rest, Zeros;
    var c := Feed(p);
    var d := Feed(q);
    x := Snapshot(c.h, c.count, c.bits, c.m[..]);
    y := Snapshot(d.h, d.count, d.bits, d.m[..]);
  }

  // The digest of a message does not depend on how it was fed.
  method DigestOfPieces(pieces: seq<seq<bv8>>) returns (digest: seq<bv8>)
    requires 8 * |Flatten(pieces)| < TWO_64
    ensures digest == Digest(Flatten(pieces))
  {
    hide Digest, Hash, Whole, Rest, Zeros;
    var ctx := Feed(pieces);
    digest := ctx.Result(Flatten(pieces));
  }

  // The block after a copy.
  lemma Filled(s: seq<bv8>, p: seq<bv8>, was: seq<bv8>)
    requires |s| % 64 + |p| <= 64 && was == Rest(s) + Zeros(64 - |s| % 64)
    ensures was[..|s| % 64] + p + was[|s| % 64 + |p|..] == Rest(s) + p + Zeros(64 - |s| % 64 - |p|)
    ensures |s| % 64 + |p| == 64 ==> was[..|s| % 64] + p + was[|s| % 64 + |p|..] == Rest(s) + p
  {
    hide Rest;
  }

  lemma ShortMod(n: nat, k: nat)
    requires n % 64 + k < 64
    ensures (n + k) % 64 == n % 64 + k
  {}

  lemma FullMod(n: nat, k: nat)
    requires n % 64 + k == 64
    ensures (n + k) % 64 == 0
  {}

  lemma FeedShort(s: seq<bv8>, p: seq<bv8>)
    requires |s| % 64 + |p| < 64
    ensures (|s| + |p|) % 64 == |s| % 64 + |p|
    ensures Whole(s + p) == Whole(s) && Rest(s + p) == Rest(s) + p
  {
    ShortMod(|s|, |p|);
    var w := |s| - |s| % 64;
    assert (s + p)[..w] == s[..w] && (s + p)[w..] == s[w..] + p;
  }

  lemma FeedFull(s: seq<bv8>, p: seq<bv8>)
    requires |s| % 64 + |p| == 64
    ensures (|s| + |p|) % 64 == 0
    ensures Whole(s + p) == Whole(s) + (Rest(s) + p) && Rest(s + p) == []
  {
    FullMod(|s|, |p|);
    var w := |s| - |s| % 64;
    assert s + p == s[..w] + (s[w..] + p);
  }

  lemma WindowStart(w: seq<bv32>, m: Block)
    requires w == m
    ensures Window(w, m, 0)
  {
    forall j | Base(0) <= j < Base(0) + 16 ensures Slot(w, m, j) {}
  }

  lemma RoundsStart(m: Block, h: Regs)
    ensures Rounds(m, h, 0) == h
  {}
}
