/** Base64 (lib/base64-decode.c): the encoder against section 4 of RFC 4648, and what the
    decoder makes of the encoder's output. */
module Base64 {
  import opened Octets

  type digit = x: int | 0 <= x < 64

  // The tables, in runs.
  const UPPER := "ABCDEFGHIJKLMNOPQRSTUVWXYZ"
  const LOWER := "abcdefghijklmnopqrstuvwxyz"
  const DIGITS := "0123456789"
  const ENCODE := UPPER + LOWER + DIGITS + "+/"

  const FROM_PLUS := "|$$$}"
  const FROM_0 := "rstuvwxyz{"
  const FROM_COLON := "$$$$$$$"
  const FROM_A := ">?@ABCDEFGHIJKLMNOPQRSTUVW"
  const FROM_BRACKET := "$$$$$$"
  const FROM_LOWER_A := "XYZ[\\]^_`abcdefghijklmnopq"
  const DECODE_LOW := FROM_PLUS + FROM_0 + FROM_COLON
  const DECODE_HIGH := FROM_A + FROM_BRACKET + FROM_LOWER_A
  const DECODE := DECODE_LOW + DECODE_HIGH

  // ---------------------------------------------------------------------------
  // Reference
  // ---------------------------------------------------------------------------

  // Table 1 of RFC 4648.
  function Letter(d: digit): char {
    if d < 26 then 'A' + d as char
    else if d < 52 then 'a' + (d - 26) as char
    else if d < 62 then '0' + (d - 52) as char
    else if d == 62 then '+' else '/'
  }

  // Digit k of a group of 24 bits.
  function Digit(group: nat, k: nat): digit
    requires group < 0x100_0000 && k < 4
  {
    match k
    case 0 => group / 0x4_0000
    case 1 => group / 0x1000 % 64
    case 2 => group / 64 % 64
    case 3 => group % 64
  }

  function Group(a: byte, b: byte, c: byte): nat { a * 0x1_0000 + b * 0x100 + c }

  // The group at the front of s: four characters, of which a short group pads the last.
  function Four(s: seq<byte>): (t: string)
    requires s != []
    ensures |t| == 4
  {
    var g := Group(s[0], if |s| > 1 then s[1] else 0, if |s| > 2 then s[2] else 0);
    [Letter(Digit(g, 0)), Letter(Digit(g, 1)),
     if |s| > 1 then Letter(Digit(g, 2)) else '=',
     if |s| > 2 then Letter(Digit(g, 3)) else '=']
  }

  function After(s: seq<byte>): seq<byte> { if |s| < 3 then [] else s[3..] }

  function Encoded(s: seq<byte>): string
    decreases |s|
  {
    if s == [] then "" else Four(s) + Encoded(After(s))
  }

  lemma {:induction false} EncodedLength(s: seq<byte>)
    ensures |Encoded(s)| == (|s| + 2) / 3 * 4
    decreases |s|
  {
    hide Four;
    if s != [] {
      EncodedLength(After(s));
      var n := |s|;
      assert n >= 3 ==> (n - 3 + 2) / 3 == (n + 2) / 3 - 1;
    }
  }

  // ---------------------------------------------------------------------------
  // The two tables, entry by entry
  // ---------------------------------------------------------------------------

  lemma EncodeEntry(d: digit)
    ensures |ENCODE| == 64 && ENCODE[d] == Letter(d)
  {
    assert |UPPER| == 26 && |LOWER| == 26 && |DIGITS| == 10;
    if d < 26 {
      assert ENCODE[d] == UPPER[d];
    } else if d < 52 {
      assert ENCODE[d] == LOWER[d - 26];
    } else if d < 62 {
      assert ENCODE[d] == DIGITS[d - 52];
    }
  }

  // A character's entry in the decoder's table: its digit and 62 more, or a dollar sign.
  function Value(c: char): int
    requires 43 <= c as int <= 122
  {
    var x := c as int;
    if x == 43 then 124 else if x == 47 then 125
    else if 48 <= x < 58 then 114 + (x - 48)
    else if 65 <= x < 91 then 62 + (x - 65)
    else if x >= 97 then 88 + (x - 97)
    else 36
  }

  lemma DecodeLow(k: nat)
    ensures |DECODE_LOW| == 22 && (k < 22 ==> DECODE_LOW[k] as int == Value((k + 43) as char))
  {
    assert |FROM_PLUS| == 5 && |FROM_0| == 10 && |FROM_COLON| == 7;
    if k < 5 {
      assert DECODE_LOW[k] == FROM_PLUS[k];
    } else if k < 15 {
      assert DECODE_LOW[k] == FROM_0[k - 5];
    } else if k < 22 {
      assert DECODE_LOW[k] == FROM_COLON[k - 15];
    }
  }

  lemma DecodeHigh(k: nat)
    ensures |DECODE_HIGH| == 58 && (k < 58 ==> DECODE_HIGH[k] as int == Value((k + 65) as char))
  {
    assert |FROM_A| == 26 && |FROM_BRACKET| == 6 && |FROM_LOWER_A| == 26;
    if k < 26 {
      assert DECODE_HIGH[k] == FROM_A[k];
    } else if k < 32 {
      assert DECODE_HIGH[k] == FROM_BRACKET[k - 26];
    } else if k < 58 {
      assert DECODE_HIGH[k] == FROM_LOWER_A[k - 32];
    }
  }

  lemma DecodeEntry(c: char)
    requires 43 <= c as int <= 122
    ensures |DECODE| == 80 && DECODE[c as int - 43] as int == Value(c)
  {
    hide DECODE_LOW, DECODE_HIGH, Value;
    var k := c as int - 43;
    DecodeLow(k);
    DecodeHigh(if k < 22 then 0 else k - 22);
  }

  // ---------------------------------------------------------------------------
  // The encoder
  // ---------------------------------------------------------------------------

  // The six-bit pieces of three bytes, as the shifts and masks give them.
  function Piece0(a: byte): digit { a / 4 }
  function Piece1(a: byte, b: byte): digit { a % 4 * 16 + b / 16 }
  function Piece2(b: byte, c: byte): digit { b % 16 * 4 + c / 64 }
  function Piece3(c: byte): digit { c % 64 }

  lemma Pieces(a: byte, b: byte, c: byte)
    ensures Group(a, b, c) < 0x100_0000
    ensures Piece0(a) == Digit(Group(a, b, c), 0) && Piece1(a, b) == Digit(Group(a, b, c), 1)
    ensures Piece2(b, c) == Digit(Group(a, b, c), 2) && Piece3(c) == Digit(Group(a, b, c), 3)
  {
    var w: int, x: int, y: int, z: int := Piece0(a), Piece1(a, b), Piece2(b, c), Piece3(c);
    assert Group(a, b, c) == ((w * 64 + x) * 64 + y) * 64 + z && w < 64 && x < 64 && y < 64;
    Regroup(w, x, y, z);
    hide Group, Digit;
  }

  lemma Regroup(w: digit, x: digit, y: digit, z: digit)
    ensures var g := ((w * 64 + x) * 64 + y) * 64 + z;
            0 <= g < 0x100_0000 && Digit(g, 0) == w && Digit(g, 1) == x && Digit(g, 2) == y && Digit(g, 3) == z
  {
    var g := ((w * 64 + x) * 64 + y) * 64 + z;
    Quotient(g, 64, (w * 64 + x) * 64 + y, z);
    Quotient(g, 0x1000, w * 64 + x, y * 64 + z);
    Quotient(g, 0x4_0000, w, (x * 64 + y) * 64 + z);
    Quotient((w * 64 + x) * 64 + y, 64, w * 64 + x, y);
    Quotient(w * 64 + x, 64, w, x);
  }

  // One group written to the output.
  method EncodeGroup(s: seq<byte>, i: nat, out: array<char>, done: nat)
    requires i < |s| && done + 4 < out.Length
    modifies out
    ensures out[..done + 4] == old(out[..done]) + Four(s[i..])
  {
    hide Digit, Group, Piece0, Piece1, Piece2, Piece3;
    var len := if |s| - i < 3 then |s| - i else 3;
    var a, b, c := s[i], if len > 1 then s[i + 1] else 0, if len > 2 then s[i + 2] else 0;
    Pieces(a, b, c);
    WriteFour(out, done, Piece0(a), Piece1(a, b), Piece2(b, c), Piece3(c), len);
  }

  method WriteFour(out: array<char>, done: nat, w: digit, x: digit, y: digit, z: digit, len: nat)
    requires done + 4 < out.Length
    modifies out
    ensures out[..done + 4] == old(out[..done]) +
            [Letter(w), Letter(x), if len > 1 then Letter(y) else '=', if len > 2 then Letter(z) else '=']
  {
    hide Letter, ENCODE;
    EncodeEntry(w);
    EncodeEntry(x);
    EncodeEntry(y);
    EncodeEntry(z);
    out[done] := ENCODE[w];
    out[done + 1] := ENCODE[x];
    out[done + 2] := if len > 1 then ENCODE[y] else '=';
    out[done + 3] := if len > 2 then ENCODE[z] else '=';
  }

  lemma EncodedStep(s: seq<byte>, i: nat)
    requires i < |s|
    ensures Encoded(s[i..]) == Four(s[i..]) + Encoded(s[if |s| - i < 3 then |s| else i + 3..])
  {
    hide Four;
    assert After(s[i..]) == s[if |s| - i < 3 then |s| else i + 3..];
  }

  lemma EncodedNone(s: seq<byte>)
    requires s == []
    ensures Encoded(s) == []
  {}

  // lws_b64_encode_string; out.Length is out_size. It wants one character of room more than
  // the text and its terminator take.
  method EncodeString(s: seq<byte>, out: array<char>) returns (r: int)
    modifies out
    ensures r == -1 <==> |Encoded(s)| + 1 >= out.Length
    ensures r != -1 ==> r == |Encoded(s)| && out[..r] == Encoded(s) && out[r] == 0 as char
  {
    hide Four, Encoded, After;
    var i, done := 0, 0;
    assert s[0..] == s;
    while i < |s|
      invariant 0 <= i <= |s| && done <= out.Length
      invariant out[..done] + Encoded(s[i..]) == Encoded(s)
    {
      EncodedStep(s, i);
      if done + 4 >= out.Length { return -1; }
      EncodeGroup(s, i, out, done);
      done := done + 4;
      i := if |s| - i < 3 then |s| else i + 3;
    }
    EncodedNone(s[i..]);
    if done + 1 >= out.Length { return -1; }
    out[done] := 0 as char;
    return done;
  }

  // ---------------------------------------------------------------------------
  // The decoder
  // ---------------------------------------------------------------------------

  // A character's digit plus one; 0 for characters that are skipped.
  function Known(c: char): (v: nat)
    ensures v <= 64
  {
    if c as int < 43 || c as int > 122 || Value(c) == 36 then 0 else Value(c) - 61
  }

  lemma KnownLetter(d: digit)
    ensures Known(Letter(d)) == d + 1
  {}

  method LookUp(c: char) returns (v: nat)
    ensures v == Known(c)
  {
    v := 0;
    if 43 <= c as int <= 122 {
      DecodeEntry(c);
      hide DECODE;
      var e := DECODE[c as int - 43];
      if e != '$' {
        v := e as int - 61;
      }
    }
  }

  // One digit: characters are skipped up to one that counts, or to the end of the text. The
  // last character of the text is not counted and reads as zero.
  method ReadDigit(text: string, start: nat, quad: array<digit>, i: nat, count: nat) returns (pos: nat, len: nat)
    requires start < |text| && quad.Length == 4 && i < 4
    modifies quad
    ensures start < pos <= |text| && quad[..] == old(quad[..])[i := quad[i]]
    ensures forall k | start <= k < pos - 1 :: Known(text[k]) == 0
    ensures pos < |text| ==>
              Known(text[pos - 1]) > 0 && len == count + (pos - start) && quad[i] == Known(text[pos - 1]) - 1
    ensures pos == |text| ==> len == count + (pos - start) - 1 && quad[i] == 0
  {
    hide Known;
    pos, len := start, count;
    var v := 0;
    while pos < |text| && v == 0
      invariant start <= pos <= |text| && quad[..] == old(quad[..])[i := quad[i]]
      invariant v == if pos == start then 0 else Known(text[pos - 1])
      invariant forall k | start <= k < pos - 1 :: Known(text[k]) == 0
      invariant len == count + (pos - start) - (if pos == |text| then 1 else 0)
      invariant pos == |text| ==> quad[i] == 0
      invariant pos < |text| && v != 0 ==> quad[i] == v - 1
    {
      v := LookUp(text[pos]);
      pos := pos + 1;
      if pos < |text| {
        len := len + 1;
        if v != 0 {
          quad[i] := v - 1;
        }
      } else {
        quad[i] := 0;
      }
    }
  }

  // A group of four letters with more to come.
  ghost predicate Inner(text: string, p: nat) {
    p + 4 < |text| && Known(text[p]) > 0 && Known(text[p + 1]) > 0 && Known(text[p + 2]) > 0 && Known(text[p + 3]) > 0
  }

  // The last group of an encoded text.
  ghost predicate Final(text: string, p: nat) {
    p + 4 == |text| && Known(text[p]) > 0 && Known(text[p + 1]) > 0
  }

  ghost predicate ReadInner(text: string, p: nat, i: nat, pos: nat, len: nat, quad: seq<digit>)
    requires Inner(text, p) && |quad| == 4
  {
    i <= 4 && pos == p + i && len == i && forall k | 0 <= k < i :: quad[k] == Known(text[p + k]) - 1
  }

  ghost predicate ReadFinal(text: string, p: nat, i: nat, pos: nat, len: nat, quad: seq<digit>)
    requires Final(text, p) && |quad| == 4
  {
    && i <= 4
    && (i > 0 ==> quad[0] == Known(text[p]) - 1)
    && (i > 1 ==> quad[1] == Known(text[p + 1]) - 1)
    && (i > 2 ==> quad[2] == if Known(text[p + 2]) > 0 then Known(text[p + 2]) - 1 else 0)
    && (i <= 2 ==> pos == p + i && len == i)
    && (i == 3 ==> pos == (if Known(text[p + 2]) > 0 then p + 3 else p + 4) && len == 3)
    && (i == 4 ==> pos == p + 4 && len == 3)
  }

  method ReadQuad(text: string, p: nat, quad: array<digit>) returns (pos: nat, len: nat)
    requires p < |text| && quad.Length == 4
    modifies quad
    ensures p < pos <= |text| && len <= pos - p
    ensures Inner(text, p) ==> ReadInner(text, p, 4, pos, len, quad[..])
    ensures Final(text, p) ==>
              pos == |text| && ReadFinal(text, p, 3, if Known(text[p + 2]) > 0 then p + 3 else p + 4, len, quad[..])
  {
    hide Known;
    pos, len := p, 0;
    var i := 0;
    while i < 4 && pos < |text|
      invariant 0 <= i <= 4 && p + i <= pos <= |text| && len <= pos - p
      invariant Inner(text, p) ==> ReadInner(text, p, i, pos, len, quad[..])
      invariant Final(text, p) ==> ReadFinal(text, p, i, pos, len, quad[..])
    {
      pos, len := ReadDigit(text, pos, quad, i, len);
      i := i + 1;
    }
  }

  // What the decoder makes of the encoding of s.
  function Returned(s: seq<byte>): seq<byte> {
    if |s| % 3 == 2 || s == [] then s
    else if |s| % 3 == 1 then s + [0]
    else s[..|s| - 1]
  }

  // The bytes that the shifts make of four digits.
  function First(w: digit, x: digit): byte { w * 4 + x / 16 }
  function Second(x: digit, y: digit): byte { x % 16 * 16 + y / 4 }
  function Third(y: digit, z: digit): byte { y % 4 * 64 + z }

  lemma Unpieces(a: byte, b: byte, c: byte)
    ensures First(Piece0(a), Piece1(a, b)) == a
    ensures Second(Piece1(a, b), Piece2(b, c)) == b
    ensures Third(Piece2(b, c), Piece3(c)) == c
  {
    Quotient(a % 4 * 16 + b / 16, 16, a % 4, b / 16);
    Quotient(b % 16 * 4 + c / 64, 4, b % 16, c / 64);
  }

  lemma UnpieceShort(a: byte)
    ensures Second(Piece1(a, 0), 0) == 0
  {}

  lemma FourIs(s: seq<byte>, a: byte, b: byte, c: byte)
    requires s != [] && a == s[0] && b == (if |s| > 1 then s[1] else 0) && c == (if |s| > 2 then s[2] else 0)
    ensures Four(s)[0] == Letter(Piece0(a)) && Four(s)[1] == Letter(Piece1(a, b))
    ensures Four(s)[2] == if |s| > 1 then Letter(Piece2(b, c)) else '='
    ensures Four(s)[3] == if |s| > 2 then Letter(Piece3(c)) else '='
  {
    hide Group, Digit, Letter, Piece0, Piece1, Piece2, Piece3;
    Pieces(a, b, c);
  }

  // Padding where a byte of the group is missing.
  lemma KnownFour(s: seq<byte>, a: byte, b: byte, c: byte)
    requires s != [] && a == s[0] && b == (if |s| > 1 then s[1] else 0) && c == (if |s| > 2 then s[2] else 0)
    ensures Known(Four(s)[0]) == Piece0(a) + 1
    ensures Known(Four(s)[1]) == Piece1(a, b) + 1
    ensures Known(Four(s)[2]) == if |s| > 1 then Piece2(b, c) + 1 else 0
    ensures Known(Four(s)[3]) == if |s| > 2 then Piece3(c) + 1 else 0
  {
    hide Known, Letter, Four, Piece0, Piece1, Piece2, Piece3;
    FourIs(s, a, b, c);
    KnownLetter(Piece0(a));
    KnownLetter(Piece1(a, b));
    KnownLetter(Piece2(b, c));
    KnownLetter(Piece3(c));
    KnownPad();
  }

  lemma KnownPad()
    ensures Known('=') == 0
  {}

  // The text from pos on is the encoding of s.
  ghost predicate At(text: string, pos: nat, s: seq<byte>) {
    pos <= |text| && text[pos..] == Encoded(s)
  }

  lemma AtFour(text: string, pos: nat, s: seq<byte>)
    requires At(text, pos, s) && s != []
    ensures pos + 4 <= |text| && text[pos] == Four(s)[0] && text[pos + 1] == Four(s)[1]
    ensures text[pos + 2] == Four(s)[2] && text[pos + 3] == Four(s)[3]
    ensures At(text, pos + 4, After(s)) && (pos + 4 == |text| <==> |s| <= 3)
  {
    hide Four;
    var rest := text[pos..];
    assert rest == Four(s) + Encoded(After(s));
    assert text[pos + 4..] == rest[4..];
    assert rest[0] == text[pos] && rest[1] == text[pos + 1] && rest[2] == text[pos + 2] && rest[3] == text[pos + 3];
  }

  lemma AtInner(text: string, p: nat, s: seq<byte>, quad: seq<digit>, pos: nat, len: nat)
    requires At(text, p, s) && |s| > 3 && |quad| == 4
    ensures Inner(text, p)
    ensures ReadInner(text, p, 4, pos, len, quad) ==>
              && pos == p + 4 && len == 4 && At(text, pos, s[3..])
              && [First(quad[0], quad[1]), Second(quad[1], quad[2]), Third(quad[2], quad[3])] == s[..3]
  {
    hide Known, First, Second, Third, Four, Piece0, Piece1, Piece2, Piece3;
    AtFour(text, p, s);
    KnownFour(s, s[0], s[1], s[2]);
    Unpieces(s[0], s[1], s[2]);
  }

  // The two bytes of a last group, whatever its length.
  lemma FinalBytes(s: seq<byte>, a: byte, b: byte, c: byte)
    requires 0 < |s| <= 3 && a == s[0] && b == (if |s| > 1 then s[1] else 0) && c == (if |s| > 2 then s[2] else 0)
    ensures [First(Piece0(a), Piece1(a, b)), Second(Piece1(a, b), if |s| > 1 then Piece2(b, c) else 0)] == Returned(s)
  {
    hide First, Second, Third, Piece0, Piece1, Piece2, Piece3;
    Unpieces(a, b, c);
    UnpieceShort(a);
  }

  lemma AtFinal(text: string, p: nat, s: seq<byte>, quad: seq<digit>, pos: nat, len: nat)
    requires At(text, p, s) && 0 < |s| <= 3 && |quad| == 4
    ensures Final(text, p)
    ensures ReadFinal(text, p, 3, pos, len, quad) ==>
              && len == 3 && At(text, |text|, [])
              && [First(quad[0], quad[1]), Second(quad[1], quad[2])] == Returned(s)
  {
    hide Known, First, Second, Four, Piece0, Piece1, Piece2, Piece3, Returned, Encoded, At;
    AtFour(text, p, s);
    var a, b, c := s[0], if |s| > 1 then s[1] else 0, if |s| > 2 then s[2] else 0;
    KnownFour(s, a, b, c);
    FinalBytes(s, a, b, c);
    assert After(s) == [];
  }

  lemma ReturnedMore(s: seq<byte>)
    requires |s| > 3
    ensures Returned(s) == s[..3] + Returned(s[3..])
  {}

  // The bytes of a group of len counted characters.
  function Written(quad: seq<digit>, len: nat): seq<byte>
    requires |quad| == 4
  {
    (if len >= 2 then [First(quad[0], quad[1])] else [])
    + (if len >= 3 then [Second(quad[1], quad[2])] else [])
    + (if len >= 4 then [Third(quad[2], quad[3])] else [])
  }

  lemma InnerStep(text: string, p: nat, s: seq<byte>, quad: seq<digit>, pos: nat, len: nat)
    requires At(text, p, s) && |s| > 3 && |quad| == 4
    requires Inner(text, p) ==> ReadInner(text, p, 4, pos, len, quad)
    ensures At(text, pos, After(s)) && len == 4 && Returned(s) == Written(quad, len) + Returned(After(s))
  {
    hide Inner, ReadInner, First, Second, Third, Encoded, At, Returned;
    AtInner(text, p, s, quad, pos, len);
    ReturnedMore(s);
    assert Written(quad, len) == s[..3];
  }

  lemma FinalStep(text: string, p: nat, s: seq<byte>, quad: seq<digit>, pos: nat, len: nat)
    requires At(text, p, s) && 0 < |s| <= 3 && |quad| == 4
    requires Final(text, p) ==> ReadFinal(text, p, 3, pos, len, quad)
    ensures At(text, |text|, After(s)) && len == 3 && Returned(s) == Written(quad, len) + Returned(After(s))
  {
    hide Final, ReadFinal, First, Second, Third, Encoded, At;
    AtFinal(text, p, s, quad, pos, len);
    assert After(s) == [] && Returned([]) == [];
    hide Returned;
    assert Written(quad, len) == Returned(s);
  }

  // One group of an encoded text gives the next bytes of what is returned.
  lemma GroupStep(text: string, p: nat, s: seq<byte>, quad: seq<digit>, pos: nat, len: nat)
    requires At(text, p, s) && p < |text| && |quad| == 4
    requires Inner(text, p) ==> ReadInner(text, p, 4, pos, len, quad)
    requires Final(text, p) ==>
               pos == |text| && ReadFinal(text, p, 3, if Known(text[p + 2]) > 0 then p + 3 else p + 4, len, quad)
    ensures At(text, pos, After(s)) && len > 1 && len - 1 == |Written(quad, len)|
    ensures Returned(s) == Written(quad, len) + Returned(After(s))
  {
    hide ReadInner, ReadFinal, Known, First, Second, Third, Encoded, At, Four, Returned, After;
    AtNonempty(text, p, s);
    if |s| > 3 {
      InnerStep(text, p, s, quad, pos, len);
    } else {
      AtFour(text, p, s);
      FinalHere(text, p, s);
      FinalStep(text, p, s, quad, if Known(text[p + 2]) > 0 then p + 3 else p + 4, len);
    }
  }

  lemma FinalHere(text: string, p: nat, s: seq<byte>)
    requires At(text, p, s) && 0 < |s| <= 3
    ensures Final(text, p)
  {
    hide Known, Four, Encoded;
    AtFinal(text, p, s, [0, 0, 0, 0], 0, 0);
  }

  lemma AtNonempty(text: string, p: nat, s: seq<byte>)
    requires At(text, p, s) && p < |text|
    ensures s != []
  {}

  method WriteGroup(out: array<byte>, o: nat, quad: array<digit>, len: nat) returns (o': nat)
    requires quad.Length == 4 && len > 0 && o + len - 1 <= out.Length
    modifies out
    ensures o' == o + |Written(quad[..], len)| <= o + len - 1 && out[..o'] == old(out[..o]) + Written(quad[..], len)
  {
    hide First, Second, Third;
    o' := o;
    if len >= 2 {
      out[o'] := First(quad[0], quad[1]);
      o' := o' + 1;
    }
    if len >= 3 {
      out[o'] := Second(quad[1], quad[2]);
      o' := o' + 1;
    }
    if len >= 4 {
      out[o'] := Third(quad[2], quad[3]);
      o' := o' + 1;
    }
  }

  // lws_b64_decode_string; out.Length is out_size. No text makes it write outside out, and of
  // the encoding of any s it returns Returned(s).
  method DecodeString(text: string, out: array<byte>, ghost s: seq<byte>) returns (r: int)
    modifies out
    ensures r >= -1
    ensures text == Encoded(s) ==> (r == -1 <==> |Returned(s)| + 1 >= out.Length)
    ensures text == Encoded(s) && r != -1 ==> r == |Returned(s)| && out[..r] == Returned(s) && out[r] == 0
    ensures text == Encoded(s) && r != -1 ==> (out[..r] == s <==> s == [] || |s| % 3 == 2)
  {
    hide Inner, Final, ReadInner, ReadFinal, Returned, Written, Encoded;
    var quad := new digit[4];
    var pos, done, o := 0, 0, 0;
    ghost var rest := s;
    assert text[0..] == text;
    while pos < |text|
      invariant 0 <= pos <= |text| && 0 <= o <= done && o <= out.Length
      invariant text == Encoded(s) ==> At(text, pos, rest) && done == o && out[..o] + Returned(rest) == Returned(s)
      decreases |text| - pos
    {
      var pos', len := ReadQuad(text, pos, quad);
      if text == Encoded(s) {
        GroupStep(text, pos, rest, quad[..], pos', len);
      }
      pos := pos';
      rest := After(rest);
      if len == 0 { continue; }
      if out.Length < done + len - 1 { return -1; }
      o := WriteGroup(out, o, quad, len);
      done := done + (len - 1);
    }
    if text == Encoded(s) {
      AtEnd(text, rest);
    }
    if done + 1 >= out.Length { return -1; }
    out[o] := 0;
    RoundTripIff(s);
    return done;
  }

  lemma AtEnd(text: string, s: seq<byte>)
    requires At(text, |text|, s)
    ensures s == [] && Returned(s) == []
  {
    hide Four;
  }

  // The decoder gives back what was encoded exactly for the lengths two more than a multiple
  // of three, and for the empty string.
  lemma RoundTripIff(s: seq<byte>)
    ensures Returned(s) == s <==> s == [] || |s| % 3 == 2
  {}
}
