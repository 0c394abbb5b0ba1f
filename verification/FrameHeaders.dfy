/** What the readers of Frames make of the lengths and keys that the writer prints. */
module FrameHeaders {
  import opened Octets
  import opened Frames

  // The length's successor state does not depend on the state it was read in.
  lemma AfterLengthState(side: Side, r: Rx, m: Rx, short: bool)
    requires RxOk(r) && RxOk(m) && r.(state := New) == m.(state := New)
    ensures AfterLength(side, r, short) == AfterLength(side, m, short)
  {
    assert r.(state := Payload) == m.(state := Payload) && r.(state := Key(0)) == m.(state := Key(0));
  }

  // The eight length bytes, most significant first.
  lemma {:induction false} RunLength64(side: Side, limit: nat, r: Rx, n: nat, k: nat)
    requires RxOk(r) && r.state == Len64(k) && 1 <= k <= 8 && n < 0x8000_0000
    requires k < 8 ==> r.length == n - Low(n, k)
    ensures Run(side, limit, r, BigEndian(n, k)) == Prepend(side, limit, AfterLength(side, r.(length := n), false), [])
    decreases k
  {
    hide Run, Prepend, AfterLength, Digit, Shifted, Low;
    var c, rest := Digit(n, k - 1), BigEndian(n, k - 1);
    RunCons(side, limit, r, c, rest);
    LowNext(n, k - 1);
    LowEnds(n);
    if k > 1 {
      var m := r.(state := Len64(k - 1), length := (if k == 8 then 0 else r.length) + Shifted(c, k - 1));
      RunLength64(side, limit, m, n, k - 1);
      AfterLengthState(side, r.(length := n), m.(length := n), false);
      PrependGo(side, limit, Go(m, []), rest);
      PrependNothing(Run(side, limit, m, rest));
    }
  }

  lemma RunLength16(side: Side, limit: nat, r: Rx, n: nat)
    requires RxOk(r) && r.state == Len16(2) && n < 65536
    ensures Run(side, limit, r, BigEndian(n, 2)) == Prepend(side, limit, AfterLength(side, r.(length := n), false), [])
  {
    hide Run, Prepend, AfterLength;
    var hi, lo := Digit(n, 1), Digit(n, 0);
    assert BigEndian(n, 2) == [hi] + BigEndian(n, 1) && BigEndian(n, 1) == [lo] + BigEndian(n, 0);
    assert n == 256 * (hi as int) + lo as int;
    RunCons(side, limit, r, hi, BigEndian(n, 1));
    var top: nat := hi;
    var m := r.(state := Len16(1), length := 256 * top);
    assert BigEndian(n, 1) == [lo];
    RunOne(side, limit, m, lo);
    PrependGo(side, limit, Go(m, []), [lo]);
    PrependNothing(Run(side, limit, m, [lo]));
    AfterLengthState(side, r.(length := n), m.(length := n), false);
  }

  // Whatever form the length takes, the reader ends up with it.
  lemma RunLength(side: Side, limit: nat, r: Rx, n: nat, masked: bool)
    requires RxOk(r) && r.state == HdrLen && n < 0x8000_0000 && (n >= 126 ==> r.opcode < 8)
    requires side == Client ==> !masked
    ensures Run(side, limit, r, LengthBytes(n, masked)) ==
            Prepend(side, limit, AfterLength(side, r.(masked := masked, length := n), n < 126), [])
  {
    hide Run, Prepend, AfterLength, BigEndian;
    var bit := if masked then 128 else 0;
    var m := r.(masked := masked);
    if n < 126 {
      RunOne(side, limit, r, bit + n);
    } else {
      var c := bit + (if n < 65536 then 126 else 127);
      var state, k := if n < 65536 then Len16(2) else Len64(8), if n < 65536 then 2 else 8;
      var next := m.(state := state);
      RunCons(side, limit, r, c, BigEndian(n, k));
      if n < 65536 {
        RunLength16(side, limit, next, n);
      } else {
        RunLength64(side, limit, next, n, 8);
      }
      PrependGo(side, limit, Go(next, []), BigEndian(n, k));
      PrependNothing(Run(side, limit, next, BigEndian(n, k)));
      AfterLengthState(side, m.(length := n), next.(length := n), false);
    }
  }

  // The reader with the frame's key in place.
  function Keyed(r: Rx, key: Bytes): Rx {
    r.(nonce := key, allZero := key == [0, 0, 0, 0], maskIndex := 0)
  }

  function AfterKey(r: Rx, key: Bytes): (o: Out)
    requires RxOk(r) && |key| == 4
    ensures o.Go? ==> RxOk(o.rx)
  {
    if r.length == 0 then Spill(Server, Keyed(r, key).(state := New)) else Go(Keyed(r, key).(state := Payload), [])
  }

  // The reader after i bytes of the key.
  function KeyPart(r: Rx, key: Bytes, i: nat): Rx
    requires RxOk(r) && |key| == 4 && i < 4
  {
    r.(state := Key(i), nonce := key[..i] + r.nonce[i..], allZero := forall j | 0 <= j < i :: key[j] == 0)
  }

  lemma KeyByte(limit: nat, r: Rx, key: Bytes, i: nat)
    requires RxOk(r) && |key| == 4 && i < 4
    ensures Step(Server, limit, KeyPart(r, key, i), key[i]) ==
            if i < 3 then Go(KeyPart(r, key, i + 1), []) else AfterKey(r, key)
  {
    hide Spill;
    assert (key[..i] + r.nonce[i..])[i := key[i]] == key[..i + 1] + r.nonce[i + 1..];
    if i == 3 {
      assert key[..4] + r.nonce[4..] == key;
    }
  }

  lemma {:induction false} RunKey(limit: nat, r: Rx, key: Bytes, i: nat)
    requires RxOk(r) && |key| == 4 && i < 4
    ensures Run(Server, limit, KeyPart(r, key, i), key[i..]) == Prepend(Server, limit, AfterKey(r, key), [])
    decreases 4 - i
  {
    hide Step, Run, Prepend, AfterKey;
    KeyByte(limit, r, key, i);
    assert key[i..] == [key[i]] + key[i + 1..];
    if i == 3 {
      assert key[i..] == [key[i]];
      RunOne(Server, limit, KeyPart(r, key, i), key[i]);
    } else {
      SilentStep(Server, limit, KeyPart(r, key, i), KeyPart(r, key, i + 1), key[i], key[i + 1..]);
      RunKey(limit, r, key, i + 1);
    }
  }
}
