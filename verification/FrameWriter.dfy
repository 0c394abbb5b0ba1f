/** The sending side (lib/output.c): frames printed in place around the caller's payload,
    and lws_issue_raw, which keeps what the socket did not take. No extension is active;
    random keys, send() results and malloc() results are inputs. */
module FrameWriter {
  import opened Octets
  import opened Frames

  datatype SendResult = Error | Again | Sent(count: nat)

  // The sending side as a value: what the socket has taken and what waits for it.
  datatype Tx = Tx(wire: Bytes, pending: Bytes)

  // What lws_issue_raw does with data of which the socket takes the first n bytes. A new
  // send that is cut short is either reported so (the caller's own buffer) or kept.
  function TakeNew(wire: Bytes, data: Bytes, n: nat, clean: bool, room: bool): (Tx, int)
    requires n <= |data|
  {
    var sent := wire + data[..n];
    if n == |data| || (n > 0 && clean) then (Tx(sent, []), n)
    else if room then (Tx(sent, data[n..]), |data|)
    else (Tx(sent, []), -1)
  }

  function Take(t: Tx, data: Bytes, n: nat, clean: bool, flushing: bool, room: bool): (Tx, int)
    requires n <= |data| && (t.pending != [] ==> data == t.pending)
  {
    if t.pending != [] then (Tx(t.wire + data[..n], data[n..]), if n == |data| && flushing then -1 else n)
    else TakeNew(t.wire, data, n, clean, room)
  }

  function Issue(t: Tx, data: Bytes, res: SendResult, clean: bool, flushing: bool, room: bool): (Tx, int)
    requires (res.Sent? ==> res.count <= |data|) && (t.pending != [] ==> data == t.pending)
  {
    if data == [] then (t, 0)
    else if flushing && t.pending == [] then (t, |data|)
    else if res.Error? then (t, -1)
    else Take(t, data, if res.Sent? then res.count else 0, clean, flushing, room)
  }

  // What one call does to the stream, outside a flush for closing: new data is taken up to
  // the number reported, pending data moves on. It fails only when the socket does or when
  // there is no memory to keep the rest.
  lemma IssueConserves(t: Tx, data: Bytes, res: SendResult, clean: bool, room: bool)
    requires (res.Sent? ==> res.count <= |data|) && (t.pending != [] ==> data == t.pending)
    ensures var (u, n) := Issue(t, data, res, clean, false, room);
            && -1 <= n <= |data| && t.wire <= u.wire
            && (n >= 0 ==> u.wire + u.pending == t.wire + t.pending + (if t.pending == [] then data[..n] else []))
            && (n < 0 ==> res.Error? || (!room && t.pending == [] && !(clean && res.Sent? && res.count > 0)))
  {
    var k := if res.Sent? then res.count else 0;
    assert t.wire + data[..k] + data[k..] == t.wire + data;
    assert data[..|data|] == data && t.wire + [] == t.wire;
    assert t.wire + t.pending + [] == t.wire + t.pending;
    assert forall x: Bytes :: x + [] == x;
  }

  // What becomes of new data of which the socket takes the first k bytes. A part of a clean
  // buffer is reported as such and its rest left with the caller; a rewritten buffer, or one
  // of which nothing went out, is kept and reported as all taken.
  lemma NewOutcomes(wire: Bytes, data: Bytes, res: SendResult, clean: bool, room: bool)
    requires data != [] && !res.Error? && (res.Sent? ==> res.count <= |data|)
    ensures var (u, n) := Issue(Tx(wire, []), data, res, clean, false, room);
            var k := Count(res);
            && u.wire == wire + data[..k]
            && (k == |data| ==> n == |data| && u.pending == [])
            && (0 < k < |data| && clean ==> n == k && u.pending == [])
            && (k < |data| && (k == 0 || !clean) && room ==> n == |data| && u.pending == data[k..])
            && (k < |data| && (k == 0 || !clean) && !room ==> n == -1)
  {}

  // Resuming moves on by what the socket takes. While flushing for a close, nothing new is
  // sent, and the end of what was pending asks for the close.
  lemma ResumeOutcomes(t: Tx, res: SendResult, clean: bool, flushing: bool, room: bool)
    requires t.pending != [] && !res.Error? && (res.Sent? ==> res.count <= |t.pending|)
    ensures var (u, n) := Issue(t, t.pending, res, clean, flushing, room);
            var k := Count(res);
            && u == Tx(t.wire + t.pending[..k], t.pending[k..])
            && n == if flushing && k == |t.pending| then -1 else k
  {}

  lemma FlushingIgnoresNew(wire: Bytes, data: Bytes, res: SendResult, clean: bool, room: bool)
    requires res.Sent? ==> res.count <= |data|
    ensures Issue(Tx(wire, []), data, res, clean, true, room) == (Tx(wire, []), |data|)
  {}

  // Any sequence of new sends and resumed ones, as long as none fails.
  datatype Call = NewData(data: Bytes, res: SendResult, clean: bool, room: bool) | Resumed(res: SendResult, room: bool)

  predicate CallOk(t: Tx, c: Call) {
    match c
    case NewData(data, res, _, _) => t.pending == [] && (res.Sent? ==> res.count <= |data|)
    case Resumed(res, _) => t.pending != [] && (res.Sent? ==> res.count <= |t.pending|)
  }

  function Do(t: Tx, c: Call): (Tx, int)
    requires CallOk(t, c)
  {
    match c
    case NewData(data, res, clean, room) => Issue(t, data, res, clean, false, room)
    case Resumed(res, room) => Issue(t, t.pending, res, true, false, room)
  }

  // The bytes reported to callers as accepted.
  function Reported(t: Tx, c: Call): Bytes
    requires CallOk(t, c)
  {
    if c.NewData? && 0 <= Do(t, c).1 <= |c.data| then c.data[..Do(t, c).1] else []
  }

  ghost predicate Calls(t: Tx, calls: seq<Call>, u: Tx, accepted: Bytes)
    decreases |calls|
  {
    if calls == [] then t == u && accepted == []
    else
      && CallOk(t, calls[0]) && Do(t, calls[0]).1 >= 0 && Reported(t, calls[0]) <= accepted
      && Calls(Do(t, calls[0]).0, calls[1..], u, accepted[|Reported(t, calls[0])|..])
  }

  lemma DoConserves(t: Tx, c: Call)
    requires CallOk(t, c) && Do(t, c).1 >= 0
    ensures var v := Do(t, c).0; v.wire + v.pending == t.wire + t.pending + Reported(t, c) && t.wire <= v.wire
  {
    hide Issue;
    if c.NewData? {
      IssueConserves(t, c.data, c.res, c.clean, c.room);
    } else {
      IssueConserves(t, t.pending, c.res, true, c.room);
    }
  }

  lemma {:induction false} CallsConserve(t: Tx, calls: seq<Call>, u: Tx, accepted: Bytes)
    requires Calls(t, calls, u, accepted)
    ensures u.wire + u.pending == t.wire + t.pending + accepted && t.wire <= u.wire
    decreases |calls|
  {
    hide Do, Reported, CallOk;
    if calls == [] {
      assert t.wire + t.pending + [] == t.wire + t.pending;
    } else {
      var v, told := Do(t, calls[0]).0, Reported(t, calls[0]);
      DoConserves(t, calls[0]);
      CallsConserve(v, calls[1..], u, accepted[|told|..]);
      assert accepted == told + accepted[|told|..];
    }
  }

  class Sender {
    var insideFrame: bool   // the next write continues a frame
    var cleanBuffer: bool   // the caller's buffer was not rewritten by an extension
    var flushing: bool      // WSI_STATE_FLUSHING_STORED_SEND_BEFORE_CLOSE
    var maskIndex: nat
    var store: array?<byte> // truncated_send_malloc
    var offset: nat
    var left: nat           // truncated_send_len
    ghost var wire: Bytes   // everything the socket has taken

    // The pending slice lies inside its allocation.
    ghost predicate Valid()
      reads this
    {
      left > 0 ==> store != null && offset + left <= store.Length
    }

    ghost function Abs(): Tx
      requires Valid()
      reads this, store
    {
      Tx(wire, if left == 0 then [] else store[offset..offset + left])
    }

    // Whether count more bytes can be kept without a new allocation.
    predicate Fits(count: nat)
      reads this
    {
      store != null && count <= store.Length
    }

    constructor ()
      ensures Valid() && Abs() == Tx([], []) && !insideFrame && !flushing && store == null
    {
      insideFrame, cleanBuffer, flushing, maskIndex := false, false, false, 0;
      store, offset, left := null, 0, 0;
      wire := [];
    }

    // lws_issue_raw. While something is pending only the pending slice itself may be
    // passed; new data must not live in the store.
    method IssueRaw(a: array<byte>, off: nat, len: nat, res: SendResult, mallocOk: bool) returns (r: int)
      requires Valid() && off + len <= a.Length && (res.Sent? ==> res.count <= len)
      requires if left > 0 then a == store && off == offset && len == left else a != store
      modifies this`wire, this`offset, this`left, this`store, (if store == null then {} else {store})
      ensures Valid() && (store == null || store == old(store) || fresh(store))
      ensures var n := if res.Sent? then res.count else 0;
              (Abs(), r) == Issue(old(Abs()), old(a[off..off + len]), res, cleanBuffer, flushing,
                                  mallocOk || old(Fits(len - n)))
      ensures old(left) == 0 ==> a[..] == old(a[..])
    {
      if len == 0 {
        return 0;
      }
      if flushing && left == 0 {
        return len;
      }
      if res.Error? {
        return -1;
      }
      r := Sent(a, off, len, if res.Sent? then res.count else 0, mallocOk);
    }

    // The socket took n of the bytes.
    method Sent(a: array<byte>, off: nat, len: nat, n: nat, mallocOk: bool) returns (r: int)
      requires Valid() && off + len <= a.Length && n <= len && 0 < len
      requires if left > 0 then a == store && off == offset && len == left else a != store
      modifies this`wire, this`offset, this`left, this`store, (if store == null then {} else {store})
      ensures Valid() && (store == null || store == old(store) || fresh(store))
      ensures (Abs(), r) == Take(old(Abs()), old(a[off..off + len]), n, cleanBuffer, flushing,
                                 mallocOk || old(Fits(len - n)))
      ensures old(left) == 0 ==> a[..] == old(a[..])
    {
      hide TakeNew;
      if left > 0 {
        r := MoveOn(n);
      } else {
        r := SentNew(a, off, len, n, mallocOk);
      }
    }

    method SentNew(a: array<byte>, off: nat, len: nat, n: nat, mallocOk: bool) returns (r: int)
      requires left == 0 && off + len <= a.Length && n <= len && a != store
      modifies this`wire, this`offset, this`left, this`store, (if store == null then {} else {store})
      ensures Valid() && (store == null || store == old(store) || fresh(store)) && a[..] == old(a[..])
      ensures (Abs(), r) == TakeNew(old(wire), old(a[off..off + len]), n, cleanBuffer, mallocOk || old(Fits(len - n)))
    {
      ghost var data := a[off..off + len];
      assert a[off..off + n] == data[..n] && a[off + n..off + len] == data[n..];
      wire := wire + a[off..off + n];
      if n == len || (n > 0 && cleanBuffer) {
        return n;
      }
      var kept := Stash(a, off + n, len - n, mallocOk);
      return if kept then len else -1;
    }

    // Already handling a truncated send.
    method MoveOn(n: nat) returns (r: int)
      requires Valid() && left > 0 && n <= left
      modifies this`wire, this`offset, this`left
      ensures Valid() && Abs() == Tx(old(wire) + old(Abs().pending)[..n], old(Abs().pending)[n..])
      ensures r == if n == old(left) && flushing then -1 else n
    {
      ghost var was, x, y := store[offset..offset + left], store[offset..offset + n], store[offset + n..offset + left];
      Slices(store, offset, offset + n, offset + left);
      Cut(was, x, y);
      wire := wire + store[offset..offset + n];
      offset := offset + n;
      left := left - n;
      return if left == 0 && flushing then -1 else n;
    }

    // A newly truncated send: the rest is copied into the store, which is reused when it
    // is large enough.
    method Stash(a: array<byte>, from: nat, count: nat, mallocOk: bool) returns (kept: bool)
      requires left == 0 && count > 0 && from + count <= a.Length && a != store
      modifies this`offset, this`left, this`store, (if store == null then {} else {store})
      ensures Valid() && (store == null || store == old(store) || fresh(store)) && a[..] == old(a[..])
      ensures kept == (mallocOk || old(Fits(count)))
      ensures Abs() == Tx(wire, if kept then old(a[from..from + count]) else [])
    {
      if !Fits(count) {
        if !mallocOk {
          store := null;
          return false;
        }
        store := new byte[count];
      }
      offset := 0;
      left := count;
      forall i | 0 <= i < count {
        store[i] := a[from + i];
      }
      assert store[0..count] == a[from..from + count];
      return true;
    }

    // The handler for a writable socket sends what is pending first.
    method ResumePending(res: SendResult, mallocOk: bool) returns (r: int)
      requires Valid() && left > 0 && (res.Sent? ==> res.count <= left)
      modifies this`wire, this`offset, this`left, this`store, store
      ensures Valid()
      ensures var n := if res.Sent? then res.count else 0;
              (Abs(), r) == Issue(old(Abs()), old(Abs().pending), res, cleanBuffer, flushing,
                                  mallocOk || old(Fits(left - n)))
    {
      r := IssueRaw(store, offset, left, res, mallocOk);
    }

    // The length bytes, which the source stores one by one.
    method PrintDigits(a: array<byte>, at: nat, n: nat, k: nat)
      requires k <= 8 && at + k <= a.Length
      modifies a
      ensures a[at..at + k] == BigEndian(n, k)
      ensures forall i | 0 <= i < a.Length && !(at <= i < at + k) :: a[i] == old(a[i])
    {
      hide Digit, BigEndian;
      for i := 0 to k
        invariant a[at..at + i] + BigEndian(n, k - i) == BigEndian(n, k)
        invariant forall j | 0 <= j < a.Length && !(at <= j < at + k) :: a[j] == old(a[j])
      {
        ghost var done, digit, rest := a[at..at + i], Digit(n, k - 1 - i), BigEndian(n, k - 1 - i);
        a[at + i] := Digit(n, k - 1 - i);
        assert a[at..at + i + 1] == done + [Digit(n, k - 1 - i)];
        BigEndianNext(n, k - i);
        assert done + ([digit] + rest) == (done + [digit]) + rest;
      }
      BigEndianNext(n, 0);
      assert a[at..at + k] + [] == a[at..at + k];
    }

    // The header forms of libwebsocket_write, stored in front of the payload or the key.
    method PrintHeader(a: array<byte>, off: nat, first: byte, n: nat, masked: bool) returns (at: nat)
      requires 10 <= off <= a.Length && n < 0x8000_0000
      modifies a
      ensures at < off && a[at..off] == [first] + LengthBytes(n, masked)
      ensures forall i | 0 <= i < a.Length && !(at <= i < off) :: a[i] == old(a[i])
    {
      hide BigEndian, LengthBytes;
      var bit := if masked then 128 else 0;
      var k := if n < 126 then 0 else if n < 65536 then 2 else 8;
      var second: byte := if n < 126 then bit + n else if n < 65536 then bit + 126 else bit + 127;
      at := off - 2 - k;
      PrintDigits(a, at + 2, n, k);
      ghost var digits := a[at + 2..off];
      a[at], a[at + 1] := first, second;
      assert a[at + 2..off] == digits;
      FirstTwo(a[at..off]);
      assert a[at..off][2..] == a[at + 2..off];
      LengthForm(n, masked);
    }

    // Masking in place; the index is one byte wide.
    method MaskPayload(a: array<byte>, off: nat, len: nat, key: Bytes)
      requires off + len <= a.Length && |key| == 4
      modifies a, this`maskIndex
      ensures a[off..off + len] == Masked(key, 0, old(a[off..off + len]))
      ensures forall i | 0 <= i < a.Length && !(off <= i < off + len) :: a[i] == old(a[i])
    {
      hide Xor;
      maskIndex := 0;
      for n := 0 to len
        invariant maskIndex == n % 256
        invariant forall i | 0 <= i < n :: a[off + i] == Xor(old(a[off + i]), key[i % 4])
        invariant forall i | 0 <= i < a.Length && !(off <= i < off + n) :: a[i] == old(a[i])
      {
        IndexWraps(n);
        a[off + n] := Xor(a[off + n], key[maskIndex % 4]);
        maskIndex := (maskIndex + 1) % 256;
      }
      MaskedPointwise(key, 0, old(a[off..off + len]), a[off..off + len]);
    }

    // The framing part of libwebsocket_write: header, mask and key around the payload that
    // is already in place.
    method PrintFrame(a: array<byte>, off: nat, len: nat, opcode: nat, fin: bool, key: Bytes) returns (at: nat)
      requires 14 <= off && off + len <= a.Length && len < 0x8000_0000 && opcode < 16 && IsKey(key)
      modifies a, this`maskIndex
      ensures at < off
      ensures a[at..off + len] == Encode(Frame(fin, opcode, key, old(a[off..off + len])))
      ensures a[at..off] == Header(Frame(fin, opcode, key, old(a[off..off + len])))
    {
      hide Masked, LengthBytes;
      ghost var payload := a[off..off + len];
      var end := off - |key|;
      at := PrintHeader(a, end, (if fin then 128 else 0) + opcode, len, key != []);
      assert a[off..off + len] == payload;
      PrintKey(a, at, off, len, key);
      Slices(a, at, off, off + len);
    }

    // The masked payload and the key, behind a header already in place.
    method PrintKey(a: array<byte>, at: nat, off: nat, len: nat, key: Bytes)
      requires at + |key| <= off && off + len <= a.Length && IsKey(key)
      modifies a, this`maskIndex
      ensures a[at..off] == old(a[at..off - |key|]) + key
      ensures a[off..off + len] == Masked(key, 0, old(a[off..off + len]))
    {
      hide Masked;
      var end := off - |key|;
      if key == [] {
        MaskedNot(a[off..off + len], 0);
        Slices(a, at, end, off);
      } else {
        MaskPayload(a, off, len, key);
        assert a[at..end] == old(a[at..end]);
        label Masked:
        a[end], a[end + 1], a[end + 2], a[end + 3] := key[0], key[1], key[2], key[3];
        assert a[off..off + len] == old@Masked(a[off..off + len]);
        Slices(a, at, end, off);
      }
    }

    // libwebsocket_write for text, binary and continuation data. What the result says about
    // the stream is in Accepts, below.
    method Write(a: array<byte>, off: nat, len: nat, opcode: nat, fin: bool, key: Bytes, res: SendResult,
                 mallocOk: bool)
      returns (r: int, ghost frame: Bytes, ghost pre: nat, ghost n: int)
      requires Valid() && left == 0 && !flushing && a != store
      requires 14 <= off && 0 < len < 0x7fff_fffc && off + len <= a.Length && IsData(opcode) && IsKey(key)
      requires insideFrame ==> cleanBuffer
      requires res.Sent? ==>
                 res.count <= len + (if insideFrame then 0 else |Header(Frame(fin, opcode, key, a[off..off + len]))|)
      modifies this, a, (if store == null then {} else {store})
      ensures Valid() && (insideFrame ==> cleanBuffer)
      ensures if old(insideFrame) then pre == 0 && frame == old(a[off..off + len])
              else pre == |frame| - len && frame == Encode(Frame(fin, opcode, key, old(a[off..off + len])))
      ensures (Abs(), n) == Issue(old(Abs()), frame, res, true, false, mallocOk || old(Fits(|frame| - Count(res))))
      ensures r == Told(n, pre, |frame|) && (insideFrame <==> n != |frame|)
      ensures Accepts(old(Abs()), Abs(), frame, pre, a[off..off + len], r, insideFrame, res,
                      mallocOk || old(Fits(|frame|)))
    {
      hide Accepts, Encode, Header;
      var at := off;
      if !insideFrame {
        cleanBuffer := true;
        at := PrintFrame(a, off, len, opcode, fin, key);
      }
      insideFrame := true;
      frame, pre := a[at..off + len], off - at;
      r, n := SendFrom(a, at, off, len, res, mallocOk);
    }

    // The tail of libwebsocket_write: the frame, or the rest of it, starts at `at` and its
    // payload at `off`.
    method SendFrom(a: array<byte>, at: nat, off: nat, len: nat, res: SendResult, mallocOk: bool)
      returns (r: int, ghost n: int)
      requires Valid() && left == 0 && !flushing && a != store && insideFrame && cleanBuffer
      requires at <= off && 0 < len && off + len <= a.Length && (res.Sent? ==> res.count <= off + len - at)
      modifies this`insideFrame, this`wire, this`offset, this`left, this`store, (if store == null then {} else {store})
      ensures Valid() && a[..] == old(a[..])
      ensures (Abs(), n) == Issue(old(Abs()), old(a[at..off + len]), res, true, false,
                                  mallocOk || old(Fits(off + len - at - Count(res))))
      ensures r == Told(n, off - at, off + len - at) && (insideFrame <==> n != off + len - at)
      ensures Accepts(old(Abs()), Abs(), old(a[at..off + len]), off - at, old(a[off..off + len]), r, insideFrame, res,
                      mallocOk || old(Fits(off + len - at)))
    {
      hide Issue, Accepts;
      ghost var frame, pre, before := a[at..off + len], off - at, Abs();
      ghost var room, all := mallocOk || Fits(off + len - at - Count(res)), mallocOk || Fits(off + len - at);
      assert frame[pre..] == a[off..off + len];
      var sent := IssueRaw(a, at, off + len - at, res, mallocOk);
      n := sent;
      IssueAccepts(before, Abs(), frame, pre, n, res, room, all);
      if sent <= 0 {
        return sent, n;
      }
      if sent == off + len - at {
        insideFrame := false;
        return len, n;
      }
      return sent - (off - at), n;
    }
  }

  function Count(res: SendResult): nat { if res.Sent? then res.count else 0 }

  // What libwebsocket_write makes of the count n that lws_issue_raw returned for a frame, or
  // the rest of one, of `total` bytes, `pre` of them header.
  function Told(n: int, pre: nat, total: nat): int {
    if n <= 0 then n else if n == total then total - pre else n - pre
  }

  // What a write reports. r == payload length: the frame is out or kept, and finished.
  // Smaller and not negative: that much payload is out, the rest of the frame is the rest
  // of the caller's buffer. Nothing else happens unless the socket fails, memory runs out,
  // or the very first part sent does not even cover the header.
  ghost predicate Accepts(before: Tx, after: Tx, frame: Bytes, pre: nat, rest: Bytes, r: int, inside: bool,
                          res: SendResult, room: bool)
  {
    && pre <= |frame| && rest == frame[pre..] && before.wire <= after.wire
    && var n := if res.Sent? then res.count else 0;
    && (r == |rest| && !inside ==> after.wire + after.pending == before.wire + frame)
    && (0 <= r < |rest| ==> inside && after.wire == before.wire + frame[..pre + r] && after.pending == [])
    && (!res.Error? && (n == 0 || n >= pre) && (n > 0 || room) ==> 0 <= r <= |rest| && (inside <==> r < |rest|))
  }

  lemma IssueAccepts(before: Tx, after: Tx, frame: Bytes, pre: nat, n: int, res: SendResult, room: bool, all: bool)
    requires before.pending == [] && pre < |frame| && (res.Sent? ==> res.count <= |frame|)
    requires (after, n) == Issue(before, frame, res, true, false, room) && (all ==> room)
    ensures Accepts(before, after, frame, pre, frame[pre..], Told(n, pre, |frame|), n != |frame|, res, all)
  {
    assert frame[..|frame|] == frame;
    assert forall k | 0 <= k <= |frame| :: (before.wire + frame[..k]) + frame[k..] == before.wire + frame;
    assert before.wire + frame + [] == before.wire + frame;
  }

  lemma {:induction false} MaskedNot(p: Bytes, i: nat)
    ensures Masked([], i, p) == p
    decreases |p|
  {
    if p != [] {
      MaskedNot(p[1..], i + 1);
      assert p == [p[0]] + p[1..];
    }
  }

  lemma Slices(a: array<byte>, i: nat, j: nat, k: nat)
    requires i <= j <= k <= a.Length
    ensures a[i..k] == a[i..j] + a[j..k]
  {}

  lemma Cut(s: Bytes, x: Bytes, y: Bytes)
    requires s == x + y
    ensures s[..|x|] == x && s[|x|..] == y
  {}

  lemma FirstTwo(s: Bytes)
    requires |s| >= 2
    ensures s == [s[0]] + ([s[1]] + s[2..])
  {}

  // Wrapping at 256 does not disturb the position within the key.
  lemma IndexWraps(n: nat)
    ensures (n % 256) % 4 == n % 4 && (n % 256 + 1) % 256 == (n + 1) % 256
  {
    assert n == 256 * (n / 256) + n % 256;
  }

  lemma LengthForm(n: nat, masked: bool)
    requires n < 0x8000_0000
    ensures var bit := if masked then 128 else 0;
            LengthBytes(n, masked) == if n < 126 then [bit + n] + BigEndian(n, 0)
                                      else if n < 65536 then [bit + 126] + BigEndian(n, 2)
                                      else [bit + 127] + BigEndian(n, 8)
  {
    BigEndianNext(n, 0);
    hide BigEndian;
  }

  lemma BigEndianNext(n: nat, k: nat)
    requires k <= 8
    ensures BigEndian(n, k) == if k == 0 then [] else [Digit(n, k - 1)] + BigEndian(n, k - 1)
  {}

  lemma {:induction false} MaskedPointwise(key: Bytes, i: nat, p: Bytes, m: Bytes)
    requires |key| == 4 && |m| == |p| && forall j | 0 <= j < |p| :: m[j] == Xor(p[j], key[(i + j) % 4])
    ensures m == Masked(key, i, p)
    decreases |p|
  {
    hide Xor;
    if p != [] {
      forall j | 0 <= j < |p| - 1 ensures m[1..][j] == Xor(p[1..][j], key[(i + 1 + j) % 4]) {
        assert m[j + 1] == Xor(p[j + 1], key[(i + (j + 1)) % 4]);
      }
      MaskedPointwise(key, i + 1, p[1..], m[1..]);
      assert m == [m[0]] + m[1..];
    }
  }
}
