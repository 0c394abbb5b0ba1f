/** WebSocket frames (sections 5.2 and 5.3 of RFC 6455) as libwebsocket_write prints them
    and as the two byte-by-byte readers, libwebsocket_rx_sm (server) and
    libwebsocket_client_rx_sm (client), take them apart. No extension is active.
    Bytes are integers, so the source's masks and shifts appear as % and /. */
module Frames {
  import opened Octets

  type Bytes = seq<byte>

  // ---------------------------------------------------------------------------
  // Frames
  // ---------------------------------------------------------------------------

  const TEXT := 1
  const BINARY := 2
  const CONTINUATION := 0
  const CLOSE := 8
  const PING := 9
  const PONG := 10

  // `key` is empty in an unmasked frame and four bytes long in a masked one.
  datatype Frame = Frame(fin: bool, opcode: nat, key: Bytes, payload: Bytes)

  predicate IsKey(key: Bytes) { |key| == 0 || |key| == 4 }

  // What the writer can be asked for.
  predicate Writable(f: Frame) {
    f.opcode in {CONTINUATION, TEXT, BINARY, CLOSE, PING, PONG} && IsKey(f.key) && |f.payload| < 0x8000_0000
  }

  predicate IsData(opcode: nat) { opcode == TEXT || opcode == BINARY || opcode == CONTINUATION }

  function MaskedByte(key: Bytes, i: nat, b: byte): byte
    requires IsKey(key)
  {
    if key == [] then b else Xor(b, key[i % 4])
  }

  // Payload bytes from position i of the frame on, masked.
  function Masked(key: Bytes, i: nat, p: Bytes): (m: Bytes)
    requires IsKey(key)
    ensures |m| == |p|
    decreases |p|
  {
    if p == [] then [] else [MaskedByte(key, i, p[0])] + Masked(key, i + 1, p[1..])
  }

  function BigEndian(n: nat, k: nat): (b: Bytes)
    requires k <= 8
    ensures |b| == k
  {
    if k == 0 then [] else [Digit(n, k - 1)] + BigEndian(n, k - 1)
  }

  function LengthBytes(n: nat, masked: bool): (b: Bytes)
    requires n < 0x8000_0000
  {
    var bit := if masked then 128 else 0;
    if n < 126 then [bit + n]
    else if n < 65536 then [bit + 126] + BigEndian(n, 2)
    else [bit + 127] + BigEndian(n, 8)
  }

  function Header(f: Frame): (b: Bytes)
    requires f.opcode < 16 && IsKey(f.key) && |f.payload| < 0x8000_0000
  {
    [(if f.fin then 128 else 0) + f.opcode] + LengthBytes(|f.payload|, f.key != []) + f.key
  }

  function Encode(f: Frame): (b: Bytes)
    requires f.opcode < 16 && IsKey(f.key) && |f.payload| < 0x8000_0000
  {
    Header(f) + Masked(f.key, 0, f.payload)
  }

  // ---------------------------------------------------------------------------
  // The readers
  // ---------------------------------------------------------------------------

  datatype RxState = New | HdrLen | Len16(left: nat) | Len64(left: nat) | Key(got: nat) | Payload

  // The reader's fields; `buffer` is rx_user_buffer up to rx_user_buffer_head.
  datatype Rx = Rx(state: RxState, opcode: nat, fin: bool, masked: bool, allZero: bool,
                   nonce: Bytes, maskIndex: nat, length: nat, buffer: Bytes, ping: Bytes)

  datatype Event = Data(chunk: Bytes) | PongData(chunk: Bytes) | PongReply(chunk: Bytes)
  datatype Out = Go(rx: Rx, events: seq<Event>) | Kill

  const SIZE_T: nat := 0x1_0000_0000_0000_0000

  const StartRx := Rx(New, 0, false, false, false, [0, 0, 0, 0], 0, 0, [], [])

  predicate RxOk(r: Rx) {
    |r.nonce| == 4 && r.maskIndex < 256 &&
    (r.state.Len16? ==> 1 <= r.state.left <= 2) && (r.state.Len64? ==> 1 <= r.state.left <= 8) &&
    (r.state.Key? ==> r.state.got < 4)
  }

  datatype Side = Server | Client

  // The end of a frame, or a full buffer. A second ping while one is waiting for its pong
  // is dropped by the server; the client answers at once. CLOSE ends the connection.
  function Spill(side: Side, r: Rx): (o: Out)
    requires RxOk(r)
    ensures o.Go? ==> RxOk(o.rx)
  {
    var cleared := r.(buffer := []);
    if r.opcode == CLOSE then Kill
    else if r.opcode == PING then
      if side == Client then Go(cleared, [PongReply(r.buffer)])
      else Go(if r.ping == [] then cleared.(ping := r.buffer) else cleared, [])
    else if r.opcode == PONG then Go(cleared, if side == Client then [PongData(r.buffer)] else [])
    else if IsData(r.opcode) then Go(cleared, if r.buffer == [] then [] else [Data(r.buffer)])
    else Go(cleared, [])
  }

  // After the length: the key, the payload, or an empty frame already complete. The server
  // looks for the last only after a one-byte length, the client after every form.
  function AfterLength(side: Side, r: Rx, short: bool): (o: Out)
    requires RxOk(r)
    ensures o.Go? ==> RxOk(o.rx)
  {
    if r.masked then Go(r.(state := Key(0)), [])
    else if r.length == 0 && (short || side == Client) then Spill(side, r.(state := New))
    else Go(r.(state := Payload), [])
  }

  function StepLength(side: Side, r: Rx, c: byte): (o: Out)
    requires RxOk(r) && r.state == HdrLen
    ensures o.Go? ==> RxOk(o.rx)
  {
    var m := r.(masked := c >= 128);
    if c % 128 == 126 then
      if r.opcode >= 8 then Kill else Go(m.(state := Len16(2)), [])
    else if c % 128 == 127 then
      if r.opcode >= 8 then Kill else Go(m.(state := Len64(8)), [])
    else AfterLength(side, m.(length := if side == Server then c % 128 else c), true)
  }

  function StepLength16(side: Side, r: Rx, c: byte): (o: Out)
    requires RxOk(r) && r.state.Len16?
    ensures o.Go? ==> RxOk(o.rx)
  {
    if r.state.left == 2 then Go(r.(state := Len16(1), length := 256 * c), [])
    else AfterLength(side, r.(length := r.length + c), false)
  }

  function StepLength64(side: Side, r: Rx, c: byte): (o: Out)
    requires RxOk(r) && r.state.Len64?
    ensures o.Go? ==> RxOk(o.rx)
  {
    var left := r.state.left;
    if left == 8 && c >= 128 then Kill
    else
      var m := r.(length := (if left == 8 then 0 else r.length) + Shifted(c, left - 1));
      if left > 1 then Go(m.(state := Len64(left - 1)), []) else AfterLength(side, m, false)
  }

  function StepKey(side: Side, r: Rx, c: byte): (o: Out)
    requires RxOk(r) && r.state.Key?
    ensures o.Go? ==> RxOk(o.rx)
  {
    var m := r.(nonce := r.nonce[r.state.got := c], allZero := r.allZero && c == 0);
    if r.state.got < 3 then Go(m.(state := Key(r.state.got + 1)), [])
    else
      var k := if side == Server then m.(maskIndex := 0) else m;
      if r.length == 0 then Spill(side, k.(state := New)) else Go(k.(state := Payload), [])
  }

  // Payload is taken as it comes when there is no mask or the key is all zero.
  predicate Plain(side: Side, r: Rx) { r.allZero || (side == Client && !r.masked) }

  function Unmasked(side: Side, r: Rx, c: byte): byte
    requires RxOk(r)
  {
    if Plain(side, r) then c else Xor(c, r.nonce[r.maskIndex % 4])
  }

  // The reader with one more payload byte, before anything is spilled. The mask index is
  // one byte wide and wraps; the length is a size_t and would too.
  function Took(side: Side, r: Rx, b: byte): (m: Rx)
    requires RxOk(r)
    ensures RxOk(m)
  {
    r.(buffer := r.buffer + [b],
       maskIndex := if Plain(side, r) then r.maskIndex else (r.maskIndex + 1) % 256,
       length := if r.length == 0 then SIZE_T - 1 else r.length - 1)
  }

  function AfterByte(side: Side, limit: nat, m: Rx): (o: Out)
    requires RxOk(m)
    ensures o.Go? ==> RxOk(o.rx)
  {
    if m.length == 0 then Spill(side, m.(state := New))
    else if |m.buffer| == limit then Spill(side, m)
    else Go(m, [])
  }

  function StepPayload(side: Side, limit: nat, r: Rx, c: byte): (o: Out)
    requires RxOk(r) && r.state == Payload
    ensures o.Go? ==> RxOk(o.rx)
  {
    AfterByte(side, limit, Took(side, r, Unmasked(side, r, c)))
  }

  // One byte; `limit` is the size of the receive buffer.
  function Step(side: Side, limit: nat, r: Rx, c: byte): (o: Out)
    requires RxOk(r)
    ensures o.Go? ==> RxOk(o.rx)
  {
    match r.state
    case New =>
      Go(r.(state := HdrLen, opcode := c % 16, fin := c >= 128,
            allZero := if side == Server then true else r.allZero), [])
    case HdrLen => StepLength(side, r, c)
    case Len16(_) => StepLength16(side, r, c)
    case Len64(_) => StepLength64(side, r, c)
    case Key(_) => StepKey(side, r, c)
    case Payload => StepPayload(side, limit, r, c)
  }

  // ---------------------------------------------------------------------------
  // Whole runs of a reader
  // ---------------------------------------------------------------------------

  datatype Ran = Ran(rx: Rx, events: seq<Event>) | Dead

  function Run(side: Side, limit: nat, r: Rx, b: Bytes): (o: Ran)
    requires RxOk(r)
    ensures o.Ran? ==> RxOk(o.rx)
    decreases |b|, 0
  {
    if b == [] then Ran(r, []) else Prepend(side, limit, Step(side, limit, r, b[0]), b[1..])
  }

  function Prepend(side: Side, limit: nat, o: Out, b: Bytes): (q: Ran)
    requires o.Go? ==> RxOk(o.rx)
    ensures q.Ran? ==> RxOk(q.rx)
    decreases |b|, 1
  {
    match o
    case Kill => Dead
    case Go(r, events) =>
      match Run(side, limit, r, b)
      case Dead => Dead
      case Ran(s, more) => Ran(s, events + more)
  }

  function Then(side: Side, limit: nat, o: Ran, b: Bytes): (q: Ran)
    requires o.Ran? ==> RxOk(o.rx)
  {
    if o.Dead? then Dead else Prepend(side, limit, Go(o.rx, o.events), b)
  }

  lemma {:induction false} RunConcat(side: Side, limit: nat, r: Rx, a: Bytes, b: Bytes)
    requires RxOk(r)
    ensures Run(side, limit, r, a + b) == Then(side, limit, Run(side, limit, r, a), b)
    decreases |a|
  {
    hide Step;
    if a == [] {
      assert a + b == b;
    } else {
      assert (a + b)[0] == a[0] && (a + b)[1..] == a[1..] + b;
      var o := Step(side, limit, r, a[0]);
      if o.Go? {
        RunConcat(side, limit, o.rx, a[1..], b);
      }
    }
  }

  // The application bytes handed to the user callback.
  function Delivered(events: seq<Event>): (p: Bytes) {
    if events == [] then []
    else (if events[0].Data? then events[0].chunk else []) + Delivered(events[1..])
  }

  lemma {:induction false} DeliveredConcat(a: seq<Event>, b: seq<Event>)
    ensures Delivered(a + b) == Delivered(a) + Delivered(b)
    decreases |a|
  {
    if a == [] {
      assert a + b == b;
    } else {
      assert (a + b)[1..] == a[1..] + b;
      DeliveredConcat(a[1..], b);
    }
  }

  ghost predicate Chunked(limit: nat, events: seq<Event>) {
    forall e :: e in events ==> e.Data? && 0 < |e.chunk| <= limit
  }

  lemma RunCons(side: Side, limit: nat, r: Rx, c: byte, b: Bytes)
    requires RxOk(r)
    ensures Run(side, limit, r, [c] + b) == Prepend(side, limit, Step(side, limit, r, c), b)
  {
    assert ([c] + b)[1..] == b;
  }

  // Prepending one step, spelled out for a step that goes on.
  lemma PrependGo(side: Side, limit: nat, o: Out, b: Bytes)
    requires o.Go? && RxOk(o.rx)
    ensures var q := Run(side, limit, o.rx, b);
            Prepend(side, limit, o, b) == if q.Dead? then Dead else Ran(q.rx, o.events + q.events)
  {}

  lemma RunNothing(side: Side, limit: nat, r: Rx)
    requires RxOk(r)
    ensures Run(side, limit, r, []) == Ran(r, [])
  {}

  lemma PrependNothing(q: Ran)
    ensures q.Ran? ==> Ran(q.rx, [] + q.events) == q
  {
    assert q.Ran? ==> [] + q.events == q.events;
  }

  lemma RunOne(side: Side, limit: nat, r: Rx, c: byte)
    requires RxOk(r)
    ensures Run(side, limit, r, [c]) == Prepend(side, limit, Step(side, limit, r, c), [])
  {
    assert [c] + [] == [c];
    RunCons(side, limit, r, c, []);
  }

  // A step without events drops out of a run.
  lemma SilentStep(side: Side, limit: nat, r: Rx, m: Rx, c: byte, b: Bytes)
    requires RxOk(r) && RxOk(m) && Step(side, limit, r, c) == Go(m, [])
    ensures Run(side, limit, r, [c] + b) == Run(side, limit, m, b)
  {
    RunCons(side, limit, r, c, b);
    PrependGo(side, limit, Go(m, []), b);
    PrependNothing(Run(side, limit, m, b));
  }

  lemma ThenNothing(side: Side, limit: nat, o: Out)
    requires o.Go? ==> RxOk(o.rx)
    ensures Then(side, limit, Prepend(side, limit, o, []), []) == Prepend(side, limit, o, [])
  {
    if o.Go? {
      assert o.events + [] == o.events;
    }
  }
}
