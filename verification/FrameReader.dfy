/** The readers as the source has them: fields updated byte by byte and a receive buffer
    filled in place, proved against the step function of Frames. */
module FrameReader {
  import opened Octets
  import opened Frames

  const PRE := 18   // LWS_SEND_BUFFER_PRE_PADDING
  const POST := 4   // LWS_SEND_BUFFER_POST_PADDING
  const MAX_SOCKET_IO_BUF := 4096

  class Reader {
    const side: Side
    const limit: nat
    var state: RxState
    var opcode: nat
    var fin: bool
    var masked: bool
    var allZero: bool
    var nonce: Bytes
    var maskIndex: nat
    var length: nat
    const buf: array<byte>
    var head: nat
    var ping: Bytes

    ghost function Abs(): Rx
      reads this, buf
      requires PRE + head <= buf.Length
    {
      Rx(state, opcode, fin, masked, allZero, nonce, maskIndex, length, buf[PRE..PRE + head], ping)
    }

    // The head stays inside the buffer, and below the limit between bytes.
    ghost predicate Valid()
      reads this, buf
    {
      && limit > 0 && buf.Length == PRE + limit + POST && head < limit
      && RxOk(Abs())
    }

    // The buffer is sized by the protocol, with a default for 0.
    constructor (side: Side, rxBufferSize: nat)
      ensures Valid() && Abs() == StartRx && this.side == side
      ensures limit == (if rxBufferSize == 0 then MAX_SOCKET_IO_BUF else rxBufferSize)
      ensures fresh(buf)
    {
      this.side := side;
      var n := if rxBufferSize == 0 then MAX_SOCKET_IO_BUF else rxBufferSize;
      limit := n;
      state, opcode, fin, masked, allZero := New, 0, false, false, false;
      nonce, maskIndex, length, head, ping := [0, 0, 0, 0], 0, 0, 0, [];
      buf := new byte[PRE + n + POST];
    }

    // The spill: the bytes collected so far go to the control handling or to the user
    // callback, and the buffer starts over.
    method SpillBuffer() returns (alive: bool, events: seq<Event>)
      requires limit > 0 && buf.Length == PRE + limit + POST && head <= limit && RxOk(Abs())
      modifies this`head, this`ping, buf
      ensures match Spill(side, old(Abs()))
              case Kill => !alive
              case Go(rx, es) => alive && events == es && Valid() && Abs() == rx
      ensures alive && events != [] && !events[0].PongReply? ==> buf[PRE + old(head)] == 0
    {
      events := [];
      var chunk := buf[PRE..PRE + head];
      if opcode == CLOSE {
        return false, [];
      } else if opcode == PING {
        if side == Client {
          events := [PongReply(chunk)];
        } else if ping == [] {
          ping := chunk;
        }
      } else if opcode == PONG {
        if side == Client {
          buf[PRE + head] := 0;
          events := [PongData(chunk)];
        }
      } else if IsData(opcode) && head > 0 {
        buf[PRE + head] := 0;
        events := [Data(chunk)];
      }
      head := 0;
      assert buf[PRE..PRE] == [];
      alive := true;
    }

    method LengthDone(short: bool) returns (alive: bool, events: seq<Event>)
      requires Valid()
      modifies this`state, this`head, this`ping, buf
      ensures match AfterLength(side, old(Abs()), short)
              case Kill => !alive
              case Go(rx, es) => alive && events == es && Valid() && Abs() == rx
    {
      alive, events := true, [];
      if masked {
        state := Key(0);
      } else if length == 0 && (short || side == Client) {
        state := New;
        alive, events := SpillBuffer();
      } else {
        state := Payload;
      }
    }

    // One payload byte into the buffer.
    method StoreByte(c: byte)
      requires Valid() && state == Payload
      modifies this`maskIndex, this`head, this`length, buf
      ensures head <= limit && Abs() == Took(side, old(Abs()), Unmasked(side, old(Abs()), c))
    {
      hide Xor;
      var b: byte := c;
      if !(allZero || (side == Client && !masked)) {
        b := Xor(c, nonce[maskIndex % 4]);
        maskIndex := (maskIndex + 1) % 256;
      }
      ghost var before := buf[PRE..PRE + head];
      buf[PRE + head] := b;
      head := head + 1;
      length := if length == 0 then SIZE_T - 1 else length - 1;
      assert buf[PRE..PRE + head] == before + [b];
    }

    method TakePayload(c: byte) returns (alive: bool, events: seq<Event>)
      requires Valid() && state == Payload
      modifies this, buf
      ensures match StepPayload(side, limit, old(Abs()), c)
              case Kill => !alive
              case Go(rx, es) => alive && events == es && Valid() && Abs() == rx
    {
      hide Spill, Took, Unmasked;
      StoreByte(c);
      alive, events := true, [];
      if length == 0 {
        state := New;
        alive, events := SpillBuffer();
      } else if head == limit {
        alive, events := SpillBuffer();
      }
    }

    method TakeLength64(c: byte) returns (alive: bool, events: seq<Event>)
      requires Valid() && state.Len64?
      modifies this, buf
      ensures match StepLength64(side, old(Abs()), c)
              case Kill => !alive
              case Go(rx, es) => alive && events == es && Valid() && Abs() == rx
    {
      hide Spill, AfterLength, Shifted;
      alive, events := true, [];
      if state.left == 8 && c >= 128 {
        return false, [];
      }
      length := (if state.left == 8 then 0 else length) + Shifted(c, state.left - 1);
      if state.left > 1 {
        state := Len64(state.left - 1);
      } else {
        alive, events := LengthDone(false);
      }
    }

    method TakeKey(c: byte) returns (alive: bool, events: seq<Event>)
      requires Valid() && state.Key?
      modifies this, buf
      ensures match StepKey(side, old(Abs()), c)
              case Kill => !alive
              case Go(rx, es) => alive && events == es && Valid() && Abs() == rx
    {
      hide Spill;
      alive, events := true, [];
      nonce := nonce[state.got := c];
      allZero := allZero && c == 0;
      if state.got < 3 {
        state := Key(state.got + 1);
      } else {
        if side == Server {
          maskIndex := 0;
        }
        if length == 0 {
          state := New;
          alive, events := SpillBuffer();
        } else {
          state := Payload;
        }
      }
    }

    method TakeLength(c: byte) returns (alive: bool, events: seq<Event>)
      requires Valid() && state == HdrLen
      modifies this, buf
      ensures match StepLength(side, old(Abs()), c)
              case Kill => !alive
              case Go(rx, es) => alive && events == es && Valid() && Abs() == rx
    {
      hide Spill, AfterLength;
      alive, events := true, [];
      masked := c >= 128;
      if c % 128 >= 126 {
        if opcode >= 8 {
          return false, [];
        }
        state := if c % 128 == 126 then Len16(2) else Len64(8);
      } else {
        length := if side == Server then c % 128 else c;
        alive, events := LengthDone(true);
      }
    }

    // libwebsocket_rx_sm and libwebsocket_client_rx_sm: one received byte. When the
    // connection stays up, the fields are those of the step function, every access is
    // inside the buffer and the head is again below the limit.
    method RxSm(c: byte) returns (alive: bool, events: seq<Event>)
      requires Valid()
      modifies this, buf
      ensures match Step(side, limit, old(Abs()), c)
              case Kill => !alive
              case Go(rx, es) => alive && events == es && Valid() && Abs() == rx
    {
      hide StepLength, StepLength64, StepKey, StepPayload, AfterLength;
      alive, events := true, [];
      match state
      case New =>
        opcode, fin := c % 16, c >= 128;
        if side == Server {
          allZero := true;
        }
        state := HdrLen;
      case HdrLen =>
        alive, events := TakeLength(c);
      case Len16(left) =>
        if left == 2 {
          length, state := 256 * c, Len16(1);
        } else {
          length := length + c;
          alive, events := LengthDone(false);
        }
      case Len64(_) =>
        alive, events := TakeLength64(c);
      case Key(_) =>
        alive, events := TakeKey(c);
      case Payload =>
        alive, events := TakePayload(c);
    }
  }
}
