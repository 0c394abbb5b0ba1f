/** The receiving side of a server connection as the source has it: a frame reader, the
    flow control bits and the buffer of bytes held back, updated in place. */
module RxConnection {
  import opened Octets
  import opened Frames
  import opened FrameReader
  import opened RxFlow

  class Connection {
    const reader: Reader
    var allow: bool
    var pending: bool
    var pollin: bool
    var rxflow: array?<byte>  // rxflow_buffer
    var pos: nat
    var alive: bool
    var events: seq<Event>
    ghost var parsed: Bytes

    ghost predicate Valid()
      reads this, reader, reader.buf
    {
      reader.Valid() && reader.side == Server && (rxflow != null ==> pos <= rxflow.Length && rxflow != reader.buf)
    }

    ghost function Abs(): Flow
      requires Valid()
      reads this, reader, reader.buf, rxflow
    {
      Flow(allow, pending, pollin, rxflow != null, if rxflow == null then [] else rxflow[pos..],
           reader.Abs(), alive, parsed, events)
    }

    constructor (rxBufferSize: nat)
      ensures Valid() && Abs() == StartFlow && fresh(reader) && fresh(reader.buf)
    {
      reader := new Reader(Server, rxBufferSize);
      allow, pending, pollin, rxflow, pos, alive, events := true, false, true, null, 0, true, [];
      parsed := [];
    }

    // libwebsocket_rx_flow_control
    method FlowControl(enable: bool)
      requires Valid()
      modifies this`allow, this`pending
      ensures Valid() && Abs() == Request(old(Abs()), enable)
    {
      if enable == allow {
        return;
      }
      pending, allow := true, enable;
    }

    // _libwebsocket_rx_flow_control
    method ApplyFlowControl()
      requires Valid()
      modifies this`pending, this`pollin
      ensures Valid() && Abs() == Apply(old(Abs()))
    {
      if !pending || rxflow != null {
        return;
      }
      pending := false;
      pollin := allow;
    }

    // user_callback_handle_rxflow, for a callback that makes the given calls.
    method HandleCallback(calls: seq<bool>)
      requires Valid()
      modifies this`allow, this`pending, this`pollin
      ensures Valid() && Abs() == Callback(old(Abs()), calls)
    {
      for i := 0 to |calls|
        invariant Valid() && Requests(Abs(), calls[i..]) == Requests(old(Abs()), calls)
      {
        FlowControl(calls[i]);
        assert calls[i..][1..] == calls[i + 1..];
      }
      ApplyFlowControl();
    }

    // lws_rxflow_cache
    method HoldBack(buf: array<byte>, n: nat, end: nat)
      requires Valid() && n <= end <= buf.Length
      modifies this`rxflow, this`pos
      ensures Valid() && Abs() == Cache(old(Abs()), buf[n..end])
      ensures old(rxflow) != null ==> rxflow == old(rxflow)
    {
      if rxflow != null {
        return;
      }
      rxflow := new byte[end - n](i requires 0 <= i < end - n reads buf => buf[n + i]);
      pos := 0;
      assert rxflow[pos..] == buf[n..end];
    }

    // One byte: the reader, and the user callback if something came out.
    method ParseByte(c: byte, policy: Policy)
      requires Valid() && alive
      modifies this`alive, this`parsed, this`events, this`allow, this`pending, this`pollin, reader, reader.buf
      ensures match Step(Server, reader.limit, old(Abs().rx), c)
              case Kill => !alive
              case Go(rx, es) => alive && Valid() && Abs() == OnEvents(old(Abs()), rx, c, es, policy)
    {
      hide Step;
      var up, es := reader.RxSm(c);
      if !up {
        alive := false;
        return;
      }
      parsed := parsed + [c];
      events := events + es;
      if es != [] {
        HandleCallback(policy(|events|));
      }
    }

    // ... and the account of what is used of the buffer.
    method UseByte(c: byte, policy: Policy)
      requires Valid() && alive && (rxflow != null ==> pos < rxflow.Length)
      modifies this`pos, this`alive, this`parsed, this`events, this`allow, this`pending, this`pollin, reader, reader.buf
      ensures match Step(Server, reader.limit, old(Abs().rx), c)
              case Kill => !alive
              case Go(rx, es) => alive && Valid() && Abs() == OnEvents(Used(old(Abs())), rx, c, es, policy)
      ensures pos == if rxflow != null then old(pos) + 1 else old(pos)
    {
      hide Step, OnEvents;
      ghost var f := Abs();
      if rxflow != null {
        pos := pos + 1;
      }
      assert Abs() == Used(f);
      ParseByte(c, policy);
    }

    // libwebsocket_interpret_incoming_packet on buf[off..end], which is either fresh data or
    // the part of the buffer still to be drained.
    method InterpretPacket(buf: array<byte>, off: nat, end: nat, policy: Policy)
      requires Valid() && alive && off <= end <= buf.Length && buf != reader.buf
      requires rxflow != null ==> buf == rxflow && off == pos && end == rxflow.Length
      modifies this, reader, reader.buf
      ensures var g := Interpret(reader.limit, policy, old(Abs()), old(buf[off..end]));
              alive == g.alive && (alive ==> Valid() && Abs() == g)
      ensures old(rxflow) != null ==> rxflow == old(rxflow)
    {
      hide Step, OnEvents, Interpret;
      ghost var target := Interpret(reader.limit, policy, Abs(), buf[off..end]);
      var n := off;
      while n < end
        invariant off <= n <= end && alive && Valid()
        invariant rxflow == old(rxflow) && (rxflow != null ==> pos == n)
        invariant Interpret(reader.limit, policy, Abs(), buf[n..end]) == target
      {
        ghost var f, data := Abs(), buf[n..end];
        assert data[0] == buf[n] && data[1..] == buf[n + 1..end];
        InterpretTurn(reader.limit, policy, f, data);
        if !allow {
          HoldBack(buf, n, end);
          return;
        }
        UseByte(buf[n], policy);
        n := n + 1;
        if !alive {
          return;
        }
      }
      assert buf[n..end] == [];
      InterpretTurn(reader.limit, policy, Abs(), []);
    }

    // The drain in libwebsocket_service_fd.
    method DrainHeldBack(policy: Policy)
      requires Valid() && alive && rxflow != null && allow
      modifies this, reader, reader.buf
      ensures var g := Act(reader.limit, policy, old(Abs()), Drain);
              alive == g.alive && (alive ==> Valid() && Abs() == g)
    {
      hide Step, Interpret;
      assert rxflow[pos..rxflow.Length] == rxflow[pos..];
      InterpretPacket(rxflow, pos, rxflow.Length, policy);
      if alive && rxflow != null && pos == rxflow.Length {
        rxflow := null;
        ApplyFlowControl();
      }
    }
  }
}
