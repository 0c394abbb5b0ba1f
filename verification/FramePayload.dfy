/** What the readers of Frames do with the payload of a frame. */
module FramePayload {
  import opened Octets
  import opened Frames

  // The reader's key agrees with the frame's, i bytes into the payload.
  ghost predicate InStep(side: Side, r: Rx, key: Bytes, i: nat) {
    if key == [] then (if side == Server then r.allZero else !r.masked)
    else side == Server && |key| == 4 && r.nonce == key && (r.allZero <==> key == [0, 0, 0, 0]) &&
         (!r.allZero ==> r.maskIndex % 4 == i % 4)
  }

  lemma PayloadByte(side: Side, limit: nat, r: Rx, key: Bytes, i: nat, b: byte)
    requires RxOk(r) && r.state == Payload && r.length > 0 && IsKey(key) && InStep(side, r, key, i)
    ensures InStep(side, Took(side, r, b), key, i + 1)
    ensures Step(side, limit, r, MaskedByte(key, i, b)) == AfterByte(side, limit, Took(side, r, b))
  {
    hide AfterByte, Xor;
    if key != [] {
      XorTwice(b, key[i % 4]);
      hide Took;
    }
  }

  // Everything a data frame's payload leads to.
  ghost predicate DataDone(limit: nat, r: Rx, whole: Bytes, o: Ran) {
    && o.Ran? && o.rx.state == New && o.rx.buffer == [] && o.rx.ping == r.ping
    && o.rx.opcode == r.opcode && o.rx.fin == r.fin
    && Delivered(o.events) == whole && Chunked(limit, o.events)
  }

  // One more piece in front.
  lemma DataDoneMore(limit: nat, r: Rx, m: Rx, events: seq<Event>, whole: Bytes, o: Ran)
    requires DataDone(limit, m, whole, o) && Chunked(limit, events)
    requires m.ping == r.ping && m.opcode == r.opcode && m.fin == r.fin
    ensures DataDone(limit, r, Delivered(events) + whole, Ran(o.rx, events + o.events))
  {
    DeliveredConcat(events, o.events);
  }

  lemma SpillData(side: Side, limit: nat, m: Rx)
    requires RxOk(m) && IsData(m.opcode) && 0 < |m.buffer| <= limit
    ensures Spill(side, m) == Go(m.(buffer := []), [Data(m.buffer)])
    ensures Delivered([Data(m.buffer)]) == m.buffer && Chunked(limit, [Data(m.buffer)])
  {
    assert Delivered([Data(m.buffer)]) == m.buffer + Delivered([]);
  }

  // A data payload reaches the callback whole and in order, in pieces no larger than the
  // buffer, and the reader is ready for the next frame.
  lemma {:induction false} RunPayload(side: Side, limit: nat, r: Rx, key: Bytes, i: nat, p: Bytes)
    requires RxOk(r) && r.state == Payload && IsKey(key) && InStep(side, r, key, i)
    requires 0 < |p| == r.length && |r.buffer| < limit && IsData(r.opcode)
    ensures DataDone(limit, r, r.buffer + p, Run(side, limit, r, Masked(key, i, p)))
    decreases |p|
  {
    hide Step, MaskedByte, InStep, Run, Prepend, DataDone, Spill, Chunked, RxOk, Delivered, Xor;
    var c, rest := MaskedByte(key, i, p[0]), Masked(key, i + 1, p[1..]);
    PayloadByte(side, limit, r, key, i, p[0]);
    var m := Took(side, r, p[0]);
    RunCons(side, limit, r, c, rest);
    var o := Step(side, limit, r, c);
    assert r.buffer + p == m.buffer + p[1..];
    if |p| == 1 {
      assert p[1..] == [] && rest == [];
      NewRxOk(m);
      SpillData(side, limit, m.(state := New));
      PrependGo(side, limit, o, []);
      LastPiece(side, limit, r, m);
    } else if |m.buffer| == limit {
      SpillData(side, limit, m);
      InStepSpilled(side, m, key, i + 1);
      var next := m.(buffer := []);
      RunPayload(side, limit, next, key, i + 1, p[1..]);
      assert [] + p[1..] == p[1..];
      Onward(side, limit, r, next, [Data(m.buffer)], p[1..], rest);
    } else {
      RunPayload(side, limit, m, key, i + 1, p[1..]);
      NoneDelivered(limit);
      Onward(side, limit, r, m, [], m.buffer + p[1..], rest);
    }
  }

  // A step in front of a run that does all it should.
  lemma Onward(side: Side, limit: nat, r: Rx, m: Rx, events: seq<Event>, whole: Bytes, rest: Bytes)
    requires RxOk(m) && DataDone(limit, m, whole, Run(side, limit, m, rest)) && Chunked(limit, events)
    requires m.ping == r.ping && m.opcode == r.opcode && m.fin == r.fin
    ensures DataDone(limit, r, Delivered(events) + whole, Prepend(side, limit, Go(m, events), rest))
  {
    hide Run, DataDone, Prepend, Delivered, Chunked;
    var o := Run(side, limit, m, rest);
    NotDead(limit, m, whole, o);
    PrependGo(side, limit, Go(m, events), rest);
    DataDoneMore(limit, r, m, events, whole, o);
  }

  lemma NoneDelivered(limit: nat)
    ensures Chunked(limit, []) && forall whole: Bytes :: Delivered([]) + whole == whole
  {}

  lemma NewRxOk(m: Rx)
    requires RxOk(m)
    ensures RxOk(m.(state := New)) && RxOk(m.(state := New, buffer := []))
  {}

  lemma NotDead(limit: nat, r: Rx, whole: Bytes, o: Ran)
    requires DataDone(limit, r, whole, o)
    ensures o.Ran?
  {}

  lemma LastPiece(side: Side, limit: nat, r: Rx, m: Rx)
    requires RxOk(m) && RxOk(m.(state := New, buffer := [])) && 0 < |m.buffer| <= limit
    requires m.ping == r.ping && m.opcode == r.opcode && m.fin == r.fin
    ensures var q := Run(side, limit, m.(state := New, buffer := []), []);
            q.Ran? && DataDone(limit, r, m.buffer + [], Ran(q.rx, [Data(m.buffer)] + q.events))
  {
    assert [Data(m.buffer)] + [] == [Data(m.buffer)];
    assert Delivered([Data(m.buffer)]) == m.buffer + Delivered([]);
  }

  lemma InStepSpilled(side: Side, r: Rx, key: Bytes, i: nat)
    requires InStep(side, r, key, i) && RxOk(r)
    ensures InStep(side, r.(buffer := []), key, i) && RxOk(r.(buffer := []))
  {}

  // Everything a control frame's payload leads to.
  ghost predicate ControlDone(side: Side, r: Rx, whole: Bytes, o: Ran) {
    if r.opcode == CLOSE then o.Dead?
    else
      && o.Ran? && o.rx.state == New && o.rx.buffer == [] && o.rx.opcode == r.opcode && o.rx.fin == r.fin
      && o.rx.ping == (if r.opcode == PING && side == Server && r.ping == [] then whole else r.ping)
      && o.events == (if side == Server then [] else if r.opcode == PING then [PongReply(whole)] else [PongData(whole)])
  }

  lemma SpillControl(side: Side, limit: nat, r: Rx, m: Rx)
    requires RxOk(m) && m.opcode in {CLOSE, PING, PONG} && m.state == New
    requires m.ping == r.ping && m.opcode == r.opcode && m.fin == r.fin
    ensures ControlDone(side, r, m.buffer, Prepend(side, limit, Spill(side, m), []))
  {
    assert forall e: seq<Event> :: e + [] == e;
  }

  // A control payload is taken only when it is complete, provided it fits the buffer.
  lemma {:induction false} RunControl(side: Side, limit: nat, r: Rx, key: Bytes, i: nat, p: Bytes)
    requires RxOk(r) && r.state == Payload && IsKey(key) && InStep(side, r, key, i)
    requires 0 < |p| == r.length && |r.buffer| + |p| <= limit && r.opcode in {CLOSE, PING, PONG}
    ensures ControlDone(side, r, r.buffer + p, Run(side, limit, r, Masked(key, i, p)))
    decreases |p|
  {
    hide Step, MaskedByte, InStep, Run, Spill, RxOk;
    var c, rest := MaskedByte(key, i, p[0]), Masked(key, i + 1, p[1..]);
    PayloadByte(side, limit, r, key, i, p[0]);
    var m := Took(side, r, p[0]);
    RunCons(side, limit, r, c, rest);
    assert r.buffer + p == m.buffer + p[1..];
    if |p| == 1 {
      assert p[1..] == [] && rest == [];
      assert r.buffer + p == m.buffer;
      NewRxOk(m);
      SpillControl(side, limit, r, m.(state := New));
    } else {
      RunControl(side, limit, m, key, i + 1, p[1..]);
      assert forall e: seq<Event> :: [] + e == e;
    }
  }
}
