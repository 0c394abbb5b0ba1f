/** Frames that were printed are read back, in both directions. */
module FrameRoundTrip {
  import opened Octets
  import opened Frames
  import opened FramePayload
  import opened FrameHeaders

  // The reader's fields once the first byte of f has been seen.
  function Opened(side: Side, r: Rx, f: Frame): Rx {
    r.(state := HdrLen, opcode := f.opcode, fin := f.fin, allZero := if side == Server then true else r.allZero)
  }

  function AfterHeader(side: Side, r: Rx, f: Frame): (o: Out)
    requires RxOk(r) && IsKey(f.key)
    ensures o.Go? ==> RxOk(o.rx)
  {
    var m := Opened(side, r, f).(masked := f.key != [], length := |f.payload|);
    if f.key == [] then AfterLength(side, m, |f.payload| < 126) else AfterKey(m, f.key)
  }

  // Frames the reader accepts: control frames must have short lengths, and a client is
  // only sent unmasked frames.
  predicate Readable(side: Side, f: Frame) {
    Writable(f) && (f.opcode >= 8 ==> |f.payload| < 126) && (side == Client ==> f.key == [])
  }

  lemma RunHeader(side: Side, limit: nat, r: Rx, f: Frame)
    requires RxOk(r) && r.state == New && Readable(side, f)
    ensures Run(side, limit, r, Header(f)) == Prepend(side, limit, AfterHeader(side, r, f), [])
  {
    var n := |f.payload|;
    var first: byte := (if f.fin then 128 else 0) + f.opcode;
    var o := Opened(side, r, f);
    var m := o.(masked := f.key != [], length := n);
    var lengths := LengthBytes(n, f.key != []);
    assert Step(side, limit, r, first) == Go(o, []);
    hide Run, Prepend, AfterLength, AfterKey, LengthBytes, Step;
    assert Header(f) == [first] + (lengths + f.key);
    SilentStep(side, limit, r, o, first, lengths + f.key);
    RunConcat(side, limit, o, lengths, f.key);
    RunLength(side, limit, o, n, f.key != []);
    if f.key == [] {
      ThenNothing(side, limit, AfterLength(side, m, n < 126));
    } else {
      MaskedToKey(limit, m, n < 126, f.key);
      RunKey(limit, m, f.key, 0);
      assert f.key[0..] == f.key;
    }
  }

  lemma MaskedToKey(limit: nat, m: Rx, short: bool, key: Bytes)
    requires RxOk(m) && m.masked && m.allZero && |key| == 4
    ensures Then(Server, limit, Prepend(Server, limit, AfterLength(Server, m, short), []), key)
         == Run(Server, limit, KeyPart(m, key, 0), key)
  {
    assert m.(state := Key(0)) == KeyPart(m, key, 0) by { assert key[..0] + m.nonce[0..] == m.nonce; }
    var q := Run(Server, limit, KeyPart(m, key, 0), key);
    assert q.Ran? ==> [] + q.events == q.events;
    assert Prepend(Server, limit, Go(m.(state := Key(0)), []), []) == Ran(m.(state := Key(0)), []) by {
      var none: seq<Event> := [];
      assert none + none == none;
    }
  }

  // The whole frame as header, then payload.
  lemma RunFrame(side: Side, limit: nat, r: Rx, f: Frame)
    requires RxOk(r) && r.state == New && Readable(side, f)
    ensures var m := AfterHeader(side, r, f);
            f.payload == [] ==> Run(side, limit, r, Encode(f)) == Prepend(side, limit, m, [])
    ensures var m := AfterHeader(side, r, f);
            f.payload != [] ==>
              && m.Go? && Run(side, limit, r, Encode(f)) == Run(side, limit, m.rx, Masked(f.key, 0, f.payload))
              && m.rx.state == Payload && m.rx.length == |f.payload| && InStep(side, m.rx, f.key, 0)
              && m.rx.buffer == r.buffer && m.rx.ping == r.ping && m.rx.opcode == f.opcode && m.rx.fin == f.fin
  {
    RunHeader(side, limit, r, f);
    RunConcat(side, limit, r, Header(f), Masked(f.key, 0, f.payload));
    hide Run, Header, Step, Spill;
    var m := AfterHeader(side, r, f);
    if f.payload == [] {
      assert Header(f) + Masked(f.key, 0, f.payload) == Header(f);
    } else {
      assert m.events == [];
      PrependGo(side, limit, m, []);
      RunNothing(side, limit, m.rx);
      PrependNothing(Run(side, limit, m.rx, Masked(f.key, 0, f.payload)));
      assert m.events + [] == [];
    }
  }

  // Data frames, in either direction and of every length the writer can print.
  lemma DataRoundTrip(side: Side, limit: nat, r: Rx, f: Frame)
    requires RxOk(r) && r.state == New && r.buffer == [] && limit > 0
    requires Readable(side, f) && IsData(f.opcode)
    ensures DataDone(limit, r.(opcode := f.opcode, fin := f.fin), f.payload, Run(side, limit, r, Encode(f)))
  {
    RunFrame(side, limit, r, f);
    hide Run, Step, InStep, Encode, Delivered;
    if f.payload == [] {
      EmptyHeader(side, r, f);
      EmptyData(side, limit, r.(opcode := f.opcode, fin := f.fin), EmptyFrame(side, r, f));
    } else {
      var m := AfterHeader(side, r, f).rx;
      RunPayload(side, limit, m, f.key, 0, f.payload);
      assert [] + f.payload == f.payload;
    }
  }

  // An empty data frame passes without a callback.
  lemma EmptyData(side: Side, limit: nat, r: Rx, m: Rx)
    requires RxOk(m) && IsData(m.opcode) && m.state == New && m.buffer == []
    requires m.ping == r.ping && m.opcode == r.opcode && m.fin == r.fin
    ensures DataDone(limit, r, [], Prepend(side, limit, Spill(side, m), []))
  {
    var none: seq<Event> := [];
    assert none + none == none;
  }

  // Control frames whose payload fits the receive buffer.
  lemma ControlRoundTrip(side: Side, limit: nat, r: Rx, f: Frame)
    requires RxOk(r) && r.state == New && r.buffer == []
    requires Readable(side, f) && f.opcode in {CLOSE, PING, PONG} && |f.payload| <= limit
    ensures ControlDone(side, r.(opcode := f.opcode, fin := f.fin), f.payload, Run(side, limit, r, Encode(f)))
  {
    hide Run, Step, InStep, Encode, Spill, Prepend, ControlDone, AfterHeader, EmptyFrame;
    RunFrame(side, limit, r, f);
    if f.payload == [] {
      EmptyHeader(side, r, f);
      SpillControl(side, limit, r.(opcode := f.opcode, fin := f.fin), EmptyFrame(side, r, f));
    } else {
      var m := AfterHeader(side, r, f).rx;
      RunControl(side, limit, m, f.key, 0, f.payload);
      assert [] + f.payload == f.payload;
      ControlDoneSame(side, m, r.(opcode := f.opcode, fin := f.fin), f.payload, Run(side, limit, r, Encode(f)));
    }
  }

  // The reader at the end of an empty frame.
  function EmptyFrame(side: Side, r: Rx, f: Frame): Rx {
    var m := Opened(side, r, f).(masked := f.key != [], length := 0, state := New);
    if f.key == [] then m else Keyed(m, f.key)
  }

  lemma EmptyHeader(side: Side, r: Rx, f: Frame)
    requires RxOk(r) && IsKey(f.key) && f.payload == [] && r.buffer == []
    ensures var m := EmptyFrame(side, r, f);
            RxOk(m) && m.state == New && m.buffer == [] && m.opcode == f.opcode && m.fin == f.fin && m.ping == r.ping
    ensures AfterHeader(side, r, f) == Spill(side, EmptyFrame(side, r, f)) || f.key != []
    ensures side == Server ==> AfterHeader(side, r, f) == Spill(side, EmptyFrame(side, r, f))
  {
    hide Spill;
  }

  lemma ControlDoneSame(side: Side, m: Rx, r: Rx, whole: Bytes, o: Ran)
    requires ControlDone(side, m, whole, o) && m.opcode == r.opcode && m.fin == r.fin && m.ping == r.ping
    ensures ControlDone(side, r, whole, o)
  {}
}
