/** The examples of section 5.7 of RFC 6455, as the writer prints them and as the readers take
    them, and the frames that the readers refuse. */
module FrameExamples {
  import opened Octets
  import opened Frames
  import opened FramePayload
  import opened FrameHeaders
  import opened FrameRoundTrip
  import FrameWriter

  const HELLO: Bytes := [0x48, 0x65, 0x6c, 0x6c, 0x6f]
  const KEY: Bytes := [0x37, 0xfa, 0x21, 0x3d]
  const HIDDEN: Bytes := [0x7f, 0x9f, 0x4d, 0x51, 0x58]

  lemma HelloH()
    ensures Xor(0x48, 0x37) == 0x7f
  {
    assert XorBits(0x04, 0x03, 4) == 0x07;
  }

  lemma HelloE()
    ensures Xor(0x65, 0xfa) == 0x9f
  {
    assert XorBits(0x06, 0x0f, 4) == 0x09;
  }

  lemma HelloL()
    ensures Xor(0x6c, 0x21) == 0x4d
  {
    assert XorBits(0x06, 0x02, 4) == 0x04;
  }

  lemma HelloL2()
    ensures Xor(0x6c, 0x3d) == 0x51
  {
    assert XorBits(0x06, 0x03, 4) == 0x05;
  }

  lemma HelloHalf()
    ensures XorBits(0x0d, 0x06, 5) == 0x0b
  {}

  lemma HelloO()
    ensures Xor(0x6f, 0x37) == 0x58
  {
    HelloHalf();
    hide XorBits;
    XorBitsParts(0x6f, 0x37, 8);
    XorBitsParts(0x37, 0x1b, 7);
    XorBitsParts(0x1b, 0x0d, 6);
  }

  lemma HelloMasked()
    ensures Masked(KEY, 0, HELLO) == HIDDEN
  {
    HelloH();
    HelloE();
    HelloL();
    HelloL2();
    HelloO();
    hide Xor, Masked;
    FrameWriter.MaskedPointwise(KEY, 0, HELLO, HIDDEN);
  }

  // A text message, the same masked, its two fragments, a ping and its masked pong.
  lemma TextFrames()
    ensures Encode(Frame(true, 1, [], HELLO)) == [0x81, 0x05] + HELLO
    ensures Encode(Frame(true, 1, KEY, HELLO)) == [0x81, 0x85] + KEY + HIDDEN
    ensures Encode(Frame(true, 9, [], HELLO)) == [0x89, 0x05] + HELLO
    ensures Encode(Frame(true, 10, KEY, HELLO)) == [0x8a, 0x85] + KEY + HIDDEN
  {
    HelloMasked();
    hide Masked, Xor;
    FrameWriter.MaskedNot(HELLO, 0);
  }

  lemma Fragments()
    ensures Encode(Frame(false, 1, [], HELLO[..3])) == [0x01, 0x03] + HELLO[..3]
    ensures Encode(Frame(true, 0, [], HELLO[3..])) == [0x80, 0x02] + HELLO[3..]
  {
    hide Masked;
    FrameWriter.MaskedNot(HELLO[..3], 0);
    FrameWriter.MaskedNot(HELLO[3..], 0);
  }

  lemma Digits256()
    ensures BigEndian(256, 2) == [1, 0]
  {}

  lemma Digits65536()
    ensures BigEndian(65536, 8) == [0, 0, 0, 0, 0, 1, 0, 0]
  {
    assert BigEndian(65536, 2) == [0, 0];
    assert BigEndian(65536, 4) == [0, 1, 0, 0];
  }

  // Messages of 256 bytes and of 64 KiB.
  lemma LongFrames(payload: Bytes)
    ensures |payload| == 256 ==> Header(Frame(true, 2, [], payload)) == [0x82, 0x7e, 0x01, 0x00]
    ensures |payload| == 65536 ==>
              Header(Frame(true, 2, [], payload)) == [0x82, 0x7f, 0x00, 0x00, 0x00, 0x00, 0x00, 0x01, 0x00, 0x00]
  {
    hide BigEndian;
    Digits256();
    Digits65536();
  }

  lemma MaskedHello(opcode: nat)
    requires opcode < 16
    ensures Encode(Frame(true, opcode, KEY, HELLO)) == [0x80 + opcode, 0x85] + KEY + HIDDEN
  {
    HelloMasked();
    hide Masked;
  }

  lemma HelloSizes()
    ensures |HELLO| == 5 && |KEY| == 4 && |HIDDEN| == 5
  {}

  // The server takes the masked message apart.
  lemma ReadHello(limit: nat, r: Rx)
    requires RxOk(r) && r.state == New && r.buffer == [] && limit > 0
    ensures var o := Run(Server, limit, r, [0x81, 0x85] + KEY + HIDDEN);
            o.Ran? && o.rx.state == New && o.rx.fin && o.rx.opcode == 1 && Delivered(o.events) == HELLO
  {
    hide Run, Encode, Delivered, HELLO, KEY, HIDDEN, RxOk, Chunked;
    HelloSizes();
    MaskedHello(1);
    DataRoundTrip(Server, limit, r, Frame(true, 1, KEY, HELLO));
  }

  lemma ServerControl(limit: nat, r: Rx, opcode: nat)
    requires RxOk(r) && r.state == New && r.buffer == [] && limit >= 5 && opcode in {8, 9, 10}
    ensures ControlDone(Server, r.(opcode := opcode, fin := true), HELLO,
                        Run(Server, limit, r, [0x80 + opcode, 0x85] + KEY + HIDDEN))
  {
    hide Run, Encode, HELLO, KEY, HIDDEN, RxOk, ControlDone;
    HelloSizes();
    MaskedHello(opcode);
    ControlRoundTrip(Server, limit, r, Frame(true, opcode, KEY, HELLO));
  }

  // A close, a ping and a pong from a client: the end of the connection, a payload kept for
  // the pong, and nothing.
  lemma ServerControls(limit: nat, r: Rx)
    requires RxOk(r) && r.state == New && r.buffer == [] && r.ping == [] && limit >= 5
    ensures Run(Server, limit, r, [0x88, 0x85] + KEY + HIDDEN) == Dead
    ensures var o := Run(Server, limit, r, [0x89, 0x85] + KEY + HIDDEN);
            o.Ran? && o.rx.ping == HELLO && o.events == []
    ensures var o := Run(Server, limit, r, [0x8a, 0x85] + KEY + HIDDEN);
            o.Ran? && o.rx.ping == [] && o.events == []
  {
    hide Run, HELLO, KEY, HIDDEN, RxOk;
    ServerControl(limit, r, 8);
    ServerControl(limit, r, 9);
    ServerControl(limit, r, 10);
  }

  // The same from a server: the client answers a ping at once and passes a pong on.
  lemma ClientControls(limit: nat, r: Rx)
    requires RxOk(r) && r.state == New && r.buffer == [] && limit >= 5
    ensures Run(Client, limit, r, [0x88, 0x05] + HELLO) == Dead
    ensures var o := Run(Client, limit, r, [0x89, 0x05] + HELLO); o.Ran? && o.events == [PongReply(HELLO)]
    ensures var o := Run(Client, limit, r, [0x8a, 0x05] + HELLO); o.Ran? && o.events == [PongData(HELLO)]
  {
    PlainControl(8);
    PlainControl(9);
    PlainControl(10);
    hide Run, Encode;
    ControlRoundTrip(Client, limit, r, Frame(true, 8, [], HELLO));
    ControlRoundTrip(Client, limit, r, Frame(true, 9, [], HELLO));
    ControlRoundTrip(Client, limit, r, Frame(true, 10, [], HELLO));
  }

  lemma PlainControl(opcode: nat)
    requires opcode < 16
    ensures Encode(Frame(true, opcode, [], HELLO)) == [0x80 + opcode, 0x05] + HELLO
  {
    hide Masked;
    FrameWriter.MaskedNot(HELLO, 0);
  }

  // Control frames with an extended length, and lengths of 2^63 or more, end the connection.
  lemma LongControlRefused(side: Side, limit: nat, r: Rx, first: byte, second: byte, rest: Bytes)
    requires RxOk(r) && r.state == New && first % 16 >= 8 && second % 128 >= 126
    ensures Run(side, limit, r, [first, second] + rest) == Dead
  {
    var m := Step(side, limit, r, first).rx;
    assert Step(side, limit, m, second) == Kill;
    hide Step;
    SilentStep(side, limit, r, m, first, [second] + rest);
    RunCons(side, limit, m, second, rest);
    assert [first, second] + rest == [first] + ([second] + rest);
  }

  lemma HugeLengthRefused(side: Side, limit: nat, r: Rx, first: byte, second: byte, high: byte, rest: Bytes)
    requires RxOk(r) && r.state == New && first % 16 < 8 && second % 128 == 127 && high >= 128
    ensures Run(side, limit, r, [first, second, high] + rest) == Dead
  {
    var m := Step(side, limit, r, first).rx;
    var n := Step(side, limit, m, second).rx;
    assert Step(side, limit, n, high) == Kill;
    hide Step;
    SilentStep(side, limit, r, m, first, [second, high] + rest);
    SilentStep(side, limit, m, n, second, [high] + rest);
    RunCons(side, limit, n, high, rest);
    assert [first, second, high] + rest == [first] + ([second, high] + rest);
    assert [second, high] + rest == [second] + ([high] + rest);
  }

  // Where the readers leave the standard: a long form of the length zero completes a frame on
  // the client only, and the client takes the mask bit for part of a short length.
  lemma LongZero(limit: nat, r: Rx)
    requires RxOk(r) && r.state == New && r.buffer == []
    ensures var o := Run(Client, limit, r, [0x82, 126, 0, 0]); o.Ran? && o.rx.state == New && o.events == []
    ensures var o := Run(Server, limit, r, [0x82, 126, 0, 0]); o.Ran? && o.rx.state == Payload && o.rx.length == 0
  {
    LongZeroSide(Client, limit, r);
    LongZeroSide(Server, limit, r);
  }

  lemma LongZeroSide(side: Side, limit: nat, r: Rx)
    requires RxOk(r) && r.state == New && r.buffer == []
    ensures var o := Run(side, limit, r, [0x82, 126, 0, 0]);
            && o.Ran? && o.events == []
            && (if side == Client then o.rx.state == New else o.rx.state == Payload && o.rx.length == 0)
  {
    var a := Step(side, limit, r, 0x82).rx;
    var b := Step(side, limit, a, 126).rx;
    var c := Step(side, limit, b, 0).rx;
    var d := Step(side, limit, c, 0);
    assert d.Go? && d.events == [];
    hide Run, Step;
    assert [0x82, 126, 0, 0] == [0x82] + ([126] + ([0] + [0]));
    SilentStep(side, limit, r, a, 0x82, [126] + ([0] + [0]));
    SilentStep(side, limit, a, b, 126, [0] + [0]);
    SilentStep(side, limit, b, c, 0, [0]);
    assert [0] + [] == [0];
    SilentStep(side, limit, c, d.rx, 0, []);
    RunNothing(side, limit, d.rx);
  }

  lemma MaskedToClient(limit: nat, r: Rx, n: byte)
    requires RxOk(r) && r.state == New && n < 126
    ensures var o := Run(Client, limit, r, [0x81, 128 + n]); o.Ran? && o.rx.state == Key(0) && o.rx.length == 128 + n
  {
    var a := Step(Client, limit, r, 0x81).rx;
    var b := Step(Client, limit, a, 128 + n).rx;
    hide Run;
    SilentStep(Client, limit, r, a, 0x81, [128 + n]);
    assert [128 + n] + [] == [128 + n];
    SilentStep(Client, limit, a, b, 128 + n, []);
    assert [0x81, 128 + n] == [0x81] + [128 + n];
    RunNothing(Client, limit, b);
  }

  // A reserved opcode passes without effect.
  lemma ReservedIgnored(side: Side, limit: nat, r: Rx, opcode: nat)
    requires RxOk(r) && r.state == New && r.buffer == [] && (3 <= opcode < 8 || 11 <= opcode < 16)
    ensures var o := Run(side, limit, r, [0x80 + opcode, 0]);
            o.Ran? && o.rx.state == New && o.rx.buffer == [] && o.rx.ping == r.ping && o.events == []
  {
    var a := Step(side, limit, r, 0x80 + opcode).rx;
    var b := Step(side, limit, a, 0);
    assert b.Go? && b.events == [];
    hide Run, Step;
    SilentStep(side, limit, r, a, 0x80 + opcode, [0]);
    assert [0] + [] == [0] && [0x80 + opcode, 0] == [0x80 + opcode] + [0];
    SilentStep(side, limit, a, b.rx, 0, []);
    RunNothing(side, limit, b.rx);
  }
}
