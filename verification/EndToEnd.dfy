/** A client writing data frames and a server reading them, over any schedule of partial
    sends, packet boundaries and receive pauses. */
module EndToEnd {
  import opened Octets
  import opened Frames
  import opened FrameRoundTrip
  import opened FrameWriter
  import opened RxFlow

  // `rest` is what the client's caller still has to pass to libwebsocket_write to complete
  // a frame; `received` counts the bytes the server has read off the wire.
  datatype System = System(frames: seq<DataFrame>, rest: Bytes, tx: Tx, received: nat, flow: Flow)

  const Start := System([], [], Tx([], []), 0, StartFlow)

  // The frames a client's data writes produce.
  type DataFrame = f: Frame | Readable(Server, f) && IsData(f.opcode) && f.payload != [] && |f.key| == 4
    witness Frame(true, TEXT, [0, 0, 0, 0], [0])

  function Wire(f: DataFrame): Bytes { Encode(f) }

  function Stream(fs: seq<DataFrame>): Bytes {
    if fs == [] then [] else Stream(fs[..|fs| - 1]) + Wire(fs[|fs| - 1])
  }

  function Payloads(fs: seq<DataFrame>): Bytes {
    if fs == [] then [] else Payloads(fs[..|fs| - 1]) + fs[|fs| - 1].payload
  }

  // send() takes everything, nothing, or a part; memory for what it left is available, and
  // a part of a new frame covers its header.
  predicate SendOk(res: SendResult, len: nat, header: nat, room: bool) {
    && !res.Error? && (res.Sent? ==> res.count <= len)
    && var n := if res.Sent? then res.count else 0;
    (n == 0 && room) || (0 < n && header <= n)
  }

  datatype Move = WriteFrame(frame: DataFrame, res: SendResult, room: bool)
                  | WriteMore(res: SendResult, room: bool)
                  | Resume(res: SendResult, room: bool)
                  | Packet(count: nat)
                  | Local(action: Action)

  predicate Enabled(s: System, e: Move) {
    match e
    case WriteFrame(f, res, room) =>
      s.rest == [] && s.tx.pending == [] && SendOk(res, |Wire(f)|, |Header(f)|, room)
    case WriteMore(res, room) =>
      s.rest != [] && s.tx.pending == [] && SendOk(res, |s.rest|, 0, room)
    case Resume(res, room) =>
      s.tx.pending != [] && SendOk(res, |s.tx.pending|, 0, true)
    case Packet(count) =>
      s.received + count <= |s.tx.wire| && Possible(s.flow, Receive(s.tx.wire[s.received..s.received + count]))
    case Local(a) => !a.Receive? && Possible(s.flow, a)
  }

  function Next(limit: nat, policy: Policy, s: System, e: Move): System
    requires Enabled(s, e) && RxOk(s.flow.rx)
  {
    match e
    case WriteFrame(f, res, room) =>
      var (tx, n) := Issue(s.tx, Wire(f), res, true, false, room);
      System(s.frames + [f], if 0 <= n <= |Wire(f)| then Wire(f)[n..] else [], tx, s.received, s.flow)
    case WriteMore(res, room) =>
      var (tx, n) := Issue(s.tx, s.rest, res, true, false, room);
      s.(tx := tx, rest := if 0 <= n <= |s.rest| then s.rest[n..] else [])
    case Resume(res, room) =>
      s.(tx := Issue(s.tx, s.tx.pending, res, true, false, room).0)
    case Packet(count) =>
      s.(received := s.received + count,
         flow := Act(limit, policy, s.flow, Receive(s.tx.wire[s.received..s.received + count])))
    case Local(a) => s.(flow := Act(limit, policy, s.flow, a))
  }

  // ---------------------------------------------------------------------------
  // Invariant
  // ---------------------------------------------------------------------------

  // Every byte of every frame is in exactly one place, in order: parsed, held back by the
  // server, on the wire, pending at the client, or still with the client's caller.
  ghost predicate Conserved(s: System) {
    && s.received <= |s.tx.wire|
    && s.flow.parsed + s.flow.rest == s.tx.wire[..s.received]
    && s.tx.wire + s.tx.pending + s.rest == Stream(s.frames)
  }

  ghost predicate Invariant(limit: nat, s: System) {
    limit > 0 && Conserved(s) && s.flow.alive && Inv(limit, s.flow)
  }

  lemma StreamSnoc(fs: seq<DataFrame>, f: DataFrame)
    ensures Stream(fs + [f]) == Stream(fs) + Wire(f)
    ensures Payloads(fs + [f]) == Payloads(fs) + f.payload
  {
    assert (fs + [f])[..|fs|] == fs;
  }

  // A new send of data, seen as a rearrangement of the stream.
  lemma NewSend(t: Tx, data: Bytes, res: SendResult, header: nat, room: bool, received: nat)
    requires SendOk(res, |data|, header, room) && data != [] && t.pending == [] && received <= |t.wire|
    ensures var (u, n) := Issue(t, data, res, true, false, room);
            && 0 <= n <= |data| && received <= |u.wire| && u.wire[..received] == t.wire[..received]
            && u.wire + u.pending + data[n..] == t.wire + data
  {
    hide Issue;
    IssueConserves(t, data, res, true, room);
    var (u, n) := Issue(t, data, res, true, false, room);
    assert data == data[..n] + data[n..];
    assert t.wire + [] == t.wire;
  }

  lemma WriteFrameConserves(limit: nat, policy: Policy, s: System, f: DataFrame, res: SendResult, room: bool)
    requires Conserved(s) && Enabled(s, WriteFrame(f, res, room)) && RxOk(s.flow.rx)
    ensures Conserved(Next(limit, policy, s, WriteFrame(f, res, room)))
  {
    hide Issue, Stream, Wire, Header;
    WireNonEmpty(f);
    NewSend(s.tx, Wire(f), res, |Header(f)|, room, s.received);
    StreamSnoc(s.frames, f);
    assert s.tx.wire + [] + [] == s.tx.wire;
  }

  lemma WriteMoreConserves(limit: nat, policy: Policy, s: System, res: SendResult, room: bool)
    requires Conserved(s) && Enabled(s, WriteMore(res, room)) && RxOk(s.flow.rx)
    ensures Conserved(Next(limit, policy, s, WriteMore(res, room)))
  {
    hide Issue, Stream;
    NewSend(s.tx, s.rest, res, 0, room, s.received);
    assert s.tx.wire + [] == s.tx.wire;
  }

  lemma ResumeConserves(limit: nat, policy: Policy, s: System, res: SendResult, room: bool)
    requires Conserved(s) && Enabled(s, Resume(res, room)) && RxOk(s.flow.rx)
    ensures Conserved(Next(limit, policy, s, Resume(res, room)))
  {
    hide Issue, Stream;
    IssueConserves(s.tx, s.tx.pending, res, true, room);
    var u := Issue(s.tx, s.tx.pending, res, true, false, room).0;
    assert u.wire[..s.received] == s.tx.wire[..s.received];
    assert s.tx.wire + s.tx.pending + [] == s.tx.wire + s.tx.pending;
  }

  // ---------------------------------------------------------------------------
  // The moves are what the writer does
  // ---------------------------------------------------------------------------

  // The payload as libwebsocket_write leaves it in the caller's buffer.
  function Caller(f: DataFrame): Bytes { Masked(f.key, 0, f.payload) }

  // The state after a write of which the caller was told r, and inside_frame is `inside`: the
  // caller has yet to pass its buffer from r on.
  function Written(s: System, f: DataFrame, after: Tx, r: int, inside: bool): System
    requires 0 <= r <= |f.payload|
  {
    s.(frames := s.frames + [f], tx := after, rest := if inside then Caller(f)[r..] else [])
  }

  // What Sender.Write promises of a new frame is the move WriteFrame.
  lemma WriteIsMove(limit: nat, policy: Policy, s: System, f: DataFrame, after: Tx, n: int, res: SendResult, room: bool)
    requires Enabled(s, WriteFrame(f, res, room)) && RxOk(s.flow.rx)
    requires (after, n) == Issue(s.tx, Wire(f), res, true, false, room)
    ensures var r := Told(n, |Header(f)|, |Wire(f)|);
            && 0 <= r <= |f.payload|
            && Next(limit, policy, s, WriteFrame(f, res, room)) == Written(s, f, after, r, n != |Wire(f)|)
  {
    hide Header, Masked;
    assert Wire(f) == Header(f) + Caller(f);
    assert n == |Wire(f)| ==> Wire(f)[n..] == [];
  }

  // ... and what it promises of the rest of one is the move WriteMore.
  lemma MoreIsMove(limit: nat, policy: Policy, s: System, after: Tx, n: int, res: SendResult, room: bool)
    requires Enabled(s, WriteMore(res, room)) && RxOk(s.flow.rx)
    requires (after, n) == Issue(s.tx, s.rest, res, true, false, room)
    ensures var r := Told(n, 0, |s.rest|);
            && 0 <= r <= |s.rest|
            && Next(limit, policy, s, WriteMore(res, room)) ==
               s.(tx := after, rest := if n != |s.rest| then s.rest[r..] else [])
  {}

  // The weaker promise of Accepts is already enough to keep the stream.
  lemma AcceptsConserves(s: System, f: DataFrame, after: Tx, r: int, inside: bool, res: SendResult, room: bool)
    requires Conserved(s) && s.rest == [] && s.tx.pending == [] && SendOk(res, |Wire(f)|, |Header(f)|, room)
    requires Accepts(s.tx, after, Wire(f), |Header(f)|, Caller(f), r, inside, res, room)
    ensures 0 <= r <= |f.payload| && Conserved(Written(s, f, after, r, inside))
  {
    hide Header, Masked, Stream;
    assert Wire(f) == Header(f) + Caller(f);
    StreamSnoc(s.frames, f);
    var t := Written(s, f, after, r, inside);
    assert s.tx.wire + [] + [] == s.tx.wire;
    assert after.wire[..s.received] == s.tx.wire[..s.received];
    if inside {
      assert Wire(f) == Wire(f)[..|Header(f)| + r] + Caller(f)[r..];
    } else {
      assert after.wire + after.pending + [] == after.wire + after.pending;
    }
  }

  lemma WireNonEmpty(f: DataFrame)
    ensures Wire(f) != []
  {}

  // ---------------------------------------------------------------------------
  // The server never gives up on such a stream
  // ---------------------------------------------------------------------------

  lemma {:induction false} StreamRuns(limit: nat, fs: seq<DataFrame>)
    requires limit > 0
    ensures var o := Run(Server, limit, StartRx, Stream(fs));
            o.Ran? && o.rx.state == New && o.rx.buffer == [] && Delivered(o.events) == Payloads(fs)
    decreases |fs|
  {
    hide Run, Step;
    if fs == [] {
      RunNothing(Server, limit, StartRx);
    } else {
      var front, last := fs[..|fs| - 1], fs[|fs| - 1];
      StreamRuns(limit, front);
      var o := Run(Server, limit, StartRx, Stream(front));
      RunConcat(Server, limit, StartRx, Stream(front), Wire(last));
      DataRoundTrip(Server, limit, o.rx, last);
      PrependGo(Server, limit, Go(o.rx, o.events), Wire(last));
      DeliveredConcat(o.events, Run(Server, limit, o.rx, Wire(last)).events);
    }
  }

  // If the reader survives all of a string, it survives its beginning, and what it
  // delivered by then is a beginning of all it delivers.
  lemma PrefixRuns(limit: nat, p: Bytes, q: Bytes)
    requires Run(Server, limit, StartRx, p + q).Ran?
    ensures var o := Run(Server, limit, StartRx, p);
            o.Ran? && Delivered(o.events) <= Delivered(Run(Server, limit, StartRx, p + q).events)
  {
    hide Step;
    RunConcat(Server, limit, StartRx, p, q);
    var o := Run(Server, limit, StartRx, p);
    if o.Ran? {
      DeliveredConcat(o.events, Run(Server, limit, o.rx, q).events);
    }
  }

  lemma {:induction false} InterpretSurvives(limit: nat, policy: Policy, f: Flow, data: Bytes)
    requires f.alive && History(limit, f) && Bits(f) && f.rest == (if f.buffered then data else [])
    requires Run(Server, limit, StartRx, f.parsed + data).Ran?
    ensures Interpret(limit, policy, f, data).alive
    decreases |data|
  {
    hide Run, Step;
    InterpretTurn(limit, policy, f, data);
    if data != [] && f.allow {
      var o, used := Step(Server, limit, f.rx, data[0]), Used(f);
      assert f.parsed + data == (f.parsed + [data[0]]) + data[1..];
      PrefixRuns(limit, f.parsed + [data[0]], data[1..]);
      HistoryStep(limit, f, data[0]);
      OnEventsInv(limit, used, o.rx, data[0], o.events, policy);
      OnEventsFields(used, o.rx, data[0], o.events, policy);
      InterpretSurvives(limit, policy, OnEvents(used, o.rx, data[0], o.events, policy), data[1..]);
    }
  }

  // Bytes that continue what was parsed within the stream do not kill the connection.
  lemma WithinStream(limit: nat, s: System, data: Bytes)
    requires Invariant(limit, s) && s.flow.parsed + data <= s.tx.wire
    ensures Run(Server, limit, StartRx, s.flow.parsed + data).Ran?
  {
    hide Run, Stream;
    var p, all := s.flow.parsed + data, Stream(s.frames);
    assert all[..|s.tx.wire|] == s.tx.wire;
    assert all == p + all[|p|..];
    StreamRuns(limit, s.frames);
    PrefixRuns(limit, p, all[|p|..]);
  }

  lemma ServerConserves(limit: nat, policy: Policy, s: System, e: Move)
    requires Invariant(limit, s) && Enabled(s, e) && (e.Packet? || e.Local?)
    ensures Invariant(limit, Next(limit, policy, s, e))
  {
    hide Run, Stream, Interpret, Bits;
    var f := s.flow;
    var a := if e.Packet? then Receive(s.tx.wire[s.received..s.received + e.count]) else e.action;
    ActConserves(limit, policy, f, a);
    var g := Act(limit, policy, f, a);
    if e.Packet? {
      assert s.tx.wire[..s.received + e.count] == s.tx.wire[..s.received] + a.data;
      assert f.parsed + f.rest + a.data == s.tx.wire[..s.received + e.count];
      PossibleReceive(limit, f, a.data);
      assert f.parsed + [] + a.data == f.parsed + a.data;
      WithinStream(limit, s, a.data);
      InterpretSurvives(limit, policy, f, a.data);
    } else if a.Drain? {
      assert f.parsed + f.rest <= s.tx.wire;
      WithinStream(limit, s, f.rest);
      InterpretSurvives(limit, policy, f, f.rest);
    } else if a.Other? {
      RequestsFields(f, a.calls);
    }
  }

  lemma PossibleReceive(limit: nat, f: Flow, data: Bytes)
    requires f.alive && Inv(limit, f) && Possible(f, Receive(data))
    ensures !f.buffered && f.rest == []
  {}

  lemma NextKeeps(limit: nat, policy: Policy, s: System, e: Move)
    requires Invariant(limit, s) && Enabled(s, e)
    ensures Invariant(limit, Next(limit, policy, s, e))
  {
    hide Run, Stream, Act, Issue, Bits, Conserved;
    match e
    case WriteFrame(f, res, room) => WriteFrameConserves(limit, policy, s, f, res, room);
    case WriteMore(res, room) => WriteMoreConserves(limit, policy, s, res, room);
    case Resume(res, room) => ResumeConserves(limit, policy, s, res, room);
    case Packet(_) => ServerConserves(limit, policy, s, e);
    case Local(_) => ServerConserves(limit, policy, s, e);
  }

  // ---------------------------------------------------------------------------
  // Every run
  // ---------------------------------------------------------------------------

  ghost predicate Leads(limit: nat, policy: Policy, s: System, events: seq<Move>, t: System)
    decreases |events|
  {
    if events == [] then s == t
    else
      && RxOk(s.flow.rx) && Enabled(s, events[0])
      && Leads(limit, policy, Next(limit, policy, s, events[0]), events[1..], t)
  }

  lemma {:induction false} LeadsKeeps(limit: nat, policy: Policy, s: System, events: seq<Move>, t: System)
    requires Invariant(limit, s) && Leads(limit, policy, s, events, t)
    ensures Invariant(limit, t)
    decreases |events|
  {
    hide Invariant, Next, Enabled;
    if events != [] {
      NextKeeps(limit, policy, s, events[0]);
      LeadsKeeps(limit, policy, Next(limit, policy, s, events[0]), events[1..], t);
    }
  }

  // No byte is left anywhere on the way.
  predicate Drained(s: System) {
    s.rest == [] && s.tx.pending == [] && s.received == |s.tx.wire| && s.flow.rest == []
  }

  // In every reachable state the connection is up, what the server's callback has been
  // given is a beginning of what the client wrote, and all of it once nothing is left on
  // the way.
  lemma EndToEndDelivery(limit: nat, policy: Policy, events: seq<Move>, s: System)
    requires limit > 0 && Leads(limit, policy, Start, events, s)
    ensures s.flow.alive
    ensures Delivered(s.flow.events) <= Payloads(s.frames)
    ensures Drained(s) ==> Delivered(s.flow.events) == Payloads(s.frames)
  {
    StartInv(limit);
    hide Run, Stream, Next, Enabled;
    StreamEmpty();
    LeadsKeeps(limit, policy, Start, events, s);
    var p, all := s.flow.parsed, Stream(s.frames);
    assert p <= all by {
      assert all[..|s.tx.wire|] == s.tx.wire;
      assert s.tx.wire[..s.received][..|p|] == p;
    }
    assert all == p + all[|p|..];
    StreamRuns(limit, s.frames);
    PrefixRuns(limit, p, all[|p|..]);
    if Drained(s) {
      assert p == p + s.flow.rest == s.tx.wire == all;
    }
  }

  lemma StreamEmpty()
    ensures Stream([]) == [] && Conserved(Start)
  {}
}
