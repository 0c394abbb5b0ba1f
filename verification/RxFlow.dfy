/** Receive flow control of a server connection: lws_rxflow_cache and the drain loop of
    lib/service.c, _libwebsocket_rx_flow_control and libwebsocket_interpret_incoming_packet
    of lib/server.c, libwebsocket_rx_flow_control and user_callback_handle_rxflow of
    lib/libwebsockets.c. */
module RxFlow {
  import opened Octets
  import opened Frames

  // `buffered` says whether rxflow_buffer is allocated and `rest` is the part of it from
  // rxflow_pos on; `allow` and `pending` are the two bits of rxflow_change_to. `parsed`
  // and `events` record what went through the frame reader and what came out of it.
  datatype Flow = Flow(allow: bool, pending: bool, pollin: bool, buffered: bool, rest: Bytes,
                       rx: Rx, alive: bool, parsed: Bytes, events: seq<Event>)

  const StartFlow := Flow(true, false, true, false, [], StartRx, true, [], [])

  // The user callback: given how many events there were so far, the flow control calls it
  // makes. It returns 0.
  type Policy = nat -> seq<bool>

  // libwebsocket_rx_flow_control
  function Request(f: Flow, enable: bool): Flow {
    if enable == f.allow then f else f.(allow := enable, pending := true)
  }

  function Requests(f: Flow, calls: seq<bool>): Flow
    decreases |calls|
  {
    if calls == [] then f else Requests(Request(f, calls[0]), calls[1..])
  }

  // _libwebsocket_rx_flow_control
  function Apply(f: Flow): Flow {
    if !f.pending || f.buffered then f else f.(pending := false, pollin := f.allow)
  }

  // user_callback_handle_rxflow
  function Callback(f: Flow, calls: seq<bool>): Flow {
    Apply(Requests(f, calls))
  }

  // lws_rxflow_cache
  function Cache(f: Flow, data: Bytes): Flow {
    if f.buffered then f else f.(buffered := true, rest := data)
  }

  function OnEvents(f: Flow, rx: Rx, b: byte, events: seq<Event>, policy: Policy): Flow {
    var g := f.(rx := rx, parsed := f.parsed + [b], events := f.events + events);
    if events == [] then g else Callback(g, policy(|g.events|))
  }

  // libwebsocket_interpret_incoming_packet
  function Interpret(limit: nat, policy: Policy, f: Flow, data: Bytes): (g: Flow)
    requires RxOk(f.rx)
    ensures RxOk(g.rx)
    decreases |data|
  {
    if data == [] || !f.alive then f
    else if !f.allow then Cache(f, data)
    else
      var used := Used(f);
      match Step(Server, limit, f.rx, data[0])
      case Kill => used.(alive := false)
      case Go(rx, events) =>
        var g := OnEvents(used, rx, data[0], events, policy);
        OnEventsFields(used, rx, data[0], events, policy);
        Interpret(limit, policy, g, data[1..])
  }

  // The interpret loop, one turn at a time.
  lemma InterpretTurn(limit: nat, policy: Policy, f: Flow, data: Bytes)
    requires RxOk(f.rx) && f.alive
    ensures data == [] ==> Interpret(limit, policy, f, data) == f
    ensures data != [] && !f.allow ==> Interpret(limit, policy, f, data) == Cache(f, data)
    ensures data != [] && f.allow ==>
              match Step(Server, limit, f.rx, data[0])
              case Kill => !Interpret(limit, policy, f, data).alive
              case Go(rx, events) =>
                var g := OnEvents(Used(f), rx, data[0], events, policy);
                RxOk(g.rx) && Interpret(limit, policy, f, data) == Interpret(limit, policy, g, data[1..])
  {
    hide Step;
    if data != [] && f.allow {
      var o := Step(Server, limit, f.rx, data[0]);
      if o.Go? {
        OnEventsFields(Used(f), o.rx, data[0], o.events, policy);
      }
    }
  }

  lemma {:induction false} RequestsFields(f: Flow, calls: seq<bool>)
    ensures var g := Requests(f, calls); g == f.(allow := g.allow, pending := g.pending)
    ensures var g := Requests(f, calls); !g.pending ==> g == f
    decreases |calls|
  {
    if calls != [] {
      RequestsFields(Request(f, calls[0]), calls[1..]);
    }
  }

  lemma OnEventsFields(f: Flow, rx: Rx, b: byte, events: seq<Event>, policy: Policy)
    ensures var g := OnEvents(f, rx, b, events, policy);
            g == f.(rx := rx, parsed := f.parsed + [b], events := f.events + events,
                    allow := g.allow, pending := g.pending, pollin := g.pollin)
  {
    var g := f.(rx := rx, parsed := f.parsed + [b], events := f.events + events);
    if events != [] {
      RequestsFields(g, policy(|g.events|));
    }
  }

  // ---------------------------------------------------------------------------
  // Invariants
  // ---------------------------------------------------------------------------

  // The reader is where the bytes parsed so far put it.
  ghost predicate History(limit: nat, f: Flow) {
    RxOk(f.rx) && Run(Server, limit, StartRx, f.parsed) == Ran(f.rx, f.events)
  }

  // The poll mask follows the flow control bits: off whenever bytes are held back, and
  // otherwise as last requested once no request is pending.
  ghost predicate Bits(f: Flow) {
    if f.buffered then !f.pollin && (f.allow ==> f.pending)
    else f.rest == [] && (!f.allow ==> !f.pollin) && (!f.pending ==> f.pollin == f.allow)
  }

  ghost predicate Inv(limit: nat, f: Flow) {
    f.alive ==> History(limit, f) && Bits(f) && (f.buffered ==> f.rest != [])
  }

  lemma HistoryStep(limit: nat, f: Flow, b: byte)
    requires History(limit, f)
    ensures match Step(Server, limit, f.rx, b)
            case Kill => Run(Server, limit, StartRx, f.parsed + [b]) == Dead
            case Go(rx, events) => Run(Server, limit, StartRx, f.parsed + [b]) == Ran(rx, f.events + events)
  {
    hide Step, Run;
    RunConcat(Server, limit, StartRx, f.parsed, [b]);
    RunOne(Server, limit, f.rx, b);
    var o := Step(Server, limit, f.rx, b);
    if o.Go? {
      PrependGo(Server, limit, o, []);
      RunNothing(Server, limit, o.rx);
      assert o.events + [] == o.events;
    }
  }

  lemma {:induction false} RequestsBits(f: Flow, calls: seq<bool>)
    requires if f.buffered then !f.pollin && (f.allow ==> f.pending)
             else f.rest == [] && (!f.pending ==> f.pollin == f.allow)
    ensures var g := Requests(f, calls);
            if g.buffered then !g.pollin && (g.allow ==> g.pending)
            else g.rest == [] && (!g.pending ==> g.pollin == g.allow)
    decreases |calls|
  {
    if calls != [] {
      RequestsBits(Request(f, calls[0]), calls[1..]);
    }
  }

  lemma CallbackBits(f: Flow, calls: seq<bool>)
    requires Bits(f)
    ensures Bits(Callback(f, calls))
  {
    RequestsBits(f, calls);
    RequestsFields(f, calls);
  }

  // One byte of the interpret loop.
  lemma OnEventsInv(limit: nat, f: Flow, rx: Rx, b: byte, events: seq<Event>, policy: Policy)
    requires History(limit, f) && Bits(f) && Step(Server, limit, f.rx, b) == Go(rx, events)
    ensures var g := OnEvents(f, rx, b, events, policy); History(limit, g) && Bits(g)
  {
    HistoryStep(limit, f, b);
    OnEventsFields(f, rx, b, events, policy);
    hide Run, Step;
    var g := f.(rx := rx, parsed := f.parsed + [b], events := f.events + events);
    if events != [] {
      CallbackBits(g, policy(|g.events|));
    }
  }

  function Used(f: Flow): Flow {
    if f.buffered && f.rest != [] then f.(rest := f.rest[1..]) else f
  }

  // Bytes handed to the interpret loop are parsed or held back, in order; a buffer being
  // drained is consumed from its front.
  lemma {:induction false} InterpretConserves(limit: nat, policy: Policy, f: Flow, data: Bytes)
    requires f.alive && RxOk(f.rx) && f.rest == (if f.buffered then data else [])
    ensures var g := Interpret(limit, policy, f, data);
            g.alive ==>
              && g.parsed + g.rest == f.parsed + data
              && (f.buffered ==> g.buffered) && (!g.buffered ==> g.rest == [])
              && (g.buffered && !f.buffered ==> g.rest != [])
    decreases |data|
  {
    hide Step;
    if data != [] && f.allow {
      var used, o := Used(f), Step(Server, limit, f.rx, data[0]);
      if o.Go? {
        OnEventsFields(used, o.rx, data[0], o.events, policy);
        InterpretConserves(limit, policy, OnEvents(used, o.rx, data[0], o.events, policy), data[1..]);
        assert f.parsed + [data[0]] + data[1..] == f.parsed + data;
      }
    }
  }

  lemma {:induction false} InterpretInv(limit: nat, policy: Policy, f: Flow, data: Bytes)
    requires f.alive && History(limit, f) && Bits(f) && f.rest == (if f.buffered then data else [])
    ensures var g := Interpret(limit, policy, f, data);
            g.alive ==> History(limit, g) && Bits(g)
    decreases |data|
  {
    hide Run, Step;
    if data != [] && f.allow {
      var used, o := Used(f), Step(Server, limit, f.rx, data[0]);
      if o.Go? {
        OnEventsInv(limit, used, o.rx, data[0], o.events, policy);
        OnEventsFields(used, o.rx, data[0], o.events, policy);
        InterpretInv(limit, policy, OnEvents(used, o.rx, data[0], o.events, policy), data[1..]);
      }
    }
  }

  // ---------------------------------------------------------------------------
  // Runs of a connection
  // ---------------------------------------------------------------------------

  // A read of fresh bytes, a drain of the buffer, an enable from elsewhere in the program,
  // and one of the connection's other callbacks.
  datatype Action = Receive(data: Bytes) | Drain | Enable | Other(calls: seq<bool>)

  // poll() reports readable sockets only, but its report may be older than a callback of the
  // same service_fd call that switched POLLIN off: only a buffer that was there before proves
  // that the report is not for reading. service_fd drains first when it may.
  predicate Possible(f: Flow, a: Action) {
    f.alive &&
    match a
    case Receive(data) => (f.pollin || !f.buffered) && !(f.buffered && f.allow) && data != []
    case Drain => f.buffered && f.allow
    case Enable => true
    case Other(_) => true
  }

  // service_fd after a drain: an empty buffer is freed and the pending change applied.
  function Freed(f: Flow): Flow {
    if f.buffered && f.rest == [] then Apply(f.(buffered := false)) else f
  }

  function Act(limit: nat, policy: Policy, f: Flow, a: Action): Flow
    requires RxOk(f.rx)
  {
    match a
    case Receive(data) => Interpret(limit, policy, f, data)
    case Drain => Freed(Interpret(limit, policy, f, f.rest))
    case Enable => Request(f, true)
    case Other(calls) => Callback(f, calls)
  }

  function Incoming(a: Action): Bytes {
    if a.Receive? then a.data else []
  }

  // Nothing is lost or repeated, and bytes are held back only with POLLIN off.
  lemma ActConserves(limit: nat, policy: Policy, f: Flow, a: Action)
    requires f.alive && Inv(limit, f) && Possible(f, a)
    ensures var g := Act(limit, policy, f, a);
            Inv(limit, g) && (g.alive ==> g.parsed + g.rest == f.parsed + f.rest + Incoming(a))
  {
    hide Run, Step, Interpret;
    assert f.parsed + f.rest + [] == f.parsed + f.rest;
    match a
    case Receive(data) =>
      InterpretConserves(limit, policy, f, data);
      InterpretInv(limit, policy, f, data);
      assert f.parsed + [] == f.parsed;
    case Drain =>
      InterpretConserves(limit, policy, f, f.rest);
      InterpretInv(limit, policy, f, f.rest);
    case Enable =>
    case Other(calls) =>
      RequestsFields(f, calls);
      CallbackBits(f, calls);
  }

  // Every run from a fresh connection.
  ghost predicate Reaches(limit: nat, policy: Policy, f: Flow, actions: seq<Action>, g: Flow)
    decreases |actions|
  {
    if actions == [] then f == g
    else
      && RxOk(f.rx) && Possible(f, actions[0])
      && Reaches(limit, policy, Act(limit, policy, f, actions[0]), actions[1..], g)
  }

  function Received(actions: seq<Action>): Bytes {
    if actions == [] then [] else Incoming(actions[0]) + Received(actions[1..])
  }

  lemma {:induction false} RunConserves(limit: nat, policy: Policy, f: Flow, actions: seq<Action>, g: Flow)
    requires Inv(limit, f) && Reaches(limit, policy, f, actions, g) && g.alive
    ensures Inv(limit, g) && g.parsed + g.rest == f.parsed + f.rest + Received(actions)
    decreases |actions|
  {
    hide Act, History, Bits, Incoming;
    if actions == [] {
      assert f.parsed + f.rest + [] == f.parsed + f.rest;
    } else {
      var a := actions[0];
      ActConserves(limit, policy, f, a);
      var h := Act(limit, policy, f, a);
      RunConserves(limit, policy, h, actions[1..], g);
      assert f.parsed + f.rest + Incoming(a) + Received(actions[1..]) == f.parsed + f.rest + Received(actions);
    }
  }

  lemma StartInv(limit: nat)
    ensures Inv(limit, StartFlow)
  {
    RunNothing(Server, limit, StartRx);
  }

  // ---------------------------------------------------------------------------
  // The poll mask
  // ---------------------------------------------------------------------------

  // With nothing held back, the connection is polled for reading exactly if it may receive.
  predicate Settled(f: Flow) { !f.buffered ==> !f.pending && f.pollin == f.allow }

  lemma CallbackSettles(f: Flow, calls: seq<bool>)
    requires Bits(f)
    ensures Settled(Callback(f, calls))
  {
    RequestsBits(f, calls);
    RequestsFields(f, calls);
  }

  lemma {:induction false} InterpretSettled(limit: nat, policy: Policy, f: Flow, data: Bytes)
    requires f.alive && History(limit, f) && Bits(f) && f.rest == (if f.buffered then data else []) && Settled(f)
    ensures var g := Interpret(limit, policy, f, data); g.alive ==> Settled(g)
    decreases |data|
  {
    hide Run, Step, Settled;
    InterpretTurn(limit, policy, f, data);
    if data != [] && !f.allow {
      CacheSettled(f, data);
    } else if data != [] {
      var used, o := Used(f), Step(Server, limit, f.rx, data[0]);
      if o.Go? {
        OnEventsInv(limit, used, o.rx, data[0], o.events, policy);
        OnEventsFields(used, o.rx, data[0], o.events, policy);
        OnEventsSettled(used, o.rx, data[0], o.events, policy);
        InterpretSettled(limit, policy, OnEvents(used, o.rx, data[0], o.events, policy), data[1..]);
      }
    }
  }

  lemma CacheSettled(f: Flow, data: Bytes)
    ensures Settled(Cache(f, data))
  {}

  lemma OnEventsSettled(f: Flow, rx: Rx, b: byte, events: seq<Event>, policy: Policy)
    requires Bits(f) && Settled(f)
    ensures Settled(Used(f)) && Settled(OnEvents(f, rx, b, events, policy))
  {
    var g := f.(rx := rx, parsed := f.parsed + [b], events := f.events + events);
    if events != [] {
      CallbackSettles(g, policy(|g.events|));
    }
  }

  // A drain that empties the buffer re-arms POLLIN, as the callbacks made on the way asked.
  lemma DrainRearms(limit: nat, policy: Policy, f: Flow)
    requires Inv(limit, f) && Possible(f, Drain)
    ensures var g := Act(limit, policy, f, Drain);
            g.alive && !g.buffered ==> !g.pending && g.pollin == g.allow
  {
    hide Run, Step, Interpret;
    InterpretConserves(limit, policy, f, f.rest);
    InterpretInv(limit, policy, f, f.rest);
  }

  // What every step does to the poll mask. Only an enable from outside the callbacks can
  // leave a connection that may receive without POLLIN.
  lemma ActSettled(limit: nat, policy: Policy, f: Flow, a: Action)
    requires f.alive && Inv(limit, f) && Possible(f, a)
    ensures var g := Act(limit, policy, f, a);
            g.alive ==>
              match a
              case Receive(_) => Settled(f) ==> Settled(g)
              case Drain => Settled(g)
              case Enable => Settled(g) <==> Settled(f) && (f.buffered || f.allow)
              case Other(_) => Settled(g)
  {
    hide Run, Step, Interpret;
    match a
    case Receive(data) =>
      if Settled(f) {
        InterpretSettled(limit, policy, f, data);
      }
    case Drain => DrainRearms(limit, policy, f);
    case Enable =>
    case Other(calls) => CallbackSettles(f, calls);
  }

  // No enable from outside came while the connection was paused with nothing held back.
  ghost predicate NoneStranded(limit: nat, policy: Policy, f: Flow, actions: seq<Action>)
    decreases |actions|
  {
    actions == [] || !RxOk(f.rx) ||
    (&& (actions[0].Enable? ==> f.buffered || f.allow)
     && NoneStranded(limit, policy, Act(limit, policy, f, actions[0]), actions[1..]))
  }

  // Over every such run: with nothing held back, POLLIN is on exactly if receiving is allowed.
  lemma {:induction false} RunSettled(limit: nat, policy: Policy, f: Flow, actions: seq<Action>, g: Flow)
    requires Inv(limit, f) && Settled(f) && Reaches(limit, policy, f, actions, g) && g.alive
    requires NoneStranded(limit, policy, f, actions)
    ensures Settled(g)
    decreases |actions|
  {
    hide Act, History, Bits, Settled;
    if actions != [] {
      var h := Act(limit, policy, f, actions[0]);
      ActConserves(limit, policy, f, actions[0]);
      ActSettled(limit, policy, f, actions[0]);
      Alive(limit, policy, h, actions[1..], g);
      RunSettled(limit, policy, h, actions[1..], g);
    }
  }

  lemma Alive(limit: nat, policy: Policy, f: Flow, actions: seq<Action>, g: Flow)
    requires Reaches(limit, policy, f, actions, g) && g.alive
    ensures f.alive
  {
    hide Act;
  }

  // The enable that strands: a connection paused by its own callback and enabled from outside
  // may receive, but is not polled for reading until some callback of its own.
  lemma EnableStrands(limit: nat, policy: Policy)
    ensures var paused := Callback(StartFlow, [false]);
            var enabled := Act(limit, policy, paused, Enable);
            && enabled.allow && !enabled.buffered && !enabled.pollin && enabled.pending
            && Act(limit, policy, enabled, Other([])).pollin
  {
    var once := Request(StartFlow, false);
    assert Requests(StartFlow, [false]) == Requests(once, []) == once;
  }

  // A pause asked for in the receive callback: the rest of the packet is held back, and the
  // connection no longer polled for reading.
  lemma CallbackPauses(limit: nat, policy: Policy, f: Flow, data: Bytes)
    requires f.alive && RxOk(f.rx) && f.allow && !f.buffered && !f.pending && f.rest == [] && data != []
    requires var o := Step(Server, limit, f.rx, data[0]);
             o.Go? && o.events != [] && policy(|f.events + o.events|) == [false]
    ensures var g := Interpret(limit, policy, f, data);
            && g.alive && !g.allow && !g.pollin && g.parsed == f.parsed + [data[0]]
            && g.rest == data[1..] && (g.buffered <==> data[1..] != [])
  {
    hide Step, Interpret;
    InterpretTurn(limit, policy, f, data);
    var o := Step(Server, limit, f.rx, data[0]);
    var g := OnEvents(Used(f), o.rx, data[0], o.events, policy);
    var asked := f.(rx := o.rx, parsed := f.parsed + [data[0]], events := f.events + o.events);
    var once := Request(asked, false);
    assert Requests(asked, [false]) == Requests(once, []) == once;
    InterpretTurn(limit, policy, g, data[1..]);
  }

  // A read right after the connection's own writeable callback has disabled receiving, in one
  // call of service_fd: POLLIN is off, the bytes are held back, and none is lost.
  lemma PausedThenRead(limit: nat, policy: Policy, data: Bytes)
    requires data != []
    ensures var paused := Callback(StartFlow, [false]);
            && !paused.pollin && Possible(paused, Receive(data))
            && Act(limit, policy, paused, Receive(data)) == paused.(buffered := true, rest := data)
  {
    var once := Request(StartFlow, false);
    assert Requests(StartFlow, [false]) == Requests(once, []) == once;
  }

  // ---------------------------------------------------------------------------
  // Requests from outside the connection's callbacks
  // ---------------------------------------------------------------------------

  // A step of the connection, or a disable from elsewhere in the program.
  datatype AnyAction = Own(action: Action) | Disable

  predicate AnyPossible(f: Flow, a: AnyAction) {
    if a.Disable? then f.alive else Possible(f, a.action)
  }

  function AnyAct(limit: nat, policy: Policy, f: Flow, a: AnyAction): Flow
    requires RxOk(f.rx)
  {
    if a.Disable? then Request(f, false) else Act(limit, policy, f, a.action)
  }

  function AnyIncoming(a: AnyAction): Bytes {
    if a.Disable? then [] else Incoming(a.action)
  }

  ghost predicate AnyReaches(limit: nat, policy: Policy, f: Flow, actions: seq<AnyAction>, g: Flow)
    decreases |actions|
  {
    if actions == [] then f == g
    else
      && RxOk(f.rx) && AnyPossible(f, actions[0])
      && AnyReaches(limit, policy, AnyAct(limit, policy, f, actions[0]), actions[1..], g)
  }

  function AnyReceived(actions: seq<AnyAction>): Bytes {
    if actions == [] then [] else AnyIncoming(actions[0]) + AnyReceived(actions[1..])
  }

  // A read while a buffer waits.
  predicate Overruns(f: Flow, a: AnyAction) { a.Own? && a.action.Receive? && f.buffered }

  predicate NeverOverruns(limit: nat, policy: Policy, f: Flow, actions: seq<AnyAction>)
    decreases |actions|
  {
    actions == [] || !RxOk(f.rx) ||
    (!Overruns(f, actions[0]) && NeverOverruns(limit, policy, AnyAct(limit, policy, f, actions[0]), actions[1..]))
  }

  // A buffer that is not there holds nothing.
  predicate Shaped(f: Flow) { RxOk(f.rx) && (!f.buffered ==> f.rest == []) }

  // What one step does to the stream, exactly: an overrun loses all it read.
  lemma AnyActExact(limit: nat, policy: Policy, f: Flow, a: AnyAction)
    requires Shaped(f) && AnyPossible(f, a)
    ensures var g := AnyAct(limit, policy, f, a);
            g.alive ==>
              && g.parsed + g.rest == f.parsed + f.rest + (if Overruns(f, a) then [] else AnyIncoming(a))
              && Shaped(g)
  {
    hide Step, Run, Interpret;
    assert f.parsed + f.rest + [] == f.parsed + f.rest;
    if a.Own? {
      match a.action
      case Receive(data) =>
        InterpretTurn(limit, policy, f, data);
        if !f.buffered {
          InterpretConserves(limit, policy, f, data);
          assert f.parsed + [] == f.parsed;
        }
      case Drain => InterpretConserves(limit, policy, f, f.rest);
      case Enable =>
      case Other(calls) => RequestsFields(f, calls);
    }
  }

  lemma StillAlive(limit: nat, policy: Policy, f: Flow, actions: seq<AnyAction>, g: Flow)
    requires AnyReaches(limit, policy, f, actions, g) && g.alive
    ensures f.alive
  {
    hide AnyAct;
  }

  lemma OverrunLoses(f: Flow, a: AnyAction)
    requires AnyPossible(f, a) && Overruns(f, a)
    ensures AnyIncoming(a) != []
  {}

  // Over every run, outside disables included: nothing is lost if and only if no read happens
  // while a buffer waits.
  lemma {:induction false} AnyRunExact(limit: nat, policy: Policy, f: Flow, actions: seq<AnyAction>, g: Flow)
    requires Shaped(f) && AnyReaches(limit, policy, f, actions, g) && g.alive
    ensures |g.parsed + g.rest| <= |f.parsed + f.rest| + |AnyReceived(actions)|
    ensures g.parsed + g.rest == f.parsed + f.rest + AnyReceived(actions) <==> NeverOverruns(limit, policy, f, actions)
    decreases |actions|
  {
    hide AnyAct, Shaped, AnyIncoming, Overruns, RxOk;
    if actions == [] {
      assert f.parsed + f.rest + [] == f.parsed + f.rest;
    } else {
      var a, rest := actions[0], actions[1..];
      var h := AnyAct(limit, policy, f, a);
      assert RxOk(f.rx);
      StillAlive(limit, policy, h, rest, g);
      AnyActExact(limit, policy, f, a);
      AnyRunExact(limit, policy, h, rest, g);
      if Overruns(f, a) { OverrunLoses(f, a); }
      assert f.parsed + f.rest + AnyIncoming(a) + AnyReceived(rest) == f.parsed + f.rest + AnyReceived(actions);
    }
  }

  // The law at its edge: a read keeps its bytes exactly when no buffer is waiting. The
  // invariant above is what guarantees that for every read poll() allows.
  lemma ReadKeepsIff(limit: nat, policy: Policy, f: Flow, data: Bytes)
    requires f.alive && RxOk(f.rx) && (!f.buffered ==> f.rest == []) && !(f.buffered && f.allow) && data != []
    requires Interpret(limit, policy, f, data).alive
    ensures var g := Interpret(limit, policy, f, data);
            g.parsed + g.rest == f.parsed + f.rest + data <==> !f.buffered
  {
    hide Step;
    if !f.buffered {
      InterpretConserves(limit, policy, f, data);
      assert f.parsed + [] == f.parsed;
    }
  }

  // A disable from outside the connection's own callbacks leaves POLLIN on: the next read
  // is held back with POLLIN still on, and the one after it is dropped.
  lemma OutsideDisableLoses(limit: nat, policy: Policy)
    ensures var disabled := Request(StartFlow, false);
            var once := Interpret(limit, policy, disabled, [1]);
            var twice := Interpret(limit, policy, once, [2]);
            && Possible(disabled, Receive([1])) && Possible(once, Receive([2]))
            && once.buffered && once.pollin && twice.parsed + twice.rest == [1]
  {}
}
