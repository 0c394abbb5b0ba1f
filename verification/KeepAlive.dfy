/** The keep-alive pair of java/keepalive: a client that sends a message when it has been quiet
    for two seconds, and a server that closes a connection that has been quiet for three. Time
    is in milliseconds; every reading of a clock, every transfer and every wake-up is a step
    with a time of its own. */
module KeepAlive {

  const SEND_AFTER := 2000   // keepAliveDelay
  const CLOSE_AFTER := 3000  // receiveTimeDelay

  // The watchdog thread: between two messages, or inside sendObject().
  datatype Client = Waiting(last: int) | Sending(start: int, departed: bool)

  // wire: departure times of messages under way; ready: arrival times of messages not yet read.
  datatype State = State(now: int, client: Client, wire: seq<int>, ready: seq<int>,
                         lastReceive: int, lastPoll: int, open: bool)

  datatype Event = Check | Depart | SendDone | Arrive | Poll

  datatype Timed = At(t: int, e: Event)

  predicate Enabled(s: State, x: Timed) {
    && s.now <= x.t
    && match x.e
       case Check => s.client.Waiting?
       case Depart => s.client.Sending? && !s.client.departed
       case SendDone => s.client.Sending? && s.client.departed
       case Arrive => s.wire != []
       case Poll => s.open
  }

  // One turn of a loop, or one transfer.
  function Step(s: State, x: Timed): State
    requires Enabled(s, x)
  {
    var u := s.(now := x.t);
    match x.e
    case Check => if x.t - s.client.last > SEND_AFTER then u.(client := Sending(x.t, false)) else u
    case Depart => u.(client := s.client.(departed := true), wire := s.wire + [x.t])
    case SendDone => u.(client := Waiting(x.t))
    case Arrive => u.(wire := s.wire[1..], ready := s.ready + [x.t])
    case Poll =>
      var v := u.(lastPoll := x.t);
      if x.t - s.lastReceive > CLOSE_AFTER then v.(open := false)
      else if s.ready != [] then v.(lastReceive := x.t, ready := s.ready[1..])
      else v
  }

  // The client starts its clock at c and the server its own at s.
  function Start(c: int, s: int): State {
    State(if c < s then s else c, Waiting(c), [], [], s, s, true)
  }

  // ---------------------------------------------------------------------------
  // Runs with bounded delays
  // ---------------------------------------------------------------------------

  // Bounds on: the difference of the starts; the watchdog's lateness; the time in
  // sendObject(); the time on the wire; the time until the server has read what is there.
  datatype Delays = Delays(skew: nat, wake: nat, send: nat, transit: nat, poll: nat)

  // Nothing that is due by the bounds may be overtaken by time t.
  predicate InTime(d: Delays, s: State, t: int) {
    && (s.client.Waiting? ==> t <= s.client.last + SEND_AFTER + d.wake)
    && (s.client.Sending? ==> t <= s.client.start + d.send)
    && (s.wire != [] ==> t <= s.wire[0] + d.transit)
    && (s.ready != [] && s.open ==> t <= s.ready[0] + d.poll)
  }

  predicate Legal(d: Delays, s: State, run: seq<Timed>)
    decreases |run|
  {
    run == [] || (Enabled(s, run[0]) && InTime(d, s, run[0].t) && Legal(d, Step(s, run[0]), run[1..]))
  }

  function After(d: Delays, s: State, run: seq<Timed>): State
    requires Legal(d, s, run)
    decreases |run|
  {
    if run == [] then s else After(d, Step(s, run[0]), run[1..])
  }

  predicate StartsWithin(d: Delays, c: int, s: int) { c - s <= d.skew && s - c <= d.skew }

  // The send time counts once for a message sent as late as can be, and once more when the
  // message before it arrived at the very beginning of its own sending.
  predicate Safe(d: Delays) {
    d.wake + d.send + d.transit + d.poll + (if d.skew < d.send then d.send else d.skew) <= CLOSE_AFTER - SEND_AFTER
  }

  // The latest time at which the server reads the next message.
  function Due(d: Delays, s: State): int {
    if s.ready != [] then s.ready[0] + d.poll
    else if s.wire != [] then s.wire[0] + d.transit + d.poll
    else match s.client
      case Waiting(last) => last + SEND_AFTER + d.wake + d.send + d.transit + d.poll
      case Sending(start, departed) =>
        if departed then start + d.send + SEND_AFTER + d.wake + d.send + d.transit + d.poll
        else start + d.send + d.transit + d.poll
  }

  predicate Past(s: State) {
    && (s.client.Waiting? ==> s.client.last <= s.now)
    && (s.client.Sending? ==> s.client.start <= s.now)
    && (forall i :: 0 <= i < |s.wire| ==> s.wire[i] <= s.now)
    && (forall i :: 0 <= i < |s.ready| ==> s.ready[i] <= s.now)
  }

  predicate Inv(d: Delays, s: State) {
    s.open && Past(s) && Due(d, s) <= s.lastReceive + CLOSE_AFTER
  }

  lemma StepKeeps(d: Delays, s: State, x: Timed)
    requires Safe(d) && Inv(d, s) && Enabled(s, x) && InTime(d, s, x.t)
    ensures Inv(d, Step(s, x))
  {
    hide Inv, Safe, InTime, Step, Due;
    if x.e.Poll? {
      PollKeeps(d, s, x.t);
    } else {
      TransferKeeps(d, s, x);
    }
  }

  lemma PollKeeps(d: Delays, s: State, t: int)
    requires Safe(d) && Inv(d, s) && Enabled(s, At(t, Poll)) && InTime(d, s, t)
    ensures Inv(d, Step(s, At(t, Poll)))
  {}

  // Every other step brings the next message no later.
  lemma TransferKeeps(d: Delays, s: State, x: Timed)
    requires Inv(d, s) && Enabled(s, x) && InTime(d, s, x.t) && !x.e.Poll?
    ensures Inv(d, Step(s, x)) && Due(d, Step(s, x)) <= Due(d, s)
  {}

  lemma {:induction false} RunKeeps(d: Delays, s: State, run: seq<Timed>)
    requires Safe(d) && Inv(d, s) && Legal(d, s, run)
    ensures Inv(d, After(d, s, run))
    decreases |run|
  {
    hide Safe, Inv, Enabled, Step, InTime;
    if run != [] {
      StepKeeps(d, s, run[0]);
      RunKeeps(d, Step(s, run[0]), run[1..]);
    }
  }

  // With such delays the server never closes the connection.
  lemma NeverCloses(d: Delays, c: int, s: int, run: seq<Timed>)
    requires Safe(d) && StartsWithin(d, c, s) && Legal(d, Start(c, s), run)
    ensures After(d, Start(c, s), run).open
  {
    hide Legal, After;
    assert Inv(d, Start(c, s));
    RunKeeps(d, Start(c, s), run);
  }

  // ---------------------------------------------------------------------------
  // The condition is exact
  // ---------------------------------------------------------------------------

  function Min(a: nat, b: nat): nat { if a < b then a else b }

  // Actual delays below the given bounds that add up to n.
  lemma Shares(n: nat, a: nat, b: nat, c: nat, d: nat, e: nat) returns (v: nat, w: nat, x: nat, y: nat, z: nat)
    requires n > 0 && a > 0 && a + b + c + d + e >= n
    ensures 0 < v <= a && w <= b && x <= c && y <= d && z <= e && v + w + x + y + z == n
  {
    v := Min(a, n);
    w := Min(b, n - v);
    x := Min(c, n - v - w);
    y := Min(d, n - v - w - x);
    z := n - v - w - x - y;
  }

  // Up to the end of a message's journey, from the client's last sending on.
  function Journey(last: int, wake: nat, send: nat, transit: nat, poll: nat): seq<Timed> {
    var c := last + SEND_AFTER + wake;
    [At(c, Check), At(c + send, Depart), At(c + send, SendDone), At(c + send + transit, Arrive),
     At(c + send + transit + poll, Poll)]
  }

  ghost predicate Quiet(s: State, last: int) {
    s.client == Waiting(last) && s.wire == [] && s.ready == [] && s.open && s.now <= last + SEND_AFTER
  }

  lemma RunStep(d: Delays, s: State, x: Timed, rest: seq<Timed>)
    requires Enabled(s, x) && InTime(d, s, x.t) && Legal(d, Step(s, x), rest)
    ensures Legal(d, s, [x] + rest) && After(d, s, [x] + rest) == After(d, Step(s, x), rest)
  {
    hide Step, Enabled, InTime;
    assert ([x] + rest)[1..] == rest;
  }

  // A journey that takes the server past its limit.
  lemma JourneyCloses(d: Delays, s: State, last: int, wake: nat, send: nat, transit: nat, poll: nat)
    requires Quiet(s, last) && 0 < wake <= d.wake && send <= d.send && transit <= d.transit && poll <= d.poll
    requires transit + poll <= 1000
    requires last + SEND_AFTER + wake + send + transit + poll - s.lastReceive > CLOSE_AFTER
    ensures Legal(d, s, Journey(last, wake, send, transit, poll))
    ensures !After(d, s, Journey(last, wake, send, transit, poll)).open
  {
    var run := Journey(last, wake, send, transit, poll);
    var s1 := Step(s, run[0]);
    var s2 := Step(s1, run[1]);
    var s3 := Step(s2, run[2]);
    var s4 := Step(s3, run[3]);
    var s5 := Step(s4, run[4]);
    RunStep(d, s4, run[4], []);
    RunStep(d, s3, run[3], [run[4]]);
    RunStep(d, s2, run[2], [run[3], run[4]]);
    RunStep(d, s1, run[1], [run[2], run[3], run[4]]);
    RunStep(d, s, run[0], [run[1], run[2], run[3], run[4]]);
  }

  // A first message that is received while sendObject() has not yet returned.
  function EarlyMessage(send: nat): seq<Timed> {
    var c := SEND_AFTER + 1;
    [At(c, Check), At(c, Depart), At(c, Arrive), At(c, Poll), At(c + send, SendDone)]
  }

  lemma EarlyMessageRuns(d: Delays, send: nat, rest: seq<Timed>) returns (s: State)
    requires d.wake > 0 && send <= d.send
    ensures s.lastReceive == SEND_AFTER + 1 && s.now == s.lastReceive + send && Quiet(s, s.now)
    ensures Legal(d, s, rest) ==>
              && Legal(d, Start(0, 0), EarlyMessage(send) + rest)
              && After(d, Start(0, 0), EarlyMessage(send) + rest) == After(d, s, rest)
  {
    var run := EarlyMessage(send);
    var s1 := Step(Start(0, 0), run[0]);
    var s2 := Step(s1, run[1]);
    var s3 := Step(s2, run[2]);
    var s4 := Step(s3, run[3]);
    s := Step(s4, run[4]);
    if Legal(d, s, rest) {
      RunStep(d, s4, run[4], rest);
      RunStep(d, s3, run[3], [run[4]] + rest);
      RunStep(d, s2, run[2], [run[3]] + ([run[4]] + rest));
      RunStep(d, s1, run[1], [run[2]] + ([run[3]] + ([run[4]] + rest)));
      RunStep(d, Start(0, 0), run[0], [run[1]] + ([run[2]] + ([run[3]] + ([run[4]] + rest))));
      assert run + rest == [run[0]] + ([run[1]] + ([run[2]] + ([run[3]] + ([run[4]] + rest))));
    }
  }

  // Delays beyond the condition have a run in which the server closes the connection on a
  // client that does everything in time.
  lemma MayClose(d: Delays) returns (c: int, s: int, run: seq<Timed>)
    requires d.wake > 0 && !Safe(d)
    ensures StartsWithin(d, c, s) && Legal(d, Start(c, s), run) && !After(d, Start(c, s), run).open
  {
    var excess := CLOSE_AFTER - SEND_AFTER + 1;
    if d.skew < d.send {
      var wake, send, transit, poll, first := Shares(excess, d.wake, d.send, d.transit, d.poll, d.send);
      c, s := 0, 0;
      var last := SEND_AFTER + 1 + first;
      var rest := Journey(last, wake, send, transit, poll);
      hide Legal, After, Journey;
      var q := EarlyMessageRuns(d, first, rest);
      JourneyCloses(d, q, last, wake, send, transit, poll);
      run := EarlyMessage(first) + rest;
    } else {
      var wake, send, transit, poll, skew := Shares(excess, d.wake, d.send, d.transit, d.poll, d.skew);
      c, s := skew, 0;
      run := Journey(c, wake, send, transit, poll);
      hide Legal, After, Journey;
      JourneyCloses(d, Start(c, s), c, wake, send, transit, poll);
    }
  }

  // Five bounds that add up to less than a second are not enough: with 600 ms inside
  // sendObject() the server can close.
  lemma SumIsNotEnough() returns (d: Delays, c: int, s: int, run: seq<Timed>)
    ensures d.skew + d.wake + d.send + d.transit + d.poll <= CLOSE_AFTER - SEND_AFTER
    ensures StartsWithin(d, c, s) && Legal(d, Start(c, s), run) && !After(d, Start(c, s), run).open
  {
    d := Delays(0, 1, 600, 0, 0);
    c, s, run := MayClose(d);
  }

  // ---------------------------------------------------------------------------
  // How often the client sends
  // ---------------------------------------------------------------------------

  // Any run of the loops and the network, whatever its delays.
  predicate Runs(s: State, run: seq<Timed>)
    decreases |run|
  {
    run == [] || (Enabled(s, run[0]) && Runs(Step(s, run[0]), run[1..]))
  }

  // The next message leaves after this time.
  function NotBefore(s: State): int {
    match s.client
    case Waiting(last) => last + SEND_AFTER
    case Sending(_, departed) => if departed then s.now + SEND_AFTER else s.now - 1
  }

  lemma {:induction false} LeavesLater(s: State, run: seq<Timed>, j: nat)
    requires Runs(s, run) && j < |run| && run[j].e.Depart?
    ensures run[j].t > NotBefore(s)
    decreases |run|
  {
    if j > 0 {
      LeavesLater(Step(s, run[0]), run[1..], j - 1);
    }
  }

  // Two messages leave the client more than two seconds apart.
  lemma {:induction false} SendsApart(s: State, run: seq<Timed>, i: nat, j: nat)
    requires Runs(s, run) && i < j < |run| && run[i].e.Depart? && run[j].e.Depart?
    ensures run[j].t - run[i].t > SEND_AFTER
    decreases |run|
  {
    var u := Step(s, run[0]);
    if i == 0 {
      LeavesLater(u, run[1..], j - 1);
    } else {
      SendsApart(u, run[1..], i - 1, j - 1);
    }
  }

  // ---------------------------------------------------------------------------
  // Closing a silent connection
  // ---------------------------------------------------------------------------

  // Any behaviour of the client and the network; the server's loop turns at least once in
  // gap milliseconds while the connection is open.
  predicate Polled(gap: nat, s: State, run: seq<Timed>)
    decreases |run|
  {
    run == [] ||
    (&& Enabled(s, run[0]) && (s.open ==> run[0].t <= s.lastPoll + gap)
     && Polled(gap, Step(s, run[0]), run[1..]))
  }

  function Reached(gap: nat, s: State, run: seq<Timed>): State
    requires Polled(gap, s, run)
    decreases |run|
  {
    if run == [] then s else Reached(gap, Step(s, run[0]), run[1..])
  }

  predicate Watched(gap: nat, s: State) {
    if s.open then s.lastPoll <= s.lastReceive + CLOSE_AFTER && s.now <= s.lastPoll + gap
    else s.lastPoll > s.lastReceive + CLOSE_AFTER
  }

  lemma {:induction false} WatchedAlways(gap: nat, s: State, run: seq<Timed>)
    requires Watched(gap, s) && Polled(gap, s, run)
    ensures Watched(gap, Reached(gap, s, run))
    decreases |run|
  {
    if run != [] {
      WatchedAlways(gap, Step(s, run[0]), run[1..]);
    }
  }

  // At any time, an open connection has received something within the last three seconds and
  // one turn of the loop; a closed one was silent for more than three seconds.
  lemma ClosesSilent(gap: nat, c: int, s: int, run: seq<Timed>)
    requires c - s <= gap && Polled(gap, Start(c, s), run)
    ensures var q := Reached(gap, Start(c, s), run);
            if q.open then q.now <= q.lastReceive + CLOSE_AFTER + gap
            else q.lastPoll > q.lastReceive + CLOSE_AFTER
  {
    WatchedAlways(gap, Start(c, s), run);
  }
}
