/** The table of polled sockets (lib/pollfd.c) on a Unix host: a dense array of poll
    descriptors, a lookup array from socket number to connection, and in every connection its
    own position in the dense array. */
module PollTable {

  const POLLIN: bv16 := 1
  const POLLOUT: bv16 := 4

  class Wsi {
    const sock: int
    const protocol: int
    var position: int  // position_in_fds_table; -1 when not in the table

    constructor (sock: int, protocol: int)
      ensures this.sock == sock && this.protocol == protocol && position == -1
    {
      this.sock, this.protocol, position := sock, protocol, -1;
    }
  }

  datatype PollFd = PollFd(fd: int, events: bv16, revents: bv16)

  function Changed(e: bv16, and: bv16, or: bv16): bv16 { (e & !and) | or }

  // The bits of `or` are set, the others of `and` cleared, and the rest left alone.
  lemma BitsSet(e: bv16, and: bv16, or: bv16)
    ensures Changed(e, and, or) & or == or
  {}

  lemma BitsCleared(e: bv16, and: bv16, or: bv16)
    ensures Changed(e, and, or) & (and & !or) == 0
  {}

  lemma BitsKept(e: bv16, and: bv16, or: bv16)
    ensures Changed(e, and, or) & !(and | or) == e & !(and | or)
  {}

  lemma PollBits()
    ensures POLLIN & POLLOUT == 0 && POLLIN != 0 && POLLOUT != 0
  {}

  // ---------------------------------------------------------------------------
  // The two directions of the table
  // ---------------------------------------------------------------------------

  // The slots in use, and for every polled socket its slot.
  datatype Shape = Shape(slots: seq<PollFd>, at: map<int, int>)

  ghost predicate SlotOk(t: Shape, i: nat) {
    i < |t.slots| && t.slots[i].fd in t.at && t.at[t.slots[i].fd] == i
  }

  ghost predicate SockOk(t: Shape, s: int) {
    s in t.at && 1 <= t.at[s] < |t.slots| && t.slots[t.at[s]].fd == s
  }

  // Slot 0 is the pipe's; the others and the positions are inverse to each other.
  ghost predicate Consistent(t: Shape, pipe: int) {
    && t.slots != [] && t.slots[0].fd == pipe && t.slots[0].events == POLLIN && pipe !in t.at
    && (forall i | 1 <= i < |t.slots| :: SlotOk(t, i))
    && (forall s :: s in t.at ==> SockOk(t, s))
  }

  ghost function Events(t: Shape, s: int): bv16
    requires SockOk(t, s)
  {
    t.slots[t.at[s]].events
  }

  // The polled sockets with their event masks.
  ghost function Contents(t: Shape, pipe: int): map<int, bv16>
    requires Consistent(t, pipe)
  {
    map s | s in t.at :: Events(t, s)
  }

  lemma ContentsAt(t: Shape, pipe: int, s: int)
    requires Consistent(t, pipe)
    ensures s in Contents(t, pipe) <==> s in t.at
    ensures s in t.at ==> SockOk(t, s) && Contents(t, pipe)[s] == Events(t, s)
  {}

  function Added(t: Shape, s: int): Shape {
    Shape(t.slots + [PollFd(s, POLLIN, 0)], t.at[s := |t.slots|])
  }

  lemma AddedConsistent(t: Shape, pipe: int, s: int)
    requires Consistent(t, pipe) && s !in t.at && s != pipe
    ensures Consistent(Added(t, s), pipe)
  {
    var u := Added(t, s);
    forall i | 1 <= i < |u.slots| ensures SlotOk(u, i) {
      assert i < |t.slots| ==> SlotOk(t, i);
    }
    forall k | k in u.at ensures SockOk(u, k) {
      assert k in t.at ==> SockOk(t, k);
    }
  }

  lemma AddedContents(t: Shape, pipe: int, s: int)
    requires Consistent(t, pipe) && s !in t.at && s != pipe
    ensures Consistent(Added(t, s), pipe) && Contents(Added(t, s), pipe) == Contents(t, pipe)[s := POLLIN]
  {
    AddedConsistent(t, pipe, s);
    hide Consistent, Contents;
    var u := Added(t, s);
    var c, d := Contents(t, pipe)[s := POLLIN], Contents(u, pipe);
    forall k ensures (k in c <==> k in d) && (k in c ==> c[k] == d[k]) {
      ContentsAt(t, pipe, k);
      ContentsAt(u, pipe, k);
    }
  }

  // The last slot moves into the vacant one.
  function Deleted(t: Shape, s: int): Shape
    requires t.slots != [] && s in t.at && 0 <= t.at[s] < |t.slots|
  {
    var last := t.slots[|t.slots| - 1];
    Shape(t.slots[t.at[s] := last][..|t.slots| - 1], t.at[last.fd := t.at[s]] - {s})
  }

  lemma DeletedConsistent(t: Shape, pipe: int, s: int)
    requires Consistent(t, pipe) && s in t.at
    ensures SockOk(t, s) && Consistent(Deleted(t, s), pipe)
  {
    assert SockOk(t, s) && SlotOk(t, |t.slots| - 1);
    var u := Deleted(t, s);
    forall i | 1 <= i < |u.slots| ensures SlotOk(u, i) {
      assert SlotOk(t, i);
    }
    forall k | k in u.at ensures SockOk(u, k) {
      assert SockOk(t, k);
    }
  }

  lemma DeletedContents(t: Shape, pipe: int, s: int)
    requires Consistent(t, pipe) && s in t.at
    ensures SockOk(t, s) && Consistent(Deleted(t, s), pipe)
    ensures Contents(Deleted(t, s), pipe) == Contents(t, pipe) - {s}
  {
    DeletedConsistent(t, pipe, s);
    LastSlot(t, pipe, s);
    hide Consistent, Contents;
    var u := Deleted(t, s);
    var c, d := Contents(t, pipe) - {s}, Contents(u, pipe);
    forall k ensures (k in c <==> k in d) && (k in c ==> c[k] == d[k]) {
      ContentsAt(t, pipe, k);
      ContentsAt(u, pipe, k);
    }
  }

  lemma LastSlot(t: Shape, pipe: int, s: int)
    requires Consistent(t, pipe) && s in t.at
    ensures SockOk(t, s) && |t.slots| > 1 && SlotOk(t, |t.slots| - 1)
  {
    assert SockOk(t, s);
  }

  function Masked(t: Shape, s: int, and: bv16, or: bv16): Shape
    requires s in t.at && 0 <= t.at[s] < |t.slots|
  {
    var p := t.slots[t.at[s]];
    t.(slots := t.slots[t.at[s] := p.(events := Changed(p.events, and, or))])
  }

  lemma MaskedConsistent(t: Shape, pipe: int, s: int, and: bv16, or: bv16)
    requires Consistent(t, pipe) && s in t.at
    ensures SockOk(t, s) && Consistent(Masked(t, s, and, or), pipe)
  {
    hide Changed;
    assert SockOk(t, s);
    var u := Masked(t, s, and, or);
    forall i | 1 <= i < |u.slots| ensures SlotOk(u, i) {
      assert SlotOk(t, i);
    }
    forall k | k in u.at ensures SockOk(u, k) {
      assert SockOk(t, k);
    }
  }

  lemma MaskedContents(t: Shape, pipe: int, s: int, and: bv16, or: bv16)
    requires Consistent(t, pipe) && s in t.at
    ensures SockOk(t, s) && Consistent(Masked(t, s, and, or), pipe) && s in Contents(t, pipe)
    ensures var c := Contents(t, pipe); Contents(Masked(t, s, and, or), pipe) == c[s := Changed(c[s], and, or)]
  {
    MaskedConsistent(t, pipe, s, and, or);
    hide Consistent, Contents, Changed;
    ContentsAt(t, pipe, s);
    var u := Masked(t, s, and, or);
    var c, d := Contents(t, pipe), Contents(u, pipe);
    c := c[s := Changed(c[s], and, or)];
    forall k ensures (k in c <==> k in d) && (k in c ==> c[k] == d[k]) {
      ContentsAt(t, pipe, k);
      ContentsAt(u, pipe, k);
    }
  }

  // There is one slot for every polled socket, besides the pipe's.
  lemma SlotCount(t: Shape, pipe: int)
    requires Consistent(t, pipe)
    ensures |Contents(t, pipe)| == |t.slots| - 1
  {
    var socks := Prefix(t, pipe, |t.slots|);
    var c := Contents(t, pipe);
    forall s ensures s in c <==> s in socks {
      ContentsAt(t, pipe, s);
    }
    assert c.Keys == socks;
  }

  // The sockets of the slots from 1 to n.
  lemma {:induction false} Prefix(t: Shape, pipe: int, n: nat) returns (socks: set<int>)
    requires Consistent(t, pipe) && 1 <= n <= |t.slots|
    ensures |socks| == n - 1 && forall s :: s in socks <==> s in t.at && t.at[s] < n
  {
    if n == 1 {
      socks := {};
    } else {
      var rest := Prefix(t, pipe, n - 1);
      assert SlotOk(t, n - 1);
      socks := rest + {t.slots[n - 1].fd};
      forall s ensures s in socks <==> s in t.at && t.at[s] < n {
        assert s in t.at ==> SockOk(t, s);
      }
    }
  }

  // ---------------------------------------------------------------------------
  // The table in the context
  // ---------------------------------------------------------------------------

  class Table {
    const max: nat
    const pipe: nat
    const fds: array<PollFd>
    const lookup: array<Wsi?>
    var count: nat
    ghost var shape: Shape
    ghost var members: set<Wsi>

    // lws_lookup and the positions kept in the connections agree with the shape.
    ghost predicate Linked(at: map<int, int>)
      reads this`members, lookup, members
    {
      && lookup.Length == max
      && (forall s | s in at :: 0 <= s < max)
      && (forall s | 0 <= s < max ::
            if lookup[s] == null then s !in at
            else lookup[s] in members && lookup[s].sock == s && s in at && lookup[s].position == at[s])
      && (forall w | w in members :: Has(w))
    }

    ghost predicate Valid()
      reads this, fds, lookup, members
    {
      && fds.Length == max && count <= max && pipe < max && fds[..count] == shape.slots
      && Consistent(shape, pipe) && Linked(shape.at)
    }

    // Connection w is the one polled under its socket.
    predicate Has(w: Wsi)
      reads lookup
    {
      0 <= w.sock < lookup.Length && lookup[w.sock] == w
    }

    // lws_plat_init_fd_tables
    constructor (max: nat, pipe: nat)
      requires pipe < max
      ensures Valid() && this.max == max && this.pipe == pipe && fresh(fds) && fresh(lookup)
      ensures Contents(shape, pipe) == map[]
    {
      this.max, this.pipe := max, pipe;
      var f := new PollFd[max](_ => PollFd(0, 0, 0));
      f[0] := PollFd(pipe, POLLIN, 0);
      fds := f;
      lookup := new Wsi?[max](_ => null);
      count, members := 1, {};
      shape := Shape([PollFd(pipe, POLLIN, 0)], map[]);
    }

    // insert_wsi_socket_into_fds
    method Insert(w: Wsi) returns (refused: bool)
      requires Valid() && 0 <= w.sock && w.sock != pipe && w.sock !in shape.at
      modifies this`count, this`members, this`shape, fds, lookup, w`position
      ensures Valid()
      ensures refused <==> old(count) == max || w.sock >= max
      ensures if refused then shape == old(shape) && w.position == old(w.position)
              else
                && Has(w) && members == old(members) + {w}
                && Contents(shape, pipe) == old(Contents(shape, pipe))[w.sock := POLLIN]
    {
      hide Consistent, Contents;
      if count >= max { return true; }
      if w.sock >= max { return true; }
      AddedContents(shape, pipe, w.sock);
      Link(w, shape.at);
      fds[count] := PollFd(w.sock, POLLIN, 0);
      count := count + 1;
      shape := Added(shape, w.sock);
      return false;
    }

    method Link(w: Wsi, ghost at: map<int, int>)
      requires Linked(at) && 0 <= w.sock < max && w.sock !in at
      modifies this`members, lookup, w`position
      ensures members == old(members) + {w} && Linked(at[w.sock := count]) && Has(w)
    {
      lookup[w.sock] := w;
      w.position := count;
      members := members + {w};
    }

    // remove_wsi_socket_from_fds
    method Remove(w: Wsi)
      requires Valid() && Has(w)
      modifies this`count, this`members, this`shape, fds, lookup, members
      ensures Valid() && w.position == -1 && members == old(members) - {w}
      ensures Contents(shape, pipe) == old(Contents(shape, pipe)) - {w.sock}
    {
      hide Consistent, Contents;
      ghost var was := shape;
      DeletedContents(shape, pipe, w.sock);
      LastSlot(shape, pipe, w.sock);
      count := count - 1;
      var m := w.position;
      fds[m] := fds[count];
      assert fds[count] == was.slots[count];
      Relink(w, fds[count].fd, m, shape.at);
      shape := Deleted(shape, w.sock);
    }

    // The last slot's connection gets a new position, and w has none any more.
    method Relink(w: Wsi, fd: int, m: int, ghost at: map<int, int>)
      requires Linked(at) && Has(w) && fd in at
      modifies this`members, lookup, members
      ensures members == old(members) - {w} && Linked(at[fd := m] - {w.sock}) && w.position == -1
    {
      lookup[fd].position := m;
      lookup[w.sock] := null;
      w.position := -1;
      members := members - {w};
    }

    // lws_change_pollfd
    method ChangePollFd(w: Wsi, and: bv16, or: bv16) returns (changed: bool)
      requires Valid() && Has(w)
      modifies this`shape, fds
      ensures Valid() && members == old(members) && shape.at == old(shape.at)
      ensures var c := old(Contents(shape, pipe));
              Contents(shape, pipe) == c[w.sock := Changed(c[w.sock], and, or)]
              && changed == (c[w.sock] != Changed(c[w.sock], and, or))
    {
      hide Consistent, Changed, Contents;
      MaskedContents(shape, pipe, w.sock, and, or);
      ContentsAt(shape, pipe, w.sock);
      var p := fds[w.position];
      fds[w.position] := p.(events := Changed(p.events, and, or));
      shape := Masked(shape, w.sock, and, or);
      changed := p.events != Changed(p.events, and, or);
    }

    // Whether the connection polled under socket s speaks protocol p.
    ghost predicate Speaks(s: int, p: int)
      reads lookup
    {
      0 <= s < lookup.Length && lookup[s] != null && lookup[s].protocol == p
    }

    // The slots below n have been seen to.
    ghost predicate DoneUpTo(was: map<int, bv16>, n: int, p: int)
      requires Valid()
      reads this, fds, lookup, members
    {
      var now := Contents(shape, pipe);
      && now.Keys == was.Keys == shape.at.Keys
      && forall s :: s in now ==> now[s] == WithPollOut(was[s], shape.at[s] < n && Speaks(s, p))
    }

    method WritableSlot(n: nat, p: int, ghost was: map<int, bv16>)
      requires Valid() && n < count && DoneUpTo(was, n, p)
      modifies this`shape, fds
      ensures Valid() && shape.at == old(shape.at) && DoneUpTo(was, n + 1, p)
    {
      hide Consistent, Contents, Changed, WithPollOut;
      ghost var now := Contents(shape, pipe);
      SlotSocket(shape, pipe, n);
      var w := lookup[fds[n].fd];
      if w != null && w.protocol == p {
        var _ := ChangePollFd(w, 0, POLLOUT);
        PollOutNow(was[w.sock]);
        assert Contents(shape, pipe) == now[w.sock := WithPollOut(was[w.sock], true)];
      }
    }

    // libwebsocket_callback_on_writable_all_protocol: exactly the connections of the protocol
    // are polled for writing from now on.
    method WritableAll(p: int)
      requires Valid()
      modifies this`shape, fds
      ensures Valid() && members == old(members) && shape.at == old(shape.at)
      ensures Contents(shape, pipe) ==
              map s | s in old(Contents(shape, pipe)) :: WithPollOut(old(Contents(shape, pipe))[s], Speaks(s, p))
    {
      hide Consistent, WithPollOut;
      ghost var was := Contents(shape, pipe);
      DoneNone(p);
      for n := 0 to count
        invariant Valid() && shape.at == old(shape.at) && DoneUpTo(was, n, p)
      {
        hide DoneUpTo;
        WritableSlot(n, p, was);
      }
      DoneAll(was, p);
    }

    lemma DoneNone(p: int)
      requires Valid()
      ensures DoneUpTo(Contents(shape, pipe), 0, p)
    {}

    lemma DoneAll(was: map<int, bv16>, p: int)
      requires Valid() && DoneUpTo(was, count, p)
      ensures Contents(shape, pipe) == map s | s in was :: WithPollOut(was[s], Speaks(s, p))
    {
      hide WithPollOut;
      var now := Contents(shape, pipe);
      forall s | s in now ensures s in was && now[s] == WithPollOut(was[s], Speaks(s, p)) {
        ContentsAt(shape, pipe, s);
        assert s in now.Keys;
      }
      forall s | s in was ensures s in now {
        assert s in was.Keys;
      }
    }
  }

  function WithPollOut(e: bv16, yes: bool): bv16 { if yes then e | POLLOUT else e }

  lemma PollOutNow(e: bv16)
    ensures Changed(WithPollOut(e, false), 0, POLLOUT) == WithPollOut(e, true)
  {}

  // The socket in slot n has position n, and no other one has.
  lemma SlotSocket(t: Shape, pipe: int, n: nat)
    requires Consistent(t, pipe) && n < |t.slots|
    ensures if n == 0 then t.slots[n].fd == pipe && pipe !in t.at else SlotOk(t, n)
    ensures forall s :: s in t.at && t.at[s] == n ==> s == t.slots[n].fd
  {
    assert n > 0 ==> SlotOk(t, n);
    forall s | s in t.at && t.at[s] == n ensures s == t.slots[n].fd {
      assert SockOk(t, s);
    }
  }
}
