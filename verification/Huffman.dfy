/** The HPACK Huffman decoder: lib/minihuf.c compiles a prefix code into a jump table, and
    huftable_decode with the HPKS_DATA loop of lib/hpack.c walks it (section 5.2 of
    RFC 7541). */
module Huffman {
  import opened Octets
  import opened HuffmanBits

  const NONE := -1  // 0xffff in the source: no state has that number

  // A state with its two successors; kid0 == 0 marks a terminal, as no successor is 0.
  datatype Node = Node(kid0: int, kid1: int, terminal: nat)

  predicate Leaf(node: Node) { node.kid0 == 0 }

  function Kid(node: Node, b: bool): int { if b then node.kid1 else node.kid0 }

  function WithKid(node: Node, b: bool, to: int): Node {
    if b then node.(kid1 := to) else node.(kid0 := to)
  }

  // ---------------------------------------------------------------------------
  // Codes
  // ---------------------------------------------------------------------------

  predicate PrefixOf(s: Code, w: Code) { |s| <= |w| && w[..|s|] == s }

  ghost predicate Started(codes: seq<Code>, s: Code) {
    exists k :: 0 <= k < |codes| && PrefixOf(s, codes[k])
  }

  // A complete prefix code: no code continues another, and whatever continues into some
  // code by one bit also does so by the other.
  ghost predicate Legal(codes: seq<Code>) {
    && codes != [] && (forall k :: 0 <= k < |codes| ==> codes[k] != [])
    && (forall j, k :: 0 <= j < |codes| && 0 <= k < |codes| && j != k ==> !PrefixOf(codes[j], codes[k]))
    && (forall s :: Forks(codes, s))
  }

  ghost predicate Forks(codes: seq<Code>, s: Code) {
    Started(codes, s + [false]) <==> Started(codes, s + [true])
  }

  // ---------------------------------------------------------------------------
  // The trie
  // ---------------------------------------------------------------------------

  function Walk(t: seq<Node>, i: int, s: Code): (r: int)
    ensures r == NONE || 0 <= r < |t|
    decreases |s|
  {
    if !(0 <= i < |t|) then NONE
    else if s == [] then i
    else if Leaf(t[i]) then NONE
    else Walk(t, Kid(t[i], s[0]), s[1..])
  }

  ghost predicate StateOk(node: Node, i: nat, path: seq<Code>, codes: seq<Code>, n: nat)
    requires i < |path|
  {
    && Started(codes, path[i])
    && (if Leaf(node) then node.terminal < n <= |codes| && codes[node.terminal] == path[i]
        else forall b: bool ::
          Kid(node, b) == NONE || (i < Kid(node, b) < |path| && path[Kid(node, b)] == path[i] + [b]))
  }

  ghost predicate Reaches(t: seq<Node>, codes: seq<Code>, k: nat)
    requires k < |codes|
  {
    var e := Walk(t, 0, codes[k]);
    e >= 0 && Leaf(t[e]) && t[e].terminal == k
  }

  predicate Bare(node: Node) { node.kid0 == NONE && node.kid1 == NONE }

  // The state array after n codes and, possibly, the start of one more.
  ghost predicate Building(t: seq<Node>, path: seq<Code>, codes: seq<Code>, n: nat, walk: nat) {
    && |t| == |path| >= 1 && path[0] == [] && n <= |codes|
    && (forall i :: 0 <= i < |t| ==> StateOk(t[i], i, path, codes, n))
    && (forall i :: 0 <= i < |t| ==> Walk(t, 0, path[i]) == i)
    && (forall i :: 0 <= i < |t| && Bare(t[i]) ==> i == walk)
    && (forall k :: 0 <= k < n ==> Reaches(t, codes, k))
  }

  lemma {:induction false} WalkConcat(t: seq<Node>, i: int, s: Code, u: Code)
    ensures Walk(t, i, s + u) == Walk(t, Walk(t, i, s), u)
    decreases |s|
  {
    if s == [] {
      assert s + u == u;
    } else if 0 <= i < |t| && !Leaf(t[i]) {
      assert (s + u)[1..] == s[1..] + u;
      WalkConcat(t, Kid(t[i], s[0]), s[1..], u);
    }
  }

  lemma WalkSnoc(t: seq<Node>, s: Code, b: bool)
    ensures var i := Walk(t, 0, s);
            Walk(t, 0, s + [b]) == if i >= 0 && !Leaf(t[i]) && 0 <= Kid(t[i], b) < |t| then Kid(t[i], b) else NONE
  {
    WalkConcat(t, 0, s, [b]);
  }

  // u has t's states, perhaps with more successors, and more states.
  ghost predicate Extends(t: seq<Node>, u: seq<Node>) {
    |t| <= |u| && forall i, b: bool :: 0 <= i < |t| && !Leaf(t[i]) && 0 <= Kid(t[i], b) < |t| ==>
                                       !Leaf(u[i]) && Kid(u[i], b) == Kid(t[i], b)
  }

  lemma {:induction false} WalkExtends(t: seq<Node>, u: seq<Node>, i: int, s: Code)
    requires Extends(t, u) && Walk(t, i, s) >= 0
    ensures Walk(u, i, s) == Walk(t, i, s)
    decreases |s|
  {
    if s != [] {
      WalkExtends(t, u, Kid(t[i], s[0]), s[1..]);
    }
  }

  // ---------------------------------------------------------------------------
  // Building it
  // ---------------------------------------------------------------------------

  lemma NoContinuation(codes: seq<Code>, n: nat, s: Code)
    requires Legal(codes) && n < |codes| && codes[n] < s
    ensures !Started(codes, s)
  {
    forall k | 0 <= k < |codes| ensures !PrefixOf(s, codes[k]) {
      assert PrefixOf(s, codes[k]) ==> PrefixOf(codes[n], codes[k]);
    }
  }

  // A code being added never runs through the end of another one ...
  lemma NotLeaf(node: Node, i: nat, path: seq<Code>, codes: seq<Code>, n: nat, m: nat)
    requires Legal(codes) && n < |codes| && m <= |codes[n]| && i < |path|
    requires StateOk(node, i, path, codes, n) && path[i] == codes[n][..m]
    ensures !Leaf(node)
  {}

  // ... and its own end has no successors.
  lemma BareAt(node: Node, i: nat, path: seq<Code>, codes: seq<Code>, n: nat)
    requires Legal(codes) && n < |codes| && i < |path|
    requires StateOk(node, i, path, codes, n) && path[i] == codes[n]
    requires forall j :: 0 <= j < |path| ==> Started(codes, path[j])
    ensures !Leaf(node) && Bare(node)
  {
    assert codes[n][..|codes[n]|] == codes[n];
    NotLeaf(node, i, path, codes, n, |codes[n]|);
    NoContinuation(codes, n, path[i] + [false]);
    NoContinuation(codes, n, path[i] + [true]);
    assert Kid(node, false) == NONE && Kid(node, true) == NONE;
  }

  const Fresh := Node(NONE, NONE, 0)

  function AddKid(t: seq<Node>, walk: nat, b: bool): seq<Node>
    requires walk < |t|
  {
    t[walk := WithKid(t[walk], b, |t|)] + [Fresh]
  }

  lemma AddKidState(t: seq<Node>, path: seq<Code>, codes: seq<Code>, n: nat, walk: nat, b: bool, i: nat)
    requires |t| == |path| && walk < |t| && !Leaf(t[walk]) && i <= |t|
    requires StateOk(t[walk], walk, path, codes, n) && (i < |t| ==> StateOk(t[i], i, path, codes, n))
    requires Started(codes, path[walk] + [b])
    ensures StateOk(AddKid(t, walk, b)[i], i, path + [path[walk] + [b]], codes, n)
  {
    hide Started;
  }

  lemma AddKidExtends(t: seq<Node>, walk: nat, b: bool)
    requires walk < |t| && !Leaf(t[walk]) && Kid(t[walk], b) == NONE
    ensures Extends(t, AddKid(t, walk, b))
  {}

  lemma AddKidWalks(t: seq<Node>, path: seq<Code>, walk: nat, b: bool, i: nat)
    requires |t| == |path| && walk < |t| && !Leaf(t[walk]) && Kid(t[walk], b) == NONE && i <= |t|
    requires Walk(t, 0, path[walk]) == walk && (i < |t| ==> Walk(t, 0, path[i]) == i)
    ensures var more := path + [path[walk] + [b]]; Walk(AddKid(t, walk, b), 0, more[i]) == i
  {
    var u := AddKid(t, walk, b);
    AddKidExtends(t, walk, b);
    hide Extends;
    if i < |t| {
      WalkExtends(t, u, 0, path[i]);
    } else {
      WalkExtends(t, u, 0, path[walk]);
      WalkSnoc(u, path[walk], b);
    }
  }

  lemma ReachesExtends(t: seq<Node>, u: seq<Node>, codes: seq<Code>, k: nat)
    requires Extends(t, u) && k < |codes| && Reaches(t, codes, k)
    requires forall i :: 0 <= i < |t| && Leaf(t[i]) ==> u[i] == t[i]
    ensures Reaches(u, codes, k)
  {
    WalkExtends(t, u, 0, codes[k]);
  }

  lemma AddKidBuilds(t: seq<Node>, path: seq<Code>, codes: seq<Code>, n: nat, walk: nat, b: bool)
    requires Building(t, path, codes, n, walk) && walk < |t| && !Leaf(t[walk]) && Kid(t[walk], b) == NONE
    requires Started(codes, path[walk] + [b])
    ensures Building(AddKid(t, walk, b), path + [path[walk] + [b]], codes, n, |t|)
  {
    hide StateOk, Reaches, Started, Extends, Walk;
    var u, more := AddKid(t, walk, b), path + [path[walk] + [b]];
    AddKidExtends(t, walk, b);
    forall i | 0 <= i < |u| ensures StateOk(u[i], i, more, codes, n) && Walk(u, 0, more[i]) == i {
      AddKidState(t, path, codes, n, walk, b, i);
      AddKidWalks(t, path, walk, b, i);
    }
    forall k | 0 <= k < n ensures Reaches(u, codes, k) {
      ReachesExtends(t, u, codes, k);
    }
  }

  function Mark(t: seq<Node>, walk: nat, n: nat): seq<Node>
    requires walk < |t|
  {
    t[walk := t[walk].(terminal := n, kid0 := 0)]
  }

  lemma MarkExtends(t: seq<Node>, walk: nat, n: nat)
    requires walk < |t| && !Leaf(t[walk]) && Bare(t[walk])
    ensures Extends(t, Mark(t, walk, n))
  {}

  lemma MarkBuilds(t: seq<Node>, path: seq<Code>, codes: seq<Code>, n: nat, walk: nat)
    requires Building(t, path, codes, n, walk) && n < |codes| && walk < |t|
    requires !Leaf(t[walk]) && Bare(t[walk]) && path[walk] == codes[n]
    ensures Building(Mark(t, walk, n), path, codes, n + 1, 0) && forall i :: 0 <= i < |t| ==> !Bare(Mark(t, walk, n)[i])
  {
    hide Reaches, Started, Extends, Walk;
    var u := Mark(t, walk, n);
    MarkExtends(t, walk, n);
    forall i | 0 <= i < |u| ensures StateOk(u[i], i, path, codes, n + 1) && Walk(u, 0, path[i]) == i {
      assert StateOk(t[i], i, path, codes, n);
      WalkExtends(t, u, 0, path[i]);
    }
    hide StateOk;
    forall k | 0 <= k < n + 1 ensures Reaches(u, codes, k) {
      if k < n {
        ReachesExtends(t, u, codes, k);
      } else {
        MarkReaches(u, codes, n, walk);
      }
    }
  }

  lemma MarkReaches(u: seq<Node>, codes: seq<Code>, n: nat, walk: nat)
    requires n < |codes| && walk < |u| && Walk(u, 0, codes[n]) == walk && Leaf(u[walk]) && u[walk].terminal == n
    ensures Reaches(u, codes, n)
  {}

  class Generator {
    var state: seq<Node>  // state[0..next]
    ghost var path: seq<Code>

    constructor ()
      ensures state == [Fresh] && path == [[]]
    {
      state := [Fresh];
      path := [[]];
    }

    // One code of the list.
    method AddCode(ls: seq<Literal>, n: nat, ghost codes: seq<Code>)
      requires codes == Codes(ls) && Legal(codes) && n < |codes| && Building(state, path, codes, n, 0)
      modifies this
      ensures Building(state, path, codes, n + 1, 0) && forall i :: 0 <= i < |state| ==> !Bare(state[i])
    {
      hide Legal, Building, StateOk, Started, CodeBit;
      var walk: nat, m := 0, 0;
      RootPath(state, path, codes, n);
      while m < ls[n].len
        invariant m <= |codes[n]| && walk < |state| == |path|
        invariant Building(state, path, codes, n, walk) && path[walk] == codes[n][..m]
      {
        var b := CodeBit(ls[n], m);
        assert codes[n][..m + 1] == codes[n][..m] + [b];
        InsideCode(state, path, codes, n, walk, m);
        if Kid(state[walk], b) != NONE {
          FollowKid(state, path, codes, n, walk, b);
          walk := Kid(state[walk], b);
        } else {
          PrefixStarted(codes, n, m + 1);
          AddKidBuilds(state, path, codes, n, walk, b);
          path := path + [path[walk] + [b]];
          state := AddKid(state, walk, b);
          walk := |state| - 1;
        }
        m := m + 1;
      }
      assert codes[n][..m] == codes[n];
      EndOfCode(state, path, codes, n, walk);
      MarkBuilds(state, path, codes, n, walk);
      state := Mark(state, walk, n);
    }
  }

  lemma RootPath(t: seq<Node>, path: seq<Code>, codes: seq<Code>, n: nat)
    requires Building(t, path, codes, n, 0)
    ensures |t| == |path| >= 1 && path[0] == []
  {}

  lemma InsideCode(t: seq<Node>, path: seq<Code>, codes: seq<Code>, n: nat, walk: nat, m: nat)
    requires Legal(codes) && n < |codes| && m <= |codes[n]| && walk < |t| == |path|
    requires Building(t, path, codes, n, walk) && path[walk] == codes[n][..m]
    ensures !Leaf(t[walk])
  {
    assert StateOk(t[walk], walk, path, codes, n);
    NotLeaf(t[walk], walk, path, codes, n, m);
  }

  lemma FollowKid(t: seq<Node>, path: seq<Code>, codes: seq<Code>, n: nat, walk: nat, b: bool)
    requires Building(t, path, codes, n, walk) && walk < |t| == |path| && !Leaf(t[walk]) && Kid(t[walk], b) != NONE
    ensures 0 <= Kid(t[walk], b) < |t| && path[Kid(t[walk], b)] == path[walk] + [b]
    ensures Building(t, path, codes, n, Kid(t[walk], b))
  {
    hide Reaches, Started, Walk;
    assert StateOk(t[walk], walk, path, codes, n);
  }

  lemma PrefixStarted(codes: seq<Code>, n: nat, m: nat)
    requires n < |codes| && m <= |codes[n]|
    ensures Started(codes, codes[n][..m])
  {
    assert PrefixOf(codes[n][..m], codes[n]);
  }

  lemma EndOfCode(t: seq<Node>, path: seq<Code>, codes: seq<Code>, n: nat, walk: nat)
    requires Legal(codes) && n < |codes| && walk < |t| == |path|
    requires Building(t, path, codes, n, walk) && path[walk] == codes[n]
    ensures !Leaf(t[walk]) && Bare(t[walk])
  {
    hide Reaches;
    assert StateOk(t[walk], walk, path, codes, n);
    forall j | 0 <= j < |path| ensures Started(codes, path[j]) {
      assert StateOk(t[j], j, path, codes, n);
    }
    BareAt(t[walk], walk, path, codes, n);
  }

  // The finished trie: terminals are the codes, and every other state forks.
  ghost predicate Trie(t: seq<Node>, codes: seq<Code>) {
    && |t| >= 1
    && (forall i :: 0 <= i < |t| && Leaf(t[i]) ==> t[i].terminal < |codes|)
    && (forall i, b: bool :: 0 <= i < |t| && !Leaf(t[i]) ==> i < Kid(t[i], b) < |t|)
    && (forall k :: 0 <= k < |codes| ==> Reaches(t, codes, k))
  }

  // Completeness of the code makes the trie complete.
  lemma StateForks(t: seq<Node>, path: seq<Code>, codes: seq<Code>, i: nat, b: bool)
    requires Legal(codes) && Building(t, path, codes, |codes|, 0) && i < |t| && !Leaf(t[i]) && !Bare(t[i])
    ensures i < Kid(t[i], b) < |t|
  {
    hide Legal, Reaches;
    assert StateOk(t[i], i, path, codes, |codes|);
    if Kid(t[i], b) == NONE {
      var j := Kid(t[i], !b);
      assert StateOk(t[j], j, path, codes, |codes|);
      OtherFork(codes, path[i], b);
      hide StateOk;
      var k :| 0 <= k < |codes| && PrefixOf(path[i] + [b], codes[k]);
      ReachesWalk(t, codes, k);
      var rest := codes[k][|path[i]| + 1..];
      assert codes[k] == (path[i] + [b]) + rest;
      WalkConcat(t, 0, path[i] + [b], rest);
      WalkSnoc(t, path[i], b);
    }
  }

  lemma OtherFork(codes: seq<Code>, s: Code, b: bool)
    requires Legal(codes) && Started(codes, s + [!b])
    ensures Started(codes, s + [b])
  {
    hide Started;
    assert Forks(codes, s);
  }

  lemma ReachesWalk(t: seq<Node>, codes: seq<Code>, k: nat)
    requires k < |codes| && Reaches(t, codes, k)
    ensures Walk(t, 0, codes[k]) >= 0
  {}

  lemma TrieDone(t: seq<Node>, path: seq<Code>, codes: seq<Code>)
    requires Legal(codes) && Building(t, path, codes, |codes|, 0) && forall i :: 0 <= i < |t| ==> !Bare(t[i])
    ensures Trie(t, codes)
  {
    forall i | 0 <= i < |t| && Leaf(t[i]) ensures t[i].terminal < |codes| {
      assert StateOk(t[i], i, path, codes, |codes|);
    }
    forall i, b: bool | 0 <= i < |t| && !Leaf(t[i]) ensures i < Kid(t[i], b) < |t| {
      StateForks(t, path, codes, i, b);
    }
  }

  // ---------------------------------------------------------------------------
  // The table
  // ---------------------------------------------------------------------------

  // Non-terminal states take two bytes each, in order.
  function Pos(t: seq<Node>, i: nat): nat
    requires i <= |t|
  {
    if i == 0 then 0 else Pos(t, i - 1) + (if Leaf(t[i - 1]) then 0 else 2)
  }

  ghost predicate Targets(t: seq<Node>) {
    forall i, b: bool :: 0 <= i < |t| && !Leaf(t[i]) ==> i < Kid(t[i], b) < |t|
  }

  function Jump(t: seq<Node>, i: nat, b: bool): int
    requires Targets(t) && i < |t| && !Leaf(t[i])
  {
    (Pos(t, Kid(t[i], b)) - Pos(t, i)) / 2
  }

  // A byte of the table: a terminal's symbol, or how far ahead the next state is. Only the
  // low byte of either is printed.
  function Entry(t: seq<Node>, i: nat, b: bool): (e: int)
    requires Targets(t) && i < |t| && !Leaf(t[i])
    ensures 0 <= e < 256
  {
    var kid := t[Kid(t[i], b)];
    if Leaf(kid) then kid.terminal % 256 else Jump(t, i, b) % 256
  }

  function Table(t: seq<Node>, n: nat): (s: seq<int>)
    requires Targets(t) && n <= |t|
    ensures |s| == Pos(t, n)
  {
    if n == 0 then [] else
    Table(t, n - 1) + (if Leaf(t[n - 1]) then [] else [Entry(t, n - 1, false), Entry(t, n - 1, true)])
  }

  // The flags that tell symbols from jumps; the source packs eight to a byte.
  function Terms(t: seq<Node>, n: nat): (s: seq<bool>)
    requires Targets(t) && n <= |t|
    ensures |s| == Pos(t, n)
  {
    if n == 0 then [] else
    Terms(t, n - 1) + (if Leaf(t[n - 1]) then [] else [Leaf(t[Kid(t[n - 1], false)]), Leaf(t[Kid(t[n - 1], true)])])
  }

  // The limits the generator does not check: jumps fit a byte, positions fifteen bits.
  ghost predicate Fits(t: seq<Node>)
    requires Targets(t)
  {
    && Pos(t, |t|) <= 0x8000
    && forall i, b: bool :: 0 <= i < |t| && !Leaf(t[i]) && !Leaf(t[Kid(t[i], b)]) ==> Jump(t, i, b) <= 255
  }

  // How far ahead a byte of the table points; 0 for a symbol.
  function SlotJump(t: seq<Node>, i: nat, b: bool): int
    requires Targets(t) && i < |t| && !Leaf(t[i])
  {
    if Leaf(t[Kid(t[i], b)]) then 0 else Jump(t, i, b)
  }

  function Larger(a: int, b: int): int { if a < b then b else a }

  // The largest jump from the first n states.
  function Biggest(t: seq<Node>, n: nat): int
    requires Targets(t) && n <= |t|
  {
    if n == 0 then 0
    else if Leaf(t[n - 1]) then Biggest(t, n - 1)
    else Larger(Larger(Biggest(t, n - 1), SlotJump(t, n - 1, false)), SlotJump(t, n - 1, true))
  }

  lemma {:induction false} BiggestBounds(t: seq<Node>, n: nat, i: nat, b: bool)
    requires Targets(t) && i < n <= |t| && !Leaf(t[i])
    ensures SlotJump(t, i, b) <= Biggest(t, n)
    decreases n
  {
    hide Targets, SlotJump;
    if i < n - 1 {
      BiggestBounds(t, n - 1, i, b);
    }
  }

  // What the generator reports, its table's size and its biggest jump, tells whether the
  // table is within the limits.
  lemma FitsReported(t: seq<Node>)
    requires Targets(t) && Pos(t, |t|) <= 0x8000 && Biggest(t, |t|) <= 255
    ensures Fits(t)
  {
    hide Biggest, Pos;
    forall i, b: bool | 0 <= i < |t| && !Leaf(t[i]) && !Leaf(t[Kid(t[i], b)]) ensures Jump(t, i, b) <= 255 {
      BiggestBounds(t, |t|, i, b);
    }
  }

  lemma {:induction false} TableAt(t: seq<Node>, n: nat, i: nat, b: bool)
    requires Targets(t) && i < n <= |t| && !Leaf(t[i])
    ensures var q := Pos(t, i) + (if b then 1 else 0);
            q < Pos(t, n) && Table(t, n)[q] == Entry(t, i, b) && Terms(t, n)[q] == Leaf(t[Kid(t[i], b)])
    decreases n
  {
    hide Targets, Entry;
    if i < n - 1 {
      TableAt(t, n - 1, i, b);
    }
  }

  lemma {:induction false} PosEven(t: seq<Node>, i: nat, j: nat)
    requires i <= j <= |t|
    ensures Pos(t, i) <= Pos(t, j) && Pos(t, i) % 2 == 0 && Pos(t, j) % 2 == 0
    decreases j
  {
    if i < j {
      PosEven(t, i, j - 1);
    } else if i > 0 {
      PosEven(t, i - 1, i - 1);
    }
  }

  // ---------------------------------------------------------------------------
  // Decoding
  // ---------------------------------------------------------------------------

  // huftable_decode; -1 stands for reading outside the table.
  function Decode(table: seq<int>, terms: seq<bool>, pos: int, b: bool): int {
    var q := pos + (if b then 1 else 0);
    if !(0 <= q < |table| && q < |terms|) then -1
    else if terms[q] then table[q] + 0x8000
    else pos + 2 * table[q]
  }

  // What a byte of the table says, when the limits are kept.
  lemma EntryValue(t: seq<Node>, i: nat, b: bool)
    requires Targets(t) && Fits(t) && i < |t| && !Leaf(t[i])
    ensures var j := Kid(t[i], b);
            && (Leaf(t[j]) ==> Entry(t, i, b) == t[j].terminal % 256)
            && (!Leaf(t[j]) ==> Pos(t, i) + 2 * Entry(t, i, b) == Pos(t, j) < 0x8000)
  {
    var j := Kid(t[i], b);
    if !Leaf(t[j]) {
      PosEven(t, i, j);
      PosNext(t, j);
      PosEven(t, j + 1, |t|);
      assert Jump(t, i, b) <= 255;
      hide Pos;
    }
  }

  // One bit from a state's position leads to the next state's, or yields a symbol.
  lemma DecodeState(t: seq<Node>, i: nat, b: bool)
    requires Targets(t) && Fits(t) && i < |t| && !Leaf(t[i])
    ensures var j := Kid(t[i], b);
            && (Leaf(t[j]) ==> Decode(Table(t, |t|), Terms(t, |t|), Pos(t, i), b) == t[j].terminal % 256 + 0x8000)
            && (!Leaf(t[j]) ==> Decode(Table(t, |t|), Terms(t, |t|), Pos(t, i), b) == Pos(t, j) < 0x8000)
  {
    hide Pos, Table, Terms, Fits, Entry;
    TableAt(t, |t|, i, b);
    EntryValue(t, i, b);
  }

  // The data loop: what is appended to the header, and hpack_pos at the end.
  datatype Decoded = Decoded(out: seq<int>, pos: int) | Bad

  function DecodeBits(table: seq<int>, terms: seq<bool>, pos: int, bits: Code): Decoded
    decreases |bits|
  {
    if bits == [] then Decoded([], pos)
    else
      var r := Decode(table, terms, pos, bits[0]);
      if r == 0xffff || r < 0 then Bad
      else if r < 0x8000 then DecodeBits(table, terms, r, bits[1..])
      else Emitted(r - 0x8000, DecodeBits(table, terms, 0, bits[1..]))
  }

  function Emitted(c: int, d: Decoded): Decoded {
    if d.Bad? then Bad else Decoded([c] + d.out, d.pos)
  }

  // From inside the trie, the rest of a path to a terminal yields its symbol.
  lemma {:induction false} DecodePath(t: seq<Node>, i: nat, s: Code, rest: Code)
    requires Targets(t) && Fits(t) && i < |t| && s != []
    requires Walk(t, i, s) >= 0 && Leaf(t[Walk(t, i, s)])
    ensures var table, terms := Table(t, |t|), Terms(t, |t|);
            DecodeBits(table, terms, Pos(t, i), s + rest) ==
            Emitted(t[Walk(t, i, s)].terminal % 256, DecodeBits(table, terms, 0, rest))
    decreases |s|
  {
    hide Fits, Decode, Targets, Table, Terms, Pos;
    assert (s + rest)[1..] == s[1..] + rest;
    var j := Kid(t[i], s[0]);
    DecodeState(t, i, s[0]);
    if |s| == 1 {
      assert s[1..] + rest == rest;
    } else {
      DecodePath(t, j, s[1..], rest);
    }
  }

  // A path that stays inside the trie yields nothing.
  lemma {:induction false} DecodeInside(t: seq<Node>, i: nat, s: Code)
    requires Targets(t) && Fits(t) && i < |t|
    requires forall m :: 0 <= m <= |s| ==> Walk(t, i, s[..m]) >= 0 && !Leaf(t[Walk(t, i, s[..m])])
    ensures var d := DecodeBits(Table(t, |t|), Terms(t, |t|), Pos(t, i), s); d.Decoded? && d.out == []
    decreases |s|
  {
    hide Fits, Decode, Targets, Table, Terms, Pos;
    assert s[..0] == [];
    if s != [] {
      var j := Kid(t[i], s[0]);
      assert s[..1] == [s[0]];
      assert Walk(t, i, s[..1]) == Walk(t, j, []);
      DecodeState(t, i, s[0]);
      forall m | 0 <= m <= |s| - 1 ensures Walk(t, j, s[1..][..m]) >= 0 && !Leaf(t[Walk(t, j, s[1..][..m])]) {
        assert s[..m + 1][1..] == s[1..][..m] && s[..m + 1][0] == s[0];
        assert Walk(t, i, s[..m + 1]) == Walk(t, j, s[1..][..m]);
      }
      DecodeInside(t, j, s[1..]);
    }
  }

  // ---------------------------------------------------------------------------
  // Whole strings
  // ---------------------------------------------------------------------------

  function EncodeBits(codes: seq<Code>, msg: seq<nat>): Code
    requires forall i :: 0 <= i < |msg| ==> msg[i] < |codes|
  {
    if msg == [] then [] else codes[msg[0]] + EncodeBits(codes, msg[1..])
  }

  // Fewer than eight ones, the padding of section 5.2 of RFC 7541, begin the end symbol.
  lemma PaddingDecodes(t: seq<Node>, codes: seq<Code>, eos: nat, pad: Code)
    requires Trie(t, codes) && Targets(t) && Fits(t) && eos < |codes| && |codes[eos]| >= 8
    requires (forall i :: 0 <= i < |codes[eos]| ==> codes[eos][i]) && |pad| < 8 && forall i :: 0 <= i < |pad| ==> pad[i]
    ensures var d := DecodeBits(Table(t, |t|), Terms(t, |t|), 0, pad); d.Decoded? && d.out == []
  {
    assert Reaches(t, codes, eos);
    hide Fits, Targets, Table, Terms, Trie;
    forall m | 0 <= m <= |pad| ensures Walk(t, 0, pad[..m]) >= 0 && !Leaf(t[Walk(t, 0, pad[..m])]) {
      var rest := codes[eos][m..];
      assert codes[eos] == pad[..m] + rest;
      WalkConcat(t, 0, pad[..m], rest);
    }
    DecodeInside(t, 0, pad);
  }

  // The table decodes the codes of any byte string, padded with ones, to that string.
  lemma {:induction false} DecodeMessage(t: seq<Node>, codes: seq<Code>, eos: nat, msg: seq<nat>, pad: Code)
    requires Trie(t, codes) && Targets(t) && Fits(t) && (forall k :: 0 <= k < |codes| ==> codes[k] != [])
    requires eos < |codes| && |codes[eos]| >= 8 && forall i :: 0 <= i < |codes[eos]| ==> codes[eos][i]
    requires forall i :: 0 <= i < |msg| ==> msg[i] < |codes| && msg[i] < 256
    requires |pad| < 8 && forall i :: 0 <= i < |pad| ==> pad[i]
    ensures var d := DecodeBits(Table(t, |t|), Terms(t, |t|), 0, EncodeBits(codes, msg) + pad);
            d.Decoded? && d.out == msg
    decreases |msg|
  {
    if msg == [] {
      PaddingDecodes(t, codes, eos, pad);
      assert [] + pad == pad;
    } else {
      assert Reaches(t, codes, msg[0]);
      hide Fits, Targets, Table, Terms, Trie, Reaches;
      var rest := EncodeBits(codes, msg[1..]) + pad;
      assert EncodeBits(codes, msg) + pad == codes[msg[0]] + rest;
      DecodeMessage(t, codes, eos, msg[1..], pad);
      RootPos(t);
      SymbolAt(t, codes, msg[0]);
      DecodePath(t, 0, codes[msg[0]], rest);
    }
  }

  lemma RootPos(t: seq<Node>)
    ensures Pos(t, 0) == 0
  {}

  lemma PosNext(t: seq<Node>, n: nat)
    requires n < |t|
    ensures Pos(t, n + 1) == Pos(t, n) + (if Leaf(t[n]) then 0 else 2)
  {}

  lemma SymbolAt(t: seq<Node>, codes: seq<Code>, k: nat)
    requires k < |codes| && k < 256 && Reaches(t, codes, k)
    ensures var e := Walk(t, 0, codes[k]); 0 <= e < |t| && Leaf(t[e]) && t[e].terminal % 256 == k
  {}

  // ---------------------------------------------------------------------------
  // The emission passes and the data loop
  // ---------------------------------------------------------------------------

  method Positions(t: seq<Node>) returns (place: seq<nat>)
    ensures |place| == |t| && forall i :: 0 <= i < |t| ==> place[i] == Pos(t, i)
  {
    hide Pos;
    RootPos(t);
    place := [];
    var pos := 0;
    for n := 0 to |t|
      invariant |place| == n && pos == Pos(t, n) && forall i :: 0 <= i < n ==> place[i] == Pos(t, i)
    {
      PosNext(t, n);
      place := place + [pos];
      if t[n].kid0 != 0 {
        pos := pos + 2;
      }
    }
  }

  // One byte of the table, with its flag and its jump.
  method EmitSlot(t: seq<Node>, place: seq<nat>, n: nat, b: bool) returns (e: byte, flag: bool, jump: int)
    requires Targets(t) && n < |t| && !Leaf(t[n])
    requires |place| == |t| && forall i :: 0 <= i < |t| ==> place[i] == Pos(t, i)
    ensures e == Entry(t, n, b) && flag == Leaf(t[Kid(t[n], b)]) && jump == SlotJump(t, n, b)
  {
    var saw := Kid(t[n], b);
    if t[saw].kid0 == 0 {
      return t[saw].terminal % 256, true, 0;
    }
    jump := (place[saw] as int - place[n]) / 2;
    return jump % 256, false, jump;
  }

  // The printed table, its flags packed eight to a byte, and the biggest jump.
  datatype Printed = Printed(table: seq<byte>, terms: seq<bv8>, biggest: int) | JumpTooFar

  // The first n states have been printed.
  ghost predicate Done(t: seq<Node>, n: nat, r: Printed)
    requires Targets(t) && n <= |t|
  {
    if Biggest(t, n) > 0xffff then r == JumpTooFar
    else
      && r.Printed? && r.table == Table(t, n) && r.biggest == Biggest(t, n)
      && Packs(r.terms, Terms(t, n))
  }

  // A flag set, if it is to be.
  method RaiseIf(terms: seq<bv8>, q: nat, flag: bool, ghost flags: seq<bool>) returns (u: seq<bv8>)
    requires Packs(terms, flags) && q == |flags| && q / 8 < |terms|
    ensures Packs(u, flags + [flag]) && |u| == |terms|
  {
    PacksNext(terms, flags, flag);
    u := if flag then Raise(terms, q) else terms;
  }

  // One state of the emission pass; the flags have room for all states.
  method EmitState(t: seq<Node>, place: seq<nat>, n: nat, r: Printed) returns (q: Printed)
    requires Targets(t) && |place| == |t| && forall i :: 0 <= i < |t| ==> place[i] == Pos(t, i)
    requires n < |t| && r.Printed? && Done(t, n, r) && 2 * |t| <= 8 * |r.terms| && Pos(t, n) <= 2 * n
    ensures Done(t, n + 1, q) && (q.Printed? ==> |q.terms| == |r.terms|)
  {
    hide Entry, SlotJump, Targets, Pos, Packs;
    q := r;
    assert Terms(t, n) + [] == Terms(t, n);
    if t[n].kid0 != 0 {
      var e0, f0, j0 := EmitSlot(t, place, n, false);
      var e1, f1, j1 := EmitSlot(t, place, n, true);
      if j0 > 0xffff || j1 > 0xffff {
        return JumpTooFar;
      }
      ghost var flags := Terms(t, n);
      var terms := RaiseIf(r.terms, |r.table|, f0, flags);
      terms := RaiseIf(terms, |r.table| + 1, f1, flags + [f0]);
      assert flags + [f0] + [f1] == flags + [f0, f1];
      q := Printed(r.table + [e0, e1], terms, Larger(Larger(r.biggest, j0), j1));
    }
  }

  // r is what is to be printed for the trie: its table, its flags and the biggest jump, or a
  // refusal exactly when a jump exceeds 0xffff.
  ghost predicate PrintedFor(t: seq<Node>, r: Printed)
    requires Targets(t)
  {
    Done(t, |t|, r) && (r.Printed? ==> |r.terms| == (|r.table| + 7) / 8)
  }

  method Emit(t: seq<Node>, place: seq<nat>) returns (r: Printed)
    requires Targets(t) && |place| == |t| && forall i :: 0 <= i < |t| ==> place[i] == Pos(t, i)
    ensures PrintedFor(t, r)
  {
    hide Table, Terms, Biggest, Targets, Pos, Packs;
    r := Printed([], seq((2 * |t| + 7) / 8, _ => 0), 0);
    NothingPrinted(t);
    PacksNone((2 * |t| + 7) / 8);
    for n := 0 to |t|
      invariant r.Printed? && Done(t, n, r) && |r.terms| == (2 * |t| + 7) / 8
    {
      PosBound(t, n);
      r := EmitState(t, place, n, r);
      if r.JumpTooFar? {
        BiggestGrows(t, n + 1);
        return;
      }
    }
    PosBound(t, |t|);
    var size := (|r.table| + 7) / 8;
    PacksPrefix(r.terms, Terms(t, |t|), size);
    r := r.(terms := r.terms[..size]);
  }

  lemma {:induction false} PosBound(t: seq<Node>, n: nat)
    requires n <= |t|
    ensures Pos(t, n) <= 2 * n
  {
    if n > 0 {
      PosBound(t, n - 1);
    }
  }

  lemma NothingPrinted(t: seq<Node>)
    requires Targets(t)
    ensures Table(t, 0) == [] && Terms(t, 0) == [] && Biggest(t, 0) == 0
  {}

  lemma {:induction false} BiggestGrows(t: seq<Node>, n: nat)
    requires Targets(t) && n <= |t|
    ensures Biggest(t, n) <= Biggest(t, |t|)
    decreases |t| - n
  {
    hide Targets, SlotJump;
    if n < |t| {
      BiggestGrows(t, n + 1);
    }
  }

  // r is what is to be printed for a complete trie of the code.
  ghost predicate Compiles(codes: seq<Code>, t: seq<Node>, r: Printed) {
    Trie(t, codes) && Targets(t) && PrintedFor(t, r)
  }

  // main() of the generator, without the check of its own output.
  method Generate(ls: seq<Literal>) returns (r: Printed)
    requires Legal(Codes(ls))
    ensures exists t :: Compiles(Codes(ls), t, r)
  {
    hide Codes;
    ghost var codes := Codes(ls);
    var g := new Generator();
    FreshBuilds(codes);
    g.AddCode(ls, 0, codes);
    for n := 1 to |ls|
      invariant Building(g.state, g.path, codes, n, 0) && forall i :: 0 <= i < |g.state| ==> !Bare(g.state[i])
    {
      g.AddCode(ls, n, codes);
    }
    TrieDone(g.state, g.path, codes);
    var place := Positions(g.state);
    r := Emit(g.state, place);
    assert Compiles(codes, g.state, r);
  }

  lemma FreshBuilds(codes: seq<Code>)
    requires Legal(codes)
    ensures Building([Fresh], [[]], codes, 0, 0)
  {
    assert PrefixOf([], codes[0]);
  }

  // The bits of a byte, high bit first, and of a string of bytes.
  function ByteBits(c: nat, k: nat): (s: Code)
    ensures |s| == k
    decreases k
  {
    if k == 0 then [] else [c / 128 % 2 == 1] + ByteBits(2 * c % 256, k - 1)
  }

  lemma HalfBit(n: nat, j: nat)
    ensures BitOf(n, j + 1) <==> BitOf(n / 2, j)
  {
    hide Pow2;
    HalfAgain(n, j);
  }

  lemma HalfShifted(c: nat)
    requires c < 256
    ensures 2 * c % 256 / 2 == c % 128
  {}

  // Shifting a byte up by one, its highest bit falling off.
  lemma ShiftUp(c: nat, j: nat)
    requires c < 256 && j < 7
    ensures BitOf(2 * c % 256, j + 1) <==> BitOf(c, j)
  {
    hide Pow2, BitOf;
    HalfBit(2 * c % 256, j);
    HalfShifted(c);
    PowSeven();
    LowBits(c, 7, j);
  }

  lemma PowSeven()
    ensures Pow2(7) == 128
  {}

  lemma {:induction false} ByteBitsAt(c: nat, k: nat, i: nat)
    requires c < 256 && i < k <= 8
    ensures ByteBits(c, k)[i] <==> BitOf(c, 7 - i)
    decreases k
  {
    if i == 0 {
      PowSeven();
    } else {
      hide Pow2, BitOf;
      ByteBitsAt(2 * c % 256, k - 1, i - 1);
      ShiftUp(c, 7 - i);
    }
  }

  // A byte's bits, highest first, spell the byte.
  lemma ByteSpelled(c: nat)
    requires c < 256
    ensures NumberOf(ByteBits(c, 8)) == c
  {
    assert Pow2(8) == 256;
    BitsSpell(Literal(c, 8));
    hide Pow2, NumberOf, ByteBits;
    forall i | 0 <= i < 8 ensures ByteBits(c, 8)[i] == Bits(Literal(c, 8))[i] {
      ByteBitsAt(c, 8, i);
    }
    assert ByteBits(c, 8) == Bits(Literal(c, 8));
  }

  function Unpack(data: seq<nat>): Code {
    if data == [] then [] else ByteBits(data[0], 8) + Unpack(data[1..])
  }

  // Continuing a decode.
  function Onward(table: seq<int>, terms: seq<bool>, d: Decoded, bits: Code): Decoded {
    if d.Bad? then Bad
    else var e := DecodeBits(table, terms, d.pos, bits);
         if e.Bad? then Bad else Decoded(d.out + e.out, e.pos)
  }

  lemma {:induction false} DecodeConcat(table: seq<int>, terms: seq<bool>, pos: int, a: Code, b: Code)
    ensures DecodeBits(table, terms, pos, a + b) == Onward(table, terms, DecodeBits(table, terms, pos, a), b)
    decreases |a|
  {
    hide Decode;
    if a == [] {
      assert a + b == b;
      var e := DecodeBits(table, terms, pos, b);
      assert e.Decoded? ==> [] + e.out == e.out;
    } else {
      assert (a + b)[1..] == a[1..] + b;
      var r := Decode(table, terms, pos, a[0]);
      DecodeConcat(table, terms, if r < 0x8000 then r else 0, a[1..], b);
    }
  }

  // huftable_decode on the packed flags.
  method HuffDecode(table: seq<byte>, terms: seq<bv8>, pos: int, b: bool) returns (r: int)
    requires |terms| == (|table| + 7) / 8
    ensures r == Decode(table, Flags(terms, |table|), pos, b)
  {
    hide Flag;
    var q := pos + (if b then 1 else 0);
    if q < 0 || q >= |table| {
      return -1;
    }
    var entry: int := table[q];
    if Flag(terms, q) {
      return entry + 0x8000;
    }
    return pos + 2 * entry;
  }

  // The inner loop of HPKS_DATA: the eight bits of one byte, with hpack_pos carried over.
  method DecodeByte(table: seq<byte>, terms: seq<bv8>, start: int, byte: nat) returns (d: Decoded)
    requires |terms| == (|table| + 7) / 8
    ensures d == DecodeBits(table, Flags(terms, |table|), start, ByteBits(byte, 8))
  {
    hide Decode, Flags;
    ghost var flags := Flags(terms, |table|);
    var c := byte;
    d := Decoded([], start);
    for n := 0 to 8
      invariant d.Decoded?
      invariant Onward(table, flags, d, ByteBits(c, 8 - n)) == DecodeBits(table, flags, start, ByteBits(byte, 8))
    {
      ghost var bits, was := ByteBits(c, 8 - n), d;
      var r := HuffDecode(table, terms, d.pos, c / 128 % 2 == 1);
      c := 2 * c % 256;
      assert bits[1..] == ByteBits(c, 7 - n);
      if r == 0xffff || r < 0 {
        return Bad;
      }
      if r < 0x8000 {
        d := d.(pos := r);
      } else {
        d := Decoded(d.out + [r - 0x8000], 0);
        ghost var e := DecodeBits(table, flags, 0, ByteBits(c, 7 - n));
        assert e.Decoded? ==> was.out + ([r - 0x8000] + e.out) == d.out + e.out;
      }
    }
    assert d.out + [] == d.out;
  }

  method DecodeData(table: seq<byte>, terms: seq<bv8>, data: seq<nat>) returns (d: Decoded)
    requires |terms| == (|table| + 7) / 8
    ensures d == DecodeBits(table, Flags(terms, |table|), 0, Unpack(data))
  {
    hide Decode, DecodeBits, ByteBits, Flags;
    ghost var flags := Flags(terms, |table|);
    d := Decoded([], 0);
    NoBits(table, flags, 0);
    for i := 0 to |data|
      invariant d == DecodeBits(table, flags, 0, Unpack(data[..i]))
    {
      UnpackSnoc(data, i);
      DecodeConcat(table, flags, 0, Unpack(data[..i]), ByteBits(data[i], 8));
      if d.Decoded? {
        var e := DecodeByte(table, terms, d.pos, data[i]);
        d := if e.Bad? then Bad else Decoded(d.out + e.out, e.pos);
      }
    }
    assert data[..|data|] == data;
  }

  lemma NoBits(table: seq<int>, terms: seq<bool>, pos: int)
    ensures DecodeBits(table, terms, pos, []) == Decoded([], pos)
  {}

  lemma UnpackSnoc(data: seq<nat>, i: nat)
    requires i < |data|
    ensures Unpack(data[..i + 1]) == Unpack(data[..i]) + ByteBits(data[i], 8)
  {
    assert data[..i + 1] == data[..i] + [data[i]];
    UnpackConcat(data[..i], [data[i]]);
    assert ByteBits(data[i], 8) + [] == ByteBits(data[i], 8);
  }

  lemma {:induction false} UnpackConcat(a: seq<nat>, b: seq<nat>)
    ensures Unpack(a + b) == Unpack(a) + Unpack(b)
    decreases |a|
  {
    hide ByteBits;
    if a == [] {
      assert a + b == b;
    } else {
      assert (a + b)[1..] == a[1..] + b;
      UnpackConcat(a[1..], b);
    }
  }

  // Generator and decoder together: for every complete prefix code whose end symbol is a
  // long run of ones and whose table the generator reports to be within the limits, decoding
  // the packed bytes of an encoded string gives the string back.
  method DecodeEncoded(ls: seq<Literal>, eos: nat, data: seq<nat>, ghost msg: seq<nat>, ghost pad: Code)
    returns (r: Printed, d: Decoded)
    requires var codes := Codes(ls);
             Legal(codes) && eos < |codes| && |codes[eos]| >= 8 && forall i :: 0 <= i < |codes[eos]| ==> codes[eos][i]
    requires forall i :: 0 <= i < |msg| ==> msg[i] < |ls| && msg[i] < 256
    requires |pad| < 8 && (forall i :: 0 <= i < |pad| ==> pad[i]) && Unpack(data) == EncodeBits(Codes(ls), msg) + pad
    ensures r.Printed? && r.biggest <= 255 && |r.table| <= 0x8000 ==> d.Decoded? && d.out == msg
    ensures exists t :: Compiles(Codes(ls), t, r)
  {
    hide Biggest, Table, Terms, Codes, Packs, Flags;
    ghost var codes := Codes(ls);
    r := Generate(ls);
    ghost var t :| Compiles(codes, t, r);
    if r.JumpTooFar? {
      return r, Bad;
    }
    d := DecodeData(r.table, r.terms, data);
    if r.biggest <= 255 && |r.table| <= 0x8000 {
      FlagsPacked(r.terms, Terms(t, |t|));
      FitsReported(t);
      DecodeMessage(t, codes, eos, msg, pad);
    }
  }
}
