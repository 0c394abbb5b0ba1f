/** The header lexer of libwebsockets: lib/minilex.c compiles a list of words into a
    byte-coded trie, and lextable_decode of lib/parsers.c walks it. */
module Lexer {
  import opened Octets

  type Word = seq<nat>

  // One slot of a state: a character with the state it leads to, or, when `to` is 0,
  // a terminal marker holding the number of a word.
  datatype Edge = Edge(c: nat, to: nat)
  type Node = seq<Edge>

  const FAIL_CHAR := 8

  // ---------------------------------------------------------------------------
  // Tries
  // ---------------------------------------------------------------------------

  predicate Terminal(node: Node) { |node| == 1 && node[0].to == 0 }

  predicate PrefixOf(s: Word, w: Word) { |s| <= |w| && w[..|s|] == s }

  ghost predicate Started(words: seq<Word>, s: Word) {
    exists k :: 0 <= k < |words| && words[k] != [] && PrefixOf(s, words[k])
  }

  // What the generator accepts: the characters the table format can hold and that
  // case folding leaves alone, and no word continuing another.
  ghost predicate Legal(words: seq<Word>) {
    && |words| <= 128
    && (exists k :: 0 <= k < |words| && words[k] != [])
    && (forall k, m :: 0 <= k < |words| && 0 <= m < |words[k]| ==>
          FAIL_CHAR < words[k][m] < 128 && !('A' as nat <= words[k][m] <= 'Z' as nat))
    && (forall j, k :: 0 <= j < |words| && 0 <= k < |words| && j != k && words[j] != [] && words[k] != [] ==>
          !PrefixOf(words[j], words[k]))
  }

  function ToLower(c: nat): nat { if 'A' as nat <= c <= 'Z' as nat then c + 32 else c }

  function Fold(s: Word): (f: Word)
    ensures |f| == |s|
  {
    seq(|s|, i requires 0 <= i < |s| => ToLower(s[i]))
  }

  // The slot of a non-terminal state holding character c.
  function Find(node: Node, c: nat, m: nat): (r: int)
    requires m <= |node|
    ensures r == -1 || m <= r < |node|
    ensures r >= 0 ==> node[r].c == c && node[r].to != 0
    decreases |node| - m
  {
    if m == |node| then -1
    else if node[m].c == c && node[m].to != 0 then m
    else Find(node, c, m + 1)
  }

  // A state's slots lead forward, to states that continue its path by their character;
  // the first one leads to the very next state. `path` spells out the characters leading
  // to each state.
  ghost predicate NodeOk(node: Node, i: nat, path: seq<Word>)
    requires i < |path|
  {
    || Terminal(node)
    || (&& (forall m :: 0 <= m < |node| ==>
              i < node[m].to < |path| && path[node[m].to] == path[i] + [node[m].c])
        && (forall l, m :: 0 <= l < m < |node| ==>
              node[l].c != node[m].c && node[l].to < node[m].to)
        && (node != [] ==> node[0].to == i + 1))
  }

  // ... and a terminal state is the end of its word, one of the first n.
  ghost predicate StateOk(node: Node, i: nat, path: seq<Word>, words: seq<Word>, n: nat)
    requires i < |path|
  {
    && NodeOk(node, i, path)
    && Started(words, path[i])
    && (Terminal(node) ==> node[0].c < n <= |words| && words[node[0].c] == path[i] != [])
  }

  // Following s from state i; -1 when some character has no slot.
  function Walk(t: seq<Node>, i: int, s: Word): (r: int)
    ensures r == -1 || 0 <= r < |t|
    decreases |s|
  {
    if !(0 <= i < |t|) then -1
    else if s == [] then i
    else
      var m := Find(t[i], s[0], 0);
      if m < 0 then -1 else Walk(t, t[i][m].to, s[1..])
  }

  ghost predicate Reaches(t: seq<Node>, words: seq<Word>, k: nat)
    requires k < |words|
  {
    Walk(t, 0, words[k]) >= 0 && t[Walk(t, 0, words[k])] == [Edge(k, 0)]
  }

  // The state array after the first n words and, possibly, the start of one more: only
  // the state just reached may still be without slots, and then it is the newest one.
  ghost predicate Building(t: seq<Node>, path: seq<Word>, words: seq<Word>, n: nat, walk: nat) {
    && |t| == |path| >= 1 && path[0] == [] && n <= |words|
    && (forall i :: 0 <= i < |t| ==> StateOk(t[i], i, path, words, n))
    && (forall i :: 0 <= i < |t| && t[i] == [] ==> i == walk == |t| - 1)
    && (forall k :: 0 <= k < n && words[k] != [] ==> Reaches(t, words, k))
  }

  // The finished trie.
  ghost predicate Trie(t: seq<Node>, path: seq<Word>, words: seq<Word>) {
    && Building(t, path, words, |words|, 0)
    && forall i :: 0 <= i < |t| ==> t[i] != []
  }

  lemma {:induction false} WalkPath(t: seq<Node>, path: seq<Word>, i: nat, s: Word)
    requires |t| == |path| && i < |t| && forall j :: 0 <= j < |t| ==> NodeOk(t[j], j, path)
    ensures Walk(t, i, s) >= 0 ==> path[Walk(t, i, s)] == path[i] + s
    decreases |s|
  {
    if s == [] {
      assert path[i] + s == path[i];
    } else {
      var m := Find(t[i], s[0], 0);
      if m >= 0 {
        assert NodeOk(t[i], i, path);
        var j := t[i][m].to;
        WalkPath(t, path, j, s[1..]);
        assert path[i] + [s[0]] + s[1..] == path[i] + s;
      }
    }
  }

  lemma {:induction false} WalkConcat(t: seq<Node>, i: int, s: Word, u: Word)
    ensures Walk(t, i, s + u) == Walk(t, Walk(t, i, s), u)
    decreases |s|
  {
    if s == [] {
      assert s + u == u;
    } else if 0 <= i < |t| {
      assert (s + u)[1..] == s[1..] + u;
      var m := Find(t[i], s[0], 0);
      if m >= 0 {
        WalkConcat(t, t[i][m].to, s[1..], u);
      }
    }
  }

  // ---------------------------------------------------------------------------
  // Building the trie
  // ---------------------------------------------------------------------------

  ghost predicate Extends(t: seq<Node>, u: seq<Node>) {
    |t| <= |u| && forall i :: 0 <= i < |t| ==> t[i] <= u[i]
  }

  lemma {:induction false} FindExtends(node: Node, more: Node, c: nat, m: nat)
    requires node <= more && m <= |node| && Find(node, c, m) >= 0
    ensures Find(more, c, m) == Find(node, c, m)
    decreases |node| - m
  {
    if !(node[m].c == c && node[m].to != 0) {
      FindExtends(node, more, c, m + 1);
    }
  }

  lemma {:induction false} WalkExtends(t: seq<Node>, u: seq<Node>, i: int, s: Word)
    requires Extends(t, u) && Walk(t, i, s) >= 0
    ensures Walk(u, i, s) == Walk(t, i, s)
    decreases |s|
  {
    if s != [] {
      FindExtends(t[i], u[i], s[0], 0);
      WalkExtends(t, u, t[i][Find(t[i], s[0], 0)].to, s[1..]);
    }
  }

  // Replacing one non-terminal state by a longer one keeps the words already there.
  lemma ReachesExtends(t: seq<Node>, u: seq<Node>, words: seq<Word>, walk: nat, k: nat)
    requires Extends(t, u) && walk < |t| && !Terminal(t[walk]) && k < |words|
    requires forall i :: 0 <= i < |t| && i != walk ==> u[i] == t[i]
    requires Reaches(t, words, k)
    ensures Reaches(u, words, k)
  {
    WalkExtends(t, u, 0, words[k]);
  }

  lemma NoContinuation(words: seq<Word>, n: nat, s: Word)
    requires Legal(words) && n < |words| && words[n] != [] && words[n] < s
    ensures !Started(words, s)
  {
    forall k | 0 <= k < |words| && words[k] != [] ensures !PrefixOf(s, words[k]) {
      assert PrefixOf(s, words[k]) ==> PrefixOf(words[n], words[k]);
    }
  }

  // A word being added never runs through the end of another one ...
  lemma NotTerminal(node: Node, i: nat, path: seq<Word>, words: seq<Word>, n: nat, m: nat)
    requires Legal(words) && n < |words| && m <= |words[n]| && i < |path|
    requires StateOk(node, i, path, words, n) && path[i] == words[n][..m]
    ensures !Terminal(node)
  {
    if Terminal(node) {
      assert PrefixOf(words[node[0].c], words[n]);
    }
  }

  // ... and its own end is a fresh leaf.
  lemma FreshLeaf(node: Node, i: nat, path: seq<Word>, words: seq<Word>, n: nat)
    requires Legal(words) && n < |words| && words[n] != [] && i < |path|
    requires StateOk(node, i, path, words, n) && path[i] == words[n]
    requires forall j :: 0 <= j < |path| ==> Started(words, path[j])
    ensures node == []
  {
    assert words[n][..|words[n]|] == words[n];
    NotTerminal(node, i, path, words, n, |words[n]|);
    if node != [] {
      NoContinuation(words, n, path[i] + [node[0].c]);
    }
  }

  // A new slot, leading to a new state.
  lemma SlotOk(node: Node, i: nat, path: seq<Word>, c: nat)
    requires i < |path| && NodeOk(node, i, path) && !Terminal(node)
    requires Find(node, c, 0) == -1 && (node == [] ==> i == |path| - 1)
    ensures NodeOk(node + [Edge(c, |path|)], i, path + [path[i] + [c]])
  {
    FindNone(node, c, 0);
  }

  lemma {:induction false} FindNone(node: Node, c: nat, m: nat)
    requires m <= |node| && Find(node, c, m) == -1
    ensures forall l :: m <= l < |node| && node[l].to != 0 ==> node[l].c != c
    decreases |node| - m
  {
    if m < |node| {
      FindNone(node, c, m + 1);
    }
  }

  lemma {:induction false} FindLast(node: Node, c: nat, to: nat, m: nat)
    requires m <= |node| && Find(node, c, m) == -1 && to != 0
    ensures Find(node + [Edge(c, to)], c, m) == |node|
    decreases |node| - m
  {
    if m < |node| {
      FindLast(node, c, to, m + 1);
    }
  }

  lemma StateOkGrows(node: Node, i: nat, path: seq<Word>, more: seq<Word>, words: seq<Word>, n: nat, k: nat)
    requires i < |path| && path <= more && n <= k <= |words| && StateOk(node, i, path, words, n)
    ensures StateOk(node, i, more, words, k)
  {}

  function WithSlot(t: seq<Node>, walk: nat, c: nat): seq<Node>
    requires walk < |t|
  {
    t[walk := t[walk] + [Edge(c, |t|)]] + [[]]
  }

  lemma AddSlotStates(t: seq<Node>, path: seq<Word>, words: seq<Word>, n: nat, walk: nat, c: nat, i: nat)
    requires Building(t, path, words, n, walk) && walk < |t| && !Terminal(t[walk]) && i <= |t|
    requires Find(t[walk], c, 0) == -1 && Started(words, path[walk] + [c])
    ensures StateOk(WithSlot(t, walk, c)[i], i, path + [path[walk] + [c]], words, n)
  {
    hide Reaches, Started;
    var more := path + [path[walk] + [c]];
    if i == |t| {
      hide Building;
    } else {
      assert StateOk(t[i], i, path, words, n);
      assert t[walk] == [] ==> walk == |t| - 1;
      hide Building;
      if i == walk {
        SlotOk(t[walk], walk, path, c);
      } else {
        StateOkGrows(t[i], i, path, more, words, n, n);
      }
    }
  }

  lemma AddSlotBuilds(t: seq<Node>, path: seq<Word>, words: seq<Word>, n: nat, walk: nat, c: nat)
    requires Building(t, path, words, n, walk) && walk < |t| && !Terminal(t[walk])
    requires Find(t[walk], c, 0) == -1 && Started(words, path[walk] + [c])
    ensures Building(WithSlot(t, walk, c), path + [path[walk] + [c]], words, n, |t|)
  {
    hide StateOk, Reaches, Started;
    var u, more := WithSlot(t, walk, c), path + [path[walk] + [c]];
    forall i | 0 <= i < |u| ensures StateOk(u[i], i, more, words, n) {
      AddSlotStates(t, path, words, n, walk, c, i);
    }
    forall k | 0 <= k < n && words[k] != [] ensures Reaches(u, words, k) {
      ReachesExtends(t, u, words, walk, k);
    }
  }

  lemma FollowSlot(t: seq<Node>, path: seq<Word>, words: seq<Word>, n: nat, walk: nat, y: nat)
    requires Building(t, path, words, n, walk) && walk < |t| && !Terminal(t[walk]) && y < |t[walk]|
    ensures t[walk][y].to < |t| && path[t[walk][y].to] == path[walk] + [t[walk][y].c]
    ensures Building(t, path, words, n, t[walk][y].to)
  {
    hide Reaches, Started;
    assert StateOk(t[walk], walk, path, words, n);
  }

  lemma AddSlotWalks(t: seq<Node>, walk: nat, s: Word, c: nat)
    requires walk < |t| && Walk(t, 0, s) == walk && Find(t[walk], c, 0) == -1
    ensures Walk(WithSlot(t, walk, c), 0, s + [c]) == |t|
  {
    var u := WithSlot(t, walk, c);
    WalkExtends(t, u, 0, s);
    WalkConcat(u, 0, s, [c]);
    FindLast(t[walk], c, |t|, 0);
  }

  lemma FinishState(t: seq<Node>, path: seq<Word>, words: seq<Word>, n: nat, walk: nat, i: nat)
    requires Building(t, path, words, n, walk) && n < |words| && walk < |t| && i < |t|
    requires path[walk] == words[n] != []
    ensures StateOk(t[walk := [Edge(n, 0)]][i], i, path, words, n + 1)
  {
    hide Reaches, Started;
    assert StateOk(t[i], i, path, words, n);
    if i != walk {
      StateOkGrows(t[i], i, path, path, words, n, n + 1);
    }
  }

  lemma FinishBuilds(t: seq<Node>, path: seq<Word>, words: seq<Word>, n: nat, walk: nat)
    requires Building(t, path, words, n, walk) && n < |words| && walk < |t|
    requires t[walk] == [] && path[walk] == words[n] != [] && Walk(t, 0, words[n]) == walk
    ensures Building(t[walk := [Edge(n, 0)]], path, words, n + 1, 0)
  {
    hide StateOk, Started, Reaches;
    var u := t[walk := [Edge(n, 0)]];
    forall i | 0 <= i < |u| ensures StateOk(u[i], i, path, words, n + 1) {
      FinishState(t, path, words, n, walk, i);
    }
    forall k | 0 <= k < n + 1 && words[k] != [] ensures Reaches(u, words, k) {
      if k < n {
        ReachesExtends(t, u, words, walk, k);
      } else {
        ReachesNew(t, words, n, walk);
      }
    }
  }

  lemma ReachesNew(t: seq<Node>, words: seq<Word>, n: nat, walk: nat)
    requires n < |words| && walk < |t| && t[walk] == [] && Walk(t, 0, words[n]) == walk
    ensures Reaches(t[walk := [Edge(n, 0)]], words, n)
  {
    WalkExtends(t, t[walk := [Edge(n, 0)]], 0, words[n]);
  }

  class Generator {
    var state: seq<Node>  // state[0..next]
    ghost var path: seq<Word>

    constructor ()
      ensures state == [[]] && path == [[]]
    {
      state := [[]];
      path := [[]];
    }

    // The inner search loop over a state's slots.
    method FindSlot(walk: nat, c: nat) returns (y: nat)
      requires walk < |state| == |path| && !Terminal(state[walk]) && NodeOk(state[walk], walk, path)
      ensures y <= |state[walk]|
      ensures Find(state[walk], c, 0) == if y < |state[walk]| then y else -1
    {
      y := 0;
      while y < |state[walk]| && state[walk][y].c != c
        invariant y <= |state[walk]| && Find(state[walk], c, 0) == Find(state[walk], c, y)
      {
        y := y + 1;
      }
    }

    // One word of the list.
    method AddWord(words: seq<Word>, n: nat)
      requires Legal(words) && n < |words| && Building(state, path, words, n, 0)
      modifies this
      ensures Building(state, path, words, n + 1, 0)
      ensures Slots(state) <= old(Slots(state)) + |words[n]| + 1
    {
      hide Legal, StateOk, Reaches, Started, Slots;
      if words[n] == [] {
        forall i | 0 <= i < |state| ensures StateOk(state[i], i, path, words, n + 1) {
          StateOkGrows(state[i], i, path, path, words, n, n + 1);
        }
        return;
      }
      var walk: nat, m := 0, 0;
      while m < |words[n]|
        invariant m <= |words[n]| && walk < |state|
        invariant Building(state, path, words, n, walk)
        invariant path[walk] == words[n][..m] && Walk(state, 0, words[n][..m]) == walk
        invariant Slots(state) <= old(Slots(state)) + m
      {
        var c := words[n][m];
        assert words[n][..m + 1] == words[n][..m] + [c];
        walk := Advance(words, n, walk, m);
        m := m + 1;
      }
      assert words[n][..m] == words[n];
      LeafAt(state, path, words, n, walk);
      FinishBuilds(state, path, words, n, walk);
      SlotsUpdate(state, walk, [Edge(n, 0)]);
      state := state[walk := [Edge(n, 0)]];
    }

    // One character: an existing slot is followed, or a new one added.
    method Advance(words: seq<Word>, n: nat, walk: nat, m: nat) returns (to: nat)
      requires Legal(words) && n < |words| && m < |words[n]| && walk < |state|
      requires Building(state, path, words, n, walk)
      requires path[walk] == words[n][..m] && Walk(state, 0, words[n][..m]) == walk
      modifies this
      ensures to < |state| && Building(state, path, words, n, to)
      ensures path[to] == words[n][..m + 1] && Walk(state, 0, words[n][..m + 1]) == to
      ensures Slots(state) <= old(Slots(state)) + 1
    {
      hide Legal, StateOk, NodeOk, Reaches, Started, WithSlot, Building, Slots;
      var c := words[n][m];
      assert words[n][..m + 1] == words[n][..m] + [c];
      InsideWord(state, path, words, n, walk, m);
      var y := FindSlot(walk, c);
      if y < |state[walk]| {
        WalkConcat(state, 0, words[n][..m], [c]);
        FollowSlot(state, path, words, n, walk, y);
        to := state[walk][y].to;
      } else {
        PrefixStarted(words, n, m + 1);
        AddSlotBuilds(state, path, words, n, walk, c);
        AddSlotWalks(state, walk, words[n][..m], c);
        SlotsWithSlot(state, walk, c);
        to := |state|;
        state := WithSlot(state, walk, c);
        path := path + [path[walk] + [c]];
      }
    }
  }

  lemma PrefixStarted(words: seq<Word>, n: nat, m: nat)
    requires n < |words| && m <= |words[n]| && words[n] != []
    ensures Started(words, words[n][..m])
  {
    assert PrefixOf(words[n][..m], words[n]);
  }

  lemma InsideWord(t: seq<Node>, path: seq<Word>, words: seq<Word>, n: nat, walk: nat, m: nat)
    requires Legal(words) && n < |words| && m <= |words[n]| && walk < |t|
    requires Building(t, path, words, n, walk) && path[walk] == words[n][..m]
    ensures |t| == |path| && !Terminal(t[walk]) && NodeOk(t[walk], walk, path)
  {
    hide Legal, Reaches, Started;
    assert StateOk(t[walk], walk, path, words, n);
    NotTerminal(t[walk], walk, path, words, n, m);
  }

  lemma LeafAt(t: seq<Node>, path: seq<Word>, words: seq<Word>, n: nat, walk: nat)
    requires Legal(words) && n < |words| && words[n] != [] && walk < |t|
    requires Building(t, path, words, n, walk) && path[walk] == words[n]
    ensures t[walk] == []
  {
    assert StateOk(t[walk], walk, path, words, n);
    forall j | 0 <= j < |path| ensures Started(words, path[j]) {
      assert StateOk(t[j], j, path, words, n);
    }
    FreshLeaf(t[walk], walk, path, words, n);
  }

  // ---------------------------------------------------------------------------
  // The table: positions and bytes
  // ---------------------------------------------------------------------------

  // Two units per slot of the earlier states: what the generator calls bytepos.
  function BytePos(t: seq<Node>, i: nat): nat
    requires i <= |t|
  {
    if i == 0 then 0 else BytePos(t, i - 1) + 2 * |t[i - 1]|
  }

  // A terminal marker takes two bytes, an only slot one, several slots three each and a
  // fail marker.
  function Size(node: Node): nat {
    if Terminal(node) then 2 else if |node| == 1 then 1 else 3 * |node| + 1
  }

  function Pos(t: seq<Node>, i: nat): nat
    requires i <= |t|
  {
    if i == 0 then 0 else Pos(t, i - 1) + Size(t[i - 1])
  }

  lemma {:induction false} BytePosGap(t: seq<Node>, i: nat, j: nat)
    requires i <= j <= |t| && forall k :: 0 <= k < |t| ==> t[k] != []
    ensures BytePos(t, j) >= BytePos(t, i) + 2 * (j - i)
    decreases j
  {
    if i < j {
      BytePosGap(t, i, j - 1);
    }
  }

  // The generator's test for the one-byte form holds exactly in single-slot states.
  lemma OneByteForm(t: seq<Node>, path: seq<Word>, i: nat, m: nat)
    requires |t| == |path| && i < |t| && m < |t[i]| && forall k :: 0 <= k < |t| ==> t[k] != []
    requires NodeOk(t[i], i, path) && !Terminal(t[i])
    ensures BytePos(t, t[i][m].to) - (BytePos(t, i) + 2 * m) == 2 <==> |t[i]| == 1
  {
    var j := t[i][m].to;
    assert BytePos(t, i + 1) == BytePos(t, i) + 2 * |t[i]|;
    BytePosGap(t, i + 1, j);
    assert m > 0 ==> j > t[i][0].to;
  }

  function Jump(t: seq<Node>, i: nat, m: nat): int
    requires i < |t| && m < |t[i]| && t[i][m].to < |t|
  {
    Pos(t, t[i][m].to) - (Pos(t, i) + 3 * m)
  }

  ghost predicate Targets(t: seq<Node>) {
    forall i, m :: 0 <= i < |t| && 0 <= m < |t[i]| ==> t[i][m].to < |t|
  }

  // The first m slots of a state with several.
  function SlotBytes(t: seq<Node>, i: nat, m: nat): (b: seq<int>)
    requires Targets(t) && i < |t| && m <= |t[i]|
    ensures |b| == 3 * m
  {
    if m == 0 then [] else
      var j := Jump(t, i, m - 1);
      SlotBytes(t, i, m - 1) + [t[i][m - 1].c, j % 256, j / 256]
  }

  function NodeBytes(t: seq<Node>, i: nat): (b: seq<int>)
    requires Targets(t) && i < |t|
    ensures |b| == Size(t[i])
  {
    if Terminal(t[i]) then [t[i][0].c / 256, t[i][0].c % 256]
    else if |t[i]| == 1 then [t[i][0].c + 128]
    else SlotBytes(t, i, |t[i]|) + [FAIL_CHAR]
  }

  function Table(t: seq<Node>, n: nat): (b: seq<int>)
    requires Targets(t) && n <= |t|
    ensures |b| == Pos(t, n)
  {
    if n == 0 then [] else Table(t, n - 1) + NodeBytes(t, n - 1)
  }

  lemma {:induction false} TableAt(t: seq<Node>, n: nat, i: nat, o: nat)
    requires Targets(t) && i < n <= |t| && o < Size(t[i])
    ensures Pos(t, i) + o < Pos(t, n) && Table(t, n)[Pos(t, i) + o] == NodeBytes(t, i)[o]
    decreases n
  {
    hide Size, NodeBytes, Targets;
    if i < n - 1 {
      TableAt(t, n - 1, i, o);
    }
  }

  lemma {:induction false} SlotBytesAt(t: seq<Node>, i: nat, n: nat, m: nat)
    requires Targets(t) && i < |t| && m < n <= |t[i]|
    ensures SlotBytes(t, i, n)[3 * m] == t[i][m].c
    ensures SlotBytes(t, i, n)[3 * m + 1] == Jump(t, i, m) % 256
    ensures SlotBytes(t, i, n)[3 * m + 2] == Jump(t, i, m) / 256
    decreases n
  {
    if m < n - 1 {
      SlotBytesAt(t, i, n - 1, m);
    }
  }

  // ---------------------------------------------------------------------------
  // Walking the table
  // ---------------------------------------------------------------------------

  // Beyond stands for reading past the table.
  datatype Move = Fail | At(pos: nat) | Beyond

  // lextable_decode, for a character already folded to lower case.
  function Decode(table: seq<int>, pos: nat, c: nat): Move
    decreases |table| - pos
  {
    if pos >= |table| then Beyond
    else if table[pos] >= 128 then
      if table[pos] - 128 != c then Fail
      else if pos + 1 >= |table| then Beyond
      else if table[pos + 1] == FAIL_CHAR then Fail
      else At(pos + 1)
    else if table[pos] == FAIL_CHAR then Fail
    else if table[pos] < FAIL_CHAR then At(pos)
    else if table[pos] == c then
      if pos + 2 >= |table| then Beyond
      else if pos + table[pos + 1] + 256 * table[pos + 2] < 0 then Beyond
      else At(pos + table[pos + 1] + 256 * table[pos + 2])
    else Decode(table, pos + 3, c)
  }

  lemma TrieTargets(t: seq<Node>, path: seq<Word>, words: seq<Word>)
    requires Trie(t, path, words)
    ensures Targets(t)
  {
    hide Reaches, Started;
    forall i, m | 0 <= i < |t| && 0 <= m < |t[i]| ensures t[i][m].to < |t| {
      assert StateOk(t[i], i, path, words, |words|);
    }
  }

  lemma SlotChar(t: seq<Node>, path: seq<Word>, words: seq<Word>, i: nat, m: nat)
    requires Legal(words) && Trie(t, path, words) && i < |t| && m < |t[i]| && !Terminal(t[i])
    ensures FAIL_CHAR < t[i][m].c < 128
  {
    assert StateOk(t[i], i, path, words, |words|);
    var j := t[i][m].to;
    assert StateOk(t[j], j, path, words, |words|);
    assert Started(words, path[j]);
    var k :| 0 <= k < |words| && words[k] != [] && PrefixOf(path[j], words[k]);
    assert words[k][|path[i]|] == path[j][|path[i]|] == t[i][m].c;
  }

  // What the decoder needs to know about one state.
  ghost predicate Decodable(t: seq<Node>, i: nat) {
    && i < |t| && t[i] != []
    && (Terminal(t[i]) ==> t[i][0].c < 128)
    && (!Terminal(t[i]) ==> t[i][0].to == i + 1)
    && (!Terminal(t[i]) ==> forall m :: 0 <= m < |t[i]| ==> FAIL_CHAR < t[i][m].c < 128 && 0 < t[i][m].to < |t|)
  }

  ghost predicate Encoded(t: seq<Node>, table: seq<int>) {
    Targets(t) && table == Table(t, |t|) && forall i :: 0 <= i < |t| ==> Decodable(t, i)
  }

  lemma CompiledDecodable(t: seq<Node>, path: seq<Word>, words: seq<Word>)
    requires Legal(words) && Trie(t, path, words) && Targets(t)
    ensures Encoded(t, Table(t, |t|))
  {
    forall i | 0 <= i < |t| ensures Decodable(t, i) {
      assert StateOk(t[i], i, path, words, |words|);
      if !Terminal(t[i]) {
        forall m | 0 <= m < |t[i]| ensures FAIL_CHAR < t[i][m].c < 128 {
          SlotChar(t, path, words, i, m);
        }
      }
    }
  }

  // No state begins with the fail marker.
  lemma FirstByte(t: seq<Node>, table: seq<int>, i: nat)
    requires Encoded(t, table) && i < |t|
    ensures Pos(t, i) < |table| && table[Pos(t, i)] != FAIL_CHAR
    ensures table[Pos(t, i)] < FAIL_CHAR <==> Terminal(t[i])
    ensures Terminal(t[i]) ==> Pos(t, i) + 1 < |table| && table[Pos(t, i)] == 0 && table[Pos(t, i) + 1] == t[i][0].c
    ensures |t[i]| == 1 && !Terminal(t[i]) ==> table[Pos(t, i)] == 128 + t[i][0].c
  {
    hide Table, Targets;
    assert Decodable(t, i);
    TableAt(t, |t|, i, 0);
    if Terminal(t[i]) {
      TableAt(t, |t|, i, 1);
    } else if |t[i]| > 1 {
      SlotBytesAt(t, i, |t[i]|, 0);
    }
  }

  lemma SlotAt(t: seq<Node>, table: seq<int>, i: nat, m: nat)
    requires Encoded(t, table) && i < |t| && !Terminal(t[i]) && |t[i]| > 1 && m < |t[i]|
    ensures Pos(t, i) + 3 * m + 2 < |table|
    ensures table[Pos(t, i) + 3 * m] == t[i][m].c
    ensures table[Pos(t, i) + 3 * m + 1] + 256 * table[Pos(t, i) + 3 * m + 2] == Jump(t, i, m)
  {
    hide Table, Targets, Decodable, Jump, Pos;
    TableAt(t, |t|, i, 3 * m);
    TableAt(t, |t|, i, 3 * m + 1);
    TableAt(t, |t|, i, 3 * m + 2);
    SlotBytesAt(t, i, |t[i]|, m);
  }

  ghost function Step(t: seq<Node>, i: nat, m: nat, c: nat): Move
    requires i < |t| && m <= |t[i]| && Targets(t)
  {
    var y := Find(t[i], c, m);
    if y < 0 then Fail else At(Pos(t, t[i][y].to))
  }

  // A state with one slot: the next state follows immediately.
  lemma DecodeSingle(t: seq<Node>, table: seq<int>, i: nat, c: nat)
    requires Encoded(t, table) && i < |t| && !Terminal(t[i]) && |t[i]| == 1
    ensures Decode(table, Pos(t, i), c) == Step(t, i, 0, c)
  {
    hide Table, Targets;
    assert Decodable(t, i);
    FirstByte(t, table, i);
    FirstByte(t, table, i + 1);
    assert Pos(t, i + 1) == Pos(t, i) + 1;
    assert Find(t[i], c, 1) == -1;
  }

  // A state with several slots: they are compared in turn, up to the fail marker.
  lemma {:induction false} DecodeSlots(t: seq<Node>, table: seq<int>, i: nat, m: nat, c: nat)
    requires Encoded(t, table) && i < |t| && !Terminal(t[i]) && |t[i]| > 1 && m <= |t[i]|
    ensures Decode(table, Pos(t, i) + 3 * m, c) == Step(t, i, m, c)
    decreases |t[i]| - m
  {
    hide Table, Targets;
    if m < |t[i]| {
      assert Decodable(t, i);
      SlotAt(t, table, i, m);
      DecodeSlots(t, table, i, m + 1, c);
      hide Decodable, Pos, Terminal;
    } else {
      FailAt(t, table, i);
    }
  }

  lemma FailAt(t: seq<Node>, table: seq<int>, i: nat)
    requires Encoded(t, table) && i < |t| && !Terminal(t[i]) && |t[i]| > 1
    ensures Pos(t, i) + 3 * |t[i]| < |table| && table[Pos(t, i) + 3 * |t[i]|] == FAIL_CHAR
  {
    hide Table, Targets, Decodable;
    TableAt(t, |t|, i, 3 * |t[i]|);
  }

  // One character from a state's position leads to the position of the state its slot
  // names, or fails; a terminal state stays where it is.
  lemma DecodeState(t: seq<Node>, table: seq<int>, i: nat, c: nat)
    requires Encoded(t, table) && i < |t|
    ensures Decode(table, Pos(t, i), c) == if Terminal(t[i]) then At(Pos(t, i)) else Step(t, i, 0, c)
  {
    hide Table, Targets;
    FirstByte(t, table, i);
    assert Decodable(t, i);
    if !Terminal(t[i]) {
      if |t[i]| == 1 {
        DecodeSingle(t, table, i, c);
      } else {
        DecodeSlots(t, table, i, 0, c);
      }
    }
  }

  // The header-name loop of libwebsocket_parse from a given position.
  datatype Lexed = Pending | Match(word: nat, used: nat) | NoMatch(used: nat) | Broken

  function Lex(table: seq<int>, pos: nat, s: Word, used: nat): Lexed
    requires used <= |s|
    decreases |s| - used
  {
    if used == |s| then Pending
    else match Decode(table, pos, ToLower(s[used]))
      case Fail => NoMatch(used + 1)
      case Beyond => Broken
      case At(p) =>
        if p >= |table| then Broken
        else if table[p] < FAIL_CHAR then
          if p + 1 >= |table| || 256 * table[p] + table[p + 1] < 0 then Broken
          else Match(256 * table[p] + table[p + 1], used + 1)
        else Lex(table, p, s, used + 1)
  }

  // What the answer means, in terms of the word list alone.
  ghost predicate Answers(words: seq<Word>, s: Word, r: Lexed) {
    match r
    case Pending => forall i :: 0 <= i <= |s| ==> Strictly(words, Fold(s)[..i])
    case Match(k, i) => 0 < i <= |s| && k < |words| && words[k] == Fold(s)[..i]
    case NoMatch(i) => 0 < i <= |s| && Strictly(words, Fold(s)[..i - 1]) && !Started(words, Fold(s)[..i])
    case Broken => false
  }

  // s begins some word without being one.
  ghost predicate Strictly(words: seq<Word>, s: Word) {
    Started(words, s) && forall k :: 0 <= k < |words| && words[k] != [] ==> words[k] != s
  }

  // For a prefix-free list there is only one such answer.
  lemma AnswerUnique(words: seq<Word>, s: Word, q: Lexed, r: Lexed)
    requires Legal(words) && Answers(words, s, q) && Answers(words, s, r)
    ensures q == r
  {
    hide Legal;
    StartedMonotone(words, Fold(s));
    if q.Match? {
      AnswerCovers(words, s, q, r);
    } else if r.Match? {
      AnswerCovers(words, s, r, q);
    }
  }

  lemma StartedMonotone(words: seq<Word>, s: Word)
    ensures forall i, j :: 0 <= i <= j <= |s| && Started(words, s[..j]) ==> Started(words, s[..i])
  {
    forall i, j | 0 <= i <= j <= |s| && Started(words, s[..j]) ensures Started(words, s[..i]) {
      var k :| 0 <= k < |words| && words[k] != [] && PrefixOf(s[..j], words[k]);
      assert s[..j][..i] == s[..i];
      assert PrefixOf(s[..i], words[k]);
    }
  }

  lemma AnswerCovers(words: seq<Word>, s: Word, q: Lexed, r: Lexed)
    requires Legal(words) && Answers(words, s, q) && Answers(words, s, r)
    requires q.Match?
    ensures q == r
  {
    var f := Fold(s);
    StartedMonotone(words, f);
    assert PrefixOf(f[..q.used], words[q.word]);
    match r
    case Match(k, i) =>
      if i <= q.used {
        assert f[..q.used][..i] == f[..i];
        assert PrefixOf(words[k], words[q.word]);
      } else {
        assert f[..i][..q.used] == f[..q.used];
        assert PrefixOf(words[q.word], words[k]);
      }
    case Pending =>
    case NoMatch(i) =>
      if q.used < i - 1 {
        assert f[..i - 1][..q.used] == f[..q.used];
        NoContinuation(words, q.word, f[..i - 1]);
      }
  }

  lemma WordEndsTerminal(t: seq<Node>, path: seq<Word>, words: seq<Word>, i: nat, s: Word)
    requires Trie(t, path, words) && i < |t| && Walk(t, 0, s) == i && !Terminal(t[i])
    ensures Strictly(words, s) && path[i] == s
  {
    forall j | 0 <= j < |t| ensures NodeOk(t[j], j, path) {
      assert StateOk(t[j], j, path, words, |words|);
    }
    WalkPath(t, path, 0, s);
    assert path[0] + s == s;
    assert StateOk(t[i], i, path, words, |words|);
    forall k | 0 <= k < |words| && words[k] != [] ensures words[k] != s {
      assert Reaches(t, words, k);
    }
  }

  lemma TerminalWord(t: seq<Node>, path: seq<Word>, words: seq<Word>, i: nat, s: Word)
    requires Trie(t, path, words) && i < |t| && Walk(t, 0, s) == i && Terminal(t[i])
    ensures t[i][0].c < |words| && words[t[i][0].c] == s
  {
    forall j | 0 <= j < |t| ensures NodeOk(t[j], j, path) {
      assert StateOk(t[j], j, path, words, |words|);
    }
    WalkPath(t, path, 0, s);
    assert path[0] + s == s;
    assert StateOk(t[i], i, path, words, |words|);
  }

  lemma NotStarted(t: seq<Node>, path: seq<Word>, words: seq<Word>, s: Word)
    requires Trie(t, path, words) && Walk(t, 0, s) < 0
    ensures !Started(words, s)
  {
    forall k | 0 <= k < |words| && words[k] != [] ensures !PrefixOf(s, words[k]) {
      var rest := if PrefixOf(s, words[k]) then words[k][|s|..] else [];
      assert PrefixOf(s, words[k]) ==> s + rest == words[k];
      WalkConcat(t, 0, s, rest);
      assert Reaches(t, words, k);
    }
  }

  lemma {:induction false} LexFrom(t: seq<Node>, path: seq<Word>, words: seq<Word>, table: seq<int>, i: nat,
                                   s: Word, used: nat)
    requires Trie(t, path, words) && Encoded(t, table) && i < |t| && used <= |s|
    requires Walk(t, 0, Fold(s)[..used]) == i && !Terminal(t[i])
    requires forall j :: 0 <= j < used ==> Strictly(words, Fold(s)[..j])
    ensures Answers(words, s, Lex(table, Pos(t, i), s, used))
    decreases |s| - used
  {
    hide Trie, Decodable, Strictly, Started, Table, Decode, Fold, Pos;
    var f := Fold(s);
    WordEndsTerminal(t, path, words, i, f[..used]);
    if used < |s| {
      var c := ToLower(s[used]);
      FoldNext(s, used);
      DecodeState(t, table, i, c);
      WalkConcat(t, 0, f[..used], [c]);
      var y := Find(t[i], c, 0);
      if y < 0 {
        NotStarted(t, path, words, f[..used + 1]);
      } else {
        var j := t[i][y].to;
        FirstByte(t, table, j);
        if Terminal(t[j]) {
          TerminalWord(t, path, words, j, f[..used + 1]);
          assert Lex(table, Pos(t, i), s, used) == Match(t[j][0].c, used + 1);
        } else {
          LexFrom(t, path, words, table, j, s, used + 1);
        }
      }
    }
  }

  lemma FoldNext(s: Word, i: nat)
    requires i < |s|
    ensures |Fold(s)| == |s| && Fold(s)[..i + 1] == Fold(s)[..i] + [ToLower(s[i])]
  {}

  // Walking the compiled table from its start gives, for every input, the answer that
  // the word list defines.
  lemma LexCorrect(t: seq<Node>, path: seq<Word>, words: seq<Word>, table: seq<int>, s: Word)
    requires Legal(words) && Trie(t, path, words) && Targets(t) && table == Table(t, |t|)
    ensures Answers(words, s, Lex(table, 0, s, 0))
  {
    CompiledDecodable(t, path, words);
    assert StateOk(t[0], 0, path, words, |words|);
    assert Fold(s)[..0] == [];
    hide Legal;
    LexFrom(t, path, words, table, 0, s, 0);
  }

  // s is w with any of its letters in upper case.
  predicate Spells(s: Word, w: Word) {
    |s| == |w| &&
    forall i :: 0 <= i < |s| ==> s[i] == w[i] || ('a' as nat <= w[i] <= 'z' as nat && s[i] == w[i] - 32)
  }

  lemma SpellsFold(s: Word, w: Word)
    requires forall i :: 0 <= i < |w| ==> !('A' as nat <= w[i] <= 'Z' as nat)
    ensures Spells(s, w) <==> Fold(s) == w
  {
    var f := Fold(s);
    if f == w {
      forall i | 0 <= i < |s| ensures s[i] == w[i] || ('a' as nat <= w[i] <= 'z' as nat && s[i] == w[i] - 32) {
        assert f[i] == w[i];
      }
    }
  }

  // The table stops at terminal k after i characters exactly when these are word k, whatever
  // the case of their letters.
  ghost predicate Recognises(words: seq<Word>, table: seq<int>) {
    forall k, s, i :: 0 <= k < |words| && words[k] != [] && 0 <= i <= |s| ==>
      (Lex(table, 0, s, 0) == Match(k, i) <==> Spells(s[..i], words[k]))
  }

  lemma RecognisesWords(words: seq<Word>, table: seq<int>)
    requires Legal(words) && forall s :: Answers(words, s, Lex(table, 0, s, 0))
    ensures Recognises(words, table)
  {
    forall k, s, i | 0 <= k < |words| && words[k] != [] && 0 <= i <= |s|
      ensures Lex(table, 0, s, 0) == Match(k, i) <==> Spells(s[..i], words[k])
    {
      SpellsFold(s[..i], words[k]);
      assert Fold(s)[..i] == Fold(s[..i]);
      var r := Lex(table, 0, s, 0);
      hide Legal, Lex, Fold, Spells;
      if Fold(s[..i]) == words[k] {
        AnswerUnique(words, s, r, Match(k, i));
      }
    }
  }

  // ---------------------------------------------------------------------------
  // The position and emission passes, and the decoder
  // ---------------------------------------------------------------------------

  datatype Emitted = Emitted(table: seq<byte>) | TerminalTooBig | JumpTooFar

  // Bytes of the first m slots of state i, with the fail marker after the last one.
  function PartBytes(t: seq<Node>, i: nat, m: nat): (b: seq<int>)
    requires Targets(t) && i < |t| && m <= |t[i]|
  {
    if Terminal(t[i]) || |t[i]| == 1 then (if m == 0 then [] else NodeBytes(t, i))
    else SlotBytes(t, i, m) + (if m == |t[i]| then [FAIL_CHAR] else [])
  }

  lemma PartNext(t: seq<Node>, i: nat, m: nat)
    requires Targets(t) && i < |t| && m < |t[i]|
    ensures PartBytes(t, i, 0) == [] && PartBytes(t, i, |t[i]|) == NodeBytes(t, i)
    ensures Terminal(t[i]) ==> PartBytes(t, i, m + 1) == PartBytes(t, i, m) + [t[i][m].c / 256, t[i][m].c % 256]
    ensures !Terminal(t[i]) && |t[i]| == 1 ==> PartBytes(t, i, m + 1) == PartBytes(t, i, m) + [t[i][m].c + 128]
    ensures !Terminal(t[i]) && |t[i]| > 1 ==>
              var j := Jump(t, i, m);
              && |PartBytes(t, i, m)| == 3 * m
              && PartBytes(t, i, m + 1) == PartBytes(t, i, m) + [t[i][m].c, j % 256, j / 256]
                                           + (if m == |t[i]| - 1 then [FAIL_CHAR] else [])
  {
    hide Targets, Jump;
  }

  // Some jump does not fit two bytes.
  ghost predicate FarFrom(t: seq<Node>, i: nat) {
    i < |t| && exists m :: 0 <= m < |t[i]| && t[i][m].to < |t| && Jump(t, i, m) > 0xffff
  }

  ghost predicate FarJump(t: seq<Node>) {
    exists i :: 0 <= i < |t| && FarFrom(t, i)
  }

  method BytePositions(t: seq<Node>) returns (bytepos: seq<nat>)
    ensures |bytepos| == |t| && forall i :: 0 <= i < |t| ==> bytepos[i] == BytePos(t, i)
  {
    hide BytePos;
    BytePosZero(t);
    bytepos := [];
    var walk := 0;
    for n := 0 to |t|
      invariant |bytepos| == n && walk == BytePos(t, n)
      invariant forall i :: 0 <= i < n ==> bytepos[i] == BytePos(t, i)
    {
      BytePosNext(t, n);
      bytepos := bytepos + [walk];
      walk := walk + 2 * |t[n]|;
    }
  }

  // What the two passes need to know about state i.
  ghost predicate Emittable(t: seq<Node>, bytepos: seq<nat>, i: nat)
    requires i < |t|
  {
    && |bytepos| == |t| && t[i] != []
    && (Terminal(t[i]) ==> t[i][0].c <= 0x7ff)
    && (!Terminal(t[i]) ==> t[i][0].to == i + 1)
    && (!Terminal(t[i]) ==> forall m :: 0 <= m < |t[i]| ==>
          && i < t[i][m].to < |t| && t[i][m].c < 128
          && (bytepos[t[i][m].to] == bytepos[i] + 2 * m + 2 <==> |t[i]| == 1))
  }

  lemma TrieEmittable(t: seq<Node>, path: seq<Word>, words: seq<Word>, bytepos: seq<nat>, i: nat)
    requires Legal(words) && Trie(t, path, words) && i < |t|
    requires |bytepos| == |t| && forall j :: 0 <= j < |t| ==> bytepos[j] == BytePos(t, j)
    ensures Emittable(t, bytepos, i)
  {
    assert StateOk(t[i], i, path, words, |words|);
    FewWords(words);
    hide Reaches, Started, Legal, StateOk;
    if !Terminal(t[i]) {
      forall m | 0 <= m < |t[i]|
        ensures t[i][m].c < 128 && (bytepos[t[i][m].to] == bytepos[i] + 2 * m + 2 <==> |t[i]| == 1)
      {
        OneByteForm(t, path, i, m);
        SlotChar(t, path, words, i, m);
      }
    }
  }

  // One state of the position pass.
  method Measure(t: seq<Node>, bytepos: seq<nat>, n: nat, start: nat) returns (pos: nat)
    requires n < |t| && Emittable(t, bytepos, n)
    ensures pos == start + Size(t[n])
  {
    pos := start;
    ghost var node := t[n];
    var walk := bytepos[n];
    for m := 0 to |t[n]|
      invariant walk == bytepos[n] + 2 * m
      invariant pos == start + (if Terminal(node) then 2 * m else if |node| == 1 then m
                                else 3 * m + (if m == |node| then 1 else 0))
    {
      if t[n][m].to == 0 {
        pos := pos + 2;
      } else if bytepos[t[n][m].to] == walk + 2 {
        pos := pos + 1;
      } else {
        pos := pos + 3;
        if m == |t[n]| - 1 {
          pos := pos + 1;
        }
      }
      walk := walk + 2;
    }
  }

  method RealPositions(t: seq<Node>, bytepos: seq<nat>) returns (place: seq<nat>)
    requires forall i :: 0 <= i < |t| ==> Emittable(t, bytepos, i)
    ensures |place| == |t| && forall i :: 0 <= i < |t| ==> place[i] == Pos(t, i)
  {
    hide Emittable, Size;
    place := [];
    var pos := 0;
    for n := 0 to |t|
      invariant |place| == n && pos == Pos(t, n)
      invariant forall i :: 0 <= i < n ==> place[i] == Pos(t, i)
    {
      place := place + [pos];
      pos := Measure(t, bytepos, n, pos);
    }
  }

  lemma {:induction false} PosGap(t: seq<Node>, i: nat, j: nat)
    requires i <= j <= |t|
    ensures Pos(t, i) <= Pos(t, j)
    decreases j
  {
    if i < j {
      PosGap(t, i, j - 1);
    }
  }

  // A jump leads forward, past the rest of its own state.
  lemma JumpForward(t: seq<Node>, i: nat, m: nat)
    requires i < |t| && m < |t[i]| && !Terminal(t[i]) && i < t[i][m].to < |t|
    ensures Jump(t, i, m) >= 0
  {
    PosGap(t, i + 1, t[i][m].to);
  }

  // Slots that are not stored as jumps would fit as such.
  lemma NearJump(t: seq<Node>, i: nat, m: nat)
    requires i < |t| && m < |t[i]| && t[i][m].to < |t|
    requires Terminal(t[i]) || (|t[i]| == 1 && t[i][0].to == i + 1)
    ensures Jump(t, i, m) <= 0xffff
  {
    if Terminal(t[i]) {
      PosGap(t, 0, i);
    }
  }

  // One state of the emission pass. The table consists of bytes: that is what the test of
  // the jump is for.
  method EmitState(t: seq<Node>, bytepos: seq<nat>, place: seq<nat>, n: nat, start: seq<byte>) returns (r: Emitted)
    requires Targets(t) && n < |t| && Emittable(t, bytepos, n)
    requires |start| == Pos(t, n) && |place| == |t| && forall i :: 0 <= i < |t| ==> place[i] == Pos(t, i)
    ensures !r.TerminalTooBig? && (r.JumpTooFar? <==> FarFrom(t, n))
    ensures r.Emitted? ==> r.table == start + NodeBytes(t, n)
  {
    hide Pos, Targets, PartBytes, NodeBytes, Jump;
    PartNext(t, n, 0);
    var out: seq<byte>, walk := start, bytepos[n];
    for m := 0 to |t[n]|
      invariant walk == bytepos[n] + 2 * m
      invariant out == start + PartBytes(t, n, m)
      invariant forall k | 0 <= k < m :: t[n][k].to < |t| && Jump(t, n, k) <= 0xffff
    {
      PartNext(t, n, m);
      var y, saw := t[n][m].c, t[n][m].to;
      if saw == 0 {
        if y > 0x7ff {
          return TerminalTooBig;
        }
        NearJump(t, n, m);
        out := out + [y / 256, y % 256];
      } else if bytepos[saw] == walk + 2 {
        NearJump(t, n, m);
        out := out + [y + 128];
      } else {
        var j := place[saw] - |out|;
        JumpIs(t, n, m, j);
        if j > 0xffff {
          return JumpTooFar;
        }
        JumpForward(t, n, m);
        out := out + [y, j % 256, j / 256];
        if m == |t[n]| - 1 {
          out := out + [FAIL_CHAR];
        }
      }
      walk := walk + 2;
    }
    r := Emitted(out);
  }

  lemma JumpIs(t: seq<Node>, i: nat, m: nat, j: int)
    requires i < |t| && m < |t[i]| && t[i][m].to < |t| && j == Pos(t, t[i][m].to) - (Pos(t, i) + 3 * m)
    ensures j == Jump(t, i, m)
  {}

  method Emit(t: seq<Node>, bytepos: seq<nat>, place: seq<nat>) returns (r: Emitted)
    requires Targets(t) && forall i :: 0 <= i < |t| ==> Emittable(t, bytepos, i)
    requires |place| == |t| && forall i :: 0 <= i < |t| ==> place[i] == Pos(t, i)
    ensures !r.TerminalTooBig? && (r.JumpTooFar? <==> FarJump(t))
    ensures r.Emitted? ==> r.table == Table(t, |t|)
  {
    hide Emittable, Pos, NodeBytes, Targets, FarFrom;
    r := Emitted([]);
    for n := 0 to |t|
      invariant r.Emitted? && r.table == Table(t, n)
      invariant forall i :: 0 <= i < n ==> !FarFrom(t, i)
    {
      r := EmitState(t, bytepos, place, n, r.table);
      if !r.Emitted? {
        return;
      }
    }
  }

  // ---------------------------------------------------------------------------
  // The size of the table
  // ---------------------------------------------------------------------------

  // All slots of all states.
  function Slots(t: seq<Node>): nat {
    if t == [] then 0 else Slots(t[..|t| - 1]) + |t[|t| - 1]|
  }

  // The letters of the words, and one for each word.
  function Letters(words: seq<Word>): nat {
    if words == [] then 0 else Letters(words[..|words| - 1]) + |words[|words| - 1]| + 1
  }

  lemma SlotsSnoc(t: seq<Node>, node: Node)
    ensures Slots(t + [node]) == Slots(t) + |node|
  {
    assert (t + [node])[..|t|] == t;
  }

  lemma {:induction false} SlotsUpdate(t: seq<Node>, i: nat, node: Node)
    requires i < |t|
    ensures Slots(t[i := node]) == Slots(t) - |t[i]| + |node|
    decreases |t|
  {
    var u := t[i := node];
    if i == |t| - 1 {
      assert u[..|t| - 1] == t[..|t| - 1];
    } else {
      assert u[..|t| - 1] == t[..|t| - 1][i := node];
      SlotsUpdate(t[..|t| - 1], i, node);
    }
  }

  lemma SlotsWithSlot(t: seq<Node>, walk: nat, c: nat)
    requires walk < |t|
    ensures Slots(WithSlot(t, walk, c)) == Slots(t) + 1
  {
    hide Slots;
    SlotsUpdate(t, walk, t[walk] + [Edge(c, |t|)]);
    SlotsSnoc(t[walk := t[walk] + [Edge(c, |t|)]], []);
  }

  lemma LettersNext(words: seq<Word>, n: nat)
    requires n < |words|
    ensures Letters(words[..n + 1]) == Letters(words[..n]) + |words[n]| + 1
  {
    assert words[..n + 1][..n] == words[..n];
  }

  lemma {:induction false} TableSize(t: seq<Node>, n: nat)
    requires n <= |t| && forall i :: 0 <= i < |t| ==> t[i] != []
    ensures Pos(t, n) <= 4 * Slots(t[..n])
  {
    if n > 0 {
      TableSize(t, n - 1);
      assert t[..n][..n - 1] == t[..n - 1];
      hide Slots;
      assert t[..n] == t[..n - 1] + [t[n - 1]];
      SlotsSnoc(t[..n - 1], t[n - 1]);
    }
  }

  // A table of at most 64K bytes has no jump that is too far.
  lemma SmallNeverFar(t: seq<Node>)
    requires Pos(t, |t|) <= 0xffff
    ensures !FarJump(t)
  {
    forall i, m | 0 <= i < |t| && 0 <= m < |t[i]| && t[i][m].to < |t| ensures Jump(t, i, m) <= 0xffff {
      PosGap(t, 0, i);
      PosGap(t, t[i][m].to, |t|);
    }
  }

  lemma BytePosZero(t: seq<Node>)
    ensures BytePos(t, 0) == 0
  {}

  lemma BytePosNext(t: seq<Node>, n: nat)
    requires n < |t|
    ensures BytePos(t, n + 1) == BytePos(t, n) + 2 * |t[n]|
  {}

  lemma FewWords(words: seq<Word>)
    requires Legal(words)
    ensures |words| <= 128
  {}

  // r is what is to be printed for a trie of the words: its table, or a refusal exactly when
  // some jump exceeds 64K.
  ghost predicate Compiles(words: seq<Word>, t: seq<Node>, path: seq<Word>, r: Emitted) {
    && Trie(t, path, words) && Targets(t)
    && (r.JumpTooFar? <==> FarJump(t)) && !r.TerminalTooBig? && (r.Emitted? ==> r.table == Table(t, |t|))
  }

  // main() of the generator: for every legal word list, a table it prints answers every
  // input as the list demands. Lists of up to 16383 letters and words are never refused.
  method Generate(words: seq<Word>) returns (r: Emitted)
    requires Legal(words)
    ensures exists t, path :: Compiles(words, t, path, r)
    ensures r.Emitted? ==> forall s :: Answers(words, s, Lex(r.table, 0, s, 0))
    ensures r.Emitted? ==> Recognises(words, r.table)
    ensures 4 * Letters(words) <= 0xffff ==> r.Emitted?
  {
    hide Slots, Letters, Pos, Table, Recognises;
    var g := new Generator();
    NoSlots(words);
    RootBuilds(words);
    for n := 0 to |words|
      invariant Building(g.state, g.path, words, n, 0) && Slots(g.state) <= Letters(words[..n])
    {
      LettersNext(words, n);
      g.AddWord(words, n);
    }
    assert words[..|words|] == words;
    BuildingDone(g.state, g.path, words);
    TrieTargets(g.state, g.path, words);
    r := Print(g.state, g.path, words);
    assert Compiles(words, g.state, g.path, r);
    if r.Emitted? {
      forall s ensures Answers(words, s, Lex(r.table, 0, s, 0)) {
        LexCorrect(g.state, g.path, words, r.table, s);
      }
      RecognisesWords(words, r.table);
    }
    if 4 * Letters(words) <= 0xffff {
      TableSize(g.state, |g.state|);
      assert g.state[..|g.state|] == g.state;
      SmallNeverFar(g.state);
    }
  }

  lemma NoSlots(words: seq<Word>)
    ensures Slots([[]]) == 0 && Letters(words[..0]) == 0
  {
    var none: seq<Node> := [[]];
    assert none[..0] == [];
  }

  // The three passes over a finished trie.
  method Print(t: seq<Node>, ghost path: seq<Word>, ghost words: seq<Word>) returns (r: Emitted)
    requires Legal(words) && Trie(t, path, words) && Targets(t)
    ensures !r.TerminalTooBig? && (r.JumpTooFar? <==> FarJump(t))
    ensures r.Emitted? ==> r.table == Table(t, |t|)
  {
    hide Trie, Legal, FarJump, Table, Targets, Pos, Emittable;
    var bytepos := BytePositions(t);
    forall i | 0 <= i < |t| ensures Emittable(t, bytepos, i) {
      TrieEmittable(t, path, words, bytepos, i);
    }
    var place := RealPositions(t, bytepos);
    r := Emit(t, bytepos, place);
  }

  lemma RootBuilds(words: seq<Word>)
    requires Legal(words)
    ensures Building([[]], [[]], words, 0, 0)
  {
    var k :| 0 <= k < |words| && words[k] != [];
    assert PrefixOf([], words[k]);
  }

  lemma BuildingDone(t: seq<Node>, path: seq<Word>, words: seq<Word>)
    requires Legal(words) && Building(t, path, words, |words|, 0)
    ensures Trie(t, path, words)
  {
    var k :| 0 <= k < |words| && words[k] != [];
    assert Reaches(t, words, k);
  }

  // lextable_decode as the loop it is.
  method DecodeLoop(table: seq<int>, start: nat, ch: nat) returns (r: int)
    requires !Decode(table, start, ToLower(ch)).Beyond?
    ensures var d := Decode(table, start, if 'A' as nat <= ch <= 'Z' as nat then ch + 32 else ch);
            r == if d.At? then d.pos else -1
  {
    var c, pos := ToLower(ch), start;
    while true
      invariant Decode(table, pos, c) == Decode(table, start, c)
      decreases |table| - pos
    {
      if table[pos] >= 128 {
        if table[pos] - 128 != c {
          return -1;
        }
        pos := pos + 1;
        if table[pos] == FAIL_CHAR {
          return -1;
        }
        return pos;
      }
      if table[pos] == FAIL_CHAR {
        return -1;
      }
      if table[pos] < FAIL_CHAR {
        return pos;
      }
      if table[pos] == c {
        return pos + table[pos + 1] + 256 * table[pos + 2];
      }
      pos := pos + 3;
    }
  }
}
