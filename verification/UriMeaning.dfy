/** Which request paths are stored as they were meant. */
module UriMeaning {
  import opened Octets
  import opened UriPath

  // A character of a request, written out or escaped.
  datatype Token = Plain(c: byte) | Escaped(hi: HexDigit, lo: HexDigit)
  {
    function Value(): byte {
      match this
      case Plain(c) => c
      case Escaped(hi, lo) => 16 * CharToHex(hi) + CharToHex(lo)
    }

    function Text(): seq<byte> {
      match this
      case Plain(c) => [c]
      case Escaped(hi, lo) => [PERCENT, hi, lo]
    }

    // A blank or a percent sign must be escaped; the bytes that end a path or, as NUL, are
    // not counted, cannot be part of one.
    predicate Legal() {
      && (this == Plain(Value()) ==> Value() != PERCENT && Value() != SPACE)
      && Value() != QUERY && Value() != CR && Value() != 0
    }
  }

  function Text(ts: seq<Token>): seq<byte> {
    if ts == [] then [] else ts[0].Text() + Text(ts[1..])
  }

  function Values(ts: seq<Token>): (p: seq<byte>)
    ensures |p| == |ts|
  {
    if ts == [] then [] else [ts[0].Value()] + Values(ts[1..])
  }

  predicate Legal(ts: seq<Token>) { forall i :: 0 <= i < |ts| ==> ts[i].Legal() }

  // The state after a clean path p: a trailing "/." has its dot held back.
  predicate Holds(s: State, p: seq<byte>) {
    && s.phase.InUri? && s.ues.NoEscape? && s.pathLen == |s.data|
    && match s.ups
       case Idle => s.data == p && !EndsSlash(p) && !EndsSlashDot(p)
       case SeenSlash => s.data == p && EndsSlash(p)
       case SeenSlashDot => s.data + [DOT] == p && EndsSlashDot(p)
       case _ => false
  }

  lemma AssessHolds(s: State, p: seq<byte>, c: byte)
    requires Holds(s, p) && Clean(p) && Clean(p + [c])
    requires c != QUERY && c != CR && c != 0 && |p| < s.limit && |p| < s.room
    ensures var r := Assess(s, c); r.Kept? && Holds(r.s, p + [c]) && r.s.limit == s.limit && r.s.room == s.room
  {
    hide Clean;
    CleanAdd(p, c);
  }

  // However a character is written, its value is what counts.
  lemma TokenRuns(s: State, t: Token, rest: seq<byte>)
    requires s.phase.InUri? && s.ues.NoEscape? && t.Legal() && Assess(s, t.Value()).Kept?
    ensures Run(s, t.Text() + rest) == Run(Assess(s, t.Value()).s, rest)
  {
    hide Assess, Run;
    match t
    case Plain(c) => RunOne(s, c, rest);
    case Escaped(hi, lo) =>
      assert CharToHex(hi) >= 0 && CharToHex(lo) >= 0;
      var s1 := s.(ues := SeenPercent);
      var s2 := s.(ues := SeenPercentH1(hi));
      assert s2.(ues := NoEscape) == s;
      assert t.Text() + rest == [PERCENT] + ([hi] + ([lo] + rest));
      RunOne(s, PERCENT, [hi] + ([lo] + rest));
      RunOne(s1, hi, [lo] + rest);
      RunOne(s2, lo, rest);
  }

  lemma {:induction false} TokensRun(s: State, p: seq<byte>, ts: seq<Token>, rest: seq<byte>) returns (t: State)
    requires Holds(s, p) && Clean(p + Values(ts)) && Legal(ts)
    requires |p| + |ts| <= s.limit && |p| + |ts| <= s.room
    ensures Holds(t, p + Values(ts)) && Run(s, Text(ts) + rest) == Run(t, rest)
    ensures t.limit == s.limit && t.room == s.room
    decreases |ts|
  {
    hide Clean, Run, Holds, Assess;
    if ts == [] {
      assert p + Values(ts) == p && Text(ts) + rest == rest;
      t := s;
    } else {
      var v := ts[0].Value();
      var q := p + [v];
      CleanFirst(p, v, Values(ts[1..]));
      AssessHolds(s, p, v);
      HoldsPhase(s, p);
      TextFirst(ts, rest);
      TokenRuns(s, ts[0], Text(ts[1..]) + rest);
      t := TokensRun(Assess(s, v).s, q, ts[1..], rest);
    }
  }

  lemma CleanFirst(p: seq<byte>, v: byte, rest: seq<byte>)
    requires Clean(p + ([v] + rest))
    ensures Clean(p) && Clean(p + [v]) && p + ([v] + rest) == p + [v] + rest
  {
    hide Clean;
    var q := p + ([v] + rest);
    assert q[..|p|] == p && q[..|p| + 1] == p + [v] && q == p + [v] + rest;
    CleanPrefix(q, |p|);
    CleanPrefix(q, |p| + 1);
  }

  lemma TextFirst(ts: seq<Token>, rest: seq<byte>)
    requires ts != []
    ensures Text(ts) + rest == ts[0].Text() + (Text(ts[1..]) + rest)
  {}

  lemma HoldsPhase(s: State, p: seq<byte>)
    requires Holds(s, p)
    ensures s.phase.InUri? && s.ues.NoEscape?
  {}

  // Every way of escaping a path p leads to p being stored, if and only if p is clean and
  // does not end in "/.".
  lemma StoredAsMeant(room: nat, limit: nat, ts: seq<Token>)
    requires ts != [] && Legal(ts) && |ts| <= limit && |ts| < room
    ensures var r, p := Run(Fresh(room, limit), Text(ts) + [SPACE]), Values(ts);
            (r.Kept? && r.s.phase.Http? && Path(r.s) == p) <==> (Clean(p) && !EndsSlashDot(p))
  {
    var s, p := Fresh(room, limit), Values(ts);
    StoredPathClean(room, limit, Text(ts) + [SPACE]);
    if Clean(p) {
      assert [] + p == p;
      var t := TokensRun(s, [], ts, [SPACE]);
      hide Clean;
      SpaceEnds(t, p);
    }
  }

  lemma SpaceEnds(s: State, p: seq<byte>)
    requires Holds(s, p) && p != [] && |p| < s.room
    ensures var r := Run(s, [SPACE]);
            r.Kept? && r.s.phase.Http? && (Path(r.s) == p <==> !EndsSlashDot(p))
  {
    RunOne(s, SPACE, []);
    assert [SPACE] + [] == [SPACE];
  }
}
