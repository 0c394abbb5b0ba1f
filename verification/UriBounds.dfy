/** When the header store stays within its bounds. */
module UriBounds {
  import opened Octets
  import opened UriPath
  import opened UriMeaning

  predicate Bounded(s: State) { |s.data| <= s.room }

  // A dot held back that would be stored before the next byte.
  function HeldDot(s: State): nat {
    if s.ups.SeenSlashDot? && |s.data| < s.room && s.pathLen < s.limit then 1 else 0
  }

  // The byte is a '?' and leaves no room for the terminator of the path.
  predicate Brims(s: State, c: byte) { c == QUERY && |s.data| + HeldDot(s) == s.room }

  lemma IssueBounded(s: State, c: byte)
    requires Bounded(s)
    ensures Bounded(IssueAnyway(s, c))
  {}

  lemma TrackShrinks(s: State, c: byte)
    requires Bounded(s) && (c == QUERY || s.ups.SeenSlashDot?)
    ensures c == QUERY ==> Track(s, c).Pass? && |Track(s, c).s.data| == |s.data| + HeldDot(s)
    ensures s.ups.SeenSlashDot? && c == DOT ==> |Track(s, c).s.data| <= |s.data|
    ensures Track(s, c).s.room == s.room
  {
    if s.ups.SeenSlashDot? && c == DOT && s.pathLen > 2 {
      DropSegmentPrefix(Shorten(s));
    }
  }

  // A decoded byte leaves the store within its bounds, if and only if it is not a '?' that
  // finds the store full.
  lemma AssessBounded(s: State, c: byte)
    requires Bounded(s)
    ensures Bounded(Assess(s, c).s) <==> !Brims(s, c)
    ensures Brims(s, c) ==> Assess(s, c).Kept? && Assess(s, c).s.ups.Arguments?
  {
    hide BackUp;
    if c == QUERY || s.ups.SeenSlashDot? {
      TrackShrinks(s, c);
    }
  }

  // The state and byte that the escape states hand on to the path states.
  datatype Handed = Nothing | Handed(s: State, c: byte)

  function HandedOn(s: State, c: byte): Handed {
    var u: State := s.(ues := NoEscape);
    if c == SPACE then Nothing
    else match s.ues
      case NoEscape => if c == PERCENT then Nothing else Handed(s, c)
      case SeenPercent =>
        if CharToHex(c) >= 0 || Issue(s, PERCENT).Full? then Nothing else Handed(IssueAnyway(u, PERCENT), c)
      case SeenPercentH1(stash) =>
        if CharToHex(c) >= 0 then Handed(u, 16 * CharToHex(stash) + CharToHex(c))
        else
          var r := Assess(IssueAnyway(u, PERCENT), stash);
          if r.Dropped? then Nothing else Handed(r.s, c)
  }

  // A received byte fills the store beyond its bounds.
  predicate Overruns(s: State, c: byte) {
    var h := HandedOn(s, c);
    h.Handed? && Brims(h.s, h.c)
  }

  lemma HandedParse(s: State, c: byte)
    requires s.phase.InUri? && HandedOn(s, c).Handed?
    ensures var h := HandedOn(s, c); Parse(s, c) == Assess(h.s, h.c)
    ensures Bounded(s) ==> Bounded(HandedOn(s, c).s)
  {
    hide Assess, Bounded;
    var u: State := s.(ues := NoEscape);
    if Bounded(s) {
      BoundedEscape(s, NoEscape);
      IssueBounded(u, PERCENT);
    }
    if s.ues.SeenPercentH1? && CharToHex(c) < 0 {
      var v := IssueAnyway(u, PERCENT);
      DigitParses(v, s.ues.stash);
      if Bounded(s) {
        assert CharToHex(s.ues.stash) >= 0;
        AssessBounded(v, s.ues.stash);
      }
    }
  }

  lemma BoundedEscape(s: State, e: EscapeState)
    ensures Bounded(s) <==> Bounded(s.(ues := e))
  {}

  lemma NothingBounded(s: State, c: byte)
    requires s.phase.InUri? && HandedOn(s, c).Nothing? && Bounded(s)
    ensures Bounded(Parse(s, c).s)
  {
    if c != SPACE && s.ues.SeenPercentH1? {
      var v := IssueAnyway(s.(ues := NoEscape), PERCENT);
      DigitParses(v, s.ues.stash);
      assert CharToHex(s.ues.stash) >= 0;
      IssueBounded(s.(ues := NoEscape), PERCENT);
      AssessBounded(v, s.ues.stash);
      hide Assess;
    }
  }

  // One received byte, with its escapes: the bounds are kept if and only if no '?' comes out
  // of it that finds the store full.
  lemma ParseBounded(s: State, c: byte)
    requires s.phase.InUri? && Bounded(s)
    ensures Bounded(Parse(s, c).s) <==> !Overruns(s, c)
    ensures Overruns(s, c) ==> Parse(s, c).Kept? && Parse(s, c).s.ups.Arguments?
  {
    hide Parse, Assess, HandedOn, Bounded, Brims;
    var h := HandedOn(s, c);
    if h.Handed? {
      HandedParse(s, c);
      AssessBounded(h.s, h.c);
    } else {
      NothingBounded(s, c);
    }
  }

  // Beyond the bounds there is no way back.
  lemma OverrunStays(s: State, c: byte)
    requires s.phase.InUri? && !Bounded(s) && s.ups.Arguments?
    ensures !Bounded(Parse(s, c).s) && Parse(s, c).s.ups.Arguments?
  {
    hide Assess;
    var u: State := s.(ues := NoEscape);
    var v := IssueAnyway(u, PERCENT);
    AssessOverrun(s, c);
    AssessOverrun(v, c);
    if s.ues.SeenPercentH1? {
      var d := s.ues.stash;
      DigitParses(v, d);
      AssessOverrun(v, d);
      AssessOverrun(Assess(v, d).s, c);
      if CharToHex(c) >= 0 {
        AssessOverrun(u, 16 * CharToHex(d) + CharToHex(c));
      }
    }
  }

  lemma AssessOverrun(s: State, c: byte)
    requires !Bounded(s) && s.ups.Arguments?
    ensures !Bounded(Assess(s, c).s) && Assess(s, c).s.ups.Arguments?
  {}

  predicate NeverOverruns(s: State, input: seq<byte>)
    decreases |input|
  {
    input == [] || !s.phase.InUri? ||
    (!Overruns(s, input[0]) && (Parse(s, input[0]).Kept? ==> NeverOverruns(Parse(s, input[0]).s, input[1..])))
  }

  lemma {:induction false} RunOverrun(s: State, input: seq<byte>)
    requires !Bounded(s) && s.ups.Arguments?
    ensures !Bounded(Run(s, input).s)
    decreases |input|
  {
    hide Parse, Bounded;
    if input != [] && s.phase.InUri? {
      OverrunStays(s, input[0]);
      var r := Parse(s, input[0]);
      if r.Kept? {
        RunOverrun(r.s, input[1..]);
      }
    }
  }

  // Over a whole request: the store stays within its bounds if and only if no '?' finds it
  // full.
  lemma {:induction false} RunBounded(s: State, input: seq<byte>)
    requires Bounded(s)
    ensures Bounded(Run(s, input).s) <==> NeverOverruns(s, input)
    decreases |input|
  {
    hide Parse, Bounded, Overruns;
    if input != [] && s.phase.InUri? {
      ParseBounded(s, input[0]);
      var r := Parse(s, input[0]);
      if r.Kept? {
        if Overruns(s, input[0]) {
          RunOverrun(r.s, input[1..]);
        } else {
          RunBounded(r.s, input[1..]);
        }
      }
    }
  }

  // What is stored or held back.
  function Weight(s: State): nat {
    |s.data| + (match s.ues case NoEscape => 0 case SeenPercent => 1 case SeenPercentH1(_) => 2)
    + (if s.ups.SeenSlashDot? then 1 else 0)
  }

  lemma IssueWeight(s: State, c: byte)
    ensures Weight(IssueAnyway(s, c)) <= Weight(s) + 1 && IssueAnyway(s, c).room == s.room
  {}

  lemma AssessWeight(s: State, c: byte)
    ensures Weight(Assess(s, c).s) <= Weight(s) + 1 && Assess(s, c).s.room == s.room
  {
    if s.ups.SeenSlashDot? && c == DOT && s.pathLen > 2 {
      DropSegmentPrefix(Shorten(s));
    }
  }

  lemma HandedWeight(s: State, c: byte)
    requires HandedOn(s, c).Handed?
    ensures Weight(HandedOn(s, c).s) <= Weight(s) && HandedOn(s, c).s.room == s.room
  {
    hide Assess, Issue;
    var u: State := s.(ues := NoEscape);
    IssueWeight(u, PERCENT);
    if s.ues.SeenPercentH1? {
      AssessWeight(IssueAnyway(u, PERCENT), s.ues.stash);
    }
  }

  lemma ParseWeight(s: State, c: byte)
    requires s.phase.InUri?
    ensures Weight(s) < s.room ==> !Overruns(s, c)
    ensures Parse(s, c).Kept? && Parse(s, c).s.phase.InUri? ==>
              Weight(Parse(s, c).s) <= Weight(s) + 1 && Parse(s, c).s.room == s.room
  {
    hide Parse, Assess, HandedOn;
    var h, r := HandedOn(s, c), Parse(s, c);
    if h.Handed? {
      HandedParse(s, c);
      HandedWeight(s, c);
      AssessWeight(h.s, h.c);
    } else if r.Kept? && r.s.phase.InUri? {
      NothingWeight(s, c);
    }
  }

  lemma NothingWeight(s: State, c: byte)
    requires s.phase.InUri? && HandedOn(s, c).Nothing? && Parse(s, c).Kept? && Parse(s, c).s.phase.InUri?
    ensures Weight(Parse(s, c).s) <= Weight(s) + 1 && Parse(s, c).s.room == s.room
  {
    hide Assess, EndUri;
    if c == SPACE {
      EndLeaves(s);
    } else if s.ues.SeenPercentH1? {
      DigitParses(IssueAnyway(s.(ues := NoEscape), PERCENT), s.ues.stash);
    }
  }

  lemma EndLeaves(s: State)
    ensures EndUri(s).Kept? ==> EndUri(s).s.phase.Http?
  {}

  // A request no longer than the store is always within bounds.
  lemma {:induction false} ShortRequest(s: State, input: seq<byte>)
    requires Weight(s) + |input| <= s.room
    ensures NeverOverruns(s, input)
    decreases |input|
  {
    hide Parse, Overruns, Weight;
    if input != [] && s.phase.InUri? {
      ParseWeight(s, input[0]);
      var r := Parse(s, input[0]);
      if r.Kept? {
        if r.s.phase.InUri? {
          ShortRequest(r.s, input[1..]);
        }
      }
    }
  }

  // The requests that go wrong: a clean path that just fills the store, however it is
  // escaped, and a '?'. The terminator is written one past the end.
  lemma QueryOverruns(room: nat, limit: nat, ts: seq<Token>)
    requires Legal(ts) && Clean(Values(ts)) && |ts| == room <= limit
    ensures var r := Run(Fresh(room, limit), Text(ts) + [QUERY]);
            r.Kept? && r.s.room == room && |r.s.data| == room + 1
  {
    var s, p := Fresh(room, limit), Values(ts);
    assert [] + p == p;
    var t := TokensRun(s, [], ts, [QUERY]);
    hide Clean, Run;
    QuerySeals(t, p);
    RunOne(t, QUERY, []);
    assert [QUERY] + [] == [QUERY];
    RunNone(Parse(t, QUERY).s);
  }

  lemma QuerySeals(s: State, p: seq<byte>)
    requires Holds(s, p) && |p| == s.room <= s.limit
    ensures var r := Parse(s, QUERY); r.Kept? && r.s.room == s.room && |r.s.data| == s.room + 1
  {
    TrackShrinks(s, QUERY);
    hide Track;
  }

  // A path byte for which there is no room drops the connection ...
  lemma FullDrops(s: State, p: seq<byte>, c: byte)
    requires Holds(s, p) && !s.ups.SeenSlashDot? && |p| == s.room && c !in {SLASH, DOT, QUERY}
    ensures Assess(s, c).Dropped?
  {}

  // ... but past the end of the store the test for room no longer tells.
  lemma OverrunStores(s: State, c: byte)
    requires s.ups.Arguments? && |s.data| > s.room && s.argLen < s.limit && c !in {QUERY, CR, 0}
    ensures Assess(s, c) == Kept(s.(data := s.data + [c], argLen := s.argLen + 1))
  {}
}
