/** What becomes of dots, slashes, arguments and the ends of a request URI. */
module UriRequests {
  import opened Octets
  import opened UriPath
  import opened UriMeaning

  // The sixteen digits in either case, and nothing else.
  lemma HexDigits(c: byte, i: nat)
    requires i < 16
    ensures CharToHex(c) == i <==>
            c as int == "0123456789abcdef"[i] as int || c as int == "0123456789ABCDEF"[i] as int
    ensures CharToHex(c) < 16
  {}

  predicate NoSlash(seg: seq<byte>) { forall i :: 0 <= i < |seg| ==> seg[i] != SLASH }

  // Dropping a segment takes off the last slash and what follows it ...
  lemma {:induction false} DropToSlash(s: State, q: seq<byte>, seg: seq<byte>)
    requires s.data == q + [SLASH] + seg && s.pathLen == |s.data| && q != [] && NoSlash(seg)
    ensures DropSegment(s) == s.(data := q, pathLen := |q|)
    decreases |seg|
  {
    var t := Shorten(s);
    if seg == [] {
      assert t.data == q;
    } else {
      var front := seg[..|seg| - 1];
      assert s.data[|s.data| - 1] == seg[|seg| - 1];
      assert t.data == q + [SLASH] + front;
      DropToSlash(t, q, front);
    }
  }

  // ... except for the first byte of the path, which stays.
  lemma {:induction false} DropToRoot(s: State, seg: seq<byte>)
    requires s.data == [SLASH] + seg && s.pathLen == |s.data| && seg != [] && NoSlash(seg)
    ensures DropSegment(s) == s.(data := [SLASH], pathLen := 1)
    decreases |seg|
  {
    var t, front := Shorten(s), seg[..|seg| - 1];
    assert s.data[|s.data| - 1] == seg[|seg| - 1];
    assert t.data == [SLASH] + front;
    if front != [] {
      DropToRoot(t, front);
    }
  }

  // The parent of p/seg/ as the code has it, without its slash.
  function Parent(p: seq<byte>): seq<byte> { if p == [] then [SLASH] else p }

  lemma BackUpParent(s: State, p: seq<byte>, seg: seq<byte>)
    requires s.data == p + [SLASH] + seg + [SLASH] && s.pathLen == |s.data| && seg != [] && NoSlash(seg)
    ensures BackUp(s) == s.(data := Parent(p), pathLen := |Parent(p)|)
  {
    var t := Shorten(s);
    assert t.data == p + [SLASH] + seg;
    if p == [] {
      assert t.data == [SLASH] + seg;
      DropToRoot(t, seg);
    } else {
      DropToSlash(t, p, seg);
    }
  }

  lemma RunTwo(s: State, c: byte, d: byte, rest: seq<byte>)
    requires s.phase.InUri? && Parse(s, c).Kept? && Parse(s, c).s.phase.InUri? && Parse(Parse(s, c).s, d).Kept?
    ensures Run(s, [c, d] + rest) == Run(Parse(Parse(s, c).s, d).s, rest)
  {
    hide Parse, Run;
    assert [c, d] + rest == [c] + ([d] + rest);
    RunOne(s, c, [d] + rest);
    RunOne(Parse(s, c).s, d, rest);
  }

  // After a slash, more slashes and "./" change nothing.
  lemma SlashesFold(s: State, p: seq<byte>, rest: seq<byte>)
    requires Holds(s, p) && EndsSlash(p)
    ensures Run(s, [SLASH] + rest) == Run(s, rest)
    ensures Run(s, [DOT, SLASH] + rest) == Run(s, rest)
  {
    RunOne(s, SLASH, rest);
    RunTwo(s, DOT, SLASH, rest);
    hide Run;
    assert Parse(Parse(s, DOT).s, SLASH).s == s;
  }

  // "p/seg/" followed by "..", and slashes or dots after it.
  function BackedUp(s: State, p: seq<byte>): State {
    s.(data := Parent(p), pathLen := |Parent(p)|, ups := SeenSlashDotDot)
  }

  lemma DotsBackUp(s: State, p: seq<byte>, seg: seq<byte>, rest: seq<byte>)
    requires Holds(s, p + [SLASH] + seg + [SLASH]) && seg != [] && NoSlash(seg)
    ensures Run(s, [DOT, DOT] + rest) == Run(BackedUp(s, p), rest)
  {
    BackUpParent(s.(ups := SeenSlashDot), p, seg);
    BackUpParent(s, p, seg);
    hide BackUp, Run;
    RunTwo(s, DOT, DOT, rest);
  }

  // A space ends the request with the path stored so far.
  lemma EndsHere(s: State)
    requires s.phase.InUri? && s.pathLen > 0 && !s.ups.Arguments? && |s.data| < s.room
    ensures var r := Run(s, [SPACE]); r.Kept? && r.s.phase.Http? && Path(r.s) == Path(s)
  {
    assert [SPACE] + [] == [SPACE];
    RunOne(s, SPACE, []);
  }

  // A byte that is neither decoded nor tidied nor an end.
  predicate Ordinary(c: byte) { c !in {SLASH, DOT, PERCENT, SPACE, QUERY, CR, 0} }

  // A whole clean path, from the start.
  lemma PathRun(room: nat, limit: nat, ts: seq<Token>, rest: seq<byte>) returns (t: State)
    requires Legal(ts) && Clean(Values(ts)) && |ts| <= limit && |ts| <= room
    ensures Holds(t, Values(ts)) && Run(Fresh(room, limit), Text(ts) + rest) == Run(t, rest)
    ensures t.limit == limit && t.room == room && t.phase.InUri? && t.ues.NoEscape?
  {
    hide Clean, Run, Values, Text;
    assert [] + Values(ts) == Values(ts);
    t := TokensRun(Fresh(room, limit), [], ts, rest);
  }

  // For every path p/seg/ that fits, however escaped: ".." leaves its parent ...
  lemma ParentStored(room: nat, limit: nat, ts: seq<Token>, p: seq<byte>, seg: seq<byte>)
    requires Legal(ts) && |ts| <= limit && |ts| < room && Clean(Values(ts))
    requires Values(ts) == p + [SLASH] + seg + [SLASH] && seg != [] && NoSlash(seg)
    ensures var r := Run(Fresh(room, limit), Text(ts) + [DOT, DOT, SPACE]);
            r.Kept? && r.s.phase.Http? && Path(r.s) == Parent(p)
  {
    hide Clean, Run, Values, Text, Holds, Legal, Parse;
    var t := PathRun(room, limit, ts, [DOT, DOT, SPACE]);
    DotsBackUp(t, p, seg, [SPACE]);
    assert [DOT, DOT] + [SPACE] == [DOT, DOT, SPACE];
    assert |Values(ts)| == |ts|;
    EndsHere(BackedUp(t, p));
  }

  // ... and what comes after it is put right behind the parent, whose slash is gone.
  lemma BehindParent(room: nat, limit: nat, ts: seq<Token>, p: seq<byte>, seg: seq<byte>, c: byte)
    requires Legal(ts) && |ts| <= limit && |ts| < room && Clean(Values(ts)) && Ordinary(c)
    requires Values(ts) == p + [SLASH] + seg + [SLASH] && seg != [] && NoSlash(seg)
    ensures var r := Run(Fresh(room, limit), Text(ts) + [DOT, DOT, SLASH, c, SPACE]);
            r.Kept? && r.s.phase.Http? && Path(r.s) == Parent(p) + [c]
  {
    hide Clean, Run, Values, Text, Holds, Legal, Parse;
    var t := PathRun(room, limit, ts, [DOT, DOT, SLASH, c, SPACE]);
    DotsBackUp(t, p, seg, [SLASH, c, SPACE]);
    assert [DOT, DOT] + [SLASH, c, SPACE] == [DOT, DOT, SLASH, c, SPACE];
    assert |Values(ts)| == |ts|;
    var b := BackedUp(t, p);
    AfterDots(b, c);
    RunTwo(b, SLASH, c, [SPACE]);
    assert [SLASH, c] + [SPACE] == [SLASH, c, SPACE];
    EndsHere(Parse(b, c).s);
  }

  lemma AfterDots(b: State, c: byte)
    requires b.phase.InUri? && b.ues.NoEscape? && b.ups.SeenSlashDotDot? && Ordinary(c)
    requires b.pathLen == |b.data| && 0 < |b.data| < b.limit && |b.data| < b.room
    ensures Parse(b, SLASH) == Kept(b)
    ensures Parse(b, c) == Kept(b.(ups := SeenSlash, data := b.data + [c], pathLen := b.pathLen + 1))
  {}

  // Bytes of the arguments are stored behind the sealed path, as they are meant.
  lemma {:induction false} ArgumentsRun(s: State, args: seq<Token>, rest: seq<byte>) returns (t: State)
    requires s.phase.InUri? && s.ues.NoEscape? && s.ups.Arguments? && Legal(args)
    requires s.argLen + |args| <= s.limit && |s.data| + |args| <= s.room
    ensures t == s.(data := s.data + Values(args), argLen := s.argLen + |args|)
    ensures Run(s, Text(args) + rest) == Run(t, rest)
    decreases |args|
  {
    hide Run, Text, Assess, Parse, Values, Legal;
    if args == [] {
      assert s.data + Values(args) == s.data;
      NoText(args, rest);
      t := s;
    } else {
      var v := args[0].Value();
      LegalSplit(args, 1);
      ValuesFirst(args);
      FirstArgument(s, args, rest);
      t := ArgumentsRun(WithArgument(s, v), args[1..], rest);
      assert s.data + [v] + Values(args[1..]) == s.data + ([v] + Values(args[1..]));
    }
  }

  lemma NoText(args: seq<Token>, rest: seq<byte>)
    requires args == []
    ensures Text(args) + rest == rest
  {}

  function WithArgument(s: State, c: byte): State { s.(data := s.data + [c], argLen := s.argLen + 1) }

  lemma FirstArgument(s: State, args: seq<Token>, rest: seq<byte>)
    requires s.phase.InUri? && s.ues.NoEscape? && s.ups.Arguments? && args != [] && Legal(args)
    requires s.argLen < s.limit && |s.data| < s.room
    ensures Run(s, Text(args) + rest) == Run(WithArgument(s, args[0].Value()), Text(args[1..]) + rest)
  {
    hide Run, Text, Assess, Parse;
    assert args[0].Legal();
    OneArgument(s, args[0].Value());
    TextFirst(args, rest);
    TokenRuns(s, args[0], Text(args[1..]) + rest);
  }

  lemma OneArgument(s: State, c: byte)
    requires s.ups.Arguments? && c != QUERY && c != CR && c != 0 && s.argLen < s.limit && |s.data| < s.room
    ensures Assess(s, c) == Kept(WithArgument(s, c))
  {}

  // A '?' seals any clean path, one that ends in "/." too, and opens the arguments.
  lemma QueryOpens(s: State, p: seq<byte>)
    requires Holds(s, p) && |p| <= s.limit && |p| < s.room
    ensures Parse(s, QUERY) ==
            Kept(s.(data := p + [0], pathLen := |p|, argLen := 0, ups := Arguments))
  {}

  // Path and arguments of a whole request. Empty arguments become "/".
  lemma ArgumentsStored(room: nat, limit: nat, ts: seq<Token>, args: seq<Token>)
    requires ts != [] && Legal(ts) && Clean(Values(ts)) && |ts| <= limit && Legal(args) && |args| + 1 < limit
    requires |ts| + |args| + 3 < room
    ensures var r := Run(Fresh(room, limit), Text(ts) + ([QUERY] + (Text(args) + [SPACE])));
            && r.Kept? && r.s.phase.Http? && Path(r.s) == Values(ts)
            && r.s.data == Values(ts) + [0] + (if args == [] then [SLASH] else Values(args)) + [0]
  {
    hide Clean, Run, Values, Text, Holds, Legal, Parse;
    var v := Values(ts);
    var rest := Text(args) + [SPACE];
    var t := PathRun(room, limit, ts, [QUERY] + rest);
    assert |v| == |ts| && |Values(args)| == |args|;
    QueryOpens(t, v);
    RunOne(t, QUERY, rest);
    var u := ArgumentsRun(Parse(t, QUERY).s, args, [SPACE]);
    ArgumentsEnd(u, v, Values(args));
  }

  lemma ArgumentsEnd(s: State, p: seq<byte>, args: seq<byte>)
    requires s.phase.InUri? && s.ups.Arguments? && p != [] && s.data == p + [0] + args && s.pathLen == |p|
    requires s.argLen == |args| && |args| + 1 < s.limit && |s.data| + 2 < s.room
    ensures var r := Run(s, [SPACE]);
            && r.Kept? && r.s.phase.Http? && Path(r.s) == p
            && r.s.data == p + [0] + (if args == [] then [SLASH] else args) + [0]
  {
    assert [SPACE] + [] == [SPACE];
    RunOne(s, SPACE, []);
    assert args == [] ==> s.data == p + [0];
    assert args == [] ==> s.data + [SLASH] + [0] == p + [0] + [SLASH] + [0];
  }

  // A CR in a path, written out or escaped, ends the header with the path stored.
  lemma ReturnEnds(s: State, p: seq<byte>)
    requires Holds(s, p) && |p| < s.limit && |p| < s.room
    ensures var r := Assess(s, CR);
            && r.Kept? && r.s.phase.SkippingSawCr? && Path(r.s) == p && r.s.data == p + [0]
  {}

  lemma ValuesFirst(ts: seq<Token>)
    requires ts != []
    ensures Values(ts) == [ts[0].Value()] + Values(ts[1..])
  {}

  lemma {:induction false} ValuesSplit(ts: seq<Token>, n: nat)
    requires n <= |ts|
    ensures Values(ts) == Values(ts[..n]) + Values(ts[n..])
    decreases n
  {
    hide Values;
    if n == 0 {
      assert Values(ts[..0]) == [] && ts[0..] == ts;
    } else {
      assert ts[1..][..n - 1] == ts[..n][1..] && ts[1..][n - 1..] == ts[n..];
      ValuesSplit(ts[1..], n - 1);
      ValuesFirst(ts);
      ValuesFirst(ts[..n]);
    }
  }

  lemma {:induction false} TextSplit(ts: seq<Token>, n: nat)
    requires n <= |ts|
    ensures Text(ts) == Text(ts[..n]) + Text(ts[n..])
    decreases n
  {
    hide Text;
    if n == 0 {
      NoText(ts[..0], Text(ts));
      assert ts[0..] == ts;
    } else {
      assert ts[1..][..n - 1] == ts[..n][1..] && ts[1..][n - 1..] == ts[n..];
      TextSplit(ts[1..], n - 1);
      TextFirst(ts, []);
      TextFirst(ts[..n], []);
      assert forall t: seq<byte> :: t + [] == t;
    }
  }

  lemma LegalSplit(ts: seq<Token>, n: nat)
    requires Legal(ts) && n <= |ts|
    ensures Legal(ts[..n]) && Legal(ts[n..])
  {}

  // One byte at the limit: refused, or a dot that is held back.
  lemma AtLimit(s: State, q: seq<byte>, c: byte)
    requires Holds(s, q) && Clean(q) && Clean(q + [c]) && |q| == s.limit && 0 < s.limit < s.room
    requires c != QUERY && c != CR && c != 0
    ensures var r := Assess(s, c);
            && r.Kept? && r.s.data == q && r.s.pathLen == |q|
            && (r.s.phase.Skipping? || (c == DOT && r.s == s.(ups := SeenSlashDot)))
  {
    hide Clean;
    CleanAdd(q, c);
  }

  lemma PastLimit(s: State, q: seq<byte>, c: byte)
    requires s.ups.SeenSlashDot? && s.data == q && s.pathLen == |q| == s.limit && s.limit < s.room
    requires c != QUERY && c != CR && c != 0 && c != DOT && c != SLASH
    ensures var r := Assess(s, c); r.Kept? && r.s.phase.Skipping? && Path(r.s) == q
  {}

  lemma RunSkips(s: State, input: seq<byte>)
    requires !s.phase.InUri?
    ensures Run(s, input) == Kept(s)
  {}

  // A path beyond the limit is cut there, and the rest of the header skipped.
  lemma CutAtLimit(room: nat, limit: nat, ts: seq<Token>)
    requires Legal(ts) && Clean(Values(ts)) && 0 < limit && limit + 2 <= |ts| && limit < room
    ensures var r := Run(Fresh(room, limit), Text(ts));
            r.Kept? && r.s.phase.Skipping? && Path(r.s) == Values(ts)[..limit]
  {
    hide Clean, Run, Values, Text, Holds, Legal;
    var front, back := ts[..limit], ts[limit..];
    var q := Values(front);
    LegalSplit(ts, limit);
    ValuesSplit(ts, limit);
    TextSplit(ts, limit);
    CleanCut(q, back);
    assert |q| == limit && Values(ts)[..limit] == q;
    var t := PathRun(room, limit, front, Text(back));
    CutAfter(t, q, back);
  }

  lemma ValuesTwo(ts: seq<Token>)
    requires |ts| >= 2
    ensures Values(ts) == [ts[0].Value()] + ([ts[1].Value()] + Values(ts[2..]))
    ensures Text(ts) == ts[0].Text() + (ts[1].Text() + Text(ts[2..]))
  {
    assert ts[1..][1..] == ts[2..];
  }

  lemma CleanTwo(q: seq<byte>, c: byte, d: byte, rest: seq<byte>)
    requires Clean(q + ([c] + ([d] + rest)))
    ensures Clean(q) && Clean(q + [c]) && Clean(q + [c] + [d])
  {
    hide Clean;
    CleanFirst(q, c, [d] + rest);
    CleanFirst(q + [c], d, rest);
  }

  lemma CleanCut(q: seq<byte>, back: seq<Token>)
    requires |back| >= 2 && Clean(q + Values(back))
    ensures Clean(q) && Clean(q + [back[0].Value()]) && Clean(q + [back[0].Value()] + [back[1].Value()])
  {
    hide Clean, Values;
    ValuesTwo(back);
    CleanTwo(q, back[0].Value(), back[1].Value(), Values(back[2..]));
  }

  lemma CutAfter(t: State, q: seq<byte>, back: seq<Token>)
    requires Holds(t, q) && |q| == t.limit && 0 < t.limit < t.room && |back| >= 2 && Legal(back)
    requires Clean(q) && Clean(q + [back[0].Value()]) && Clean(q + [back[0].Value()] + [back[1].Value()])
    ensures var r := Run(t, Text(back)); r.Kept? && r.s.phase.Skipping? && Path(r.s) == q
  {
    hide Run, Text, Clean;
    var c, d, last := back[0].Value(), back[1].Value(), Text(back[2..]);
    ValuesTwo(back);
    HoldsPhase(t, q);
    AtLimit(t, q, c);
    TokenRuns(t, back[0], back[1].Text() + last);
    var u := Assess(t, c).s;
    if u.phase.Skipping? {
      RunSkips(u, back[1].Text() + last);
    } else {
      CleanAdd(q + [c], d);
      AtLimitDot(t, q);
      PastLimit(u, q, d);
      TokenRuns(u, back[1], last);
      RunSkips(Assess(u, d).s, last);
    }
  }

  // A dot is held back only after a slash.
  lemma AtLimitDot(s: State, q: seq<byte>)
    requires Holds(s, q) && |q| == s.limit < s.room
    requires Assess(s, DOT).s.ups.SeenSlashDot? && Assess(s, DOT).s.phase.InUri?
    ensures EndsSlashDot(q + [DOT])
  {}

  // A percent sign that begins no escape stands for itself, with what follows it.
  lemma BrokenEscape(s: State, p: seq<byte>, c: byte, rest: seq<byte>)
    requires Holds(s, p) && s.ups.Idle? && p != [] && Ordinary(c) && CharToHex(c) < 0
    requires |p| + 2 <= s.limit && |p| + 2 <= s.room
    ensures Run(s, [PERCENT, c] + rest) ==
            Run(s.(data := p + [PERCENT, c], pathLen := |p| + 2), rest)
  {
    RunTwo(s, PERCENT, c, rest);
    hide Run;
    assert p + [PERCENT] + [c] == p + [PERCENT, c];
  }

  lemma BrokenSecond(s: State, p: seq<byte>, d: HexDigit, c: byte, rest: seq<byte>)
    requires Holds(s, p) && s.ups.Idle? && p != [] && Ordinary(c) && CharToHex(c) < 0
    requires |p| + 3 <= s.limit && |p| + 3 <= s.room
    ensures Run(s, [PERCENT, d, c] + rest) ==
            Run(s.(data := p + [PERCENT, d, c], pathLen := |p| + 3), rest)
  {
    assert CharToHex(d) >= 0;
    var u: State := s.(ues := SeenPercent);
    var v: State := s.(ues := SeenPercentH1(d));
    var w: State := s.(data := p + [PERCENT, d], pathLen := |p| + 2);
    assert p + [PERCENT] + [d] == p + [PERCENT, d] && p + [PERCENT, d] + [c] == p + [PERCENT, d, c];
    assert Parse(IssueAnyway(s, PERCENT), d) == Kept(w) by { DigitParses(IssueAnyway(s, PERCENT), d); }
    assert Assess(w, c) == Kept(s.(data := p + [PERCENT, d, c], pathLen := |p| + 3));
    assert v.(ues := NoEscape) == s;
    hide Run, Assess;
    assert [PERCENT, d, c] + rest == [PERCENT, d] + ([c] + rest);
    RunTwo(s, PERCENT, d, [c] + rest);
    RunOne(v, c, rest);
  }
}
