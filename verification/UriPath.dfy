/** The request-URI part of libwebsocket_parse (lib/parsers.c): percent escapes are decoded and
    the path is tidied while its bytes are stored, one call per byte. */
module UriPath {
  import opened Octets

  const SLASH: byte := 47
  const DOT: byte := 46
  const PERCENT: byte := 37
  const QUERY: byte := 63
  const SPACE: byte := 32
  const CR: byte := 13

  function CharToHex(c: byte): int {
    if 48 <= c <= 57 then c - 48
    else if 97 <= c <= 102 then c - 97 + 10
    else if 65 <= c <= 70 then c - 65 + 10
    else -1
  }

  type HexDigit = x: byte | CharToHex(x) >= 0 witness 48

  datatype Phase = InUri | Http | Skipping | SkippingSawCr
  datatype EscapeState = NoEscape | SeenPercent | SeenPercentH1(stash: HexDigit)
  datatype PathState = Idle | SeenSlash | SeenSlashDot | SeenSlashDotDot | Arguments

  // data is the header store from the start of the path on, up to pos; the path is its first
  // pathLen bytes. Once a '?' has come, further bytes belong to the arguments, argLen so far.
  datatype Store = Store(phase: Phase, ues: EscapeState, ups: PathState, data: seq<byte>,
                         pathLen: nat, argLen: nat, room: nat, limit: nat)
  {
    // The length of the fragment being collected.
    function Len(): nat { if ups.Arguments? then argLen else pathLen }
  }

  type State = s: Store | s.pathLen <= |s.data| witness Store(InUri, NoEscape, Idle, [], 0, 0, 0, 0)

  function Path(s: State): seq<byte> { s.data[..s.pathLen] }

  function Fresh(room: nat, limit: nat): State {
    Store(InUri, NoEscape, Idle, [], 0, 0, room, limit)
  }

  // ---------------------------------------------------------------------------
  // What a stored path never contains
  // ---------------------------------------------------------------------------

  predicate Doubled(p: seq<byte>, i: nat) {
    i + 1 < |p| && p[i] == SLASH && p[i + 1] == SLASH
  }

  predicate Dotted(p: seq<byte>, i: nat) {
    i + 2 < |p| && p[i] == SLASH && p[i + 1] == DOT && (p[i + 2] == SLASH || p[i + 2] == DOT)
  }

  // No "//", no "/./" and no "/..".
  predicate Clean(p: seq<byte>) {
    forall i :: 0 <= i < |p| ==> !Doubled(p, i) && !Dotted(p, i)
  }

  predicate EndsSlash(p: seq<byte>) { p != [] && p[|p| - 1] == SLASH }
  predicate EndsSlashDot(p: seq<byte>) { |p| >= 2 && p[|p| - 2] == SLASH && p[|p| - 1] == DOT }

  lemma CleanPrefix(p: seq<byte>, n: nat)
    requires Clean(p) && n <= |p|
    ensures Clean(p[..n])
  {
    forall i | 0 <= i < n ensures !Doubled(p[..n], i) && !Dotted(p[..n], i) {
      assert !Doubled(p, i) && !Dotted(p, i);
    }
  }

  lemma CleanAdd(p: seq<byte>, c: byte)
    requires Clean(p)
    ensures Clean(p + [c]) <==> !(c == SLASH && EndsSlash(p)) && !((c == SLASH || c == DOT) && EndsSlashDot(p))
  {
    var q := p + [c];
    if c == SLASH && EndsSlash(p) {
      assert Doubled(q, |p| - 1);
    } else if (c == SLASH || c == DOT) && EndsSlashDot(p) {
      assert Dotted(q, |p| - 2);
    } else {
      forall i | 0 <= i < |q| ensures !Doubled(q, i) && !Dotted(q, i) {
        if i < |p| {
          assert !Doubled(p, i) && !Dotted(p, i);
        }
      }
    }
  }

  // ---------------------------------------------------------------------------
  // One byte
  // ---------------------------------------------------------------------------

  datatype Issued = Full | OverLimit | Stored(s: State)

  // issue_char; a NUL is stored but not counted.
  function Issue(s: State, c: byte): Issued {
    if |s.data| == s.room then Full
    else if s.Len() >= s.limit then OverLimit
    else Stored(if c == 0 then s.(data := s.data + [c])
                else if s.ups.Arguments? then s.(data := s.data + [c], argLen := s.argLen + 1)
                else s.(data := s.data + [c], pathLen := s.pathLen + 1))
  }

  // A call whose result is ignored.
  function IssueAnyway(s: State, c: byte): State {
    match Issue(s, c)
    case Stored(t) => t
    case _ => s
  }

  function Shorten(s: State): State
    requires s.pathLen > 0
  {
    s.(data := s.data[..|s.data| - 1], pathLen := s.pathLen - 1)
  }

  lemma ShortenLength(s: State)
    requires s.pathLen > 0
    ensures Shorten(s).pathLen == s.pathLen - 1
  {}

  // The inner loop of backing up: at least one byte goes, the last to go is a slash if there
  // was one in reach.
  function DropSegment(s: State): State
    requires s.pathLen > 0
    decreases s.pathLen
  {
    var t := Shorten(s);
    if t.pathLen > 1 && s.data[|s.data| - 1] != SLASH then DropSegment(t) else t
  }

  function BackUp(s: State): State
  {
    if s.pathLen > 2 then DropSegment(Shorten(s)) else s
  }

  datatype Tracked = Swallowed(s: State) | Pass(s: State)

  // The path states.
  function Track(s: State, c: byte): Tracked
  {
    match s.ups
    case Idle => Pass(if c == SLASH then s.(ups := SeenSlash) else s)
    case SeenSlash =>
      if c == SLASH then Swallowed(s)
      else if c == DOT then Swallowed(s.(ups := SeenSlashDot))
      else Pass(s.(ups := Idle))
    case SeenSlashDot =>
      if c == DOT then Swallowed(BackUp(s).(ups := SeenSlashDotDot))
      else if c == SLASH then Swallowed(s.(ups := SeenSlash))
      else Pass(IssueAnyway(s.(ups := Idle), DOT))
    case SeenSlashDotDot =>
      if c == DOT || c == SLASH then Swallowed(s) else Pass(s.(ups := SeenSlash))
    case Arguments => Pass(s)
  }

  datatype Outcome = Dropped(s: State) | Kept(s: State)

  // Storing a byte the path states let through: '?' seals the path, a CR ends the header.
  function Collect(s: State, c: byte): Outcome {
    if c == QUERY then Kept(s.(data := s.data + [0], argLen := 0, ups := Arguments))
    else
      var t, d := if c == CR then s.(phase := SkippingSawCr) else s, if c == CR then 0 else c;
      match Issue(t, d)
      case Full => Dropped(t)
      case OverLimit => Kept(t.(phase := Skipping))
      case Stored(u) => Kept(u)
  }

  function Assess(s: State, c: byte): Outcome
  {
    match Track(s, c)
    case Swallowed(t) => Kept(t)
    case Pass(t) => Collect(t, c)
  }

  // A space ends the URI.
  function EndUri(s: State): Outcome {
    var first := if s.Len() == 0 then Issue(s, SLASH) else Stored(s);
    if first.Full? then Dropped(s)
    else
      var t := if first.Stored? then first.s else s;
      match Issue(t, 0)
      case Full => Dropped(t)
      case OverLimit => Kept(t.(phase := Http))
      case Stored(u) => Kept(u.(phase := Http))
  }

  // libwebsocket_parse, while collecting a request URI.
  function Parse(s: State, c: byte): Outcome
    requires s.phase.InUri?
    decreases if s.ues.SeenPercentH1? then 1 else 0
  {
    if s.pathLen == 0 && c == SPACE then Kept(s)
    else if c == SPACE then EndUri(s)
    else
      match s.ues
      case NoEscape =>
        if c == PERCENT then Kept(s.(ues := SeenPercent)) else Assess(s, c)
      case SeenPercent =>
        if CharToHex(c) >= 0 then Kept(s.(ues := SeenPercentH1(c)))
        else (match Issue(s, PERCENT)
              case Full => Dropped(s)
              case OverLimit => Assess(s.(ues := NoEscape), c)
              case Stored(t) => Assess(t.(ues := NoEscape), c))
      case SeenPercentH1(stash) =>
        if CharToHex(c) >= 0 then
          Assess(s.(ues := NoEscape), 16 * CharToHex(stash) + CharToHex(c))
        else
          var r := Parse(IssueAnyway(s.(ues := NoEscape), PERCENT), stash);
          if r.Dropped? then r else Assess(r.s, c)
  }

  // ---------------------------------------------------------------------------
  // Every stored path is clean
  // ---------------------------------------------------------------------------

  // What the path states say about the bytes stored so far.
  predicate Tail(ups: PathState, data: seq<byte>) {
    match ups
    case Idle => !EndsSlash(data) && !EndsSlashDot(data)
    case SeenSlash => !EndsSlashDot(data)
    case SeenSlashDot => !EndsSlashDot(data)
    case _ => true
  }

  // Outside the URI the path is final; inside, all stored bytes are clean and the state is
  // true to them.
  ghost predicate Inv(s: State) {
    && Clean(Path(s))
    && (s.phase.InUri? && !s.ups.Arguments? ==> Clean(s.data) && Tail(s.ups, s.data))
  }

  // Storing at the end of clean bytes.
  lemma IssueClean(s: State, c: byte)
    requires !s.ups.Arguments? && Clean(s.data) && Clean(s.data + [c])
    ensures match Issue(s, c)
      case Stored(t) => Clean(t.data) && Clean(Path(t)) && t.data == s.data + [c]
      case _ => Clean(Path(s))
  {
    CleanPrefix(s.data, s.pathLen);
    match Issue(s, c)
    case Stored(t) => CleanPrefix(t.data, t.pathLen);
    case _ =>
  }

  // Backing up leaves a prefix, and not one that ends before anything but a slash, unless
  // only one byte counts.
  lemma {:induction false} DropSegmentPrefix(s: State)
    requires s.pathLen > 0
    ensures var t := DropSegment(s); t.pathLen <= |t.data| <= |s.data| && t.data == s.data[..|t.data|]
    ensures var t := DropSegment(s); t == s.(data := t.data, pathLen := t.pathLen)
    decreases s.pathLen
  {
    var t := Shorten(s);
    if t.pathLen > 1 && s.data[|s.data| - 1] != SLASH {
      DropSegmentPrefix(t);
    }
  }

  lemma BackUpClean(s: State)
    requires Clean(s.data)
    ensures var t := BackUp(s); Clean(t.data) && Clean(Path(t)) && t == s.(data := t.data, pathLen := t.pathLen)
  {
    CleanPrefix(s.data, s.pathLen);
    if s.pathLen > 2 {
      var u := Shorten(s);
      DropSegmentPrefix(u);
      var t := DropSegment(u);
      assert t.data == s.data[..|t.data|];
      CleanPrefix(s.data, |t.data|);
      CleanPrefix(t.data, t.pathLen);
    }
  }

  // What a call leaves behind: a dropped connection only has to have a clean path.
  ghost predicate Good(o: Outcome) {
    Clean(Path(o.s)) && (o.Kept? ==> Inv(o.s))
  }

  // The byte c may follow: if it is stored, the bytes stay clean and the path state fits.
  ghost predicate Ready(s: State, c: byte) {
    && !s.ups.Arguments? && s.phase.InUri? && Clean(s.data)
    && (Issue(s, c).Stored? ==> Clean(s.data + [c]) && Tail(s.ups, s.data + [c]))
  }

  lemma CollectKeeps(s: State, c: byte)
    requires Ready(s, c)
    ensures Good(Collect(s, c))
  {
    hide Clean, Tail;
    CleanPrefix(s.data, s.pathLen);
    if c == QUERY {
      assert (s.data + [0])[..s.pathLen] == s.data[..s.pathLen];
    } else if c == CR {
      CleanAdd(s.data, 0);
      IssueClean(s.(phase := SkippingSawCr), 0);
    } else if Issue(s, c).Stored? {
      IssueClean(s, c);
    }
  }

  // Bytes of the arguments leave the path alone.
  lemma ArgumentsKeep(s: State, c: byte)
    requires s.ups.Arguments?
    ensures Path(Assess(s, c).s) == Path(s) && Assess(s, c).s.ups.Arguments?
  {}

  lemma TrackIdle(s: State, c: byte)
    requires s.ups.Idle? && s.phase.InUri? && Inv(s)
    ensures Ready(Track(s, c).s, c)
  {
    hide Clean;
    CleanAdd(s.data, c);
  }

  lemma TrackSlash(s: State, c: byte)
    requires s.ups.SeenSlash? && s.phase.InUri? && Inv(s)
    ensures match Track(s, c)
      case Swallowed(t) => Inv(t)
      case Pass(t) => Ready(t, c)
  {
    hide Clean;
    CleanAdd(s.data, c);
  }

  lemma TrackDot(s: State, c: byte)
    requires s.ups.SeenSlashDot? && s.phase.InUri? && Inv(s)
    ensures match Track(s, c)
      case Swallowed(t) => Inv(t)
      case Pass(t) => Ready(t, c)
  {
    hide Clean, BackUp;
    if c == DOT {
      BackUpClean(s);
    } else if c != SLASH {
      var u := s.(ups := Idle);
      CleanAdd(s.data, DOT);
      CleanAdd(s.data + [DOT], c);
    }
  }

  lemma TrackDotDot(s: State, c: byte)
    requires s.ups.SeenSlashDotDot? && s.phase.InUri? && Inv(s)
    ensures match Track(s, c)
      case Swallowed(t) => Inv(t)
      case Pass(t) => Ready(t, c)
  {
    hide Clean;
    CleanAdd(s.data, c);
  }

  lemma AssessKeeps(s: State, c: byte)
    requires s.phase.InUri? && Inv(s)
    ensures Good(Assess(s, c))
  {
    hide Inv, Ready, Collect, Track;
    match s.ups {
      case Idle =>
        TrackIdle(s, c);
        TrackSwallows(s, c);
      case SeenSlash => TrackSlash(s, c);
      case SeenSlashDot => TrackDot(s, c);
      case SeenSlashDotDot => TrackDotDot(s, c);
      case Arguments =>
        ArgumentsKeep(s, c);
        InvArguments(s, Assess(s, c).s);
    }
    match Track(s, c)
    case Swallowed(t) => if !s.ups.Arguments? { InvClean(t); }
    case Pass(t) => if !s.ups.Arguments? { CollectKeeps(t, c); }
  }

  lemma TrackSwallows(s: State, c: byte)
    requires s.ups.Idle?
    ensures Track(s, c).Pass?
  {}

  lemma InvClean(s: State)
    requires Inv(s)
    ensures Clean(Path(s))
  {}

  lemma InvArguments(s: State, t: State)
    requires Inv(s) && t.ups.Arguments? && Path(t) == Path(s)
    ensures Inv(t) && Clean(Path(t))
  {}

  // A hex digit is stored, or the limit has been met.
  lemma DigitAssess(s: State, d: HexDigit)
    requires s.phase.InUri?
    ensures Assess(s, d).Kept? ==>
              var t := Assess(s, d).s;
              t.phase.InUri? || t.ups.Arguments? || (t.pathLen >= t.limit && (t.ups.Idle? || t.ups.SeenSlash?))
  {
    assert CharToHex(d) >= 0;
  }

  // Past the limit nothing reaches the path.
  lemma SkippingKeeps(s: State, c: byte)
    requires s.pathLen >= s.limit && (s.ups.Idle? || s.ups.SeenSlash?)
    ensures Path(Assess(s, c).s) == Path(s) && (s.phase.InUri? || !Assess(s, c).s.phase.InUri?)
  {}

  lemma IssueArguments(s: State, c: byte)
    requires s.ups.Arguments?
    ensures Path(IssueAnyway(s, c)) == Path(s) && IssueAnyway(s, c).ups.Arguments?
  {}

  lemma EndKeeps(s: State)
    requires s.phase.InUri? && Inv(s) && s.pathLen > 0
    ensures Good(EndUri(s))
  {
    hide Clean, Tail;
    if s.ups.Arguments? {
      var t := if s.Len() == 0 then IssueAnyway(s, SLASH) else s;
      IssueArguments(s, SLASH);
      IssueArguments(t, 0);
    } else {
      CleanAdd(s.data, 0);
      IssueClean(s, 0);
    }
  }

  lemma PercentKeeps(s: State)
    requires s.phase.InUri? && Inv(s)
    ensures Inv(IssueAnyway(s, PERCENT)) && IssueAnyway(s, PERCENT).phase.InUri?
  {
    hide Clean;
    if s.ups.Arguments? {
      IssueArguments(s, PERCENT);
    } else {
      CleanAdd(s.data, PERCENT);
      IssueClean(s, PERCENT);
    }
  }

  // The stashed digit is parsed again, and then the byte that broke the escape.
  lemma RegurgitateKeeps(s: State, d: HexDigit, c: byte)
    requires s.phase.InUri? && Inv(s)
    ensures var r := Assess(s, d); Good(r) && (r.Kept? ==> Good(Assess(r.s, c)))
  {
    AssessKeeps(s, d);
    DigitAssess(s, d);
    hide Assess;
    var r := Assess(s, d);
    if r.Kept? {
      if r.s.phase.InUri? {
        AssessKeeps(r.s, c);
      } else if r.s.ups.Arguments? {
        ArgumentsKeep(r.s, c);
      } else {
        SkippingKeeps(r.s, c);
      }
    }
  }

  lemma DigitParses(s: State, d: HexDigit)
    requires s.phase.InUri? && s.ues.NoEscape?
    ensures Parse(s, d) == Assess(s, d)
  {
    assert CharToHex(d) >= 0;
  }

  lemma {:induction false} ParseKeeps(s: State, c: byte)
    requires s.phase.InUri? && Inv(s)
    ensures Good(Parse(s, c))
    decreases if s.ues.SeenPercentH1? then 1 else 0
  {
    hide Assess, Inv, Good, EndUri;
    var u := s.(ues := NoEscape);
    EscapeKeeps(s, NoEscape);
    EscapeKeeps(s, s.ues);
    if c == SPACE {
      if s.pathLen > 0 { EndKeeps(s); }
    } else if s.ues.NoEscape? {
      EscapeKeeps(s, SeenPercent);
      AssessKeeps(s, c);
    } else if CharToHex(c) >= 0 {
      if s.ues.SeenPercent? {
        EscapeKeeps(s, SeenPercentH1(c));
      } else {
        AssessKeeps(u, 16 * CharToHex(s.ues.stash) + CharToHex(c));
      }
    } else {
      PercentKeeps(u);
      var v := IssueAnyway(u, PERCENT);
      if s.ues.SeenPercent? {
        AssessKeeps(v, c);
      } else {
        DigitParses(v, s.ues.stash);
        RegurgitateKeeps(v, s.ues.stash, c);
      }
    }
  }

  lemma EscapeKeeps(s: State, e: EscapeState)
    requires Inv(s)
    ensures Inv(s.(ues := e)) && Good(Kept(s.(ues := e))) && Good(Dropped(s))
  {}

  // ---------------------------------------------------------------------------
  // Whole requests
  // ---------------------------------------------------------------------------

  // Bytes up to the end of the URI or of the connection.
  function Run(s: State, input: seq<byte>): Outcome
    decreases |input|
  {
    if input == [] || !s.phase.InUri? then Kept(s)
    else
      var r := Parse(s, input[0]);
      if r.Dropped? then r else Run(r.s, input[1..])
  }

  lemma {:induction false} RunKeeps(s: State, input: seq<byte>)
    requires Inv(s)
    ensures Good(Run(s, input))
    decreases |input|
  {
    hide Parse, Inv, Good;
    GoodInv(s);
    if input != [] && s.phase.InUri? {
      ParseKeeps(s, input[0]);
      var r := Parse(s, input[0]);
      if r.Kept? {
        KeptInv(r);
        RunKeeps(r.s, input[1..]);
      }
    }
  }

  lemma GoodInv(s: State)
    requires Inv(s)
    ensures Good(Kept(s))
  {}

  lemma KeptInv(o: Outcome)
    requires Good(o) && o.Kept?
    ensures Inv(o.s)
  {}

  // For every request, whatever its escapes: the stored path has no "//", "/./" or "/..".
  lemma StoredPathClean(room: nat, limit: nat, input: seq<byte>)
    ensures Clean(Path(Run(Fresh(room, limit), input).s))
  {
    hide Run;
    RunKeeps(Fresh(room, limit), input);
  }

  lemma RunOne(s: State, c: byte, rest: seq<byte>)
    requires s.phase.InUri? && Parse(s, c).Kept?
    ensures Run(s, [c] + rest) == Run(Parse(s, c).s, rest)
  {
    hide Parse;
    assert ([c] + rest)[1..] == rest;
  }

  lemma RunNone(s: State)
    ensures Run(s, []) == Kept(s)
  {}
}
