/** The request-URI parser with its fields updated in place, against UriPath. */
module UriParser {
  import opened Octets
  import opened UriPath

  datatype Code = Failed | Fine | TooLong

  class Parser {
    var phase: Phase
    var ues: EscapeState
    var ups: PathState
    var data: seq<byte>
    var pathLen: nat
    var argLen: nat
    const room: nat
    const limit: nat

    ghost predicate Valid()
      reads this
    {
      pathLen <= |data|
    }

    ghost function Now(): State
      requires Valid()
      reads this
    {
      Store(phase, ues, ups, data, pathLen, argLen, room, limit)
    }

    constructor (room: nat, limit: nat)
      ensures Valid() && Now() == Fresh(room, limit)
    {
      this.room, this.limit := room, limit;
      phase, ues, ups, data, pathLen, argLen := InUri, NoEscape, Idle, [], 0, 0;
    }

    // issue_char
    method IssueChar(c: byte) returns (n: Code)
      requires Valid()
      modifies this
      ensures Valid() && Now() == IssueAnyway(old(Now()), c)
      ensures n == match Issue(old(Now()), c) case Full => Failed case OverLimit => TooLong case Stored(_) => Fine
    {
      if |data| == room {
        return Failed;
      }
      if (if ups.Arguments? then argLen else pathLen) >= limit {
        return TooLong;
      }
      data := data + [c];
      if c != 0 {
        if ups.Arguments? {
          argLen := argLen + 1;
        } else {
          pathLen := pathLen + 1;
        }
      }
      return Fine;
    }

    // One byte less; the byte is still there to be looked at.
    method DropByte() returns (last: byte)
      requires Valid() && pathLen > 0
      modifies this`data, this`pathLen
      ensures Valid() && Now() == Shorten(old(Now())) && last == old(data[|data| - 1])
    {
      last := data[|data| - 1];
      data, pathLen := data[..|data| - 1], pathLen - 1;
    }

    // Back up one directory level if possible.
    method BackUpLevel()
      requires Valid()
      modifies this`data, this`pathLen
      ensures Valid() && Now() == BackUp(old(Now()))
    {
      hide Shorten;
      if pathLen > 2 {
        var last := DropByte();
        ShortenLength(old(Now()));
        ghost var start := Now();
        last := DropByte();
        ShortenLength(start);
        while pathLen > 1 && last != SLASH
          invariant Valid()
          invariant DropSegment(start) == if pathLen > 1 && last != SLASH then DropSegment(Now()) else Now()
          decreases pathLen
        {
          ShortenLength(Now());
          last := DropByte();
        }
      }
    }

    // The path states; whether the byte is swallowed.
    method TrackPath(c: byte) returns (swallow: bool)
      requires Valid()
      modifies this
      ensures Valid() && Track(old(Now()), c) == if swallow then Swallowed(Now()) else Pass(Now())
    {
      hide BackUp;
      match ups {
        case Idle =>
          if c == SLASH { ups := SeenSlash; }
          swallow := false;
        case SeenSlash =>
          if c == SLASH { return true; }
          if c == DOT {
            ups := SeenSlashDot;
            return true;
          }
          ups := Idle;
          swallow := false;
        case SeenSlashDot =>
          if c == DOT {
            BackUpLevel();
            ups := SeenSlashDotDot;
            return true;
          }
          if c == SLASH {
            ups := SeenSlash;
            return true;
          }
          ups := Idle;
          var _ := IssueChar(DOT);
          swallow := false;
        case SeenSlashDotDot =>
          if c == DOT || c == SLASH { return true; }
          ups := SeenSlash;
          swallow := false;
        case Arguments => swallow := false;
      }
    }

    method AssessByte(c: byte) returns (ok: bool)
      requires Valid()
      modifies this
      ensures Valid() && Assess(old(Now()), c) == if ok then Kept(Now()) else Dropped(Now())
    {
      hide Track, Issue;
      var swallow := TrackPath(c);
      if swallow {
        return true;
      }
      if c == QUERY {
        data, argLen, ups := data + [0], 0, Arguments;
        return true;
      }
      var d := c;
      if c == CR {
        d := 0;
        phase := SkippingSawCr;
      }
      var n := IssueChar(d);
      if n == TooLong {
        phase := Skipping;
      }
      ok := n != Failed;
    }

    method EndPath() returns (ok: bool)
      requires Valid()
      modifies this
      ensures Valid() && EndUri(old(Now())) == if ok then Kept(Now()) else Dropped(Now())
    {
      if (if ups.Arguments? then argLen else pathLen) == 0 {
        var n := IssueChar(SLASH);
        if n == Failed { return false; }
      }
      var n := IssueChar(0);
      if n == Failed { return false; }
      phase := Http;
      ok := true;
    }

    // libwebsocket_parse in a URI state
    method ParseByte(c: byte) returns (ok: bool)
      requires Valid() && phase.InUri?
      modifies this
      ensures Valid() && Parse(old(Now()), c) == if ok then Kept(Now()) else Dropped(Now())
      decreases if ues.SeenPercentH1? then 1 else 0
    {
      hide Assess, EndUri;
      if pathLen == 0 && c == SPACE { return true; }
      if c == SPACE {
        ok := EndPath();
        return;
      }
      var d := c;
      match ues {
        case NoEscape =>
          if c == PERCENT {
            ues := SeenPercent;
            return true;
          }
        case SeenPercent =>
          if CharToHex(c) >= 0 {
            ues := SeenPercentH1(c);
            return true;
          }
          var n := IssueChar(PERCENT);
          if n == Failed { return false; }
          ues := NoEscape;
        case SeenPercentH1(stash) =>
          ues := NoEscape;
          if CharToHex(c) >= 0 {
            d := 16 * CharToHex(stash) + CharToHex(c);
          } else {
            var _ := IssueChar(PERCENT);
            var fine := ParseByte(stash);
            if !fine { return false; }
          }
      }
      ok := AssessByte(d);
    }
  }
}
