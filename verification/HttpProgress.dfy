/** Progress: every non-empty feed brings the parser closer to its end, with one exception. */
module HttpProgress {
  import opened Wrappers
  import opened Text
  import opened HttpSpec
  import opened HttpFragments
  import opened HttpLimits

  /** What one body byte is worth: more than a whole size line and two line breaks. */
  function ByteWeight(limits: Limits): nat { limits.maxChunkLine + 4 }

  /** What the body bytes still allowed are worth, when `used` of them are taken. */
  function Room(limits: Limits, used: nat): nat
    requires used <= limits.maxBody
  {
    ByteWeight(limits) * (limits.maxBody - used)
  }

  lemma RoomShrinks(limits: Limits, used: nat, k: nat)
    requires 0 < k && used + k <= limits.maxBody
    ensures Room(limits, used + k) + ByteWeight(limits) <= Room(limits, used)
  {
    var w, room := ByteWeight(limits), limits.maxBody - used;
    assert w * (room - k) == w * room - w * k;
    assert w * k == w + w * (k - 1) && w * (k - 1) >= 0;
  }

  /** The rank of a decoder position, before its buffered bytes are counted. */
  function ChunkRank(s: Parser): nat
    requires |s.body| <= s.limits.maxBody
  {
    Room(s.limits, |s.body|) +
    if !s.chunkStarted then s.limits.maxChunkLine + 1
    else if s.chunkRemaining > 0 then 0
    else s.limits.maxChunkLine + 3
  }

  /** Strictly positive until the parser has finished. */
  function Rank(s: Parser): nat
    requires Bounded(s)
  {
    match s.state
    case StatusLine | Headers =>
      s.limits.maxHeader - |s.buf| + Room(s.limits, 0) + s.limits.maxChunkLine + 4
    case BodyContentLength => s.contentLength - |s.buf|
    case BodyChunked => ChunkRank(s) - (if s.chunkStarted && s.chunkRemaining > 0 then 0 else |s.buf|) + 1
    case BodyEof => s.limits.maxBody - |s.buf| + 1
    case _ => 0
  }

  /** The rank when the body is not chunked: the number of feeds left is bounded by the two limits. */
  function PlainRank(s: Parser): nat
    requires Bounded(s)
  {
    match s.state
    case StatusLine | Headers => s.limits.maxHeader - |s.buf| + s.limits.maxBody + 2
    case BodyContentLength => s.contentLength - |s.buf|
    case BodyEof => s.limits.maxBody - |s.buf| + 1
    case _ => 0
  }

  /** The feed leaves the decoder waiting inside a trailer section. */
  predicate PausesInTrailer(s: Parser, d: string) {
    && !s.Terminal()
    && var e := Entered(Append(s, d)); e.state.BodyChunked? && EndsInTrailer(e)
  }

  lemma MoveRank(s: Parser)
    requires s.state.BodyChunked? && Coherent(s) && BodyBounded(s) && ChunkMove(s).Go?
    ensures BodyBounded(ChunkMove(s).next) && Coherent(ChunkMove(s).next) && ChunkMove(s).next.state.BodyChunked?
    ensures ChunkMove(s).next.limits == s.limits
    ensures ChunkRank(ChunkMove(s).next) < ChunkRank(s)
    ensures s.chunkStarted && s.chunkRemaining == 0 ==> ChunkRank(ChunkMove(s).next) == ChunkRank(s) - 2
    ensures !s.chunkStarted ==> ChunkRank(ChunkMove(s).next) == ChunkRank(s) - s.limits.maxChunkLine - 1
  {
    hide Find, HexValue, ScanTrailer, Room;
    if s.chunkStarted && s.chunkRemaining > 0 { RoomShrinks(s.limits, |s.body|, s.chunkRemaining); }
  }

  lemma WaitRank(s: Parser)
    requires s.state.BodyChunked? && Coherent(s) && BodyBounded(s) && ChunkMove(s).Wait?
    ensures var r := ChunkMove(s).next;
      && r.state.BodyChunked? && r.limits == s.limits && BodyBounded(r) && BufferBounded(r)
      && ChunkRank(r) <= ChunkRank(s)
      && (r != s ==> ChunkRank(r) < ChunkRank(s) && r.chunkStarted && r.chunkRemaining > 0
                     && s.chunkStarted && s.chunkRemaining > 0)
  {
    hide Find, SizeMove, Room;
    if !s.chunkStarted {
      SizeWaits(s);
    } else if ChunkMove(s).next != s {
      RoomShrinks(s.limits, |s.body|, |s.buf|);
    }
  }

  lemma SizeWaits(s: Parser)
    requires SizeMove(s).Wait?
    ensures SizeMove(s).next == s && |s.buf| <= s.limits.maxChunkLine
  {
    hide Find, ParseSizeLine, ScanTrailer;
  }

  /** A whole run never raises the rank of its starting position. */
  lemma {:induction false} RunRank(s: Parser)
    requires s.state.BodyChunked? && Coherent(s) && BodyBounded(s) && !EndsInTrailer(s)
    requires s.limits.maxHeader <= s.limits.maxBody
    ensures Bounded(ChunkRun(s))
    ensures Rank(ChunkRun(s)) <= ChunkRank(s) + 1
    decreases |s.buf|
  {
    hide ChunkMove, Room;
    ChunkRunBounded(s);
    ChunkKeeps(s);
    if ChunkMove(s).Go? {
      MoveRank(s);
      RunRank(ChunkMove(s).next);
    } else if ChunkMove(s).Wait? {
      WaitRank(s);
    } else {
      StopEnds(s);
    }
  }

  lemma StopEnds(s: Parser)
    requires s.state.BodyChunked? && ChunkMove(s).Stop?
    ensures ChunkMove(s).next.Terminal()
  {
    hide Find, HexValue, ScanTrailer;
  }

  lemma ChunkProgress(s: Parser, d: string)
    requires Bounded(s) && s.state.BodyChunked? && d != ""
    requires !EndsInTrailer(Append(s, d))
    ensures Bounded(ChunkRun(Append(s, d)))
    ensures Rank(ChunkRun(Append(s, d))) < Rank(s)
  {
    hide ChunkMove, Room;
    var s1 := Append(s, d);
    ChunkRunBounded(s1);
    ChunkKeeps(s1);
    if ChunkMove(s1).Go? {
      MoveRank(s1);
      RunRank(ChunkMove(s1).next);
    } else if ChunkMove(s1).Wait? {
      WaitRank(s1);
    } else {
      StopEnds(s1);
    }
  }

  lemma HeadProgress(s: Parser, d: string)
    requires Bounded(s) && s.InHead() && d != "" && !PausesInTrailer(s, d)
    ensures Bounded(Feed(s, Bytes(d)))
    ensures Rank(Feed(s, Bytes(d))) < Rank(s)
    ensures !Feed(s, Bytes(d)).state.BodyChunked? ==> PlainRank(Feed(s, Bytes(d))) < PlainRank(s)
  {
    hide Find, ChunkRun, EndsInTrailer, Entered, Room, HeadComplete;
    FeedBounded(s, Bytes(d));
    RoomCovers(s.limits);
    var s1 := Append(s, d);
    if |s1.buf| > s.limits.maxHeader {
      assert Feed(s, Bytes(d)).state.Error?;
    } else if HeadComplete(s1) {
      CompletedHead(s, d);
      var e := Entered(s1);
      if e.state.BodyChunked? {
        RunRank(e);
        ChunkKeeps(e);
      }
    } else {
      StillInHead(s, d);
    }
  }

  lemma StillInHead(s: Parser, d: string)
    requires s.InHead() && |s.buf + d| <= s.limits.maxHeader && !HeadComplete(Append(s, d))
    ensures Feed(s, Bytes(d)) == Append(s, d)
  {
    hide Find;
  }

  lemma CompletedHead(s: Parser, d: string)
    requires Bounded(s) && s.InHead() && |s.buf + d| <= s.limits.maxHeader && HeadComplete(Append(s, d))
    ensures var e, r := Entered(Append(s, d)), Feed(s, Bytes(d));
      && r == StepBody(e) && Coherent(e) && e.body == "" && !e.chunkStarted
      && e.limits == s.limits && !e.InHead()
      && (!e.state.BodyChunked? && !r.Terminal() ==> r == e)
  {
    hide Find, ChunkRun, ParseHead;
    var s1 := Append(s, d);
    HeadFaults(s1, Find(s1.buf, BLANK_LINE, 0).value);
  }

  lemma RoomCovers(limits: Limits)
    ensures Room(limits, 0) >= limits.maxBody
  {
    assert ByteWeight(limits) * limits.maxBody == (limits.maxChunkLine + 3) * limits.maxBody + limits.maxBody;
  }

  /** Every non-empty feed lowers the rank, unless it leaves the decoder paused inside a trailer section;
      and outside chunked framing it lowers the plain rank. */
  lemma FeedProgress(s: Parser, d: string)
    requires Bounded(s) && !s.Terminal() && d != "" && !PausesInTrailer(s, d)
    ensures Bounded(Feed(s, Bytes(d)))
    ensures Rank(Feed(s, Bytes(d))) < Rank(s)
    ensures !s.state.BodyChunked? && !Feed(s, Bytes(d)).state.BodyChunked? ==>
              PlainRank(Feed(s, Bytes(d))) < PlainRank(s)
  {
    hide Find, ChunkRun, EndsInTrailer, AfterHead, Room;
    FeedBounded(s, Bytes(d));
    if s.InHead() {
      HeadProgress(s, d);
    } else if s.state.BodyChunked? {
      FeedChunked(s, d);
      ChunkProgress(s, d);
    }
  }

  const ZERO_LINE: string := "0\r\n"

  /** The exception: a pause inside the trailer section can be repeated for ever. */
  lemma {:induction false} EndlessTrailer(s: Parser, n: nat)
    requires s.state.BodyChunked? && !s.chunkStarted && s.buf == ""
    ensures FeedAll(s, seq(n, _ => ZERO_LINE)) == s
  {
    hide ScanTrailer, EndsInTrailer;
    var ds := seq(n, _ => ZERO_LINE);
    if n > 0 {
      EndlessTrailer(s, n - 1);
      assert ds[..n - 1] == seq(n - 1, _ => ZERO_LINE);
      ZeroLinePauses(s);
    }
  }

  lemma ZeroSize()
    ensures Find(ZERO_LINE, CRLF, 0) == Some(1) && ParseSizeLine("0") == Size(0)
  {
    assert ZERO_LINE[1..3] == CRLF && ZERO_LINE[0..2] == "0\r";
    FindIs(ZERO_LINE, CRLF, 0, 1);
    assert Find("0", ";", 0).None? && HexPart("0") == "0";
    assert "0"[..0] == "" && HexDigit('0') == 0;
    assert HexValue("0") == 16 * HexValue("") + HexDigit('0');
  }

  lemma ZeroLinePauses(s: Parser)
    requires s.state.BodyChunked? && !s.chunkStarted && s.buf == ""
    ensures Feed(s, Bytes(ZERO_LINE)) == s
  {
    hide Find, HexValue, ParseSizeLine;
    FeedChunked(s, ZERO_LINE);
    var s1 := Append(s, ZERO_LINE);
    assert s1.buf == ZERO_LINE && ZERO_LINE[..1] == "0" && ZERO_LINE[3..] == "";
    ZeroSize();
    NoTrailerYet(s.limits.maxChunkLine);
    assert ChunkMove(s1) == Trailer(s1.(buf := ""));
  }

  lemma NoTrailerYet(limit: nat)
    ensures ScanTrailer("", 0, 0, limit) == More
  {
    assert Find("", CRLF, 0).None?;
  }
}
