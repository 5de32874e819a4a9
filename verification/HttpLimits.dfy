/** Bounded memory and progress: what the parser keeps between feeds, and how long it can go on. */
module HttpLimits {
  import opened Wrappers
  import opened Text
  import opened HttpSpec
  import opened HttpFragments

  /** The bound on the bytes kept in the buffer, state by state. */
  predicate BufferBounded(s: Parser) {
    match s.state
    case StatusLine | Headers => |s.buf| <= s.limits.maxHeader
    case BodyContentLength => |s.buf| < s.contentLength <= s.limits.maxBody
    case BodyChunked =>
      if !s.chunkStarted then |s.buf| <= s.limits.maxChunkLine
      else if s.chunkRemaining > 0 then s.buf == ""
      else |s.buf| < 2
    case BodyEof => |s.buf| <= s.limits.maxBody
    case _ => true
  }

  predicate BodyBounded(s: Parser) {
    && |s.body| <= s.limits.maxBody
    && (s.state.BodyChunked? && s.chunkStarted ==> |s.body| + s.chunkRemaining <= s.limits.maxBody)
  }

  predicate Bounded(s: Parser) {
    && s.limits.maxHeader <= s.limits.maxBody && Coherent(s)
    && BodyBounded(s) && BufferBounded(s)
    && (s.InHead() ==> s.body == "" && !s.chunkStarted && s.chunkRemaining == 0)
  }

  lemma {:induction false} ChunkRunBounded(s: Parser)
    requires s.state.BodyChunked? && Coherent(s) && BodyBounded(s)
    ensures BodyBounded(ChunkRun(s)) && BufferBounded(ChunkRun(s))
    decreases |s.buf|
  {
    hide Find, HexValue, ScanTrailer;
    TrailerWaits(s);
    if ChunkMove(s).Go? { ChunkRunBounded(ChunkMove(s).next); }
  }

  /** A pause inside the trailer section keeps at most a chunk line. */
  lemma TrailerWaits(s: Parser)
    ensures ChunkMove(s).Trailer? ==> |ChunkMove(s).next.buf| <= s.limits.maxChunkLine
  {
    hide Find, HexValue;
    if ChunkMove(s).Trailer? { ScanBound(ChunkMove(s).next.buf, 0, 0, s.limits.maxChunkLine); }
  }

  lemma {:induction false} ScanBound(buf: string, pos: nat, used: nat, limit: nat)
    requires pos <= |buf| && ScanTrailer(buf, pos, used, limit).More?
    ensures |buf| <= limit
    decreases |buf| - pos
  {
    hide Find;
    var e := Find(buf, CRLF, pos);
    if e.Some? { ScanBound(buf, e.value + 2, used + (e.value + 2 - pos), limit); }
  }

  lemma {:induction false} FoldLimit(text: string, pos: nat, f: Framed, maxBody: nat)
    requires f.framing.ContentLength? ==> f.contentLength <= maxBody
    ensures var r := FoldHeaders(text, pos, f, maxBody); r.framing.ContentLength? ==> r.contentLength <= maxBody
    decreases |text| - pos
  {
    hide Find, SplitField, ParseLength;
    if pos < |text| && f.fault.NoFault? {
      var eol := LineEnd(text, pos);
      FoldLimit(text, eol + 2, ApplyHeader(f, text[pos..eol], maxBody), maxBody);
    }
  }

  /** A body length taken from the head obeys the body limit. */
  lemma HeadLimit(s: Parser, h: nat)
    requires s.InHead() && Coherent(s) && Find(s.buf, BLANK_LINE, 0) == Some(h)
    ensures var e := AfterHead(s, h); e.state.BodyContentLength? ==> e.contentLength <= s.limits.maxBody
  {
    hide Find, FoldHeaders, ReadStatusLine, HeaderText;
    FoldLimit(HeaderText(s.buf, h), 0, Framed(NoFraming, s.contentLength, NoFault), s.limits.maxBody);
  }

  lemma StepBodyBounded(s: Parser)
    requires !s.InHead() && Coherent(s) && BodyBounded(s)
    requires s.limits.maxHeader <= s.limits.maxBody
    requires s.state.BodyContentLength? ==> s.contentLength <= s.limits.maxBody
    requires s.state.BodyEof? ==> |s.buf| <= s.limits.maxBody
    ensures Bounded(StepBody(s))
  {
    hide Find, ChunkMove;
    if s.state.BodyChunked? {
      ChunkKeeps(s);
      ChunkRunBounded(s);
    }
  }

  /** Every feed keeps the bounds. */
  lemma FeedBounded(s: Parser, input: Input)
    requires Bounded(s)
    ensures Bounded(Feed(s, input))
  {
    hide Find, ChunkRun, AfterHead;
    if !s.Terminal() && input.Bytes? {
      var s1 := Append(s, input.data);
      if !s.InHead() {
        if !(s.state.BodyEof? && |s1.buf| > s.limits.maxBody) { StepBodyBounded(s1); }
      } else if HeadComplete(s1) && |s1.buf| <= s.limits.maxHeader {
        var h := Find(s1.buf, BLANK_LINE, 0).value;
        HeadFaults(s1, h);
        HeadLimit(s1, h);
        StepBodyBounded(AfterHead(s1, h));
      }
    }
  }

  /** A parser after any sequence of calls. */
  function FeedInputs(s: Parser, inputs: seq<Input>): Parser {
    if inputs == [] then s else Feed(FeedInputs(s, inputs[..|inputs| - 1]), inputs[|inputs| - 1])
  }

  /** Memory stays bounded over every sequence of feeds. */
  lemma {:induction false} AlwaysBounded(limits: Limits, allowEof: bool, inputs: seq<Input>)
    requires limits.maxHeader <= limits.maxBody
    ensures Bounded(FeedInputs(Init(limits, allowEof), inputs))
  {
    hide Feed;
    if inputs != [] {
      AlwaysBounded(limits, allowEof, inputs[..|inputs| - 1]);
      FeedBounded(FeedInputs(Init(limits, allowEof), inputs[..|inputs| - 1]), inputs[|inputs| - 1]);
    }
  }
}
