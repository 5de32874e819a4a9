/** The client's law: what it reports when a peer answers with a whole response, in any reads; and the answer that
    keeps it reading for ever. */
module HttpExchanges {
  import opened Wrappers
  import opened Text
  import opened HttpSpec
  import opened HttpFraming
  import opened HttpFeeds
  import opened HttpFragments
  import opened HttpMessages
  import opened HttpChunks
  import opened HttpChunkedMessages
  import opened HttpResponses
  import opened HttpLimits
  import opened HttpProgress
  import opened HttpClient

  /** One read for each piece. */
  function Reads(ds: seq<string>): seq<ReadEvent> { seq(|ds|, i requires 0 <= i < |ds| => Data(ds[i])) }

  /** The loop over reads of data is the sequence of their feeds; it stops when the parser has finished. */
  lemma {:induction false} LoopFeeds(p: Parser, ds: seq<string>, more: seq<ReadEvent>)
    ensures var q := FeedAll(p, ds);
      ReadLoop(p, Reads(ds) + more) == if q.Terminal() then Finish(q) else ReadLoop(q, more)
    decreases |ds|
  {
    hide Feed;
    if ds == [] {
      assert Reads(ds) + more == more;
    } else {
      var init, d := ds[..|ds| - 1], ds[|ds| - 1];
      assert Reads(ds) + more == Reads(init) + ([Data(d)] + more);
      LoopFeeds(p, init, [Data(d)] + more);
      var q := FeedAll(p, init);
      assert ([Data(d)] + more)[1..] == more;
      if q.Terminal() { FinishedStays(q, Bytes(d)); }
    }
  }

  /** Reads that fill the client's buffer at most leave a head with room for one of them. */
  lemma LawfulPasses(head: nat, limit: nat, ds: seq<string>)
    requires AllLawful(Reads(ds)) && head + READ_BUFFER - 1 <= limit
    ensures GuardPasses(head, limit, ds)
  {
    forall k | 0 < k <= |ds| && Pos(ds, k - 1) < head <= Pos(ds, k) ensures Pos(ds, k) <= limit {
      LastOfPrefix(Init(DEFAULT_LIMITS, true), ds, k);
      assert Lawful(Reads(ds)[k - 1]);
    }
  }

  function Told(h: Head, body: string): Outcome
    requires h.Valid()
  {
    Delivered(DecValue(h.code), h.Reason(), body)
  }

  /** What the client reports for a response with a Content-Length, in any reads; it reads no further. */
  lemma LengthExchange(h: Head, body: string, ds: seq<string>, more: seq<ReadEvent>)
    requires PlainResponse(h, body, DEFAULT_LIMITS, true) && HasLength(h.lines, |h.lines|)
    requires Concat(ds) == h.Text() + body
    ensures var r := ReadLoop(Init(DEFAULT_LIMITS, true), Reads(ds) + more);
      if GuardPasses(|h.Text()|, 65_536, ds) then r == Told(h, body) else r.Malformed?
  {
    hide Find, Head.Text, Head.Valid, Feed, FeedAll, HasLength, GuardPasses, ReadLoop;
    ResponseRoundTrip(h, body, ds, DEFAULT_LIMITS, true);
    LoopFeeds(Init(DEFAULT_LIMITS, true), ds, more);
  }

  lemma StreamEnds(p: Parser, more: seq<ReadEvent>)
    requires !p.Terminal()
    ensures ReadLoop(p, [EndOfStream] + more) == Finish(Feed(p, Eof))
  {
    hide Feed;
    assert ([EndOfStream] + more)[0] == EndOfStream;
  }

  /** The same for a response that lasts until the peer ends the stream. */
  lemma StreamExchange(h: Head, body: string, ds: seq<string>, more: seq<ReadEvent>)
    requires PlainResponse(h, body, DEFAULT_LIMITS, true) && !HasLength(h.lines, |h.lines|)
    requires Concat(ds) == h.Text() + body
    ensures var r := ReadLoop(Init(DEFAULT_LIMITS, true), Reads(ds) + ([EndOfStream] + more));
      if GuardPasses(|h.Text()|, 65_536, ds) && |body| <= 16_777_216
      then r == Told(h, body) else r.Malformed?
  {
    hide Find, Head.Text, Head.Valid, Feed, FeedAll, HasLength, GuardPasses, ReadLoop;
    ResponseRoundTrip(h, body, ds, DEFAULT_LIMITS, true);
    LoopFeeds(Init(DEFAULT_LIMITS, true), ds, [EndOfStream] + more);
    var fed := FeedAll(Init(DEFAULT_LIMITS, true), ds);
    if fed.Terminal() { FinishedStays(fed, Eof); } else { StreamEnds(fed, more); }
  }

  /** The same for a chunked response. */
  lemma ChunkedExchange(h: Head, chunks: seq<Chunk>, ending: Ending, ds: seq<string>, more: seq<ReadEvent>)
    requires ChunkedResponse(h, chunks, ending, DEFAULT_LIMITS) && Concat(ds) == h.Text() + Encode(chunks, ending)
    ensures var w := Wire(h.Text(), chunks, ending, Limits(16_777_216, 65_536, 1_024), true);
      var r := ReadLoop(Init(DEFAULT_LIMITS, true), Reads(ds) + more);
      if GuardPasses(|h.Text()|, 65_536, ds) && CutsWell(w, ds)
      then r == Told(h, Payload(chunks)) else r.Malformed?
  {
    hide Find, Head.Text, Feed, FeedAll, GuardPasses, CutsWell, ReadLoop, Encode, Payload, FieldLine, EncodingOk;
    ChunkedRoundTrip(h, chunks, ending, DEFAULT_LIMITS, true, ds);
    LoopFeeds(Init(DEFAULT_LIMITS, true), ds, more);
  }

  /** A peer whose reads fill the client's buffer at most, and whose head leaves room for one of them, always
      gets its response through. */
  lemma ClientDelivers(h: Head, body: string, ds: seq<string>, more: seq<ReadEvent>)
    requires PlainResponse(h, body, DEFAULT_LIMITS, true) && Concat(ds) == h.Text() + body
    requires forall i :: 0 <= i < |ds| ==> 0 < |ds[i]| <= 8_192
    requires |h.Text()| <= 65_536 - 8_191 && |body| <= 16_777_216
    ensures ReadLoop(Init(DEFAULT_LIMITS, true), Reads(ds) + ([EndOfStream] + more)) == Told(h, body)
  {
    hide Find, Head.Text, Head.Valid, HasLength, GuardPasses, ReadLoop, PlainResponse;
    LawfulPasses(|h.Text()|, DEFAULT_LIMITS.maxHeader, ds);
    if HasLength(h.lines, |h.lines|) {
      LengthExchange(h, body, ds, [EndOfStream] + more);
    } else {
      StreamExchange(h, body, ds, more);
    }
  }

  /** A length over 16 MiB is refused, however the response is cut. */
  lemma LongRefused(code: string, reason: string, body: string, ds: seq<string>, more: seq<ReadEvent>)
    requires |code| == 3 && AllDigits(code) && NoCr(reason) && 16_777_216 < |body| <= U64_MAX
    requires Concat(ds) == HeadWith(code, reason, LengthField(|body|)).Text() + body
    ensures ReadLoop(Init(DEFAULT_LIMITS, true), Reads(ds) + more).Malformed?
  {
    hide Find, Head.Text, Feed, FeedAll, ReadLoop, Concat, LengthField, GuardPasses;
    WrittenResponse(code, reason, body, ds, DEFAULT_LIMITS, true);
    LoopFeeds(Init(DEFAULT_LIMITS, true), ds, more);
  }

  // ---- responses that are cut short ----

  /** What the client reports when the stream ends where the parser cannot end. */
  lemma EndsMalformed(p: Parser, ds: seq<string>, more: seq<ReadEvent>)
    requires Feed(FeedAll(p, ds), Eof).state.Error?
    ensures ReadLoop(p, Reads(ds) + ([EndOfStream] + more)).Malformed?
  {
    hide Feed, FeedAll, ReadLoop;
    LoopFeeds(p, ds, [EndOfStream] + more);
    var q := FeedAll(p, ds);
    if q.Terminal() { FinishedStays(q, Eof); } else { StreamEnds(q, more); }
  }

  /** A peer that ends the stream inside a head, a Content-Length body or a chunked body gets nothing through. */
  lemma TruncatedExchange(h: Head, body: string, ds: seq<string>, more: seq<ReadEvent>)
    requires PlainResponse(h, body, DEFAULT_LIMITS, true) && HasLength(h.lines, |h.lines|)
    requires Concat(ds) < h.Text() + body
    ensures ReadLoop(Init(DEFAULT_LIMITS, true), Reads(ds) + ([EndOfStream] + more)).Malformed?
  {
    hide Find, Head.Text, Head.Valid, Feed, FeedAll, HasLength, ReadLoop, Concat;
    LengthCutShort(h, body, ds, DEFAULT_LIMITS, true);
    EndsMalformed(Init(DEFAULT_LIMITS, true), ds, more);
  }

  lemma TruncatedChunks(h: Head, chunks: seq<Chunk>, ending: Ending, ds: seq<string>, more: seq<ReadEvent>)
    requires ChunkedResponse(h, chunks, ending, DEFAULT_LIMITS) && Concat(ds) < h.Text() + Encode(chunks, ending)
    ensures ReadLoop(Init(DEFAULT_LIMITS, true), Reads(ds) + ([EndOfStream] + more)).Malformed?
  {
    hide Find, Head.Text, Feed, FeedAll, ReadLoop, Encode, ChunkedResponse, Concat;
    ChunkedCutShort(h, chunks, ending, ds, DEFAULT_LIMITS, true);
    EndsMalformed(Init(DEFAULT_LIMITS, true), ds, more);
  }

  lemma TruncatedHead(ds: seq<string>, more: seq<ReadEvent>)
    requires Find(Concat(ds), BLANK_LINE, 0).None?
    ensures ReadLoop(Init(DEFAULT_LIMITS, true), Reads(ds) + ([EndOfStream] + more)).Malformed?
  {
    hide Find, Feed, FeedAll, ReadLoop, Concat;
    HeadCutShort(ds, Init(DEFAULT_LIMITS, true));
    EndsMalformed(Init(DEFAULT_LIMITS, true), ds, more);
  }

  /** A read that fails is reported as such, unless the parser has finished before it. */
  lemma FailedExchange(p: Parser, ds: seq<string>, more: seq<ReadEvent>)
    ensures var q := FeedAll(p, ds);
      ReadLoop(p, Reads(ds) + ([ReadFailed] + more)) == if q.Terminal() then Finish(q) else ReceiveFailed
  {
    hide Feed, FeedAll;
    LoopFeeds(p, ds, [ReadFailed] + more);
    assert ([ReadFailed] + more)[0] == ReadFailed;
  }

  // ---- the answer that never ends ----

  /** A chunked head, and then a zero-size line in every read. */
  function EndlessAnswer(head: string, n: nat): seq<ReadEvent> { [Data(head)] + seq(n, _ => Data(ZERO_LINE)) }

  /** Against such a peer the client goes on reading, however often it has read. */
  lemma EndlessExchange(w: Wire, n: nat)
    requires w.Valid() && w.limits == DEFAULT_LIMITS && w.allowEof && |w.head| <= w.limits.maxHeader
    ensures ReadLoop(Init(DEFAULT_LIMITS, true), EndlessAnswer(w.head, n)) == Blocked
  {
    hide Feed, Wire.Valid, Wire.Decoder;
    var script := EndlessAnswer(w.head, n);
    assert script[1..] == seq(n, _ => Data(ZERO_LINE));
    HeadAlone(w);
    LoopNeedNotEnd(w.Decoder(), n);
  }

  /** The head in one read leaves the decoder waiting for a size line. */
  lemma HeadAlone(w: Wire)
    requires w.Valid() && |w.head| <= w.limits.maxHeader
    ensures Feed(w.Start(), Bytes(w.head)) == w.Decoder()
    ensures w.Decoder().state.BodyChunked? && !w.Decoder().chunkStarted && w.Decoder().buf == ""
  {
    hide Find, ParseHead;
    DecoderFacts(w);
    NothingReached(w);
    assert w.Text()[0..|w.head|] == w.head && Encode(w.chunks, w.ending)[..0] == "";
    FeedHead(w, 0, w.head);
    EmptyWaits(w.Decoder());
  }

  lemma EmptyWaits(s: Parser)
    requires s.state.BodyChunked? && !s.chunkStarted && s.buf == ""
    ensures ChunkRun(s) == s
  {
    assert Find("", CRLF, 0).None?;
  }

  /** Such a peer exists, and its reads are lawful. */
  lemma EndlessPeer(n: nat)
    ensures var script := EndlessAnswer(HeadWith("200", "OK", CODING_FIELD).Text(), n);
      AllLawful(script) && ReadLoop(Init(DEFAULT_LIMITS, true), script) == Blocked
  {
    hide Find, Wire.Valid, ReadLoop, ChunkedResponse;
    var h := HeadWith("200", "OK", CODING_FIELD);
    ChunkedExample();
    ChunkedIsWire(h, [Chunk("1", "", "x")], Ending("0", "", []), DEFAULT_LIMITS, true);
    assert h.Text() == h.Status() + CRLF + CODING_FIELD + BLANK_LINE && |h.Status()| == 15 && |CODING_FIELD| == 26;
    EndlessExchange(Wire(h.Text(), [Chunk("1", "", "x")], Ending("0", "", []), DEFAULT_LIMITS, true), n);
  }
}
