/** Whole chunked messages under any fragmentation: exactly which fragmentations the parser decodes. */
module HttpChunkedMessages {
  import opened Wrappers
  import opened Text
  import opened HttpSpec
  import opened HttpHeads
  import opened HttpFeeds
  import opened HttpFragments
  import opened HttpChunks

  /** A response head that announces chunked framing, and an encoded body. */
  datatype Wire = Wire(head: string, chunks: seq<Chunk>, ending: Ending, limits: Limits, allowEof: bool) {
    predicate Valid() {
      && 4 <= |head|
      && Find(head, BLANK_LINE, 0) == Some(|head| - 4) && HasHeaderLine(head, |head| - 4)
      && Entered(Append(Start(), head)).state.BodyChunked?
      && EncodingOk(chunks, ending, limits) && |Payload(chunks)| <= limits.maxBody
      && (ending.trailers == [] || FieldLine(ending.trailers[0]))
    }

    function Start(): Parser { Init(limits, allowEof) }

    /** The decoder as the head leaves it. */
    function Decoder(): Parser { Entered(Append(Start(), head)) }

    function Text(): string { head + Encode(chunks, ending) }

    /** `q` bytes end inside the trailer section: after the zero-size line, before the last byte. */
    predicate InTrailer(q: nat) { |head| + ZeroLineEnd(chunks, ending) <= q < |Text()| }

    /** `q` bytes end in an unfinished size line that is over the line limit. */
    predicate Overlong(q: nat) {
      |head| <= q < |Text()| && Unfinished(chunks, ending, q - |head|) > limits.maxChunkLine
    }

    predicate BadCut(q: nat) { InTrailer(q) || Overlong(q) }
  }

  /** No cut between two feeds falls inside the trailer section, or leaves an unfinished size line over the
      limit. */
  predicate CutsWell(w: Wire, ds: seq<string>) {
    forall k :: 0 < k < |ds| ==> !w.BadCut(Pos(ds, k))
  }

  lemma CutsInit(w: Wire, ds: seq<string>)
    requires ds != [] && CutsWell(w, ds)
    ensures CutsWell(w, ds[..|ds| - 1])
  {
    var init := ds[..|ds| - 1];
    forall k | 0 < k < |init| ensures !w.BadCut(Pos(init, k)) {
      PosInit(ds, k);
    }
  }

  // ---- fragmentations that the parser supports ----

  lemma DecoderFacts(w: Wire)
    requires w.Valid()
    ensures w.Decoder() == Ready(w.Decoder(), "", "") && Decoding(w.Decoder())
    ensures w.Decoder().limits == w.limits
  {
    hide Find, ParseHead;
    assert "" + w.head == w.head;
    HeadFaults(Append(w.Start(), w.head), |w.head| - 4);
    assert w.head[|w.head| - 4 + 4..] == "";
  }

  /** The decoder with the body bytes that arrived together with the end of the head. */
  lemma HeadThenBody(w: Wire, x: string)
    requires w.Valid()
    ensures HeadComplete(Append(w.Start(), w.head + x))
    ensures Entered(Append(w.Start(), w.head + x)) == Ready(w.Decoder(), "", x)
  {
    hide Find, ParseHead;
    DecoderFacts(w);
    assert "" + w.head == w.head && "" + (w.head + x) == w.head + x && "" + x == x;
    HeaderTextExtends(w.head, x, |w.head| - 4);
    StableIsSame(Append(w.Start(), w.head), x);
    EnteredExtends(Append(w.Start(), w.head), x);
  }

  /** The state a supported fragmentation reaches after `q` bytes. */
  function Reached(w: Wire, q: nat): Parser
    requires q <= |w.Text()|
  {
    if q < |w.head| then Append(w.Start(), w.head[..q])
    else ChunkRun(Ready(w.Decoder(), "", Encode(w.chunks, w.ending)[..q - |w.head|]))
  }

  /** A feed that completes the head. */
  lemma FeedCompletes(w: Wire, q: nat, d: string)
    requires w.Valid() && q < |w.head| <= q + |d| <= |w.Text()| && w.Text()[q..q + |d|] == d
    requires q + |d| <= w.limits.maxHeader
    ensures Feed(Append(w.Start(), w.head[..q]), Bytes(d)) == Reached(w, q + |d|)
  {
    hide Find, ParseHead, ChunkRun, Entered, Wire.Decoder, Encode, Wire.Valid, Feed;
    var p := q + |d|;
    var s, x := Append(w.Start(), w.head[..q]), Encode(w.chunks, w.ending)[..p - |w.head|];
    assert s.buf + d == w.Text()[..p] == w.head + x;
    DecoderFacts(w);
    HeadThenBody(w, x);
    assert Append(s, d) == Append(w.Start(), w.head + x);
    CompletedFeed(s, d);
    var r := Ready(w.Decoder(), "", x);
    assert StepBody(r) == ChunkRun(r);
  }

  lemma FeedHead(w: Wire, q: nat, d: string)
    requires w.Valid() && |w.head| <= w.limits.maxHeader && q < |w.head| && q + |d| <= |w.Text()|
    requires w.Text()[q..q + |d|] == d
    requires |w.head| <= q + |d| ==> q + |d| <= w.limits.maxHeader
    ensures Feed(Append(w.Start(), w.head[..q]), Bytes(d)) == Reached(w, q + |d|)
  {
    hide Find, ParseHead, ChunkRun, Wire.Decoder, Encode, Feed, Entered, HasHeaderLine, EncodingOk;
    var p := q + |d|;
    if p < |w.head| {
      var s := Append(w.Start(), w.head[..q]);
      assert s.buf + d == w.Text()[..p] == w.head[..p];
      HeadUnfinished(w.head, |w.head| - 4, p);
      StillInHead(s, d);
    } else {
      FeedCompletes(w, q, d);
    }
  }

  /** Short of the end of the zero-size line, and not in an over-long size line, the decoder can resume. */
  lemma Resumes(w: Wire, i: nat)
    requires w.Valid() && i < ZeroLineEnd(w.chunks, w.ending) && !w.Overlong(|w.head| + i)
    ensures i < |Encode(w.chunks, w.ending)|
    ensures var s := Ready(w.Decoder(), "", Encode(w.chunks, w.ending)[..i]);
      Decoding(s) && Decoding(ChunkRun(s)) && !EndsInTrailer(s)
  {
    hide Find, HexValue, ChunkMove, ChunkRun, ParseHead, EncodingOk, Unfinished;
    DecoderFacts(w);
    TrailerBehindZeroLine(w.chunks, w.ending);
    PrefixRun(w.Decoder(), w.chunks, w.ending, "", i);
  }

  lemma FeedBodyPart(w: Wire, q: nat, d: string)
    requires w.Valid() && |w.head| <= q && q + |d| <= |w.Text()| && w.Text()[q..q + |d|] == d
    requires q < |w.head| + ZeroLineEnd(w.chunks, w.ending) && !w.Overlong(q)
    ensures Feed(Reached(w, q), Bytes(d)) == Reached(w, q + |d|)
  {
    hide Find, HexValue, ChunkMove, ChunkRun, ParseHead, Wire.Valid, Wire.Decoder, Encode, Feed, EndsInTrailer;
    var i, text := q - |w.head|, Encode(w.chunks, w.ending);
    Resumes(w, i);
    var s := Ready(w.Decoder(), "", text[..i]);
    assert text[..i + |d|] == text[..i] + d by { assert w.Text()[q..q + |d|] == text[i..i + |d|]; }
    ChunkComposes(s, d);
    FeedChunked(ChunkRun(s), d);
  }

  /** One more feed of a supported fragmentation. */
  lemma FeedPart(w: Wire, q: nat, d: string)
    requires w.Valid() && |w.head| <= w.limits.maxHeader
    requires q + |d| <= |w.Text()| && w.Text()[q..q + |d|] == d
    requires q < |w.head| <= q + |d| ==> q + |d| <= w.limits.maxHeader
    requires !w.BadCut(q)
    ensures Feed(Reached(w, q), Bytes(d)) == Reached(w, q + |d|)
  {
    hide Find, ParseHead, ChunkMove, ChunkRun, Wire.Valid, Feed, Encode;
    if q < |w.head| {
      FeedHead(w, q, d);
    } else if q == |w.Text()| {
      WholeReached(w);
      FinishedStays(Reached(w, q), Bytes(d));
    } else {
      FeedBodyPart(w, q, d);
    }
  }

  lemma {:induction false} Supported(w: Wire, ds: seq<string>)
    requires w.Valid() && GuardPasses(|w.head|, w.limits.maxHeader, ds) && CutsWell(w, ds)
    requires Concat(ds) <= w.Text() && |w.head| <= w.limits.maxHeader
    ensures FeedAll(w.Start(), ds) == Reached(w, |Concat(ds)|)
  {
    hide Find, ParseHead, ChunkMove, ChunkRun, Wire.Valid, Wire.BadCut, Feed, Encode;
    if ds == [] {
      NothingReached(w);
    } else {
      var init, d := ds[..|ds| - 1], ds[|ds| - 1];
      var q := |Concat(init)|;
      PosInit(ds, |ds| - 1);
      GuardInit(|w.head|, w.limits.maxHeader, ds);
      CutsInit(w, ds);
      assert Concat(ds) == Concat(init) + d;
      assert w.Text()[..|Concat(ds)|] == Concat(ds);
      assert Concat(init) == w.Text()[..q] && w.Text()[q..q + |d|] == d;
      Supported(w, init);
      assert !w.BadCut(q) by { if |ds| > 1 { assert Pos(ds, |ds| - 1) == q; } else { NothingIsBad(w); } }
      FeedPart(w, q, d);
    }
  }

  lemma NothingReached(w: Wire)
    requires w.Valid()
    ensures Reached(w, 0) == w.Start()
  {
    hide Find;
    assert "" + w.head[..0] == "";
  }

  lemma NothingIsBad(w: Wire)
    requires w.Valid()
    ensures !w.BadCut(0)
  {
  }

  // ---- fragmentations that it does not ----

  /** A parser that has taken trailer bytes for a chunk-size line, or met a long one: it has failed, or it still
      waits for the end of the first trailer line. */
  predicate Stuck(w: Wire, q: nat, s: Parser) {
    || s.state.Error?
    || (&& w.InTrailer(q) && q - |w.head| - ZeroLineEnd(w.chunks, w.ending) <= |TrailerText(w.ending.trailers)|
        && s == Ready(w.Decoder(), Payload(w.chunks),
                      TrailerPart(w.ending, q - |w.head| - ZeroLineEnd(w.chunks, w.ending))))
  }

  lemma CutIsStuck(w: Wire, q: nat)
    requires w.Valid() && w.BadCut(q)
    ensures Stuck(w, q, Reached(w, q))
  {
    hide Find, HexValue, ChunkMove, ParseHead;
    DecoderFacts(w);
    PrefixRun(w.Decoder(), w.chunks, w.ending, "", q - |w.head|);
    assert "" + Payload(w.chunks) == Payload(w.chunks);
  }

  lemma StuckStays(w: Wire, q: nat, s: Parser, d: string)
    requires w.Valid() && Stuck(w, q, s)
    requires q + |d| <= |w.Text()| && w.Text()[q..q + |d|] == d
    ensures Stuck(w, q + |d|, Feed(s, Bytes(d)))
  {
    hide Find, HexValue, ChunkMove, ParseHead;
    if !s.state.Error? {
      DecoderFacts(w);
      var z, text := |w.head| + ZeroLineEnd(w.chunks, w.ending), TrailerText(w.ending.trailers);
      TrailerBehindZeroLine(w.chunks, w.ending);
      assert w.Text()[z..] == text;
      var i := q - z;
      assert text[i..i + |d|] == w.Text()[q..q + |d|];
      assert text[..i + |d|] == text[..i] + d;
      FeedChunked(s, d);
      TrailerAsSize(Append(s, d), w.ending.trailers, i + |d|);
    }
  }

  /** A bad cut is never repaired by later feeds. */
  lemma {:induction false} BadCutFails(w: Wire, ds: seq<string>, k: nat)
    requires w.Valid() && GuardPasses(|w.head|, w.limits.maxHeader, ds) && Concat(ds) <= w.Text()
    requires |w.head| <= w.limits.maxHeader && 0 < k <= |ds| && w.BadCut(Pos(ds, k))
    requires forall j :: 0 < j < k ==> !w.BadCut(Pos(ds, j))
    ensures Stuck(w, |Concat(ds)|, FeedAll(w.Start(), ds))
  {
    hide Find, ParseHead, ChunkMove;
    var init, d := ds[..|ds| - 1], ds[|ds| - 1];
    if k == |ds| {
      PosInit(ds, |ds| - 1);
      Supported(w, ds);
      CutIsStuck(w, |Concat(ds)|);
    } else {
      var q := |Concat(init)|;
      assert w.Text()[..|Concat(ds)|] == Concat(init) + d;
      assert Concat(init) == w.Text()[..q] && w.Text()[q..q + |d|] == d;
      GuardInit(|w.head|, w.limits.maxHeader, ds);
      forall j | 0 < j <= k ensures Pos(init, j) == Pos(ds, j) { PosInit(ds, j); }
      BadCutFails(w, init, k);
      StuckStays(w, q, FeedAll(w.Start(), init), d);
    }
  }

  // ---- the theorem ----

  /** The whole message is decoded if and only if the header guard lets the head pass, no cut falls inside the
      trailer section, and no cut leaves more than the line limit of an unfinished size line; every other
      fragmentation ends in an error. */
  lemma ChunkedDecoding(w: Wire, ds: seq<string>)
    requires w.Valid() && Concat(ds) == w.Text()
    ensures var r := FeedAll(w.Start(), ds);
      if GuardPasses(|w.head|, w.limits.maxHeader, ds) && CutsWell(w, ds)
      then r == w.Decoder().(state := Done, body := Payload(w.chunks))
      else r.state.Error?
  {
    hide Find, ParseHead, ChunkMove, FeedAll, HexValue, Reached, Concat, Wire.Valid;
    HeadInText(w);
    if !GuardPasses(|w.head|, w.limits.maxHeader, ds) {
      GuardFails(w.Text(), |w.head| - 4, ds, w.Start());
    } else if !CutsWell(w, ds) {
      GuardNeedsRoom(|w.head|, w.limits.maxHeader, ds);
      var k := FirstBadCut(w, ds, 1);
      BadCutFails(w, ds, k);
    } else {
      GuardNeedsRoom(|w.head|, w.limits.maxHeader, ds);
      Supported(w, ds);
      WholeReached(w);
    }
  }

  /** A chunked message that is cut short is never delivered: when its stream ends, the parser fails. */
  lemma CutShort(w: Wire, ds: seq<string>)
    requires w.Valid() && Concat(ds) < w.Text()
    ensures Feed(FeedAll(w.Start(), ds), Eof).state.Error?
  {
    hide Find, ParseHead, ChunkMove, Feed, FeedAll, HexValue, Reached, Concat, Wire.Valid;
    HeadInText(w);
    var fed, q := FeedAll(w.Start(), ds), |Concat(ds)|;
    if q < |w.head| {
      ShortOfHead(w.Text(), |w.head| - 4, ds, w.Start());
    } else if !GuardPasses(|w.head|, w.limits.maxHeader, ds) {
      GuardFails(w.Text(), |w.head| - 4, ds, w.Start());
    } else if !CutsWell(w, ds) {
      GuardNeedsRoom(|w.head|, w.limits.maxHeader, ds);
      var k := FirstBadCut(w, ds, 1);
      BadCutFails(w, ds, k);
      DecoderFacts(w);
    } else {
      GuardNeedsRoom(|w.head|, w.limits.maxHeader, ds);
      Supported(w, ds);
      PartReached(w, q);
    }
    EndFails(fed);
  }

  /** Part of the encoded body leaves the decoder waiting for the rest, or failed. */
  lemma PartReached(w: Wire, q: nat)
    requires w.Valid() && |w.head| <= q < |w.Text()|
    ensures Reached(w, q).state.BodyChunked? || Reached(w, q).state.Error?
  {
    hide Find, HexValue, ChunkMove, ParseHead;
    DecoderFacts(w);
    PrefixRun(w.Decoder(), w.chunks, w.ending, "", q - |w.head|);
  }

  lemma HeadInText(w: Wire)
    requires w.Valid()
    ensures |w.head| >= 4 && Find(w.Text(), BLANK_LINE, 0) == Some(|w.head| - 4)
  {
    hide Find;
    FindExtends(w.head, Encode(w.chunks, w.ending), BLANK_LINE, 0);
  }

  /** All of the bytes end in the decoded message. */
  lemma WholeReached(w: Wire)
    requires w.Valid()
    ensures Reached(w, |w.Text()|) == w.Decoder().(state := Done, body := Payload(w.chunks))
  {
    hide Find, ParseHead, ChunkMove, HexValue;
    DecoderFacts(w);
    var text := Encode(w.chunks, w.ending);
    assert |w.Text()| - |w.head| == |text|;
    assert text[..|text|] == text && "" + Payload(w.chunks) == Payload(w.chunks);
    TrailerBehindZeroLine(w.chunks, w.ending);
    PrefixRun(w.Decoder(), w.chunks, w.ending, "", |text|);
  }

  lemma FirstBadCut(w: Wire, ds: seq<string>, from: nat) returns (k: nat)
    requires 0 < from && forall j :: 0 < j < from && j <= |ds| ==> !w.BadCut(Pos(ds, j))
    requires !CutsWell(w, ds)
    ensures 0 < k < |ds| && w.BadCut(Pos(ds, k))
    ensures forall j :: 0 < j < k ==> !w.BadCut(Pos(ds, j))
    decreases |ds| - from
  {
    if from < |ds| && w.BadCut(Pos(ds, from)) {
      k := from;
    } else {
      k := FirstBadCut(w, ds, from + 1);
    }
  }
}
