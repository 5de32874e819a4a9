/** Chunk decoding inverts chunk encoding (section 4.1 of RFC 7230), for the fragmentations that the
    decoder supports, which are characterised exactly. */
module HttpChunks {
  import opened Wrappers
  import opened Text
  import opened HttpSpec

  /** A size line is hexadecimal digits and an optional extension that starts with a semicolon. */
  datatype Chunk = Chunk(hex: string, ext: string, data: string)

  /** The zero-size line and the trailer fields. */
  datatype Ending = Ending(hex: string, ext: string, trailers: seq<string>)

  /** The line break that ends `line` is the first one. */
  predicate OneLine(line: string) { Find(line + CRLF, CRLF, 0) == Some(|line|) }

  predicate SizeLineOk(hex: string, ext: string, n: nat) {
    && 0 < |hex| <= 16 && AllHex(hex) && HexValue(hex) == n
    && (ext == "" || ext[0] == ';')
    && OneLine(hex + ext)
  }

  predicate ChunkOk(c: Chunk) {
    c.data != "" && SizeLineOk(c.hex, c.ext, |c.data|)
  }

  predicate EndingOk(e: Ending, limits: Limits) {
    && SizeLineOk(e.hex, e.ext, 0)
    && TrailersOk(e.trailers)
    && |TrailerText(e.trailers)| <= limits.maxChunkLine
  }

  function SizeText(hex: string, ext: string): string { hex + ext + CRLF }

  function EncodeChunk(c: Chunk): string { SizeText(c.hex, c.ext) + (c.data + CRLF) }

  function TrailerText(ts: seq<string>): string {
    if ts == [] then CRLF else ts[0] + CRLF + TrailerText(ts[1..])
  }

  function Encode(cs: seq<Chunk>, e: Ending): string {
    if cs == [] then SizeText(e.hex, e.ext) + TrailerText(e.trailers)
    else EncodeChunk(cs[0]) + Encode(cs[1..], e)
  }

  function Payload(cs: seq<Chunk>): string {
    if cs == [] then "" else cs[0].data + Payload(cs[1..])
  }

  /** How many encoded bytes end with the zero-size line. */
  function ZeroLineEnd(cs: seq<Chunk>, e: Ending): nat {
    if cs == [] then |SizeText(e.hex, e.ext)| else |EncodeChunk(cs[0])| + ZeroLineEnd(cs[1..], e)
  }

  /** A decoder waiting for a chunk-size line, with `buf` to read. */
  function Ready(s: Parser, body: string, buf: string): Parser {
    s.(body := body, buf := buf, chunkStarted := false, chunkRemaining := 0)
  }

  predicate Decoding(s: Parser) { s.state.BodyChunked? && s.fault.NoFault? }

  // ---- size lines ----

  lemma SizeLineParses(hex: string, ext: string)
    requires 0 < |hex| <= 16 && AllHex(hex) && (ext == "" || ext[0] == ';')
    ensures ParseSizeLine(hex + ext) == Size(HexValue(hex))
  {
    hide Find, HexValue;
    forall i | 0 <= i < |hex| ensures hex[i] != ';' { assert IsHex(hex[i]); }
    if ext == "" {
      assert hex + ext == hex;
      NotFound(hex, ";");
    } else {
      FoundAfter(hex, ext, ";");
      assert (hex + ext)[..|hex|] == hex;
    }
  }

  /** The first line break of a text that starts with a line. */
  lemma FindLine(line: string, rest: string)
    requires OneLine(line)
    ensures Find(line + CRLF + rest, CRLF, 0) == Some(|line|)
  {
    FindExtends(line + CRLF, rest, CRLF, 0);
  }

  /** No line break is visible in a proper prefix of one line. */
  lemma NoFindInPart(line: string, p: nat)
    requires OneLine(line) && p < |line| + 2
    ensures Find((line + CRLF)[..p], CRLF, 0).None?
  {
    var part, rest := (line + CRLF)[..p], (line + CRLF)[p..];
    assert part + rest == line + CRLF;
    if Find(part, CRLF, 0).Some? { FindExtends(part, rest, CRLF, 0); }
  }

  // ---- the trailer section ----

  predicate TrailersOk(ts: seq<string>) {
    forall i :: 0 <= i < |ts| ==> ts[i] != "" && OneLine(ts[i])
  }

  lemma EmptyLineIsOne()
    ensures OneLine("")
  {
    assert At("" + CRLF, CRLF, 0);
  }

  /** A whole trailer section, behind `pre`, ends where it should. */
  lemma {:induction false} ScanWhole(pre: string, ts: seq<string>, limit: nat)
    requires TrailersOk(ts) && |pre| + |TrailerText(ts)| <= limit
    ensures ScanTrailer(pre + TrailerText(ts), |pre|, |pre|, limit) == End(|pre| + |TrailerText(ts)|)
    decreases |ts|
  {
    hide Find;
    var text := TrailerText(ts);
    FindBehind(pre, text, CRLF, 0, |pre|);
    if ts == [] {
      EmptyLineIsOne();
      assert text == "" + CRLF;
    } else {
      FindLine(ts[0], TrailerText(ts[1..]));
      var pre' := pre + (ts[0] + CRLF);
      ScanWhole(pre', ts[1..], limit);
      assert pre + text == pre' + TrailerText(ts[1..]);
    }
  }

  /** Any proper prefix of a trailer section leaves the scan waiting. */
  lemma {:induction false} ScanPart(pre: string, ts: seq<string>, p: nat, limit: nat)
    requires TrailersOk(ts) && |pre| + |TrailerText(ts)| <= limit && p < |TrailerText(ts)|
    ensures ScanTrailer(pre + TrailerText(ts)[..p], |pre|, |pre|, limit) == More
    decreases |ts|
  {
    hide Find;
    var text := TrailerText(ts);
    var line := FirstLine(ts);
    FindBehind(pre, text[..p], CRLF, 0, |pre|);
    if p < |line| + 2 {
      FirstLinePart(ts, p);
    } else {
      var rest := TrailerText(ts[1..])[..p - |line| - 2];
      assert text[..p] == line + CRLF + rest;
      FindLine(line, rest);
      var pre' := pre + (line + CRLF);
      ScanPart(pre', ts[1..], p - |line| - 2, limit);
      assert pre + text[..p] == pre' + rest;
    }
  }

  /** The first line of a trailer section: a field, or the blank line. */
  function FirstLine(ts: seq<string>): string { if ts == [] then "" else ts[0] }

  lemma FirstLinePart(ts: seq<string>, p: nat)
    requires TrailersOk(ts) && p < |FirstLine(ts)| + 2
    ensures p <= |TrailerText(ts)| && Find(TrailerText(ts)[..p], CRLF, 0).None?
  {
    hide Find;
    EmptyLineIsOne();
    var line := FirstLine(ts);
    NoFindInPart(line, p);
    assert TrailerText(ts)[..p] == (line + CRLF)[..p];
  }

  lemma FirstLineWhole(ts: seq<string>, p: nat)
    requires TrailersOk(ts) && |FirstLine(ts)| + 2 <= p <= |TrailerText(ts)|
    ensures Find(TrailerText(ts)[..p], CRLF, 0) == Some(|FirstLine(ts)|)
    ensures TrailerText(ts)[..p][..|FirstLine(ts)|] == FirstLine(ts)
  {
    hide Find;
    EmptyLineIsOne();
    var line := FirstLine(ts);
    var part := TrailerText(ts)[..p];
    assert part == line + CRLF + part[|line| + 2..];
    FindLine(line, part[|line| + 2..]);
  }

  // ---- one chunk ----

  /** Reading a complete size line. */
  lemma ReadSize(s: Parser, hex: string, ext: string, n: nat, rest: string)
    requires Decoding(s) && !s.chunkStarted && SizeLineOk(hex, ext, n)
    requires s.buf == SizeText(hex, ext) + rest
    ensures ChunkMove(s) == ApplySize(s.(buf := rest), Size(n))
  {
    hide Find, ParseSizeLine;
    FindLine(hex + ext, rest);
    SizeLineParses(hex, ext);
    assert s.buf[..|hex + ext|] == hex + ext;
    assert s.buf[|hex + ext| + 2..] == rest;
  }

  /** An incomplete size line is kept for the next feed, unless it is already over the line limit. */
  lemma WaitForSize(s: Parser, hex: string, ext: string, n: nat, p: nat)
    requires Decoding(s) && !s.chunkStarted && SizeLineOk(hex, ext, n)
    requires p < |SizeText(hex, ext)| && s.buf == SizeText(hex, ext)[..p]
    ensures ChunkMove(s) == if p > s.limits.maxChunkLine then Stop(Fail(s, ChunkLineTooLong)) else Wait(s)
  {
    hide Find;
    NoFindInPart(hex + ext, p);
  }

  /** A whole chunk moves its data to the body. */
  lemma DecodeChunk(s: Parser, c: Chunk, body: string, rest: string)
    requires Decoding(s) && ChunkOk(c) && |body| + |c.data| <= s.limits.maxBody
    ensures var s0, s1 := Ready(s, body, EncodeChunk(c) + rest), Ready(s, body + c.data, rest);
      && ChunkRun(s0) == ChunkRun(s1)
      && EndsInTrailer(s0) == EndsInTrailer(s1)
  {
    hide Find, HexValue, ChunkMove;
    var text := c.data + CRLF + rest;
    assert EncodeChunk(c) + rest == SizeText(c.hex, c.ext) + text;
    var s0 := Ready(s, body, EncodeChunk(c) + rest);
    ReadSize(s0, c.hex, c.ext, |c.data|, text);
    var a := s0.(buf := text, chunkRemaining := |c.data|, chunkStarted := true);
    StepRun(s0, a);
    assert text == c.data + (CRLF + rest);
    TakeWhole(a, c.data, CRLF + rest);
    var b := a.(body := body + c.data, buf := CRLF + rest, chunkRemaining := 0);
    StepRun(a, b);
    EatCrlf(b, rest);
    StepRun(b, Ready(s, body + c.data, rest));
  }

  lemma StepRun(s: Parser, s1: Parser)
    requires ChunkMove(s) == Go(s1)
    ensures ChunkRun(s) == ChunkRun(s1) && EndsInTrailer(s) == EndsInTrailer(s1)
  {
  }

  lemma TakeWhole(s: Parser, data: string, rest: string)
    requires s.chunkStarted && s.chunkRemaining == |data| > 0
    requires s.buf == data + rest
    ensures ChunkMove(s) == Go(s.(body := s.body + data, buf := rest, chunkRemaining := 0))
  {
    assert s.buf[..|data|] == data && s.buf[|data|..] == rest;
  }

  lemma EatCrlf(s: Parser, rest: string)
    requires s.chunkStarted && s.chunkRemaining == 0 && s.buf == CRLF + rest
    ensures ChunkMove(s) == Go(s.(buf := rest, chunkStarted := false))
  {
    assert s.buf[..2] == CRLF && s.buf[2..] == rest;
  }

  /** How many bytes of an unfinished size line the first `p` bytes of a chunk end with. */
  function UnfinishedIn(hex: string, ext: string, p: nat): nat { if p < |SizeText(hex, ext)| then p else 0 }

  /** A proper prefix of a chunk leaves the decoder waiting, and able to resume, unless it ends in an unfinished
      size line over the limit. */
  lemma PartialChunk(s: Parser, c: Chunk, body: string, p: nat)
    requires Decoding(s) && ChunkOk(c) && |body| + |c.data| <= s.limits.maxBody
    requires p < |EncodeChunk(c)|
    ensures var s0 := Ready(s, body, EncodeChunk(c)[..p]);
      && !EndsInTrailer(s0)
      && if UnfinishedIn(c.hex, c.ext, p) > s.limits.maxChunkLine then ChunkRun(s0).state.Error?
         else Decoding(ChunkRun(s0))
  {
    hide Find, HexValue, ChunkMove;
    var line := SizeText(c.hex, c.ext);
    var s0 := Ready(s, body, EncodeChunk(c)[..p]);
    if p < |line| {
      assert s0.buf == line[..p];
      WaitForSize(s0, c.hex, c.ext, |c.data|, p);
    } else {
      var q := p - |line|;
      var text := (c.data + CRLF)[..q];
      assert s0.buf == line + text;
      ReadSize(s0, c.hex, c.ext, |c.data|, text);
      var a := s0.(buf := text, chunkRemaining := |c.data|, chunkStarted := true);
      StepRun(s0, a);
      PartialData(a, c.data, q);
    }
  }

  lemma PartialData(s: Parser, data: string, q: nat)
    requires Decoding(s) && s.chunkStarted && s.chunkRemaining == |data| > 0
    requires q < |data| + 2 && s.buf == (data + CRLF)[..q]
    ensures Decoding(ChunkRun(s)) && !EndsInTrailer(s)
  {
    if q >= |data| {
      var rest := CRLF[..q - |data|];
      assert s.buf == data + rest;
      TakeWhole(s, data, rest);
      StepRun(s, s.(body := s.body + data, buf := rest, chunkRemaining := 0));
    }
  }

  // ---- a prefix of a whole encoding ----

  predicate EncodingOk(cs: seq<Chunk>, e: Ending, limits: Limits) {
    (forall i :: 0 <= i < |cs| ==> ChunkOk(cs[i])) && EndingOk(e, limits)
  }

  /** What is left in the buffer when the trailer section has begun but not ended. */
  function TrailerPart(e: Ending, p: nat): string
    requires p <= |TrailerText(e.trailers)|
  {
    TrailerText(e.trailers)[..p]
  }

  /** How many bytes of an unfinished size line the first `p` encoded bytes end with. */
  function Unfinished(cs: seq<Chunk>, e: Ending, p: nat): nat {
    if cs == [] then UnfinishedIn(e.hex, e.ext, p)
    else if p < |EncodeChunk(cs[0])| then UnfinishedIn(cs[0].hex, cs[0].ext, p)
    else Unfinished(cs[1..], e, p - |EncodeChunk(cs[0])|)
  }

  /** What one run makes of the first `p` encoded bytes: a fault in an unfinished size line over the limit; a
      resumable wait before the end of the zero-size line, a wait inside the trailer section, or the decoded
      body. */
  predicate RunMeets(s: Parser, cs: seq<Chunk>, e: Ending, body: string, p: nat)
    requires p <= |Encode(cs, e)|
  {
    var s0, z := Ready(s, body, Encode(cs, e)[..p]), ZeroLineEnd(cs, e);
    if p < z then
      && !EndsInTrailer(s0)
      && if Unfinished(cs, e, p) > s.limits.maxChunkLine then ChunkRun(s0).state.Error? else Decoding(ChunkRun(s0))
    else
      && p - z <= |TrailerText(e.trailers)|
      && (p < |Encode(cs, e)| ==>
            ChunkRun(s0) == Ready(s, body + Payload(cs), TrailerPart(e, p - z)) && EndsInTrailer(s0))
      && (p == |Encode(cs, e)| ==>
            ChunkRun(s0) == Ready(s, body + Payload(cs), "").(state := Done))
  }

  lemma EndingRun(s: Parser, e: Ending, body: string, p: nat)
    requires Decoding(s) && EndingOk(e, s.limits) && p <= |Encode([], e)|
    ensures RunMeets(s, [], e, body, p)
  {
    hide Find, HexValue, ScanTrailer;
    var line, text := SizeText(e.hex, e.ext), TrailerText(e.trailers);
    var s0 := Ready(s, body, Encode([], e)[..p]);
    if p < |line| {
      assert s0.buf == line[..p];
      WaitForSize(s0, e.hex, e.ext, 0, p);
    } else {
      var q := p - |line|;
      assert s0.buf == line + text[..q];
      ReadSize(s0, e.hex, e.ext, 0, text[..q]);
      assert body + "" == body && "" + text[..q] == text[..q];
      if q < |text| {
        ScanPart("", e.trailers, q, s.limits.maxChunkLine);
      } else {
        assert text[..q] == text;
        ScanWhole("", e.trailers, s.limits.maxChunkLine);
        assert text[|text|..] == "";
      }
    }
  }

  lemma {:induction false} PrefixRun(s: Parser, cs: seq<Chunk>, e: Ending, body: string, p: nat)
    requires Decoding(s) && EncodingOk(cs, e, s.limits) && p <= |Encode(cs, e)|
    requires |body| + |Payload(cs)| <= s.limits.maxBody
    ensures RunMeets(s, cs, e, body, p)
    decreases |cs|
  {
    hide Find, HexValue, ChunkMove;
    if cs == [] {
      EndingRun(s, e, body, p);
    } else {
      var first, rest := EncodeChunk(cs[0]), Encode(cs[1..], e);
      if p < |first| {
        assert Encode(cs, e)[..p] == first[..p];
        PartialChunk(s, cs[0], body, p);
      } else {
        assert Encode(cs, e)[..p] == first + rest[..p - |first|];
        DecodeChunk(s, cs[0], body, rest[..p - |first|]);
        assert body + cs[0].data + Payload(cs[1..]) == body + Payload(cs);
        PrefixRun(s, cs[1..], e, body + cs[0].data, p - |first|);
      }
    }
  }

  /** The encoded bytes behind the zero-size line are the trailer section. */
  lemma {:induction false} TrailerBehindZeroLine(cs: seq<Chunk>, e: Ending)
    ensures ZeroLineEnd(cs, e) <= |Encode(cs, e)|
    ensures Encode(cs, e)[ZeroLineEnd(cs, e)..] == TrailerText(e.trailers)
  {
    if cs != [] {
      TrailerBehindZeroLine(cs[1..], e);
      var first := EncodeChunk(cs[0]);
      assert Encode(cs, e)[|first|..] == Encode(cs[1..], e);
      assert Encode(cs, e)[ZeroLineEnd(cs, e)..] == Encode(cs[1..], e)[ZeroLineEnd(cs[1..], e)..];
    }
  }

  // ---- after a pause inside the trailer section ----

  /** A header field: a colon, with no semicolon before it (section 3.2 of RFC 7230). */
  predicate FieldLine(line: string) {
    exists k :: 0 <= k < |line| && line[k] == ':' && forall i :: 0 <= i < k ==> line[i] != ';'
  }

  lemma FieldIsNoSize(line: string)
    requires FieldLine(line) || line == ""
    ensures ParseSizeLine(line).BadSize?
  {
    if line != "" {
      var k :| 0 <= k < |line| && line[k] == ':' && forall i :: 0 <= i < k ==> line[i] != ';';
      if Find(line, ";", 0).Some? {
        FindHits(line, ";", 0);
        var i := Find(line, ";", 0).value;
        assert line[i..i + 1][0] == line[i];
      }
      assert HexPart(line)[k] == ':';
    }
  }

  /** Trailer bytes read as a chunk-size line: the decoder keeps waiting until the first line is
      complete, and then reports a fault. */
  lemma TrailerAsSize(s: Parser, ts: seq<string>, p: nat)
    requires Decoding(s) && !s.chunkStarted && TrailersOk(ts) && (ts == [] || FieldLine(ts[0]))
    requires |TrailerText(ts)| <= s.limits.maxChunkLine
    requires p <= |TrailerText(ts)| && s.buf == TrailerText(ts)[..p]
    ensures ChunkRun(s).state.Error? || (ChunkRun(s) == s && p < |TrailerText(ts)|)
  {
    hide Find, HexValue, ParseSizeLine;
    if p < |FirstLine(ts)| + 2 {
      FirstLinePart(ts, p);
    } else {
      FirstLineWhole(ts, p);
      FieldIsNoSize(FirstLine(ts));
    }
  }
}
