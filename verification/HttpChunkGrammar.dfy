/** The chunk decoder accepts exactly the chunked encodings of section 4.1 of RFC 7230, and writing a body in chunks
    is one. */
module HttpChunkGrammar {
  import opened Wrappers
  import opened Text
  import opened HttpSpec
  import opened HttpFragments
  import opened HttpChunks

  // ---- size lines ----

  /** One to sixteen hexadecimal digits and an optional extension behind a semicolon. */
  predicate SizeForm(line: string, hex: string, ext: string) {
    && line == hex + ext && 1 <= |hex| <= 16 && AllHex(hex) && (ext == "" || ext[0] == ';')
  }

  lemma HexPartIs(line: string) returns (ext: string)
    ensures line == HexPart(line) + ext && (ext == "" || ext[0] == ';')
  {
    hide Find;
    var semi := Find(line, ";", 0);
    ext := if semi.None? then "" else line[semi.value..];
    if semi.Some? {
      FindHits(line, ";", 0);
      assert ext[0] == line[semi.value..semi.value + 1][0];
    }
  }

  /** A size line is read exactly if it has that form, as the number its digits write. */
  lemma SizeLineIff(line: string, n: nat)
    ensures ParseSizeLine(line) == Size(n) <==> exists hex, ext :: SizeForm(line, hex, ext) && HexValue(hex) == n
  {
    hide Find, HexValue;
    if ParseSizeLine(line) == Size(n) {
      var ext := HexPartIs(line);
      assert SizeForm(line, HexPart(line), ext);
    }
    forall hex, ext | SizeForm(line, hex, ext) ensures ParseSizeLine(line) == Size(HexValue(hex)) {
      SizeLineParses(hex, ext);
    }
  }

  // ---- soundness ----

  /** The text up to the first line break is one line. */
  lemma LineBefore(buf: string, pos: nat, e: nat)
    requires Find(buf, CRLF, pos) == Some(e)
    ensures OneLine(buf[pos..e]) && buf[pos..e + 2] == buf[pos..e] + CRLF
  {
    hide Find;
    FindHits(buf, CRLF, pos);
    var line := buf[pos..e];
    assert buf[pos..e + 2] == line + CRLF;
    var pre, rest := buf[..pos], buf[e + 2..];
    assert buf == pre + (line + CRLF + rest);
    assert (line + CRLF)[|line|..|line| + 2] == CRLF;
    FindFirst(line + CRLF, CRLF, 0, |line|);
    FindExtends(line + CRLF, rest, CRLF, 0);
    FindBehind(pre, line + CRLF + rest, CRLF, 0, pos);
  }

  /** A trailer scan that ends has read lines up to an empty one, within the limit. */
  lemma {:induction false} TrailerSound(buf: string, pos: nat, used: nat, limit: nat) returns (ts: seq<string>)
    requires pos <= |buf| && ScanTrailer(buf, pos, used, limit).End?
    ensures buf[pos..ScanTrailer(buf, pos, used, limit).pos] == TrailerText(ts)
    ensures TrailersOk(ts) && used + |TrailerText(ts)| <= limit
    decreases |buf| - pos
  {
    hide Find, OneLine;
    var e := Find(buf, CRLF, pos).value;
    LineBefore(buf, pos, e);
    if e == pos {
      ts := [];
      assert buf[pos..e + 2] == "" + CRLF == CRLF;
    } else {
      var p := ScanTrailer(buf, pos, used, limit).pos;
      var rest := TrailerSound(buf, e + 2, used + (e + 2 - pos), limit);
      var line := buf[pos..e];
      ts := [line] + rest;
      assert ts[1..] == rest;
      assert buf[pos..p] == buf[pos..e + 2] + buf[e + 2..p];
    }
  }

  /** The zero-size line and the trailers of a run that ends there. */
  lemma EndingSound(s: Parser, eol: nat) returns (e: Ending, rest: string)
    requires Decoding(s) && !s.chunkStarted
    requires Find(s.buf, CRLF, 0) == Some(eol) && ParseSizeLine(s.buf[..eol]) == Size(0)
    requires TrailerMove(s.(buf := s.buf[eol + 2..])).next.state.Done?
    ensures EndingOk(e, s.limits) && s.buf == Encode([], e) + rest
  {
    hide Find, HexValue, ParseSizeLine, ScanTrailer, OneLine;
    var line, tail := s.buf[..eol], s.buf[eol + 2..];
    LineBefore(s.buf, 0, eol);
    SizeLineIff(line, 0);
    var hex, ext :| SizeForm(line, hex, ext) && HexValue(hex) == 0;
    var ts := TrailerSound(tail, 0, 0, s.limits.maxChunkLine);
    var p := ScanTrailer(tail, 0, 0, s.limits.maxChunkLine).pos;
    e, rest := Ending(hex, ext, ts), tail[p..];
    assert tail == TrailerText(ts) + rest;
    assert s.buf == s.buf[0..eol + 2] + tail;
  }

  /** A run that reaches the end after starting a chunk has read all of it and its line break. */
  lemma PayloadSound(s: Parser, n: nat)
    requires s.state.BodyChunked? && s.chunkStarted && s.chunkRemaining == n > 0 && ChunkRun(s).state.Done?
    ensures n + 2 <= |s.buf| && s.buf[n..n + 2] == CRLF
    ensures ChunkRun(s) == ChunkRun(Ready(s, s.body + s.buf[..n], s.buf[n + 2..]))
  {
    hide SizeMove;
    if |s.buf| >= n {
      var data, tail := s.buf[..n], s.buf[n..];
      assert s.buf == data + tail;
      TakeWhole(s, data, tail);
      var b := s.(body := s.body + data, buf := tail, chunkRemaining := 0);
      StepRun(s, b);
      PayloadEnds(b);
      assert tail[..2] == s.buf[n..n + 2] && tail[2..] == s.buf[n + 2..];
    }
  }

  lemma PayloadEnds(b: Parser)
    requires b.state.BodyChunked? && b.chunkStarted && b.chunkRemaining == 0 && ChunkRun(b).state.Done?
    ensures |b.buf| >= 2 && b.buf[..2] == CRLF && ChunkRun(b) == ChunkRun(Ready(b, b.body, b.buf[2..]))
  {
    hide SizeMove;
    if |b.buf| >= 2 && b.buf[..2] == CRLF {
      assert b.buf == CRLF + b.buf[2..];
      EatCrlf(b, b.buf[2..]);
      StepRun(b, Ready(b, b.body, b.buf[2..]));
    }
  }

  /** A run that ends has read a chunked encoding, and its body is the payload. */
  lemma {:induction false} DecodeSound(s: Parser) returns (cs: seq<Chunk>, e: Ending, rest: string)
    requires Decoding(s) && !s.chunkStarted && |s.body| <= s.limits.maxBody && ChunkRun(s).state.Done?
    ensures s.buf == Encode(cs, e) + rest && EncodingOk(cs, e, s.limits)
    ensures ChunkRun(s).body == s.body + Payload(cs) && |s.body| + |Payload(cs)| <= s.limits.maxBody
    decreases |s.buf|
  {
    hide Find, HexValue, ParseSizeLine, ScanTrailer, ChunkRun, OneLine, Encode, EndingOk;
    RunNeedsLine(s);
    var eol := Find(s.buf, CRLF, 0).value;
    SizeRun(s, eol);
    SizeFaults(s.buf[..eol]);
    var n := ParseSizeLine(s.buf[..eol]).n;
    if n == 0 {
      TrailerOutcome(s.(buf := s.buf[eol + 2..]));
      e, rest := EndingSound(s, eol);
      cs := [];
      assert s.body + "" == s.body;
    } else {
      cs, e, rest := ChunkSound(s, eol, n);
    }
  }

  lemma RunNeedsLine(s: Parser)
    requires Decoding(s) && !s.chunkStarted && ChunkRun(s).state.Done?
    ensures Find(s.buf, CRLF, 0).Some? && ParseSizeLine(s.buf[..Find(s.buf, CRLF, 0).value]).Size?
  {
    hide Find, ParseSizeLine, ScanTrailer;
  }

  /** The data and the line break of the first chunk. */
  lemma FirstData(s: Parser, eol: nat, n: nat)
    requires Decoding(s) && !s.chunkStarted && ChunkRun(s).state.Done? && n > 0
    requires Find(s.buf, CRLF, 0) == Some(eol) && ParseSizeLine(s.buf[..eol]) == Size(n)
    ensures var tail := s.buf[eol + 2..];
      && n + 2 <= |tail| && tail == tail[..n] + CRLF + tail[n + 2..] && |s.body| + n <= s.limits.maxBody
      && ChunkRun(s) == ChunkRun(Ready(s, s.body + tail[..n], tail[n + 2..]))
  {
    hide Find, ParseSizeLine, ChunkRun;
    var tail := s.buf[eol + 2..];
    var a := s.(buf := tail, chunkRemaining := n, chunkStarted := true);
    StartsChunk(s, eol, n);
    PayloadSound(a, n);
    assert Ready(a, s.body + tail[..n], tail[n + 2..]) == Ready(s, s.body + tail[..n], tail[n + 2..]);
    assert tail == tail[..n] + tail[n..n + 2] + tail[n + 2..];
  }

  lemma FirstSize(s: Parser, eol: nat, n: nat) returns (hex: string, ext: string)
    requires Find(s.buf, CRLF, 0) == Some(eol) && ParseSizeLine(s.buf[..eol]) == Size(n)
    ensures SizeLineOk(hex, ext, n) && s.buf == SizeText(hex, ext) + s.buf[eol + 2..]
  {
    hide Find, HexValue, ParseSizeLine, OneLine;
    var line := s.buf[..eol];
    LineBefore(s.buf, 0, eol);
    SizeLineIff(line, n);
    hex, ext :| SizeForm(line, hex, ext) && HexValue(hex) == n;
    assert s.buf == s.buf[0..eol + 2] + s.buf[eol + 2..];
  }

  /** The first chunk of such a run, and the rest. */
  lemma {:induction false} ChunkSound(s: Parser, eol: nat, n: nat) returns (cs: seq<Chunk>, e: Ending, rest: string)
    requires Decoding(s) && !s.chunkStarted && |s.body| <= s.limits.maxBody && ChunkRun(s).state.Done?
    requires Find(s.buf, CRLF, 0) == Some(eol) && ParseSizeLine(s.buf[..eol]) == Size(n) && n > 0
    ensures s.buf == Encode(cs, e) + rest && EncodingOk(cs, e, s.limits)
    ensures ChunkRun(s).body == s.body + Payload(cs) && |s.body| + |Payload(cs)| <= s.limits.maxBody
    decreases |s.buf|, 0
  {
    hide Find, HexValue, ParseSizeLine, ChunkRun, EncodingOk, Encode, Payload, SizeLineOk, SizeText;
    var tail := s.buf[eol + 2..];
    var hex, ext := FirstSize(s, eol, n);
    FirstData(s, eol, n);
    var data := tail[..n];
    var others;
    others, e, rest := DecodeSound(Ready(s, s.body + data, tail[n + 2..]));
    var c := Chunk(hex, ext, data);
    cs := [c] + others;
    assert s.buf == EncodeChunk(c) + (Encode(others, e) + rest);
    ChunkJoins(c, others, e, rest, s.body, s.limits);
  }

  /** A chunk in front of an encoding. */
  lemma ChunkJoins(c: Chunk, others: seq<Chunk>, e: Ending, rest: string, body: string, limits: Limits)
    requires ChunkOk(c) && EncodingOk(others, e, limits)
    ensures var cs := [c] + others;
      && EncodeChunk(c) + (Encode(others, e) + rest) == Encode(cs, e) + rest
      && EncodingOk(cs, e, limits) && body + c.data + Payload(others) == body + Payload(cs)
  {
    hide ChunkOk, EndingOk, EncodeChunk;
    var cs := [c] + others;
    assert cs[1..] == others;
    assert EncodeChunk(c) + (Encode(others, e) + rest) == EncodeChunk(c) + Encode(others, e) + rest;
  }

  lemma StartsChunk(s: Parser, eol: nat, n: nat)
    requires Decoding(s) && !s.chunkStarted && ChunkRun(s).state.Done? && n > 0
    requires Find(s.buf, CRLF, 0) == Some(eol) && ParseSizeLine(s.buf[..eol]) == Size(n)
    ensures |s.body| + n <= s.limits.maxBody
    ensures ChunkRun(s) == ChunkRun(s.(buf := s.buf[eol + 2..], chunkRemaining := n, chunkStarted := true))
  {
    hide Find, ParseSizeLine;
  }

  // ---- both directions ----

  ghost predicate Encodes(buf: string, payload: string, limits: Limits) {
    exists cs, e, rest :: buf == Encode(cs, e) + rest && EncodingOk(cs, e, limits) && Payload(cs) == payload
  }

  /** The decoder finishes with `payload` added to its body if and only if its bytes start with an encoding of
      `payload`, and the body stays within its limit. */
  lemma DecodeIff(s: Parser, body: string, buf: string, payload: string)
    requires Decoding(s) && |body| <= s.limits.maxBody
    ensures var r := ChunkRun(Ready(s, body, buf));
      r.state.Done? && r.body == body + payload
      <==> Encodes(buf, payload, s.limits) && |body| + |payload| <= s.limits.maxBody
  {
    hide ChunkRun, Encode, EncodingOk;
    var s0 := Ready(s, body, buf);
    if ChunkRun(s0).state.Done? && ChunkRun(s0).body == body + payload {
      var cs, e, rest := DecodeSound(s0);
      SameTail(body, Payload(cs), payload);
      assert Encodes(buf, payload, s.limits);
    }
    if Encodes(buf, payload, s.limits) && |body| + |payload| <= s.limits.maxBody {
      var cs, e, rest :| buf == Encode(cs, e) + rest && EncodingOk(cs, e, s.limits) && Payload(cs) == payload;
      DecodeComplete(s, cs, e, body, rest);
    }
  }

  lemma SameTail(a: string, b: string, c: string)
    requires a + b == a + c
    ensures b == c
  {
    assert (a + b)[|a|..] == b && (a + c)[|a|..] == c;
  }

  lemma DecodeComplete(s: Parser, cs: seq<Chunk>, e: Ending, body: string, rest: string)
    requires Decoding(s) && EncodingOk(cs, e, s.limits) && |body| + |Payload(cs)| <= s.limits.maxBody
    ensures var r := ChunkRun(Ready(s, body, Encode(cs, e) + rest)); r.state.Done? && r.body == body + Payload(cs)
  {
    hide Find, HexValue, ChunkMove, ChunkRun, EncodingOk;
    var text := Encode(cs, e);
    TrailerBehindZeroLine(cs, e);
    PrefixRun(s, cs, e, body, |text|);
    assert text[..|text|] == text;
    var s0 := Ready(s, body, text);
    DoneResumes(s0);
    ChunkComposes(s0, rest);
    assert Append(s0, rest) == Ready(s, body, text + rest);
  }

  lemma DoneResumes(s: Parser)
    requires s.state.BodyChunked? && s.fault.NoFault? && ChunkRun(s).state.Done?
    ensures Resumable(s)
  {
    hide Find, HexValue, ChunkMove;
    ChunkKeeps(s);
    NoPauseAtEnd(s);
  }

  lemma {:induction false} NoPauseAtEnd(s: Parser)
    requires s.state.BodyChunked? && ChunkRun(s).state.Done?
    ensures !EndsInTrailer(s)
    decreases |s.buf|
  {
    hide Find, HexValue, ScanTrailer;
    if ChunkMove(s).Go? { NoPauseAtEnd(ChunkMove(s).next); }
  }

  // ---- writing chunks ----

  lemma {:induction false} HexFits(n: nat, k: nat)
    requires k >= 1 && n < Power16(k)
    ensures |ToHex(n)| <= k
  {
    assert Power16(1) == 16 * Power16(0) == 16;
    if n >= 16 { HexFits(n / 16, k - 1); }
  }

  function Power16(k: nat): nat { if k == 0 then 1 else 16 * Power16(k - 1) }

  lemma SixteenDigits()
    ensures Power16(16) == 0x1_0000_0000_0000_0000
  {
    assert Power16(4) == 0x1_0000;
    assert Power16(8) == 0x1_0000_0000;
    assert Power16(12) == 0x1_0000_0000_0000;
  }

  /** One chunk of data, with its size in hexadecimal. */
  function Written(data: string): Chunk { Chunk(ToHex(|data|), "", data) }

  lemma WrittenIsChunk(data: string)
    requires 0 < |data| < 0x1_0000_0000_0000_0000
    ensures ChunkOk(Written(data))
  {
    hide ToHex;
    SixteenDigits();
    HexFits(|data|, 16);
    HexRoundTrip(|data|);
    HexIsOneLine(ToHex(|data|));
  }

  lemma HexIsOneLine(hex: string)
    requires AllHex(hex)
    ensures OneLine(hex + "")
  {
    hide Find;
    var s := hex + CRLF;
    assert hex + "" == hex && s[|hex|..|hex| + 2] == CRLF;
    forall j: nat | j < |hex| ensures !At(s, CRLF, j) { assert IsHex(hex[j]) && s[j] == hex[j]; }
    FindIs(s, CRLF, 0, |hex|);
  }

  /** Any pieces of data, each written as a chunk. */
  function WrittenAll(pieces: seq<string>): seq<Chunk> {
    seq(|pieces|, i requires 0 <= i < |pieces| => Written(pieces[i]))
  }

  const LAST: Ending := Ending("0", "", [])

  /** Such a body is an encoding of what the pieces add up to. */
  lemma {:induction false} WrittenEncodes(pieces: seq<string>, limits: Limits)
    requires forall i :: 0 <= i < |pieces| ==> 0 < |pieces[i]| < 0x1_0000_0000_0000_0000
    requires limits.maxChunkLine >= 2
    ensures EncodingOk(WrittenAll(pieces), LAST, limits) && Payload(WrittenAll(pieces)) == Concat(pieces)
  {
    forall i | 0 <= i < |pieces| ensures ChunkOk(WrittenAll(pieces)[i]) { WrittenIsChunk(pieces[i]); }
    LastIsEnding(limits);
    PayloadAll(pieces);
  }

  lemma LastIsEnding(limits: Limits)
    requires limits.maxChunkLine >= 2
    ensures EndingOk(LAST, limits)
  {
    assert AllHex("0") && "0" + "" == "0";
    HexIsOneLine("0");
    assert "0"[..0] == "" && HexValue("0") == 16 * HexValue("") + HexDigit('0');
  }

  lemma {:induction false} PayloadAll(pieces: seq<string>)
    ensures Payload(WrittenAll(pieces)) == Concat(pieces)
  {
    if pieces != [] {
      var init, last := pieces[..|pieces| - 1], pieces[|pieces| - 1];
      PayloadAll(init);
      assert WrittenAll(pieces) == WrittenAll(init) + [Written(last)];
      PayloadAppend(WrittenAll(init), Written(last));
    }
  }

  lemma {:induction false} PayloadAppend(cs: seq<Chunk>, c: Chunk)
    ensures Payload(cs + [c]) == Payload(cs) + c.data
  {
    if cs == [] {
      assert [c][1..] == [] && cs + [c] == [c] && c.data + "" == c.data && "" + c.data == c.data;
    } else {
      assert (cs + [c])[1..] == cs[1..] + [c];
      PayloadAppend(cs[1..], c);
      assert cs[0].data + (Payload(cs[1..]) + c.data) == cs[0].data + Payload(cs[1..]) + c.data;
    }
  }
}
