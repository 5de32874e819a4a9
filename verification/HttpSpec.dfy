/** What one call of the incremental HTTP/1.1 response parser does, as functions on a parser state
    (src/http_socket.cpp). The class in HttpParser.dfy is proved equal to these functions. */
module HttpSpec {
  import opened Wrappers
  import opened Text

  datatype Limits = Limits(maxBody: nat, maxHeader: nat, maxChunkLine: nat)

  const DEFAULT_LIMITS := Limits(16 * 1024 * 1024, 64 * 1024, 1024)

  datatype State = StatusLine | Headers | BodyContentLength | BodyChunked | BodyEof | Done | Error

  datatype Framing = NoFraming | ContentLength | Chunked | EofFraming

  datatype Fault =
    | NoFault | ConnectionClosed | HeaderTooLarge | EofBodyTooLarge
    | NoHttpPrefix | BadVersion | BadStatusCode | BadStatusLine
    | BadContentLength | ContentLengthTooLarge | Unframed | SurplusBody
    | ChunkLineTooLong | EmptyChunkSize | BadChunkSize | ChunkSizeTooLong
    | TrailerTooLong | ChunkedBodyTooLarge | MissingChunkCrlf

  /** A call of `feed`: received bytes, or the end-of-stream marker `feed(nullptr, 0)`. */
  datatype Input = Bytes(data: string) | Eof

  /** Every field that survives between two calls. */
  datatype Parser = Parser(
    limits: Limits, allowEof: bool, buf: string, state: State,
    status: int, reason: string, body: string, fault: Fault,
    framing: Framing, contentLength: nat, chunkStarted: bool, chunkRemaining: nat)
  {
    predicate InHead() { state.StatusLine? || state.Headers? }
    predicate Terminal() { state.Done? || state.Error? }
  }

  /** The state agrees with the framing that chose it, and no fault is recorded outside `Error`. */
  predicate Coherent(s: Parser) {
    && (s.state.BodyContentLength? ==> s.framing.ContentLength?)
    && (s.state.BodyChunked? ==> s.framing.Chunked?)
    && (s.state.Error? <==> !s.fault.NoFault?)
  }

  function Init(limits: Limits, allowEof: bool): Parser {
    Parser(limits, allowEof, "", StatusLine, 0, "", "", NoFault, NoFraming, 0, false, 0)
  }

  function Append(s: Parser, d: string): Parser { s.(buf := s.buf + d) }

  /** The first fault is kept. */
  function Fail(s: Parser, f: Fault): Parser {
    if s.state.Error? then s else s.(state := Error, fault := f)
  }

  // ---- feed and step ----

  function Feed(s: Parser, input: Input): Parser {
    if s.Terminal() then s
    else match input
      case Eof =>
        if s.state.BodyEof? && s.allowEof
        then s.(body := s.buf, buf := "", state := Done)
        else Fail(s, ConnectionClosed)
      case Bytes(d) => Ingest(Append(s, d))
  }

  /** The limits on buffered bytes, then one step. */
  function Ingest(s: Parser): Parser {
    if s.InHead() && |s.buf| > s.limits.maxHeader then Fail(s, HeaderTooLarge)
    else if s.state.BodyEof? && |s.buf| > s.limits.maxBody then Fail(s, EofBodyTooLarge)
    else Step(s)
  }

  function Step(s: Parser): Parser {
    if s.InHead() then
      match Find(s.buf, BLANK_LINE, 0)
      case None => s
      case Some(h) => StepBody(AfterHead(s, h))
    else StepBody(s)
  }

  function StepBody(s: Parser): Parser {
    match s.state
    case BodyContentLength => StepContentLength(s)
    case BodyChunked => ChunkRun(s)
    case _ => s
  }

  /** The state on entering the body phase; `h` is where the blank line starts. */
  function AfterHead(s: Parser, h: nat): Parser
    requires Find(s.buf, BLANK_LINE, 0) == Some(h)
  {
    var s1 := ParseHead(s, h);
    if s1.state.Error? then s1 else EnterBody(s1.(buf := s.buf[h + 4..]))
  }

  function ParseHead(s: Parser, h: nat): (r: Parser)
    requires Find(s.buf, BLANK_LINE, 0) == Some(h)
    ensures r.buf == s.buf
  {
    CrlfInHead(s.buf, h);
    var s1 := ParseStatusLine(s);
    if s1.state.Error? then s1 else ParseHeaders(s1, h)
  }

  function EnterBody(s: Parser): (r: Parser)
    ensures !r.InHead()
  {
    match s.framing
    case ContentLength => s.(state := BodyContentLength)
    case Chunked => s.(state := BodyChunked)
    case _ => if s.allowEof then s.(state := BodyEof) else Fail(s, Unframed)
  }

  lemma CrlfInHead(buf: string, h: nat)
    requires Find(buf, BLANK_LINE, 0) == Some(h)
    ensures Find(buf, CRLF, 0).Some?
    ensures Find(buf, CRLF, 0).value <= h
    ensures Find(buf, CRLF, 0).value + 2 <= |buf|
    ensures Find(buf, CRLF, 0).value == h || Find(buf, CRLF, 0).value + 2 <= h
  {
    hide Find;
    FindHits(buf, BLANK_LINE, 0);
    assert buf[h..h + 4][..2] == buf[h..h + 2];
    FindFirst(buf, CRLF, 0, h);
    FindHits(buf, CRLF, 0);
    var first := Find(buf, CRLF, 0).value;
    assert buf[first..first + 2][1] == '\n' && buf[h..h + 2][0] == '\r';
  }

  // ---- status line ----

  /** `LateReject` is the fault found after the status code has been stored. */
  datatype StatusRead = Reject(fault: Fault) | LateReject(code: int) | Accept(code: int, reason: string)

  function ReadStatusLine(line: string): StatusRead {
    if !At(line, "HTTP/", 0) then Reject(NoHttpPrefix)
    else if !At(line, "1.0 ", 5) && !At(line, "1.1 ", 5) then Reject(BadVersion)
    else if |line| < 12 || !IsDigit(line[9]) || !IsDigit(line[10]) || !IsDigit(line[11]) then Reject(BadStatusCode)
    else
      var code := DigitValue(line[9]) * 100 + DigitValue(line[10]) * 10 + DigitValue(line[11]);
      if |line| > 12 && line[12] != ' ' then LateReject(code)
      else Accept(code, if |line| > 12 then line[13..] else "")
  }

  function ParseStatusLine(s: Parser): Parser
    requires Find(s.buf, CRLF, 0).Some?
  {
    match ReadStatusLine(s.buf[..Find(s.buf, CRLF, 0).value])
    case Reject(f) => Fail(s, f)
    case LateReject(code) => Fail(s.(status := code), BadStatusLine)
    case Accept(code, reason) => s.(status := code, reason := reason)
  }

  // ---- header block ----

  /** What the header lines read so far decided. */
  datatype Framed = Framed(framing: Framing, contentLength: nat, fault: Fault)

  /** The text the header loop reads. When there is no header line the length computed at line 251
      wraps around, and the text runs to the end of the buffer. */
  function HeaderText(buf: string, h: nat): string
    requires Find(buf, BLANK_LINE, 0) == Some(h)
  {
    CrlfInHead(buf, h);
    var first := Find(buf, CRLF, 0).value;
    if h < first + 2 then buf[first + 2..] else buf[first + 2..h]
  }

  function ParseHeaders(s: Parser, h: nat): Parser
    requires Find(s.buf, BLANK_LINE, 0) == Some(h)
  {
    var f := FoldHeaders(HeaderText(s.buf, h), 0, Framed(NoFraming, s.contentLength, NoFault), s.limits.maxBody);
    var s1 := s.(framing := f.framing, contentLength := f.contentLength);
    if f.fault.NoFault? then s1 else Fail(s1, f.fault)
  }

  function LineEnd(text: string, pos: nat): (e: nat)
    requires pos <= |text|
    ensures pos <= e <= |text|
  {
    match Find(text, CRLF, pos) case None => |text| case Some(e) => e
  }

  function FoldHeaders(text: string, pos: nat, f: Framed, maxBody: nat): Framed
    decreases |text| - pos
  {
    if pos >= |text| || !f.fault.NoFault? then f
    else
      var eol := LineEnd(text, pos);
      FoldHeaders(text, eol + 2, ApplyHeader(f, text[pos..eol], maxBody), maxBody)
  }

  predicate IsOws(c: char) { c == ' ' || c == '\t' }

  function TrimLeft(v: string): string {
    if v != "" && IsOws(v[0]) then TrimLeft(v[1..]) else v
  }

  function TrimRight(v: string): string {
    if v != "" && IsOws(v[|v| - 1]) then TrimRight(v[..|v| - 1]) else v
  }

  /** A header line: field name and trimmed value, or nothing for a line without a usable colon. */
  datatype Field = Junk | Field(name: string, value: string)

  function SplitField(line: string): Field {
    match Find(line, ":", 0)
    case None => Junk
    case Some(colon) => if colon == 0 then Junk else Field(line[..colon], TrimRight(TrimLeft(line[colon + 1..])))
  }

  predicate NameIs(f: Field, name: string) { f.Field? && Lower(f.name) == Lower(name) }

  predicate SaysChunked(f: Field) {
    NameIs(f, "transfer-encoding") && Find(f.value, "chunked", 0).Some?
  }

  predicate SaysLength(f: Field) { NameIs(f, "content-length") }

  function ApplyHeader(f: Framed, line: string, maxBody: nat): Framed {
    var field := SplitField(line);
    if SaysLength(field) then
      if f.framing.Chunked? then f
      else
        match ParseLength(field.value)
        case None => f.(fault := BadContentLength)
        case Some(v) =>
          if v > maxBody then f.(fault := ContentLengthTooLarge)
          else f.(framing := ContentLength, contentLength := v)
    else if SaysChunked(field) then f.(framing := Chunked)
    else f
  }

  // ---- strtoull(value, &end, 10) with the caller's "whole value consumed" test ----

  const U64_MAX: nat := 0xFFFF_FFFF_FFFF_FFFF

  predicate IsSpace(c: char) { c == ' ' || '\t' <= c <= '\r' }

  /** The bytes a C string function sees: up to the first NUL. */
  function CString(s: string): string {
    match Find(s, "\0", 0) case None => s case Some(i) => s[..i]
  }

  function SkipSpace(s: string): string {
    if s != "" && IsSpace(s[0]) then SkipSpace(s[1..]) else s
  }

  /** `None` when no digit was converted or bytes were left over. A minus sign negates modulo 2^64 and
      an overflowing number saturates, as `strtoull` does. */
  function ParseLength(value: string): Option<nat> {
    var t := SkipSpace(CString(value));
    var negative := t != "" && t[0] == '-';
    var digits := if t != "" && (t[0] == '-' || t[0] == '+') then t[1..] else t;
    if digits == "" || !AllDigits(digits) then None
    else if DecValue(digits) > U64_MAX then Some(U64_MAX)
    else if negative && DecValue(digits) > 0 then Some(U64_MAX + 1 - DecValue(digits))
    else Some(DecValue(digits))
  }

  // ---- Content-Length body ----

  function StepContentLength(s: Parser): Parser {
    if |s.buf| < s.contentLength then s
    else
      var s1 := s.(body := s.buf[..s.contentLength], buf := s.buf[s.contentLength..]);
      if s1.buf == "" then s1.(state := Done) else Fail(s1, SurplusBody)
  }

  // ---- chunked body ----

  /** One move of the chunk decoder. `Trailer` is a wait inside the trailer section: line 364 returns
      without recording that the zero-size line has been consumed. */
  datatype Move = Go(next: Parser) | Wait(next: Parser) | Trailer(next: Parser) | Stop(next: Parser)

  datatype SizeLine = Size(n: nat) | BadSize(fault: Fault)

  function HexPart(line: string): string {
    match Find(line, ";", 0) case None => line case Some(i) => line[..i]
  }

  function ParseSizeLine(line: string): SizeLine {
    var hex := HexPart(line);
    if hex == "" then BadSize(EmptyChunkSize)
    else if !AllHex(hex) then BadSize(BadChunkSize)
    else if |hex| > 16 then BadSize(ChunkSizeTooLong)
    else Size(HexValue(hex))
  }

  /** The trailer scan: `End` is the position just after the blank line. */
  datatype Scan = More | TooLong | End(pos: nat)

  function ScanTrailer(buf: string, pos: nat, used: nat, limit: nat): (r: Scan)
    requires pos <= |buf|
    ensures r.End? ==> pos < r.pos <= |buf|
    decreases |buf| - pos
  {
    match Find(buf, CRLF, pos)
    case None => if |buf| > limit then TooLong else More
    case Some(e) =>
      if used + (e + 2 - pos) > limit then TooLong
      else if e == pos then End(e + 2)
      else ScanTrailer(buf, e + 2, used + (e + 2 - pos), limit)
  }

  function SizeMove(s: Parser): Move {
    match Find(s.buf, CRLF, 0)
    case None =>
      if |s.buf| > s.limits.maxChunkLine then Stop(Fail(s, ChunkLineTooLong)) else Wait(s)
    case Some(eol) =>
      ApplySize(s.(buf := s.buf[eol + 2..]), ParseSizeLine(s.buf[..eol]))
  }

  function ApplySize(s: Parser, size: SizeLine): Move {
    match size
    case BadSize(f) => Stop(Fail(s, f))
    case Size(n) => if n == 0 then TrailerMove(s) else StartMove(s, n)
  }

  function TrailerMove(s: Parser): Move {
    match ScanTrailer(s.buf, 0, 0, s.limits.maxChunkLine)
    case More => Trailer(s)
    case TooLong => Stop(Fail(s, TrailerTooLong))
    case End(p) => Stop(s.(buf := s.buf[p..], state := Done))
  }

  function StartMove(s: Parser, n: nat): Move {
    if n > s.limits.maxBody || |s.body| + n > s.limits.maxBody then Stop(Fail(s, ChunkedBodyTooLarge))
    else Go(s.(chunkRemaining := n, chunkStarted := true))
  }

  function Min(a: nat, b: nat): nat { if a < b then a else b }

  function PayloadMove(s: Parser): Move {
    if s.chunkRemaining > 0 then
      if s.buf == "" then Wait(s)
      else
        var take := Min(s.chunkRemaining, |s.buf|);
        var s1 := s.(body := s.body + s.buf[..take], buf := s.buf[take..], chunkRemaining := s.chunkRemaining - take);
        if s1.chunkRemaining > 0 then Wait(s1) else Go(s1)
    else if |s.buf| < 2 then Wait(s)
    else if s.buf[..2] != CRLF then Stop(Fail(s, MissingChunkCrlf))
    else Go(s.(buf := s.buf[2..], chunkStarted := false))
  }

  function ChunkMove(s: Parser): (m: Move)
    ensures m.Go? ==> |m.next.buf| < |s.buf|
  {
    if s.chunkStarted then PayloadMove(s) else SizeMove(s)
  }

  /** Moves until the decoder waits or stops. */
  function ChunkRun(s: Parser): Parser
    decreases |s.buf|
  {
    match ChunkMove(s)
    case Go(s1) => ChunkRun(s1)
    case Wait(s1) => s1
    case Trailer(s1) => s1
    case Stop(s1) => s1
  }

  /** The run ends waiting inside the trailer section. */
  predicate EndsInTrailer(s: Parser)
    decreases |s.buf|
  {
    match ChunkMove(s)
    case Go(s1) => EndsInTrailer(s1)
    case Trailer(_) => true
    case _ => false
  }

  // ---- sequences of feeds ----

  function FeedAll(s: Parser, ds: seq<string>): Parser {
    if ds == [] then s else Feed(FeedAll(s, ds[..|ds| - 1]), Bytes(ds[|ds| - 1]))
  }

  /** What distinguishes two parsers for their callers: everything, except the bytes left in the buffer
      of a parser that has finished. */
  function Observed(s: Parser): Parser {
    if s.Terminal() then s.(buf := "") else s
  }
}
