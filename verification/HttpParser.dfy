/** The incremental response parser as the source writes it: an object whose methods update its buffer,
    state and response in place. Every method is proved equal to its function in HttpSpec. */
module HttpParser {
  import opened Wrappers
  import opened Text
  import opened HttpSpec

  class HttpResponseParser {
    const limits: Limits
    const allowEof: bool
    var buf: string
    var state: State
    var status: int
    var reason: string
    var body: string
    var fault: Fault
    var framing: Framing
    var contentLength: nat
    var chunkStarted: bool
    var chunkRemaining: nat
    // Reset before every use, so they carry nothing from one call to the next.
    var trailerBytes: nat
    var chunkTrailerDone: bool

    function Model(): Parser
      reads this
    {
      Parser(limits, allowEof, buf, state, status, reason, body, fault,
             framing, contentLength, chunkStarted, chunkRemaining)
    }

    constructor (allowEof: bool, limits: Limits)
      ensures Model() == Init(limits, allowEof)
    {
      this.limits, this.allowEof := limits, allowEof;
      buf, state, status, reason, body, fault := "", StatusLine, 0, "", "", NoFault;
      framing, contentLength, chunkStarted, chunkRemaining := NoFraming, 0, false, 0;
      trailerBytes, chunkTrailerDone := 0, false;
    }

    method RaiseFault(f: Fault) returns (ok: bool)
      modifies this
      ensures !ok && Model() == Fail(old(Model()), f)
    {
      if !state.Error? {
        state := Error;
        fault := f;
      }
      ok := false;
    }

    method Feed(input: Input) returns (ok: bool)
      modifies this
      ensures Model() == HttpSpec.Feed(old(Model()), input)
      ensures ok == !state.Error?
    {
      if state.Done? { return true; }
      if state.Error? { return false; }
      if input.Eof? {
        if state.BodyEof? && allowEof {
          body := buf;
          buf := "";
          state := Done;
          return true;
        }
        ok := RaiseFault(ConnectionClosed);
        return;
      }
      buf := buf + input.data;
      if (state.StatusLine? || state.Headers?) && |buf| > limits.maxHeader {
        ok := RaiseFault(HeaderTooLarge);
        return;
      }
      if state.BodyEof? && |buf| > limits.maxBody {
        ok := RaiseFault(EofBodyTooLarge);
        return;
      }
      ok := Step();
    }

    method Step() returns (ok: bool)
      modifies this
      ensures Model() == HttpSpec.Step(old(Model()))
      ensures ok == !state.Error?
    {
      if state.StatusLine? || state.Headers? {
        ok := StepHead();
      } else {
        ok := StepBody();
      }
    }

    method StepBody() returns (ok: bool)
      requires !Model().InHead()
      modifies this
      ensures Model() == HttpSpec.StepBody(old(Model()))
      ensures ok == !state.Error?
    {
      match state {
        case BodyContentLength => ok := BodyStepContentLength();
        case BodyChunked => ok := BodyStepChunked();
        case BodyEof => ok := true;
        case Done => ok := true;
        case Error => ok := false;
      }
    }

    method StepHead() returns (ok: bool)
      requires state.StatusLine? || state.Headers?
      modifies this
      ensures Model() == HttpSpec.Step(old(Model()))
      ensures ok == !state.Error?
    {
      var headerEnd := Find(buf, BLANK_LINE, 0);
      if headerEnd.None? { return true; }
      ok := EnterBody(headerEnd.value);
      if ok { ok := StepBody(); }
    }

    /** Lines 174 to 195: parse the head, drop it from the buffer and choose the body state. */
    method EnterBody(headerEnd: nat) returns (ok: bool)
      requires state.StatusLine? || state.Headers?
      requires Find(buf, BLANK_LINE, 0) == Some(headerEnd)
      modifies this
      ensures Model() == AfterHead(old(Model()), headerEnd)
      ensures ok == !state.Error?
      ensures !Model().InHead()
    {
      ghost var s := Model();
      ok := ParseHead(headerEnd);
      if ok {
        buf := buf[headerEnd + 4..];
        assert Model() == HttpSpec.ParseHead(s, headerEnd).(buf := s.buf[headerEnd + 4..]);
        ok := ChooseBody();
      }
    }

    method ParseHead(headerEnd: nat) returns (ok: bool)
      requires state.StatusLine? || state.Headers?
      requires Find(buf, BLANK_LINE, 0) == Some(headerEnd)
      modifies this
      ensures Model() == HttpSpec.ParseHead(old(Model()), headerEnd)
      ensures ok == !state.Error?
      ensures ok ==> state == old(state)
    {
      CrlfInHead(buf, headerEnd);
      ok := ParseStatusLine();
      if ok { ok := ParseHeaders(headerEnd); }
    }

    method ChooseBody() returns (ok: bool)
      requires state.StatusLine? || state.Headers?
      modifies this
      ensures Model() == HttpSpec.EnterBody(old(Model()))
      ensures ok == !state.Error?
    {
      match framing {
        case ContentLength => state := BodyContentLength;
        case Chunked => state := BodyChunked;
        case NoFraming | EofFraming =>
          if !allowEof {
            ok := RaiseFault(Unframed);
            return;
          }
          state := BodyEof;
      }
      ok := true;
    }

    method ParseStatusLine() returns (ok: bool)
      requires state.StatusLine? || state.Headers?
      requires Find(buf, CRLF, 0).Some?
      modifies this
      ensures Model() == HttpSpec.ParseStatusLine(old(Model()))
      ensures ok == !state.Error?
      ensures buf == old(buf) && (ok ==> state == old(state))
    {
      var read := ReadStatusLine(buf[..Find(buf, CRLF, 0).value]);
      match read {
        case Reject(f) =>
          ok := RaiseFault(f);
        case LateReject(code) =>
          status := code;
          ok := RaiseFault(BadStatusLine);
        case Accept(code, text) =>
          status := code;
          reason := text;
          ok := true;
      }
    }

    method ParseHeaders(headerEnd: nat) returns (ok: bool)
      requires state.StatusLine? || state.Headers?
      requires Find(buf, BLANK_LINE, 0) == Some(headerEnd)
      modifies this
      ensures Model() == HttpSpec.ParseHeaders(old(Model()), headerEnd)
      ensures ok == !state.Error?
      ensures buf == old(buf) && (ok ==> state == old(state))
    {
      hide Find, ApplyHeader, HeaderText;
      var headers := HeaderText(buf, headerEnd);
      framing := NoFraming;
      ghost var all := FoldHeaders(headers, 0, Framed(framing, contentLength, NoFault), limits.maxBody);
      var pos := 0;
      while pos < |headers|
        invariant FoldHeaders(headers, pos, Framed(framing, contentLength, NoFault), limits.maxBody) == all
        invariant Model() == old(Model()).(framing := framing, contentLength := contentLength)
        decreases |headers| - pos
      {
        var eol := LineEnd(headers, pos);
        var line := headers[pos..eol];
        ghost var f := Framed(framing, contentLength, NoFault);
        assert all == FoldHeaders(headers, eol + 2, ApplyHeader(f, line, limits.maxBody), limits.maxBody);
        pos := eol + 2;
        ok := ReadHeaderLine(line);
        if !ok { return; }
      }
      ok := true;
    }

    /** The loop body of `parse_headers`, for one line. */
    method ReadHeaderLine(line: string) returns (ok: bool)
      requires !state.Error?
      modifies this
      ensures var f := ApplyHeader(old(Framed(framing, contentLength, NoFault)), line, limits.maxBody);
        && ok == f.fault.NoFault?
        && ok == !state.Error?
        && var s := old(Model()).(framing := f.framing, contentLength := f.contentLength);
           Model() == if ok then s else Fail(s, f.fault)
    {
      hide Find, ParseLength, Lower, TrimLeft, TrimRight;
      var colon := Find(line, ":", 0);
      if colon.None? || colon.value == 0 { return true; }
      var value := TrimOws(line[colon.value + 1..]);
      var field := Field(line[..colon.value], value);
      if SaysLength(field) {
        if framing.Chunked? { return true; }
        var v := ParseLength(value);
        if v.None? {
          ok := RaiseFault(BadContentLength);
          return;
        }
        if v.value > limits.maxBody {
          ok := RaiseFault(ContentLengthTooLarge);
          return;
        }
        framing := ContentLength;
        contentLength := v.value;
      } else if NameIs(field, "transfer-encoding") {
        if Find(value, "chunked", 0).Some? { framing := Chunked; }
      }
      ok := true;
    }

    static method TrimOws(raw: string) returns (value: string)
      ensures value == TrimRight(TrimLeft(raw))
    {
      value := raw;
      while value != "" && IsOws(value[0])
        invariant TrimLeft(value) == TrimLeft(raw)
        decreases |value|
      {
        value := value[1..];
      }
      while value != "" && IsOws(value[|value| - 1])
        invariant TrimRight(value) == TrimRight(TrimLeft(raw))
        decreases |value|
      {
        value := value[..|value| - 1];
      }
    }

    method BodyStepContentLength() returns (ok: bool)
      requires state.BodyContentLength?
      modifies this
      ensures Model() == StepContentLength(old(Model()))
      ensures ok == !state.Error?
    {
      if |buf| < contentLength { return true; }
      body := buf[..contentLength];
      buf := buf[contentLength..];
      if buf == "" {
        state := Done;
        return true;
      }
      ok := RaiseFault(SurplusBody);
    }

    method BodyStepChunked() returns (ok: bool)
      requires state.BodyChunked?
      modifies this
      ensures Model() == ChunkRun(old(Model()))
      ensures ok == !state.Error?
    {
      while true
        invariant state.BodyChunked?
        invariant ChunkRun(Model()) == ChunkRun(old(Model()))
        decreases |buf|
      {
        var halted;
        if !chunkStarted {
          halted, ok := ReadSizeLine();
          if halted { return; }
        }
        halted, ok := TakePayload();
        if halted { return; }
      }
    }

    /** The second half of the loop body (lines 391 to 406): payload bytes, then the closing CRLF. */
    method TakePayload() returns (halted: bool, ok: bool)
      requires state.BodyChunked? && chunkStarted
      modifies this
      ensures halted ==> Model() == ChunkRun(old(Model())) && ok == !state.Error?
      ensures !halted ==> ChunkRun(Model()) == ChunkRun(old(Model())) && state.BodyChunked? && |buf| < old(|buf|)
    {
      if chunkRemaining > 0 {
        if buf == "" { return true, true; }
        var take := Min(chunkRemaining, |buf|);
        ghost var before := Model();
        body := body + buf[..take];
        buf := buf[take..];
        chunkRemaining := chunkRemaining - take;
        if chunkRemaining > 0 { return true, true; }
        assert ChunkMove(before) == Go(Model());
      }
      if |buf| < 2 { return true, true; }
      if buf[..2] != CRLF {
        ok := RaiseFault(MissingChunkCrlf);
        return true, ok;
      }
      buf := buf[2..];
      chunkStarted := false;
      return false, true;
    }

    /** The first half of the loop body (lines 322 to 389): read a chunk-size line, or halt the loop. */
    method ReadSizeLine() returns (halted: bool, ok: bool)
      requires state.BodyChunked? && !chunkStarted
      modifies this
      ensures halted ==> Model() == ChunkRun(old(Model())) && ok == !state.Error?
      ensures !halted ==> SizeMove(old(Model())) == Go(Model()) && state.BodyChunked? && chunkStarted
      ensures !halted ==> |buf| < old(|buf|)
    {
      ghost var before := Model();
      var eol := Find(buf, CRLF, 0);
      if eol.None? {
        if |buf| > limits.maxChunkLine {
          ok := RaiseFault(ChunkLineTooLong);
          return true, ok;
        }
        return true, true;
      }
      var sizeLine := buf[..eol.value];
      buf := buf[eol.value + 2..];
      var parsed := ParseSizeLine(sizeLine);
      if parsed.BadSize? {
        ok := RaiseFault(parsed.fault);
        return true, ok;
      }
      if parsed.n == 0 {
        assert ChunkMove(before) == TrailerMove(Model());
        ok := ReadTrailer();
        return true, ok;
      }
      if parsed.n > limits.maxBody || |body| + parsed.n > limits.maxBody {
        ok := RaiseFault(ChunkedBodyTooLarge);
        return true, ok;
      }
      chunkRemaining := parsed.n;
      chunkStarted := true;
      return false, true;
    }

    method ReadTrailer() returns (ok: bool)
      requires state.BodyChunked?
      modifies this
      ensures Model() == TrailerMove(old(Model())).next
      ensures ok == !state.Error?
    {
      var scan := ScanTrailerLines();
      match scan {
        case More => ok := true;
        case TooLong => ok := RaiseFault(TrailerTooLong);
        case End(tpos) =>
          buf := buf[tpos..];
          state := Done;
          ok := true;
      }
    }

    /** The trailer loop (lines 355 to 376). */
    method ScanTrailerLines() returns (scan: Scan)
      modifies `trailerBytes, `chunkTrailerDone
      ensures scan == ScanTrailer(buf, 0, 0, limits.maxChunkLine)
      ensures chunkTrailerDone == scan.End?
    {
      chunkTrailerDone := false;
      trailerBytes := 0;
      var text, limit, tpos := buf, limits.maxChunkLine, 0;
      ghost var result := ScanTrailer(text, 0, 0, limit);
      while true
        invariant tpos <= |text| && !chunkTrailerDone
        invariant ScanTrailer(text, tpos, trailerBytes, limit) == result
        decreases |text| - tpos
      {
        var teol := Find(text, CRLF, tpos);
        if teol.None? {
          return if |text| > limit then TooLong else More;
        }
        var line := teol.value + 2 - tpos;
        trailerBytes := trailerBytes + line;
        if trailerBytes > limit { return TooLong; }
        tpos := teol.value + 2;
        if line == 2 {  // the blank line
          chunkTrailerDone := true;
          return End(tpos);
        }
      }
    }
  }
}
