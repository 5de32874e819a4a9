/** Responses as they are written: a status line, header lines and a body. What the parser makes of them. */
module HttpResponses {
  import opened Wrappers
  import opened Text
  import opened HttpSpec
  import opened HttpFraming
  import opened HttpFields
  import opened HttpHeads
  import opened HttpFeeds
  import opened HttpFragments
  import opened HttpMessages
  import opened HttpDelivery
  import opened HttpChunks
  import opened HttpChunkedMessages

  /** A line of a head: not empty, and ended by the first line break after it. */
  predicate LineOk(line: string) { line != "" && OneLine(line) }

  predicate LinesOk(lines: seq<string>) { lines != [] && forall i :: 0 <= i < |lines| ==> LineOk(lines[i]) }

  function Joined(lines: seq<string>): string {
    if lines == [] then "" else if |lines| == 1 then lines[0] else lines[0] + CRLF + Joined(lines[1..])
  }

  /** A head with at least one header line. */
  datatype Head = Head(minor: char, code: string, tail: string, lines: seq<string>) {
    function Status(): string { HttpFraming.StatusLine(minor, code, tail) }

    predicate Valid() {
      LinesOk(lines) && StatusParts(Status(), minor, code, tail) && OneLine(Status())
    }

    function Text(): string { Status() + CRLF + Joined(lines) + BLANK_LINE }

    function Reason(): string { if tail == "" then "" else tail[1..] }
  }

  // ---- where the lines and the head end ----

  lemma NoBreakBefore(line: string, rest: string, j: nat)
    requires OneLine(line) && j < |line|
    ensures !At(line + CRLF + rest, CRLF, j) && !At(line + CRLF + rest, BLANK_LINE, j)
  {
    hide Find;
    var s := line + CRLF + rest;
    assert At(s, BLANK_LINE, j) ==> At(s, CRLF, j) by {
      if At(s, BLANK_LINE, j) { assert s[j..j + 2] == s[j..j + 4][..2]; }
    }
    if At(s, CRLF, j) {
      assert (line + CRLF)[j..j + 2] == s[j..j + 2];
      FindFirst(line + CRLF, CRLF, 0, j);
    }
  }

  lemma {:induction false} SkipFind(s: string, pat: string, from: nat, i: nat)
    requires from <= i && i + |pat| <= |s| && forall j: nat :: from <= j < i ==> !At(s, pat, j)
    ensures Find(s, pat, from) == Find(s, pat, i)
    decreases i - from
  {
    if from < i { SkipFind(s, pat, from + 1, i); }
  }

  /** No blank line starts in a line or in the break behind it, if a line that is not empty follows. */
  lemma NoBlankBefore(line: string, next: string, rest: string, j: nat)
    requires OneLine(line) && LineOk(next) && j < |line| + 2
    ensures !At(line + CRLF + (next + CRLF + rest), BLANK_LINE, j)
  {
    hide Find;
    var tail := next + CRLF + rest;
    var s := line + CRLF + tail;
    if j < |line| {
      NoBreakBefore(line, tail, j);
    } else if At(s, BLANK_LINE, j) {
      assert s[j] == s[j..j + 4][0] == '\r' && s[|line| + 1] == '\n';
      assert tail[0..2] == s[j..j + 4][2..];
      NoBreakBefore(next, rest, 0);
    }
  }

  lemma JoinedStarts(lines: seq<string>) returns (rest: string)
    requires lines != []
    ensures Joined(lines) + BLANK_LINE == lines[0] + CRLF + rest
  {
    rest := if |lines| == 1 then CRLF else Joined(lines[1..]) + BLANK_LINE;
    assert BLANK_LINE == CRLF + CRLF;
  }

  /** The first blank line is the one behind the last line. */
  lemma {:induction false} BlankBehind(lines: seq<string>)
    requires lines != [] && OneLine(lines[0]) && (|lines| > 1 ==> LinesOk(lines[1..]))
    ensures Find(Joined(lines) + BLANK_LINE, BLANK_LINE, 0) == Some(|Joined(lines)|)
    decreases |lines|
  {
    hide Find;
    var line, s := lines[0], Joined(lines) + BLANK_LINE;
    if |lines| == 1 {
      assert s == line + CRLF + CRLF;
      forall j: nat | j < |line| ensures !At(s, BLANK_LINE, j) { NoBreakBefore(line, CRLF, j); }
      FindIs(s, BLANK_LINE, 0, |line|);
    } else {
      var others := lines[1..];
      BlankBehind(others);
      var rest := JoinedStarts(others);
      var tail := Joined(others) + BLANK_LINE;
      assert s == line + CRLF + tail;
      forall j: nat | j < |line| + 2 ensures !At(s, BLANK_LINE, j) { NoBlankBefore(line, others[0], rest, j); }
      SkipFind(s, BLANK_LINE, 0, |line| + 2);
      FindBehind(line + CRLF, tail, BLANK_LINE, 0, |line| + 2);
    }
  }

  /** The break behind a line that starts at `|pre|`. */
  lemma BreakBehind(pre: string, line: string, rest: string, s: string)
    requires OneLine(line) && s == line + CRLF + rest
    ensures Find(pre + s, CRLF, |pre|) == Some(|pre| + |line|)
  {
    hide Find, OneLine, At;
    FindLine(line, rest);
    FindBehind(pre, s, CRLF, 0, |pre|);
  }

  lemma NoBreakBehind(pre: string, line: string)
    requires OneLine(line)
    ensures Find(pre + line, CRLF, |pre|).None?
  {
    hide Find;
    NoFindInPart(line, |line|);
    assert (line + CRLF)[..|line|] == line;
    FindBehind(pre, line, CRLF, 0, |pre|);
  }

  lemma FirstLineRead(s: string, pos: nat, line: string)
    requires pos < |s| && LineEnd(s, pos) == pos + |line| && s[pos..pos + |line|] == line
    ensures Lines(s, pos) == [line] + Lines(s, pos + |line| + 2)
  {
    hide LineEnd;
  }

  /** The header loop reads the lines that were written. */
  lemma {:induction false} LinesReadBack(pre: string, lines: seq<string>)
    requires LinesOk(lines)
    ensures Lines(pre + Joined(lines), |pre|) == lines
    decreases |lines|
  {
    hide Find, OneLine, Lines;
    var line, s := lines[0], pre + Joined(lines);
    if |lines| == 1 {
      NoBreakBehind(pre, line);
      FirstLineRead(s, |pre|, line);
      NoLinesBehind(s, |s| + 2);
    } else {
      var others := lines[1..];
      BreakBehind(pre, line, Joined(others), Joined(lines));
      var pre' := pre + line + CRLF;
      assert s == pre' + Joined(others);
      FirstLineRead(s, |pre|, line);
      LinesReadBack(pre', others);
      assert lines == [line] + others;
    }
  }

  lemma NoLinesBehind(s: string, pos: nat)
    requires pos >= |s|
    ensures Lines(s, pos) == []
  {
  }

  lemma HeadParts(h: Head)
    requires h.Valid()
    ensures var w := h.Text();
      && |w| >= 4 && Find(w, BLANK_LINE, 0) == Some(|w| - 4) && Find(w, CRLF, 0) == Some(|h.Status()|)
      && HasHeaderLine(w, |w| - 4) && w[..|h.Status()|] == h.Status()
      && HeaderText(w, |w| - 4) == Joined(h.lines)
  {
    hide Find, StatusParts, OneLine, LineOk;
    var status, all := h.Status(), [h.Status()] + h.lines;
    assert all[1..] == h.lines && Joined(all) == status + CRLF + Joined(h.lines);
    BlankBehind(all);
    var w := h.Text();
    assert w == Joined(all) + BLANK_LINE;
    assert w == "" + w;
    BreakBehind("", status, Joined(h.lines) + BLANK_LINE, w);
    JoinedNotEmpty(h.lines);
    CrlfInHead(w, |w| - 4);
    assert w[|status| + 2..|w| - 4] == Joined(h.lines);
  }

  lemma JoinedNotEmpty(lines: seq<string>)
    requires LinesOk(lines)
    ensures Joined(lines) != ""
  {
    hide OneLine;
    assert LineOk(lines[0]);
  }

  // ---- what the head is read as ----

  /** `e` is the parser on entering the body behind `h`: it has read the code, the reason and what the header
      lines decide; it has failed exactly if a line is fatal, or nothing frames the body and its end may
      not. */
  ghost predicate ReadsAs(e: Parser, h: Head)
    requires h.Valid()
  {
    && e.status == DecValue(h.code) && e.reason == h.Reason() && e.body == ""
    && (e.state.Error? <==> Fatal(h.lines, |h.lines|, e.limits.maxBody) || (e.framing.NoFraming? && !e.allowEof))
    && (!Fatal(h.lines, |h.lines|, e.limits.maxBody) ==>
          Decided(h.lines, |h.lines|, Framed(e.framing, e.contentLength, NoFault)))
    && (!e.state.Error? ==>
          e.buf == "" && e.state == match e.framing
             case ContentLength => BodyContentLength
             case Chunked => BodyChunked
             case _ => BodyEof)
  }

  lemma HeadParses(h: Head, s: Parser, end: nat)
    requires h.Valid() && s == Init(s.limits, s.allowEof).(buf := h.Text()) && end == |h.Text()| - 4
    requires Find(s.buf, BLANK_LINE, 0) == Some(end)
    ensures var r := ParseHead(s, end);
      && r.status == DecValue(h.code) && r.reason == h.Reason()
      && (r.state.Error? <==> Fatal(h.lines, |h.lines|, s.limits.maxBody))
      && (!r.state.Error? ==> Decided(h.lines, |h.lines|, Framed(r.framing, r.contentLength, NoFault)))
  {
    hide Find, FatalAt, Decided, ReadStatusLine, OneLine, LineOk, FoldHeaders, Head.Status, HasLength, ChunkedBefore;
    HeadParts(h);
    StatusLineAccepted(h.Status(), h.minor, h.code, h.tail);
    var s1 := ParseStatusLine(s);
    assert s1 == s.(status := DecValue(h.code), reason := h.Reason());
    HeaderBlockPrecedence(s1, end);
    LinesReadBack("", h.lines);
    assert "" + Joined(h.lines) == Joined(h.lines);
  }

  /** The head of a response is read back, whatever the limits. */
  lemma HeadReads(h: Head, limits: Limits, allowEof: bool)
    requires h.Valid()
    ensures var e := HeadOf(h.Text(), limits, allowEof); ReadsAs(e, h) && e.limits == limits && e.allowEof == allowEof
  {
    hide Find, Fatal, Head.Valid, Head.Text, ParseHead, HasLength, ChunkedBefore, LastLengthAt;
    HeadParts(h);
    var w, end := h.Text(), |h.Text()| - 4;
    assert "" + w == w && w[end + 4..] == "";
    var s := Append(Init(limits, allowEof), w);
    HeadParses(h, s, end);
    ParseHeadFaults(s, end);
  }

  // ---- whole responses ----

  /** The last Content-Length among the lines, if any, says `n`; without one, `n` is not announced. */
  ghost predicate Announces(lines: seq<string>, n: nat) {
    forall i :: 0 <= i < |lines| && LastLengthAt(lines, |lines|, i) ==>
      ParseLength(SplitField(lines[i]).value) == Some(n)
  }

  /** A response whose end is marked by its Content-Length or by the end of the stream. */
  ghost predicate PlainResponse(h: Head, body: string, limits: Limits, allowEof: bool) {
    && h.Valid() && !Fatal(h.lines, |h.lines|, limits.maxBody) && !ChunkedBefore(h.lines, |h.lines|)
    && if HasLength(h.lines, |h.lines|)
       then Announces(h.lines, |body|)
       else allowEof && limits.maxHeader <= limits.maxBody
  }

  lemma {:induction false} LastLengthExists(lines: seq<string>, n: nat) returns (i: nat)
    requires n <= |lines| && HasLength(lines, n)
    ensures i < n && LastLengthAt(lines, n, i)
  {
    hide LengthLine;
    if LengthLine(lines[n - 1]) {
      i := n - 1;
    } else {
      i := LastLengthExists(lines, n - 1);
    }
  }

  /** The response as a message to a parser. */
  function Sent(h: Head, body: string, limits: Limits, allowEof: bool): Message
    requires |h.Text()| >= 4
  {
    Message(h.Text() + body, |h.Text()| - 4, limits, allowEof)
  }

  /** Its head is stable, and read as it was written. */
  lemma SentHead(h: Head, body: string, limits: Limits, allowEof: bool)
    requires h.Valid()
    ensures |h.Text()| >= 4
    ensures var m := Sent(h, body, limits, allowEof);
      m.Headed() && ReadsAs(m.Entry(), h) && m.Entry().limits == limits && m.Entry().allowEof == allowEof
      && m.w[m.h + 4..] == body
  {
    hide Find, Head.Valid, Head.Text, Lines, AllQuiet, HeadOf, ReadsAs;
    HeadParts(h);
    HeaderTextExtends(h.Text(), body, |h.Text()| - 4);
    HeadReads(h, limits, allowEof);
    assert (h.Text() + body)[..|h.Text()|] == h.Text();
  }

  /** Such a response is a complete message, with the framing its lines announce. */
  lemma PlainIsComplete(h: Head, body: string, limits: Limits, allowEof: bool)
    requires PlainResponse(h, body, limits, allowEof)
    ensures |h.Text()| >= 4
    ensures var m := Sent(h, body, limits, allowEof);
      m.Complete() && (m.Entry().state.BodyContentLength? <==> HasLength(h.lines, |h.lines|))
  {
    hide Find, Fatal, Head.Text, HeadOf, ChunkedBefore, HasLength, ParseLength, SplitField, StableHead;
    SentHead(h, body, limits, allowEof);
    if HasLength(h.lines, |h.lines|) { var i := LastLengthExists(h.lines, |h.lines|); }
  }

  /** The law of the client's parser: a response comes out with its code, its reason and its body if and only if
      the feed that completes the head leaves no more than the header limit in the buffer, and a body that lasts
      until the end of the stream is within the body limit; cut in any other way it ends in an error. With a
      Content-Length the parser is done before the stream ends. */
  lemma ResponseRoundTrip(h: Head, body: string, ds: seq<string>, limits: Limits, allowEof: bool)
    requires PlainResponse(h, body, limits, allowEof) && Concat(ds) == h.Text() + body
    ensures var fed := FeedAll(Init(limits, allowEof), ds);
      if GuardPasses(|h.Text()|, limits.maxHeader, ds) && (HasLength(h.lines, |h.lines|) || |body| <= limits.maxBody)
      then
        var r := Feed(fed, Eof);
        && r.state.Done? && r.status == DecValue(h.code) && r.reason == h.Reason() && r.body == body
        && (HasLength(h.lines, |h.lines|) ==> fed == r)
      else fed.state.Error?
  {
    hide Find, Head.Text, Head.Valid, Feed, FeedAll, HasLength, HeadOf, GuardPasses, StableHead;
    PlainIsComplete(h, body, limits, allowEof);
    SentHead(h, body, limits, allowEof);
    Delivered(Sent(h, body, limits, allowEof), ds);
    var fed := FeedAll(Init(limits, allowEof), ds);
    if fed.state.Done? { FinishedStays(fed, Eof); }
  }

  /** A response with a fatal header line ends in an error, however it is cut. */
  lemma FatalResponse(h: Head, body: string, ds: seq<string>, limits: Limits, allowEof: bool)
    requires h.Valid() && Fatal(h.lines, |h.lines|, limits.maxBody) && Concat(ds) == h.Text() + body
    ensures FeedAll(Init(limits, allowEof), ds).state.Error?
  {
    hide Find, Head.Text, Head.Valid, Feed, FeedAll, HeadOf, Fatal, StableHead;
    SentHead(h, body, limits, allowEof);
    Rejected(Sent(h, body, limits, allowEof), ds);
  }

  /** A Content-Length, in any case of its name, that is not a length or says more than the body limit. */
  ghost predicate BadLength(line: string, maxBody: nat) {
    exists name, value ::
      && Names(line, name, value) && SameName(name, "content-length")
      && (!IsLength(value) || (ParseLength(value).Some? && ParseLength(value).value > maxBody))
  }

  /** A response with such a line, and no chunked header before it, ends in an error, however it is cut. */
  lemma BadLengthRefused(h: Head, i: nat, body: string, ds: seq<string>, limits: Limits, allowEof: bool)
    requires h.Valid() && i < |h.lines| && BadLength(h.lines[i], limits.maxBody) && !ChunkedBefore(h.lines, i)
    requires Concat(ds) == h.Text() + body
    ensures FeedAll(Init(limits, allowEof), ds).state.Error?
  {
    hide Find, Head.Text, Head.Valid, FeedAll, ParseLength, SplitField, Names, Lower, ChunkedBefore;
    var name, value :|
      && Names(h.lines[i], name, value) && SameName(name, "content-length")
      && (!IsLength(value) || (ParseLength(value).Some? && ParseLength(value).value > limits.maxBody));
    FieldIff(h.lines[i], name, value);
    LowerIffSame(name, "content-length");
    MalformedIff(value);
    assert FatalAt(h.lines, i, limits.maxBody);
    FatalResponse(h, body, ds, limits, allowEof);
  }

  /** A chunked response, encoded within the limits. */
  ghost predicate ChunkedResponse(h: Head, chunks: seq<Chunk>, ending: Ending, limits: Limits) {
    && h.Valid()
    && !Fatal(h.lines, |h.lines|, limits.maxBody) && ChunkedBefore(h.lines, |h.lines|)
    && EncodingOk(chunks, ending, limits) && |Payload(chunks)| <= limits.maxBody
    && (ending.trailers == [] || FieldLine(ending.trailers[0]))
  }

  lemma ChunkedIsWire(h: Head, chunks: seq<Chunk>, ending: Ending, limits: Limits, allowEof: bool)
    requires ChunkedResponse(h, chunks, ending, limits)
    ensures var w := Wire(h.Text(), chunks, ending, limits, allowEof);
      w.Valid() && w.Decoder().status == DecValue(h.code) && w.Decoder().reason == h.Reason()
  {
    hide Find, Fatal, Head.Text, Entered, ChunkedBefore, HasLength, LastLengthAt, EncodingOk, FieldLine;
    HeadReads(h, limits, allowEof);
    HeadParts(h);
  }

  /** The same law for chunked responses, with exactly the fragmentations for which it holds. */
  lemma ChunkedRoundTrip(h: Head, chunks: seq<Chunk>, ending: Ending, limits: Limits, allowEof: bool, ds: seq<string>)
    requires ChunkedResponse(h, chunks, ending, limits)
    requires Concat(ds) == h.Text() + Encode(chunks, ending)
    ensures var r, w := FeedAll(Init(limits, allowEof), ds), Wire(h.Text(), chunks, ending, limits, allowEof);
      if GuardPasses(|h.Text()|, limits.maxHeader, ds) && CutsWell(w, ds)
      then r.state.Done? && r.status == DecValue(h.code) && r.reason == h.Reason() && r.body == Payload(chunks)
      else r.state.Error?
  {
    hide Find, Head.Text, FeedAll, Entered, ChunkedResponse, GuardPasses, CutsWell, Wire.Valid, Encode;
    ChunkedIsWire(h, chunks, ending, limits, allowEof);
    ChunkedDecoding(Wire(h.Text(), chunks, ending, limits, allowEof), ds);
  }

  /** A response with a Content-Length that is cut short is never delivered. */
  lemma LengthCutShort(h: Head, body: string, ds: seq<string>, limits: Limits, allowEof: bool)
    requires PlainResponse(h, body, limits, allowEof) && HasLength(h.lines, |h.lines|)
    requires Concat(ds) < h.Text() + body
    ensures Feed(FeedAll(Init(limits, allowEof), ds), Eof).state.Error?
  {
    hide Find, Head.Text, Head.Valid, Feed, FeedAll, HasLength, HeadOf, StableHead, Concat;
    PlainIsComplete(h, body, limits, allowEof);
    HttpDelivery.CutShort(Sent(h, body, limits, allowEof), ds);
  }

  /** Nor is a chunked one. */
  lemma ChunkedCutShort(h: Head, chunks: seq<Chunk>, ending: Ending, ds: seq<string>, limits: Limits, allowEof: bool)
    requires ChunkedResponse(h, chunks, ending, limits) && Concat(ds) < h.Text() + Encode(chunks, ending)
    ensures Feed(FeedAll(Init(limits, allowEof), ds), Eof).state.Error?
  {
    hide Find, Head.Text, Feed, FeedAll, Entered, ChunkedResponse, Wire.Valid, Encode, Concat;
    ChunkedIsWire(h, chunks, ending, limits, allowEof);
    HttpChunkedMessages.CutShort(Wire(h.Text(), chunks, ending, limits, allowEof), ds);
  }

  // ---- writing responses ----

  predicate NoCr(s: string) { forall i :: 0 <= i < |s| ==> s[i] != '\r' }

  lemma NoCrOneLine(line: string)
    requires NoCr(line)
    ensures OneLine(line)
  {
    hide Find;
    var s := line + CRLF;
    assert s[|line|..|line| + 2] == CRLF;
    forall j: nat | j < |line| ensures !At(s, CRLF, j) { assert s[j] == line[j]; }
    FindIs(s, CRLF, 0, |line|);
  }

  /** A header line with a name and a value that trimming leaves alone. */
  lemma FieldSplits(name: string, value: string)
    requires name != "" && value != "" && !IsOws(value[0]) && !IsOws(value[|value| - 1])
    requires forall i :: 0 <= i < |name| ==> name[i] != ':'
    ensures SplitField(name + ": " + value) == Field(name, value)
  {
    hide SplitField;
    assert name + ": " + value == name + ":" + " " + value + "";
    FieldComplete(name + ": " + value, name, " ", value, "");
  }

  const LENGTH_NAME: string := "Content-Length"
  const CODING_NAME: string := "Transfer-Encoding"

  lemma LengthNameLowers()
    ensures Lower(LENGTH_NAME) == Lower("content-length") && NoCr(LENGTH_NAME)
    ensures forall i :: 0 <= i < |LENGTH_NAME| ==> LENGTH_NAME[i] != ':'
  {
  }

  lemma CodingNameLowers()
    ensures Lower(CODING_NAME) == Lower("transfer-encoding") && NoCr(CODING_NAME)
    ensures forall i :: 0 <= i < |CODING_NAME| ==> CODING_NAME[i] != ':'
  {
  }

  function LengthField(n: nat): string { LENGTH_NAME + ": " + ToDecimal(n) }

  const CODING_FIELD: string := CODING_NAME + ": " + CODING

  /** A length that is written in decimal is read back. */
  lemma LengthReadBack(n: nat)
    requires n <= U64_MAX
    ensures ParseLength(ToDecimal(n)) == Some(n)
  {
    hide ToDecimal, DecValue;
    var d := ToDecimal(n);
    DecimalRoundTrip(n);
    assert IsDigit(d[0]);
    if Find(d, "\0", 0).Some? { FindHits(d, "\0", 0); }
  }

  lemma LengthFieldSays(n: nat)
    requires n <= U64_MAX
    ensures LineOk(LengthField(n)) && LengthLine(LengthField(n))
    ensures ParseLength(SplitField(LengthField(n)).value) == Some(n)
  {
    hide ToDecimal, SplitField, ParseLength, Lower, OneLine;
    var d := ToDecimal(n);
    LengthNameLowers();
    LengthReadBack(n);
    assert IsDigit(d[0]) && IsDigit(d[|d| - 1]);
    FieldSplits(LENGTH_NAME, d);
    NoCrOneLine(LengthField(n));
  }

  lemma CodingFieldSays()
    ensures LineOk(CODING_FIELD) && ChunkedLine(CODING_FIELD)
  {
    hide SplitField, Lower, OneLine;
    CodingNameLowers();
    FieldSplits(CODING_NAME, CODING);
    assert At(CODING, CODING, 0);
    NoCrOneLine(CODING_FIELD);
  }

  /** The head that announces a body by its length, and the one that announces a chunked body. */
  function HeadWith(code: string, reason: string, line: string): Head { Head('1', code, " " + reason, [line]) }

  lemma HeadIsValid(code: string, reason: string, line: string)
    requires |code| == 3 && AllDigits(code) && NoCr(reason) && LineOk(line)
    ensures HeadWith(code, reason, line).Valid() && HeadWith(code, reason, line).Reason() == reason
  {
    hide OneLine;
    var h := HeadWith(code, reason, line);
    assert (" " + reason)[1..] == reason;
    NoCrOneLine(h.Status());
  }

  /** Writing a response and reading it gives it back, if and only if the body is within its limit and the feed
      that completes the head leaves no more than the header limit in the buffer. */
  lemma WrittenResponse(code: string, reason: string, body: string, ds: seq<string>, limits: Limits, allowEof: bool)
    requires |code| == 3 && AllDigits(code) && NoCr(reason) && |body| <= U64_MAX
    requires Concat(ds) == HeadWith(code, reason, LengthField(|body|)).Text() + body
    ensures var r, h := FeedAll(Init(limits, allowEof), ds), HeadWith(code, reason, LengthField(|body|));
      if |body| <= limits.maxBody && GuardPasses(|h.Text()|, limits.maxHeader, ds)
      then r.state.Done? && r.status == DecValue(code) && r.reason == reason && r.body == body
      else r.state.Error?
  {
    hide Find, Head.Text, Head.Reason, Feed, FeedAll, LineOk, ParseLength, ChunkedLine, LengthLine, ToDecimal,
      LengthField, DecValue, GuardPasses;
    var line := LengthField(|body|);
    var h := HeadWith(code, reason, line);
    LengthFieldSays(|body|);
    HeadIsValid(code, reason, line);
    KindsDiffer(line);
    assert h.lines[0] == line;
    if |body| <= limits.maxBody {
      ResponseRoundTrip(h, body, ds, limits, allowEof);
    } else {
      assert FatalAt(h.lines, 0, limits.maxBody);
      FatalResponse(h, body, ds, limits, allowEof);
    }
  }

  /** A chunked response exists: one chunk of one byte. */
  lemma ChunkedExample()
    ensures ChunkedResponse(HeadWith("200", "OK", CODING_FIELD),
                            [Chunk("1", "", "x")], Ending("0", "", []), DEFAULT_LIMITS)
  {
    hide Find, LineOk, ParseLength, ChunkedLine, LengthLine;
    var h := HeadWith("200", "OK", CODING_FIELD);
    CodingFieldSays();
    HeadIsValid("200", "OK", CODING_FIELD);
    KindsDiffer(CODING_FIELD);
    assert h.lines[0] == CODING_FIELD;
    NoCrOneLine("1");
    NoCrOneLine("0");
    assert "1" + "" == "1" && "0" + "" == "0";
    assert "1"[..0] == "" && HexValue("1") == 16 * HexValue("") + HexDigit('1');
    assert "0"[..0] == "" && HexValue("0") == 16 * HexValue("") + HexDigit('0');
    assert [Chunk("1", "", "x")][1..] == [] && Payload([Chunk("1", "", "x")]) == "x" + "";
  }
}
