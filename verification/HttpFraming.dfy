/** What the status line and the header lines decide (sections 3.1.2 and 3.3.3 of RFC 7230). */
module HttpFraming {
  import opened Wrappers
  import opened Text
  import opened HttpSpec

  // ---- the status line ----

  /** The status line of a response, as section 3.1.2 writes it; the space and reason may be missing. */
  function StatusLine(minor: char, d: string, tail: string): string {
    "HTTP/1." + [minor] + " " + d + tail
  }

  predicate StatusParts(line: string, minor: char, d: string, tail: string) {
    && line == StatusLine(minor, d, tail) && (minor == '0' || minor == '1')
    && |d| == 3 && AllDigits(d) && (tail == "" || tail[0] == ' ')
  }

  lemma ThreeDigits(d: string)
    requires |d| == 3 && AllDigits(d)
    ensures DecValue(d) == DigitValue(d[0]) * 100 + DigitValue(d[1]) * 10 + DigitValue(d[2])
  {
    var two, one := d[..2], d[..1];
    assert two[..1] == one && one[..0] == "";
    assert DecValue(one) == DigitValue(d[0]);
    assert DecValue(two) == 10 * DecValue(one) + DigitValue(d[1]);
  }

  lemma StatusLineAccepted(line: string, minor: char, d: string, tail: string)
    requires StatusParts(line, minor, d, tail)
    ensures ReadStatusLine(line) == Accept(DecValue(d), if tail == "" then "" else tail[1..])
  {
    assert line[0..5] == "HTTP/";
    assert line[5..9] == "1." + [minor] + " ";
    assert line[9] == d[0] && line[10] == d[1] && line[11] == d[2];
    assert line[12..] == tail;
    ThreeDigits(d);
    if tail != "" { assert line[13..] == tail[1..]; }
  }

  /** A status line is accepted if and only if it has the standard's form, and then its parts are read. */
  lemma StatusLineGrammar(line: string)
    ensures ReadStatusLine(line).Accept? <==> exists minor, d, tail :: StatusParts(line, minor, d, tail)
  {
    if ReadStatusLine(line).Accept? {
      var minor, d, tail := line[7], line[9..12], line[12..];
      assert line[0..5] == "HTTP/" && line[5..9][0..2] == "1." && line[5..9][3] == ' ';
      assert line == line[0..5] + line[5..9] + d + tail;
      assert line[5..9] == "1." + [minor] + " ";
      assert StatusParts(line, minor, d, tail);
    } else {
      forall minor, d, tail | StatusParts(line, minor, d, tail) ensures false {
        StatusLineAccepted(line, minor, d, tail);
      }
    }
  }

  // ---- header lines ----

  predicate ChunkedLine(line: string) { SaysChunked(SplitField(line)) }

  predicate LengthLine(line: string) { SaysLength(SplitField(line)) }

  /** A Content-Length that is malformed or over the body limit. */
  predicate BadLengthLine(line: string, maxBody: nat) {
    LengthLine(line) &&
    match ParseLength(SplitField(line).value) case None => true case Some(v) => v > maxBody
  }

  predicate ChunkedBefore(lines: seq<string>, n: nat)
    requires n <= |lines|
  {
    exists i :: 0 <= i < n && ChunkedLine(lines[i])
  }

  /** Line `i` makes the head invalid: no chunked header stands before it to make it irrelevant. */
  predicate FatalAt(lines: seq<string>, i: nat, maxBody: nat)
    requires i < |lines|
  {
    BadLengthLine(lines[i], maxBody) && !ChunkedBefore(lines, i)
  }

  /** Line `i` is the last Content-Length among the first `n` lines. */
  predicate LastLengthAt(lines: seq<string>, n: nat, i: nat)
    requires n <= |lines|
  {
    i < n && LengthLine(lines[i]) && forall j :: i < j < n ==> !LengthLine(lines[j])
  }

  /** What the first `n` lines decide. */
  function After(lines: seq<string>, n: nat, f: Framed, maxBody: nat): Framed
    requires n <= |lines|
  {
    if n == 0 then f
    else
      var g := After(lines, n - 1, f, maxBody);
      if g.fault.NoFault? then ApplyHeader(g, lines[n - 1], maxBody) else g
  }

  /** A line that is both kinds of header does not exist. */
  lemma KindsDiffer(line: string)
    ensures !(ChunkedLine(line) && LengthLine(line))
  {
    assert |Lower("content-length")| == 14 && |Lower("transfer-encoding")| == 17;
  }

  predicate Fatal(lines: seq<string>, n: nat, maxBody: nat)
    requires n <= |lines|
  {
    exists i :: 0 <= i < n && FatalAt(lines, i, maxBody)
  }

  predicate HasLength(lines: seq<string>, n: nat)
    requires n <= |lines|
  {
    exists i :: 0 <= i < n && LengthLine(lines[i])
  }

  /** Chunked wins wherever it stands, otherwise the last Content-Length decides, otherwise nothing does. */
  ghost predicate Decided(lines: seq<string>, n: nat, f: Framed)
    requires n <= |lines|
  {
    if ChunkedBefore(lines, n) then f.framing == Chunked
    else if HasLength(lines, n) then
      && f.framing == ContentLength
      && forall i :: 0 <= i < n && LastLengthAt(lines, n, i) ==>
           ParseLength(SplitField(lines[i]).value) == Some(f.contentLength)
    else f.framing == NoFraming
  }

  function GoodLength(line: string, maxBody: nat): nat
    requires LengthLine(line) && !BadLengthLine(line, maxBody)
  {
    ParseLength(SplitField(line).value).value
  }

  lemma HeaderEffect(g: Framed, line: string, maxBody: nat)
    requires g.fault.NoFault?
    ensures var f := ApplyHeader(g, line, maxBody);
      if ChunkedLine(line) then f == g.(framing := Chunked)
      else if !LengthLine(line) || g.framing.Chunked? then f == g
      else if BadLengthLine(line, maxBody) then !f.fault.NoFault?
      else f == g.(framing := ContentLength, contentLength := GoodLength(line, maxBody))
  {
    hide Find, ParseLength, TrimLeft, TrimRight;
    KindsDiffer(line);
  }

  lemma DecidedStep(lines: seq<string>, n: nat, g: Framed, maxBody: nat)
    requires 0 < n <= |lines| && g.fault.NoFault? && Decided(lines, n - 1, g)
    ensures var f := ApplyHeader(g, lines[n - 1], maxBody);
      if FatalAt(lines, n - 1, maxBody) then !f.fault.NoFault? else f.fault.NoFault? && Decided(lines, n, f)
  {
    hide Find, ParseLength, SplitField, ApplyHeader, ChunkedBefore, HasLength, LastLengthAt, ChunkedLine, LengthLine;
    var line := lines[n - 1];
    KindsDiffer(line);
    HeaderEffect(g, line, maxBody);
    OneMoreLine(lines, n);
  }

  lemma OneMoreLine(lines: seq<string>, n: nat)
    requires 0 < n <= |lines|
    ensures ChunkedBefore(lines, n) <==> ChunkedBefore(lines, n - 1) || ChunkedLine(lines[n - 1])
    ensures HasLength(lines, n) <==> HasLength(lines, n - 1) || LengthLine(lines[n - 1])
    ensures LengthLine(lines[n - 1]) ==> forall i: nat :: LastLengthAt(lines, n, i) <==> i == n - 1
    ensures !LengthLine(lines[n - 1]) ==>
      forall i: nat :: LastLengthAt(lines, n, i) <==> i < n - 1 && LastLengthAt(lines, n - 1, i)
  {
    hide ChunkedLine, LengthLine;
    var last := LengthLine(lines[n - 1]);
    forall i: nat ensures LastLengthAt(lines, n, i) <==> if last then i == n - 1 else LastLengthAt(lines, n - 1, i) {
      if i < n - 1 && LastLengthAt(lines, n - 1, i) && !last {
        assert forall j :: i < j < n ==> !LengthLine(lines[j]);
      }
    }
  }

  /** Framing precedence over any header list: the head is rejected exactly when a malformed or
      over-limit Content-Length stands before every chunked header. */
  lemma {:induction false} Precedence(lines: seq<string>, n: nat, length: nat, maxBody: nat)
    requires n <= |lines|
    ensures var f := After(lines, n, Framed(NoFraming, length, NoFault), maxBody);
      && (!f.fault.NoFault? <==> Fatal(lines, n, maxBody))
      && (f.fault.NoFault? ==> Decided(lines, n, f))
  {
    hide ApplyHeader, FatalAt, Decided;
    if n == 0 {
      NothingDecided(lines, length);
    } else {
      Precedence(lines, n - 1, length, maxBody);
      var g := After(lines, n - 1, Framed(NoFraming, length, NoFault), maxBody);
      assert Fatal(lines, n, maxBody) <==> Fatal(lines, n - 1, maxBody) || FatalAt(lines, n - 1, maxBody);
      if g.fault.NoFault? { DecidedStep(lines, n, g, maxBody); }
    }
  }

  lemma NothingDecided(lines: seq<string>, length: nat)
    ensures Decided(lines, 0, Framed(NoFraming, length, NoFault))
  {
  }

  // ---- the loop over the header text ----

  /** The lines that the header loop reads from `pos` on. */
  function Lines(text: string, pos: nat): seq<string>
    decreases |text| - pos
  {
    if pos >= |text| then [] else [text[pos..LineEnd(text, pos)]] + Lines(text, LineEnd(text, pos) + 2)
  }

  lemma {:induction false} FaultStays(lines: seq<string>, k: nat, n: nat, f: Framed, maxBody: nat)
    requires k <= n <= |lines| && !After(lines, k, f, maxBody).fault.NoFault?
    ensures After(lines, n, f, maxBody) == After(lines, k, f, maxBody)
    decreases n
  {
    if k < n { FaultStays(lines, k, n - 1, f, maxBody); }
  }

  lemma {:induction false} AfterPrefix(a: seq<string>, b: seq<string>, n: nat, f: Framed, maxBody: nat)
    requires n <= |a|
    ensures After(a + b, n, f, maxBody) == After(a, n, f, maxBody)
  {
    if n > 0 { AfterPrefix(a, b, n - 1, f, maxBody); }
  }

  /** The loop computes `After` over the lines of its text. */
  lemma {:induction false} LoopReadsLines(text: string, pos: nat, done: seq<string>, f: Framed, maxBody: nat)
    ensures FoldHeaders(text, pos, After(done, |done|, f, maxBody), maxBody)
         == After(done + Lines(text, pos), |done + Lines(text, pos)|, f, maxBody)
    decreases |text| - pos
  {
    hide Find, ApplyHeader;
    var rest, g := Lines(text, pos), After(done, |done|, f, maxBody);
    if pos >= |text| {
      assert done + rest == done;
    } else if !g.fault.NoFault? {
      AfterPrefix(done, rest, |done|, f, maxBody);
      FaultStays(done + rest, |done|, |done + rest|, f, maxBody);
    } else {
      var eol := LineEnd(text, pos);
      var done' := done + [text[pos..eol]];
      AfterPrefix(done, [text[pos..eol]], |done|, f, maxBody);
      assert After(done', |done'|, f, maxBody) == ApplyHeader(g, text[pos..eol], maxBody);
      LoopReadsLines(text, eol + 2, done', f, maxBody);
      assert done + rest == done' + Lines(text, eol + 2);
    }
  }

  /** The header block of a response decides its framing by precedence among its lines. */
  lemma HeaderBlockPrecedence(s: Parser, h: nat)
    requires Find(s.buf, BLANK_LINE, 0) == Some(h) && s.fault.NoFault? && !s.state.Error?
    ensures var lines, r := Lines(HeaderText(s.buf, h), 0), ParseHeaders(s, h);
      && (r.state.Error? <==> Fatal(lines, |lines|, s.limits.maxBody))
      && (!r.state.Error? ==> Decided(lines, |lines|, Framed(r.framing, r.contentLength, NoFault)))
  {
    hide Find, ApplyHeader, FatalAt, Decided;
    var text, f, maxBody := HeaderText(s.buf, h), Framed(NoFraming, s.contentLength, NoFault), s.limits.maxBody;
    var lines := Lines(text, 0);
    LoopReadsLines(text, 0, [], f, maxBody);
    assert [] + lines == lines;
    Precedence(lines, |lines|, s.contentLength, maxBody);
  }
}
