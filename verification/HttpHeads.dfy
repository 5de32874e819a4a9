/** Reading a response head when more bytes follow it: the bytes behind the blank line must not matter, and
    exactly when they do. */
module HttpHeads {
  import opened Wrappers
  import opened Text
  import opened HttpSpec
  import opened HttpFraming

  /** At least one header line stands between the status line and the blank line at `h`. */
  predicate HasHeaderLine(buf: string, h: nat) {
    match Find(buf, CRLF, 0) case None => false case Some(first) => first < h
  }

  predicate StatusRejected(buf: string) {
    match Find(buf, CRLF, 0) case None => false case Some(first) => !ReadStatusLine(buf[..first]).Accept?
  }

  /** A line that decides nothing about framing. */
  predicate Quiet(line: string) { !ChunkedLine(line) && !LengthLine(line) }

  predicate AllQuiet(lines: seq<string>) { forall i :: 0 <= i < |lines| ==> Quiet(lines[i]) }

  /** The head is read the same way however many of the bytes behind it have arrived: there is a header line,
      or the status line is rejected, or no line of what is taken for the header text decides anything. */
  predicate StableHead(buf: string, h: nat)
    requires Find(buf, BLANK_LINE, 0) == Some(h)
  {
    HasHeaderLine(buf, h) || StatusRejected(buf) || AllQuiet(Lines(HeaderText(buf, h), 0))
  }

  predicate StableMessage(w: string) {
    match Find(w, BLANK_LINE, 0) case None => true case Some(h) => StableHead(w, h)
  }

  // ---- lines that are cut ----

  predicate AllOws(s: string) { forall i :: 0 <= i < |s| ==> IsOws(s[i]) }

  /** What trimming removes on each side. */
  lemma {:induction false} TrimLeftParts(v: string) returns (before: string)
    ensures v == before + TrimLeft(v) && AllOws(before)
  {
    before := "";
    if v != "" && IsOws(v[0]) {
      before := TrimLeftParts(v[1..]);
      before := [v[0]] + before;
    }
  }

  lemma {:induction false} TrimRightParts(v: string) returns (after: string)
    ensures v == TrimRight(v) + after && AllOws(after)
  {
    after := "";
    if v != "" && IsOws(v[|v| - 1]) {
      after := TrimRightParts(v[..|v| - 1]);
      after := after + [v[|v| - 1]];
    }
  }

  const CODING: string := "chunked"

  /** Whether the word stands in a value does not depend on the white space around it. */
  lemma TrimKeepsCoding(v: string)
    ensures Find(TrimRight(TrimLeft(v)), CODING, 0).Some? <==> Find(v, CODING, 0).Some?
  {
    hide Find;
    var before := TrimLeftParts(v);
    var after := TrimRightParts(TrimLeft(v));
    var t := TrimRight(TrimLeft(v));
    assert v == before + t + after;
    if Find(t, CODING, 0).Some? { FoundInside(before, t, after); }
    if Find(v, CODING, 0).Some? { FoundWithout(before, t, after); }
  }

  lemma FoundInside(before: string, t: string, after: string)
    requires Find(t, CODING, 0).Some?
    ensures Find(before + t + after, CODING, 0).Some?
  {
    hide Find;
    FindHits(t, CODING, 0);
    var i, v := Find(t, CODING, 0).value, before + t + after;
    assert v[|before| + i..|before| + i + 7] == t[i..i + 7];
    FindFirst(v, CODING, 0, |before| + i);
  }

  lemma FoundWithout(before: string, t: string, after: string)
    requires AllOws(before) && AllOws(after) && Find(before + t + after, CODING, 0).Some?
    ensures Find(t, CODING, 0).Some?
  {
    hide Find;
    var v := before + t + after;
    FindHits(v, CODING, 0);
    var i := Find(v, CODING, 0).value;
    assert v[i] == v[i..i + 7][0] == 'c' && v[i + 6] == v[i..i + 7][6] == 'd';
    assert i >= |before| && i + 7 <= |before| + |t|;
    assert t[i - |before|..i - |before| + 7] == v[i..i + 7];
    FindFirst(t, CODING, 0, i - |before|);
  }

  /** Cutting a line short never makes it decide anything. */
  lemma QuietPrefix(line: string, k: nat)
    requires Quiet(line) && k <= |line|
    ensures Quiet(line[..k])
  {
    hide Find, TrimLeft, TrimRight;
    var cut := line[..k];
    assert line == cut + line[k..];
    if Find(cut, ":", 0).Some? {
      FindExtends(cut, line[k..], ":", 0);
      var colon := Find(cut, ":", 0).value;
      assert cut[..colon] == line[..colon];
      assert line[colon + 1..] == "" + cut[colon + 1..] + line[k..];
      TrimKeepsCoding(cut[colon + 1..]);
      TrimKeepsCoding(line[colon + 1..]);
      if Find(cut[colon + 1..], CODING, 0).Some? { FoundInside("", cut[colon + 1..], line[k..]); }
    }
  }

  /** Nor does the first byte of the line end that follows it. */
  lemma QuietCr(line: string)
    requires Quiet(line)
    ensures Quiet(line + "\r")
  {
    hide Find, TrimLeft, TrimRight;
    var more := line + "\r";
    ColonBeforeCr(line);
    if Find(line, ":", 0).Some? {
      var colon := Find(line, ":", 0).value;
      assert more[..colon] == line[..colon];
      var v := line[colon + 1..];
      assert more[colon + 1..] == v + "\r";
      TrimKeepsCoding(v);
      TrimKeepsCoding(v + "\r");
      if Find(v + "\r", CODING, 0).Some? { CodingBeforeCr(v); }
    }
  }

  lemma ColonBeforeCr(line: string)
    ensures Find(line + "\r", ":", 0) == Find(line, ":", 0)
  {
    hide Find;
    var more := line + "\r";
    if Find(line, ":", 0).Some? {
      FindExtends(line, "\r", ":", 0);
    } else if Find(more, ":", 0).Some? {
      FindHits(more, ":", 0);
      var i := Find(more, ":", 0).value;
      assert more[i] == more[i..i + 1][0] == ':';
      FindShrinks(line, "\r", ":", i);
    }
  }

  lemma CodingBeforeCr(v: string)
    requires Find(v + "\r", CODING, 0).Some?
    ensures Find(v, CODING, 0).Some?
  {
    hide Find;
    var more := v + "\r";
    FindHits(more, CODING, 0);
    var i := Find(more, CODING, 0).value;
    assert more[i + 6] == more[i..i + 7][6] == 'd';
    FindShrinks(v, "\r", CODING, i);
  }

  /** A CRLF that more bytes complete ends beyond the old buffer. */
  lemma CrlfCompletes(buf: string, d: string, pos: nat)
    requires Find(buf, CRLF, pos).None? && Find(buf + d, CRLF, pos).Some?
    ensures Find(buf + d, CRLF, pos).value + 2 > |buf|
  {
    hide Find;
    var e := Find(buf + d, CRLF, pos).value;
    FindHits(buf + d, CRLF, pos);
    if e + 2 <= |buf| {
      assert (buf + d)[e..e + 2] == buf[e..e + 2];
      FindFirst(buf, CRLF, pos, e);
    }
  }

  /** The last line of a text that is cut anywhere. */
  lemma CutLineQuiet(text: string, d: string, pos: nat)
    requires pos <= |text| && Find(text, CRLF, pos).None?
    requires Quiet((text + d)[pos..LineEnd(text + d, pos)])
    ensures Quiet(text[pos..])
  {
    hide Find, Quiet;
    var more, e := text + d, LineEnd(text + d, pos);
    if e >= |text| {
      var cut := text[pos..];
      assert more[pos..e] == cut + d[..e - |text|];
      QuietPrefix(more[pos..e], |cut|);
      assert (cut + d[..e - |text|])[..|cut|] == cut;
    } else {
      CrlfCompletes(text, d, pos);
      FindHits(more, CRLF, pos);
      assert more[e] == more[e..e + 2][0] == '\r' && e + 1 == |text|;
      QuietCr(more[pos..e]);
      assert text[pos..] == more[pos..e] + "\r";
    }
  }

  lemma {:induction false} QuietTextPrefix(text: string, d: string, pos: nat)
    requires AllQuiet(Lines(text + d, pos))
    ensures AllQuiet(Lines(text, pos))
    decreases |text| - pos
  {
    hide Find, Quiet;
    if pos < |text| {
      var first := (text + d)[pos..LineEnd(text + d, pos)];
      assert Lines(text + d, pos)[0] == first;
      if Find(text, CRLF, pos).None? {
        CutLineQuiet(text, d, pos);
        assert Lines(text, |text| + 2) == [];
        assert Lines(text, pos) == [text[pos..|text|]] && text[pos..|text|] == text[pos..];
      } else {
        FindExtends(text, d, CRLF, pos);
        var e := LineEnd(text, pos);
        assert text[pos..e] == first;
        var rest := Lines(text + d, e + 2);
        assert Lines(text + d, pos) == [first] + rest;
        assert forall i :: 0 <= i < |rest| ==> rest[i] == Lines(text + d, pos)[i + 1];
        QuietTextPrefix(text, d, e + 2);
      }
    }
  }

  /** Quiet lines leave the framing as it was. */
  lemma {:induction false} QuietFold(text: string, pos: nat, f: Framed, maxBody: nat)
    requires AllQuiet(Lines(text, pos)) && f.fault.NoFault?
    ensures FoldHeaders(text, pos, f, maxBody) == f
    decreases |text| - pos
  {
    hide Find, SplitField, SaysChunked, SaysLength;
    if pos < |text| {
      var e := LineEnd(text, pos);
      var line, rest := text[pos..e], Lines(text, e + 2);
      assert Lines(text, pos) == [line] + rest;
      assert Lines(text, pos)[0] == line && forall i :: 0 <= i < |rest| ==> rest[i] == Lines(text, pos)[i + 1];
      assert ApplyHeader(f, line, maxBody) == f;
      QuietFold(text, e + 2, f, maxBody);
    }
  }

  /** Any other line leaves a mark. */
  lemma LoudFold(text: string, length: nat, maxBody: nat)
    requires !AllQuiet(Lines(text, 0))
    ensures var r := FoldHeaders(text, 0, Framed(NoFraming, length, NoFault), maxBody);
      !r.fault.NoFault? || !r.framing.NoFraming?
  {
    hide Find, ApplyHeader, FatalAt, ChunkedLine, LengthLine, LastLengthAt;
    var lines, f := Lines(text, 0), Framed(NoFraming, length, NoFault);
    LoopReadsLines(text, 0, [], f, maxBody);
    assert [] + lines == lines;
    Precedence(lines, |lines|, length, maxBody);
    var i :| 0 <= i < |lines| && !Quiet(lines[i]);
  }

  // ---- more bytes behind the head ----

  lemma StatusLineExtends(s: Parser, d: string)
    requires Find(s.buf, CRLF, 0).Some?
    ensures Find(s.buf + d, CRLF, 0) == Find(s.buf, CRLF, 0)
    ensures ParseStatusLine(Append(s, d)) == Append(ParseStatusLine(s), d)
    ensures StatusRejected(s.buf + d) == StatusRejected(s.buf)
  {
    FindExtends(s.buf, d, CRLF, 0);
    var first := Find(s.buf, CRLF, 0).value;
    assert (s.buf + d)[..first] == s.buf[..first];
  }

  /** With a header line the header text is complete; without one it grows with the buffer. */
  lemma HeaderTextExtends(buf: string, d: string, h: nat)
    requires Find(buf, BLANK_LINE, 0) == Some(h)
    ensures Find(buf + d, BLANK_LINE, 0) == Some(h)
    ensures HasHeaderLine(buf + d, h) == HasHeaderLine(buf, h)
    ensures HeaderText(buf + d, h) == HeaderText(buf, h) + if HasHeaderLine(buf, h) then "" else d
  {
    hide Find;
    FindExtends(buf, d, BLANK_LINE, 0);
    CrlfInHead(buf, h);
    CrlfInHead(buf + d, h);
    FindExtends(buf, d, CRLF, 0);
    var first := Find(buf, CRLF, 0).value;
    if first < h {
      assert (buf + d)[first + 2..h] == buf[first + 2..h];
    } else {
      assert (buf + d)[first + 2..] == buf[first + 2..] + d;
    }
  }

  /** A head that more bytes leave stable was stable before. */
  lemma StableBefore(buf: string, d: string, h: nat)
    requires Find(buf, BLANK_LINE, 0) == Some(h) && Find(buf + d, BLANK_LINE, 0) == Some(h)
    requires StableHead(buf + d, h)
    ensures StableHead(buf, h)
  {
    hide Find, AllQuiet, Lines;
    HeaderTextExtends(buf, d, h);
    CrlfInHead(buf, h);
    StatusLineExtends(Init(DEFAULT_LIMITS, false).(buf := buf), d);
    if !HasHeaderLine(buf, h) && !StatusRejected(buf) { QuietTextPrefix(HeaderText(buf, h), d, 0); }
  }

  /** What the header lines of a head decide. */
  function HeadFramed(s: Parser, h: nat): Framed
    requires Find(s.buf, BLANK_LINE, 0) == Some(h)
  {
    FoldHeaders(HeaderText(s.buf, h), 0, Framed(NoFraming, s.contentLength, NoFault), s.limits.maxBody)
  }

  /** Bytes behind the head leave it as it is: its status line is rejected, or its lines decide the same. */
  predicate SameHead(s: Parser, d: string) {
    match Find(s.buf, BLANK_LINE, 0)
    case None => true
    case Some(h) =>
      || StatusRejected(s.buf)
      || (Find(s.buf + d, BLANK_LINE, 0) == Some(h) && HeadFramed(Append(s, d), h) == HeadFramed(s, h))
  }

  /** Behind a stable head they always do. */
  lemma StableIsSame(s: Parser, d: string)
    requires StableMessage(s.buf + d)
    ensures SameHead(s, d)
  {
    hide Find, Lines, AllQuiet, FoldHeaders, StatusRejected;
    if Find(s.buf, BLANK_LINE, 0).Some? {
      var h := Find(s.buf, BLANK_LINE, 0).value;
      var text, f := HeaderText(s.buf, h), Framed(NoFraming, s.contentLength, NoFault);
      HeaderTextExtends(s.buf, d, h);
      CrlfInHead(s.buf, h);
      StatusLineExtends(s, d);
      if HasHeaderLine(s.buf, h) {
        assert text + "" == text;
      } else if !StatusRejected(s.buf) {
        QuietTextPrefix(text, d, 0);
        QuietFold(text, 0, f, s.limits.maxBody);
        QuietFold(text + d, 0, f, s.limits.maxBody);
      }
    }
  }

  lemma ParseHeadExtends(s: Parser, d: string, h: nat)
    requires Find(s.buf, BLANK_LINE, 0) == Some(h) && Find(s.buf + d, BLANK_LINE, 0) == Some(h)
    requires SameHead(s, d) && !s.state.Error?
    ensures ParseHead(Append(s, d), h) == Append(ParseHead(s, h), d)
  {
    hide Find, FoldHeaders, HeaderText, ReadStatusLine;
    CrlfInHead(s.buf, h);
    StatusLineExtends(s, d);
  }

  /** Reading a head that stays as it is commutes with appending bytes behind it. */
  lemma HeadExtends(s: Parser, d: string, h: nat)
    requires Find(s.buf, BLANK_LINE, 0) == Some(h) && Find(s.buf + d, BLANK_LINE, 0) == Some(h)
    requires SameHead(s, d) && !s.state.Error?
    ensures AfterHead(Append(s, d), h) == Append(AfterHead(s, h), d)
  {
    hide Find, ParseHead, SameHead;
    ParseHeadExtends(s, d, h);
    assert (s.buf + d)[h + 4..] == s.buf[h + 4..] + d;
    EnterBodyExtends(ParseHead(s, h).(buf := s.buf[h + 4..]), d);
  }

  lemma EnterBodyExtends(s: Parser, d: string)
    ensures EnterBody(Append(s, d)) == Append(EnterBody(s), d)
  {
  }
}
