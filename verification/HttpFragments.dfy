/** Independence from fragmentation: what a sequence of feeds reaches, compared with one feed of the same bytes. */
module HttpFragments {
  import opened Wrappers
  import opened Text
  import opened HttpSpec
  import opened HttpHeads

  // ---- the chunk decoder ----

  lemma {:induction false} ScanExtends(buf: string, d: string, pos: nat, limit: nat)
    requires pos <= |buf|
    requires !ScanTrailer(buf, pos, pos, limit).More?
    ensures ScanTrailer(buf + d, pos, pos, limit) == ScanTrailer(buf, pos, pos, limit)
    decreases |buf| - pos
  {
    var next := Find(buf, CRLF, pos);
    if next.None? {
      if Find(buf + d, CRLF, pos).Some? { CrlfCompletes(buf, d, pos); }
    } else {
      FindExtends(buf, d, CRLF, pos);
      var e := next.value;
      if e != pos && e + 2 <= limit { ScanExtends(buf, d, e + 2, limit); }
    }
  }

  lemma TrailerMoveExtends(s: Parser, d: string)
    requires TrailerMove(s).Stop?
    ensures TrailerMove(Append(s, d)).Stop?
    ensures Observed(TrailerMove(Append(s, d)).next) == Observed(TrailerMove(s).next)
  {
    ScanExtends(s.buf, d, 0, s.limits.maxChunkLine);
  }

  /** `m'` is what the move `m` becomes when `d` follows the buffered bytes. */
  predicate MoveExtends(m: Move, m': Move, d: string) {
    && (m.Go? ==> m' == Go(Append(m.next, d)))
    && (m.Stop? ==> m'.Stop? && Observed(m'.next) == Observed(m.next))
  }

  lemma ApplySizeExtends(s: Parser, size: SizeLine, d: string)
    ensures MoveExtends(ApplySize(s, size), ApplySize(Append(s, d), size), d)
  {
    if size == Size(0) && TrailerMove(s).Stop? { TrailerMoveExtends(s, d); }
  }

  lemma SizeMoveExtends(s: Parser, d: string)
    requires Find(s.buf, CRLF, 0).Some?
    ensures MoveExtends(SizeMove(s), SizeMove(Append(s, d)), d)
  {
    FindExtends(s.buf, d, CRLF, 0);
    var eol := Find(s.buf, CRLF, 0).value;
    assert (s.buf + d)[..eol] == s.buf[..eol];
    assert (s.buf + d)[eol + 2..] == s.buf[eol + 2..] + d;
    ApplySizeExtends(s.(buf := s.buf[eol + 2..]), ParseSizeLine(s.buf[..eol]), d);
  }

  lemma PayloadMoveExtends(s: Parser, d: string)
    ensures MoveExtends(PayloadMove(s), PayloadMove(Append(s, d)), d)
  {
    if s.chunkRemaining > 0 {
      if s.buf != "" && s.chunkRemaining <= |s.buf| {
        var take := s.chunkRemaining;
        assert (s.buf + d)[..take] == s.buf[..take];
        assert (s.buf + d)[take..] == s.buf[take..] + d;
      }
    } else if |s.buf| >= 2 {
      assert (s.buf + d)[..2] == s.buf[..2];
      assert (s.buf + d)[2..] == s.buf[2..] + d;
    }
  }

  /** A payload cut short resumes where it stopped. */
  lemma PartialPayload(s: Parser, d: string)
    requires s.chunkStarted && PayloadMove(s).Wait?
    ensures ChunkRun(Append(s, d)) == ChunkRun(Append(PayloadMove(s).next, d))
  {
    hide Find, SizeMove, ChunkRun;
    var s1 := PayloadMove(s).next;
    if s1 != s {
      var k := |s.buf|;
      assert s1 == s.(body := s.body + s.buf, buf := "", chunkRemaining := s.chunkRemaining - k) by {
        assert s.buf[..k] == s.buf && s.buf[k..] == "";
      }
      assert "" + d == d;
      if d == "" {
        assert Append(s, d) == s && Append(s1, d) == s1;
        NoMore(s);
      } else {
        PartialTake(s, d);
        SameMove(Append(s, d), Append(s1, d));
      }
    }
  }

  lemma SameMove(s: Parser, t: Parser)
    requires ChunkMove(s) == ChunkMove(t)
    ensures ChunkRun(s) == ChunkRun(t)
  {
    hide ChunkMove;
  }

  /** A payload cut short waits. */
  lemma NoMore(s: Parser)
    requires s.chunkStarted && PayloadMove(s).Wait? && PayloadMove(s).next.chunkRemaining > 0
    requires PayloadMove(s).next.buf == ""
    ensures ChunkRun(s) == PayloadMove(s).next == ChunkRun(PayloadMove(s).next)
  {
    hide SizeMove;
  }

  lemma PartialTake(s: Parser, d: string)
    requires s.chunkStarted && 0 < |s.buf| < s.chunkRemaining && d != ""
    ensures PayloadMove(Append(s, d))
         == PayloadMove(s.(body := s.body + s.buf, buf := d, chunkRemaining := s.chunkRemaining - |s.buf|))
  {
    var k := |s.buf|;
    var take := Min(s.chunkRemaining - k, |d|);
    assert Min(s.chunkRemaining, k + |d|) == k + take;
    assert (s.buf + d)[..k + take] == s.buf + d[..take];
    assert (s.buf + d)[k + take..] == d[take..];
    assert s.body + (s.buf + d[..take]) == s.body + s.buf + d[..take];
  }

  /** A run can be resumed unless it stopped inside the trailer section, or gave up on a size line whose
      end had not arrived. */
  predicate Resumable(s: Parser) {
    s.state.BodyChunked? ==> !EndsInTrailer(s) && !ChunkRun(s).fault.ChunkLineTooLong?
  }

  /** One move with more bytes behind, unless it stops in the trailer section or gives up on a size line. */
  lemma MoveComposes(s: Parser, d: string)
    requires s.state.BodyChunked? && s.fault.NoFault?
    requires !ChunkMove(s).Trailer? && !ChunkMove(s).next.fault.ChunkLineTooLong?
    ensures var m, m' := ChunkMove(s), ChunkMove(Append(s, d));
      && (m.Go? ==> m' == Go(Append(m.next, d)) && m.next.state.BodyChunked? && m.next.fault.NoFault?)
      && (m.Stop? ==> m'.Stop? && Observed(m'.next) == Observed(m.next) && m.next.Terminal())
      && (m.Wait? ==> m.next.state.BodyChunked? && ChunkRun(Append(s, d)) == ChunkRun(Append(m.next, d)))
  {
    if s.chunkStarted {
      hide Find, ChunkRun;
      PayloadMoveExtends(s, d);
      if PayloadMove(s).Wait? { PartialPayload(s, d); }
    } else {
      hide Find, HexValue, ScanTrailer, ParseSizeLine, ChunkRun;
      if Find(s.buf, CRLF, 0).Some? { SizeMoveExtends(s, d); }
    }
  }

  lemma {:induction false} ChunkComposes(s: Parser, d: string)
    requires s.state.BodyChunked? && s.fault.NoFault? && Resumable(s)
    ensures var r := ChunkRun(s);
      && (r.state.BodyChunked? ==> ChunkRun(Append(s, d)) == ChunkRun(Append(r, d)))
      && (r.Terminal() ==> Observed(ChunkRun(Append(s, d))) == Observed(r))
      && (r.state.BodyChunked? || r.Terminal())
    decreases |s.buf|
  {
    hide ChunkMove;
    var m := ChunkMove(s);
    if m.Go? {
      GoKeeps(s);
      MoveComposes(s, d);
      ChunkComposes(m.next, d);
    } else {
      MoveComposes(s, d);
    }
  }

  lemma GoKeeps(s: Parser)
    requires ChunkMove(s).Go?
    ensures ChunkMove(s).next.state == s.state && ChunkMove(s).next.fault == s.fault
  {
    hide Find, HexValue, ScanTrailer;
  }

  // ---- one cut ----

  /** The body-phase state that one step works on, before the step itself. */
  function Entered(s: Parser): Parser {
    if s.InHead() then
      match Find(s.buf, BLANK_LINE, 0)
      case None => s
      case Some(h) => AfterHead(s, h)
    else s
  }

  predicate HeadComplete(s: Parser) { s.InHead() && Find(s.buf, BLANK_LINE, 0).Some? }

  /** Bytes taken for a size line after a pause inside the trailer section, or for trailers, as they should be:
      both wait in an unfinished line, or the first line happens to be a zero-size line and both scans of what
      follows end the same way. */
  predicate TrailerSafe(s: Parser) {
    match Find(s.buf, CRLF, 0)
    case None => |s.buf| <= s.limits.maxChunkLine
    case Some(eol) =>
      && ParseSizeLine(s.buf[..eol]) == Size(0)
      && var whole, alone := TrailerMove(s), TrailerMove(s.(buf := s.buf[eol + 2..]));
         whole.Stop? && alone.Stop? && whole.next.state == alone.next.state
  }

  /** Bytes `d` may follow what one run of the chunk decoder left behind: it did not pause inside the trailer
      section, unless they happen to fit; and if it gave up on a size line, they do not finish that line. */
  predicate RunSafe(s: Parser, d: string) {
    s.state.BodyChunked? ==>
      var r := ChunkRun(s);
      if EndsInTrailer(s) then TrailerSafe(Append(r, d))
      else r.fault.ChunkLineTooLong? ==> Find(r.buf + d, CRLF, 0).None?
  }

  /** Cutting the input between `a` and `b` changes nothing a caller can observe. */
  predicate CutSafe(s: Parser, a: string, b: string) {
    && !(HeadComplete(Append(s, a)) && |s.buf + a| <= s.limits.maxHeader < |s.buf + a + b|)
    && (HeadComplete(Append(s, a)) && |s.buf + a + b| <= s.limits.maxHeader ==> SameHead(Append(s, a), b))
    && (b != "" ==> !(Feed(s, Bytes(a)).state.Done? && !Feed(s, Bytes(a)).framing.Chunked?))
    && (!(s.InHead() && |s.buf + a| > s.limits.maxHeader) ==> RunSafe(Entered(Append(s, a)), b))
  }

  /** A parser that has not finished, with limits in the order of the defaults. */
  predicate Cuttable(s: Parser) { !s.Terminal() && Coherent(s) && s.limits.maxHeader <= s.limits.maxBody }

  lemma ObservedFeed(x: Parser, y: Parser, input: Input)
    requires Observed(x) == Observed(y)
    ensures Observed(Feed(x, input)) == Observed(Feed(y, input))
  {
  }

  lemma ContentLengthComposes(s: Parser, d: string)
    requires s.state.BodyContentLength? && Coherent(s)
    ensures var r := StepContentLength(s);
      Observed(Feed(r, Bytes(d))) == Observed(StepContentLength(Append(s, d)))
      <==> d == "" || !r.state.Done?
  {
    assert s.buf + "" == s.buf;
    if |s.buf| >= s.contentLength {
      var n := s.contentLength;
      assert (s.buf + d)[..n] == s.buf[..n];
      assert (s.buf + d)[n..] == s.buf[n..] + d;
    }
  }

  // ---- after a pause inside the trailer section, or a size line given up ----

  lemma {:induction false} BodyGrows(s: Parser)
    requires s.state.BodyChunked? && s.fault.NoFault?
    ensures |ChunkRun(s).body| >= |s.body|
    decreases |s.buf|
  {
    hide Find, HexValue, ScanTrailer;
    if ChunkMove(s).Go? { BodyGrows(ChunkMove(s).next); }
  }

  /** A chunk that has been started leaves a mark. */
  lemma StartedMarks(s: Parser)
    requires s.state.BodyChunked? && s.fault.NoFault? && s.chunkStarted && s.chunkRemaining > 0
    ensures ChunkRun(s).chunkStarted || |ChunkRun(s).body| > |s.body|
  {
    hide Find, HexValue, ScanTrailer;
    if ChunkMove(s).Go? { BodyGrows(ChunkMove(s).next); }
  }

  lemma SizeFaults(line: string)
    ensures ParseSizeLine(line).BadSize? ==>
      var f := ParseSizeLine(line).fault; f.EmptyChunkSize? || f.BadChunkSize? || f.ChunkSizeTooLong?
  {
  }

  /** What a run makes of a complete size line. */
  lemma SizeRun(s: Parser, eol: nat)
    requires s.state.BodyChunked? && s.fault.NoFault? && !s.chunkStarted && Find(s.buf, CRLF, 0) == Some(eol)
    ensures var r := ChunkRun(s);
      match ParseSizeLine(s.buf[..eol])
      case BadSize(f) => r.state.Error? && r.fault == f
      case Size(n) =>
        if n == 0 then r == TrailerMove(s.(buf := s.buf[eol + 2..])).next
        else r.fault.ChunkedBodyTooLarge? || r.chunkStarted || |r.body| > |s.body|
  {
    hide Find, ParseSizeLine, ScanTrailer;
    if ChunkMove(s).Go? { StartedMarks(ChunkMove(s).next); }
  }

  lemma TrailerOutcome(s: Parser)
    requires s.state.BodyChunked? && s.fault.NoFault?
    ensures var r := TrailerMove(s).next;
      && r.body == s.body && r.chunkStarted == s.chunkStarted && r.chunkRemaining == s.chunkRemaining
      && (if TrailerMove(s).Trailer? then r == s
          else r == s.(buf := r.buf, state := r.state, fault := r.fault)
               && ((r.state.Done? && r.fault.NoFault?) || (r.state.Error? && r.fault.TrailerTooLong?)))
  {
    hide Find, ScanTrailer;
  }

  /** After a pause inside the trailer section the bytes are read as a size line; without it they would have been
      read as trailers. */
  lemma PauseShows(s: Parser)
    requires s.state.BodyChunked? && s.fault.NoFault? && !s.chunkStarted
    ensures Observed(ChunkRun(s)) == Observed(TrailerMove(s).next) <==> TrailerSafe(s)
  {
    hide Find, HexValue, ParseSizeLine;
    TrailerOutcome(s);
    match Find(s.buf, CRLF, 0)
    case None =>
    case Some(eol) =>
      hide ChunkRun, TrailerMove;
      SizeRun(s, eol);
      SizeFaults(s.buf[..eol]);
      TrailerOutcome(s.(buf := s.buf[eol + 2..]));
  }

  /** What a run that pauses inside the trailer section leaves, and what it does with more bytes. */
  lemma {:induction false} PauseLeaves(s: Parser, d: string)
    requires s.state.BodyChunked? && s.fault.NoFault? && EndsInTrailer(s)
    ensures var r := ChunkRun(s);
      && r.state.BodyChunked? && r.fault.NoFault? && !r.chunkStarted
      && ChunkRun(Append(s, d)) == TrailerMove(Append(r, d)).next
    decreases |s.buf|
  {
    hide Find, HexValue, ScanTrailer, ParseSizeLine;
    if s.chunkStarted {
      PayloadMoveExtends(s, d);
    } else {
      SizeMoveExtends(s, d);
    }
    if ChunkMove(s).Go? {
      PauseLeaves(ChunkMove(s).next, d);
    } else {
      var eol := Find(s.buf, CRLF, 0).value;
      FindExtends(s.buf, d, CRLF, 0);
      assert (s.buf + d)[..eol] == s.buf[..eol] && (s.buf + d)[eol + 2..] == s.buf[eol + 2..] + d;
    }
  }

  /** A run that gave up on a size line, and what it does with more bytes. */
  lemma {:induction false} LongLineLeaves(s: Parser, d: string)
    requires s.state.BodyChunked? && s.fault.NoFault? && ChunkRun(s).fault.ChunkLineTooLong?
    ensures var r := ChunkRun(s); var z := r.(state := BodyChunked, fault := NoFault);
      && r.state.Error? && !z.chunkStarted && Find(z.buf, CRLF, 0).None? && |z.buf| > z.limits.maxChunkLine
      && ChunkRun(Append(s, d)) == ChunkRun(Append(z, d))
    decreases |s.buf|
  {
    hide Find, HexValue, ScanTrailer;
    if s.chunkStarted {
      PayloadMoveExtends(s, d);
    } else if Find(s.buf, CRLF, 0).Some? {
      SizeMoveExtends(s, d);
      SizeFaults(s.buf[..Find(s.buf, CRLF, 0).value]);
    }
    if ChunkMove(s).Go? { LongLineLeaves(ChunkMove(s).next, d); }
  }

  /** A size line that was given up shows as soon as its end arrives. */
  lemma LongLineShows(z: Parser, d: string)
    requires z.state.BodyChunked? && z.fault.NoFault? && !z.chunkStarted && |z.buf| > z.limits.maxChunkLine
    ensures Observed(ChunkRun(Append(z, d))) == Observed(Fail(z, ChunkLineTooLong)) <==> Find(z.buf + d, CRLF, 0).None?
  {
    hide Find, HexValue, ParseSizeLine, ScanTrailer;
    var s := Append(z, d);
    if Find(s.buf, CRLF, 0).Some? {
      var eol := Find(s.buf, CRLF, 0).value;
      hide ChunkRun, TrailerMove;
      SizeRun(s, eol);
      SizeFaults(s.buf[..eol]);
      TrailerOutcome(s.(buf := s.buf[eol + 2..]));
    }
  }

  lemma ChunkedComposes(s: Parser, d: string)
    requires s.state.BodyChunked? && Coherent(s)
    ensures Observed(Feed(ChunkRun(s), Bytes(d))) == Observed(ChunkRun(Append(s, d))) <==> RunSafe(s, d)
  {
    hide Find, ChunkRun, TrailerMove, TrailerSafe;
    var r := ChunkRun(s);
    if EndsInTrailer(s) {
      PauseLeaves(s, d);
      FeedChunked(r, d);
      PauseShows(Append(r, d));
    } else if r.fault.ChunkLineTooLong? {
      LongLineLeaves(s, d);
      var z := r.(state := BodyChunked, fault := NoFault);
      LongLineShows(z, d);
    } else {
      ChunkComposes(s, d);
      if r.state.BodyChunked? { FeedChunked(r, d); }
    }
  }

  lemma FeedChunked(s: Parser, d: string)
    requires s.state.BodyChunked?
    ensures Feed(s, Bytes(d)) == ChunkRun(Append(s, d))
  {
  }

  /** The two orders of work: step, append and step again; or append and step once. */
  lemma StepBodyComposes(s: Parser, d: string)
    requires !s.InHead() && !s.Terminal() && Coherent(s)
    requires s.state.BodyEof? ==> |s.buf + d| <= s.limits.maxBody
    ensures var r := StepBody(s);
      Observed(Feed(r, Bytes(d))) == Observed(StepBody(Append(s, d)))
      <==> (d == "" || !(r.state.Done? && !r.framing.Chunked?)) && RunSafe(s, d)
  {
    hide Find, ChunkMove, RunSafe;
    match s.state
    case BodyContentLength =>
      ContentLengthComposes(s, d);
      OnlyChunkedRuns(s, d);
    case BodyChunked =>
      ChunkKeeps(s);
      ChunkedComposes(s, d);
    case _ => OnlyChunkedRuns(s, d);
  }

  lemma OnlyChunkedRuns(s: Parser, d: string)
    requires !s.state.BodyChunked?
    ensures RunSafe(s, d)
  {
  }

  lemma HeadFaults(s: Parser, h: nat)
    requires s.InHead() && Coherent(s) && Find(s.buf, BLANK_LINE, 0) == Some(h)
    ensures var e := AfterHead(s, h);
      && Coherent(e) && !e.fault.HeaderTooLarge? && !e.InHead() && !e.state.Done?
      && e.limits == s.limits && e.allowEof == s.allowEof
      && (!e.state.Error? ==> e.buf == s.buf[h + 4..])
      && (e.state.BodyEof? ==> s.allowEof)
      && e.body == s.body && e.chunkStarted == s.chunkStarted && e.chunkRemaining == s.chunkRemaining
  {
    ParseHeadFaults(s, h);
  }

  lemma ParseHeadFaults(s: Parser, h: nat)
    requires s.InHead() && Coherent(s) && Find(s.buf, BLANK_LINE, 0) == Some(h)
    ensures var e := ParseHead(s, h);
      && Coherent(e) && !e.fault.HeaderTooLarge? && (e.state == s.state || e.state.Error?)
      && e.limits == s.limits && e.allowEof == s.allowEof
      && e.body == s.body && e.chunkStarted == s.chunkStarted && e.chunkRemaining == s.chunkRemaining
  {
    CrlfInHead(s.buf, h);
    StatusFaults(s);
    var s1 := ParseStatusLine(s);
    if !s1.state.Error? { HeadersFaults(s1, h); }
  }

  lemma StatusFaults(s: Parser)
    requires s.InHead() && Coherent(s) && Find(s.buf, CRLF, 0).Some?
    ensures var e := ParseStatusLine(s);
      && Coherent(e) && !e.fault.HeaderTooLarge? && (e.state == s.state || e.state.Error?)
      && e == s.(state := e.state, fault := e.fault, status := e.status, reason := e.reason)
  {
  }

  lemma HeadersFaults(s: Parser, h: nat)
    requires s.InHead() && Coherent(s) && Find(s.buf, BLANK_LINE, 0) == Some(h)
    ensures var e := ParseHeaders(s, h);
      && Coherent(e) && !e.fault.HeaderTooLarge? && (e.state == s.state || e.state.Error?)
      && e.limits == s.limits && e.allowEof == s.allowEof
      && e.body == s.body && e.chunkStarted == s.chunkStarted && e.chunkRemaining == s.chunkRemaining
  {
    FoldFaults(HeaderText(s.buf, h), 0, Framed(NoFraming, s.contentLength, NoFault), s.limits.maxBody);
  }

  lemma {:induction false} FoldFaults(text: string, pos: nat, f: Framed, maxBody: nat)
    requires f.fault.NoFault? || f.fault.BadContentLength? || f.fault.ContentLengthTooLarge?
    ensures var r := FoldHeaders(text, pos, f, maxBody).fault;
      r.NoFault? || r.BadContentLength? || r.ContentLengthTooLarge?
    decreases |text| - pos
  {
    if pos < |text| && f.fault.NoFault? {
      var eol := LineEnd(text, pos);
      FoldFaults(text, eol + 2, ApplyHeader(f, text[pos..eol], maxBody), maxBody);
    }
  }

  /** What the chunk decoder leaves alone, and the faults it can report. */
  lemma {:induction false} ChunkKeeps(s: Parser)
    requires s.state.BodyChunked? && s.fault.NoFault?
    ensures var r := ChunkRun(s);
      && (r.state.BodyChunked? || r.state.Done? || r.state.Error?)
      && (r.state.Error? <==> !r.fault.NoFault?) && !r.fault.HeaderTooLarge?
      && r.limits == s.limits && r.allowEof == s.allowEof && r.framing == s.framing
      && r.status == s.status && r.reason == s.reason && r.contentLength == s.contentLength
    decreases |s.buf|
  {
    hide Find, HexValue;
    if ChunkMove(s).Go? { ChunkKeeps(ChunkMove(s).next); }
  }

  lemma StepBodyFaults(s: Parser)
    requires !s.InHead() && Coherent(s) && !s.fault.HeaderTooLarge?
    ensures var r := StepBody(s); Coherent(r) && !r.fault.HeaderTooLarge? && !r.InHead()
  {
    if s.state.BodyChunked? { ChunkKeeps(s); }
  }

  /** Past the head, no feed can report an oversized header block. */
  lemma BodyFaults(s: Parser, d: string)
    requires !s.InHead() && Coherent(s) && !s.fault.HeaderTooLarge?
    ensures !Feed(s, Bytes(d)).fault.HeaderTooLarge?
  {
    StepBodyFaults(Append(s, d));
  }

  lemma FeedBody(s: Parser, d: string)
    requires s.state.BodyContentLength? || s.state.BodyChunked?
    ensures Feed(s, Bytes(d)) == StepBody(Append(s, d))
  {
  }

  lemma EofFeedComposes(s: Parser, a: string, b: string)
    requires s.state.BodyEof? && Coherent(s)
    ensures Observed(Feed(Feed(s, Bytes(a)), Bytes(b))) == Observed(Feed(s, Bytes(a + b)))
    ensures !Feed(s, Bytes(a)).state.Done?
  {
    assert s.buf + a + b == s.buf + (a + b);
  }

  lemma BodyFeedComposes(s: Parser, a: string, b: string)
    requires Cuttable(s) && !s.InHead()
    ensures Observed(Feed(Feed(s, Bytes(a)), Bytes(b))) == Observed(Feed(s, Bytes(a + b)))
            <==> CutSafe(s, a, b)
  {
    hide Find, ChunkRun, RunSafe, SameHead;
    if s.state.BodyEof? {
      EofFeedComposes(s, a, b);
      OnlyChunkedRuns(Append(s, a), b);
    } else {
      var s' := Append(s, a);
      assert Append(s', b) == Append(s, a + b) by { assert s.buf + a + b == s.buf + (a + b); }
      FeedBody(s, a);
      FeedBody(s, a + b);
      StepBodyComposes(s', b);
    }
  }

  /** A first feed that exceeds the header limit. */
  lemma HeadOverflows(s: Parser, a: string, b: string)
    requires Cuttable(s) && s.InHead() && |s.buf + a| > s.limits.maxHeader
    ensures Observed(Feed(Feed(s, Bytes(a)), Bytes(b))) == Observed(Feed(s, Bytes(a + b)))
    ensures CutSafe(s, a, b)
  {
    hide Find, Step, RunSafe, SameHead;
    assert s.buf + (a + b) == s.buf + a + b;
  }

  /** A first feed that leaves the head incomplete. */
  lemma HeadWaits(s: Parser, a: string, b: string)
    requires Cuttable(s) && s.InHead() && |s.buf + a| <= s.limits.maxHeader && !HeadComplete(Append(s, a))
    ensures Observed(Feed(Feed(s, Bytes(a)), Bytes(b))) == Observed(Feed(s, Bytes(a + b)))
    ensures CutSafe(s, a, b)
  {
    hide Find, RunSafe, SameHead, Ingest;
    var s' := Append(s, a);
    IncompleteFeed(s, a);
    OnlyChunkedRuns(s', b);
    assert Append(s', b) == Append(s, a + b) by { assert s.buf + a + b == s.buf + (a + b); }
  }

  lemma IncompleteFeed(s: Parser, a: string)
    requires s.InHead() && |s.buf + a| <= s.limits.maxHeader && !HeadComplete(Append(s, a))
    ensures Feed(s, Bytes(a)) == Append(s, a)
  {
    hide Find;
  }

  // ---- heads that more bytes change ----

  /** What a parser shows of what its header lines decided. */
  function Mark(s: Parser): Framed {
    Framed(s.framing, s.contentLength,
           if s.fault.BadContentLength? || s.fault.ContentLengthTooLarge? then s.fault else NoFault)
  }

  lemma {:induction false} RunFault(s: Parser)
    requires s.state.BodyChunked? && s.fault.NoFault?
    ensures !ChunkRun(s).fault.BadContentLength? && !ChunkRun(s).fault.ContentLengthTooLarge?
    decreases |s.buf|
  {
    hide Find, HexValue;
    if ChunkMove(s).Go? { RunFault(ChunkMove(s).next); }
  }

  /** The mark stays for good. */
  lemma MarkStays(s: Parser, d: string)
    requires !s.InHead() && Coherent(s)
    ensures Mark(StepBody(s)) == Mark(s) && Mark(Feed(s, Bytes(d))) == Mark(s)
    ensures !StepBody(s).InHead() && Coherent(StepBody(s))
  {
    hide Find, ChunkRun;
    if s.state.BodyChunked? {
      ChunkKeeps(s);
      RunFault(s);
      ChunkKeeps(Append(s, d));
      RunFault(Append(s, d));
    }
  }

  lemma HeadMark(s: Parser, h: nat)
    requires s.InHead() && Coherent(s) && Find(s.buf, BLANK_LINE, 0) == Some(h) && !StatusRejected(s.buf)
    ensures Mark(AfterHead(s, h)) == HeadFramed(s, h)
  {
    hide Find, FoldHeaders, HeaderText, ReadStatusLine;
    CrlfInHead(s.buf, h);
    FoldFaults(HeaderText(s.buf, h), 0, Framed(NoFraming, s.contentLength, NoFault), s.limits.maxBody);
  }

  /** A head that more bytes change is seen to have changed. */
  lemma ChangeShows(s: Parser, d: string)
    requires HeadComplete(s) && Coherent(s) && !SameHead(s, d)
    ensures Mark(Entered(s)) != Mark(Entered(Append(s, d)))
  {
    hide Find, HeadFramed, StatusRejected, AfterHead, HeaderText;
    var h := Find(s.buf, BLANK_LINE, 0).value;
    HeaderTextExtends(s.buf, d, h);
    CrlfInHead(s.buf, h);
    StatusLineExtends(s, d);
    HeadMark(s, h);
    HeadMark(Append(s, d), h);
  }

  lemma EnteredExtends(s: Parser, d: string)
    requires HeadComplete(s) && SameHead(s, d)
    ensures HeadComplete(Append(s, d))
    ensures Entered(Append(s, d)) == Append(Entered(s), d)
  {
    hide SameHead, AfterHead;
    FindExtends(s.buf, d, BLANK_LINE, 0);
    HeadExtends(s, d, Find(s.buf, BLANK_LINE, 0).value);
  }

  lemma EnteredFacts(s: Parser)
    requires HeadComplete(s) && Coherent(s)
    ensures var e := Entered(s);
      && Coherent(e) && !e.InHead() && !e.state.Done? && !e.fault.HeaderTooLarge? && e.limits == s.limits
      && (!e.state.Error? ==> |e.buf| <= |s.buf|)
  {
    hide Find, AfterHead;
    HeadFaults(s, Find(s.buf, BLANK_LINE, 0).value);
  }

  /** The feed that completes the head, when the bytes after the cut still fit the header limit. */
  lemma HeadFitsComposes(s: Parser, a: string, b: string)
    requires Cuttable(s) && HeadComplete(Append(s, a)) && |s.buf + a + b| <= s.limits.maxHeader
    ensures Observed(Feed(Feed(s, Bytes(a)), Bytes(b))) == Observed(Feed(s, Bytes(a + b)))
            <==> CutSafe(s, a, b)
  {
    hide Find, StepBody, Entered, RunSafe, SameHead;
    var s' := Append(s, a);
    assert Append(s', b) == Append(s, a + b) by { assert s.buf + a + b == s.buf + (a + b); }
    var e, e' := Entered(s'), Entered(Append(s', b));
    EnteredFacts(s');
    StillComplete(s', b);
    EnteredFacts(Append(s', b));
    CompletedFeed(s, a);
    CompletedFeed(s, a + b);
    if !SameHead(s', b) {
      ChangeShows(s', b);
      MarkStays(e, b);
      MarkStays(StepBody(e), b);
      MarkStays(e', b);
    } else {
      EnteredExtends(s', b);
      if e.state.Error? {
        ErrorSteps(e, b);
      } else {
        StepBodyComposes(e, b);
      }
    }
  }

  lemma StillComplete(s: Parser, d: string)
    requires HeadComplete(s)
    ensures HeadComplete(Append(s, d))
  {
    hide Find;
    FindExtends(s.buf, d, BLANK_LINE, 0);
  }

  lemma CompletedFeed(s: Parser, a: string)
    requires !s.Terminal() && HeadComplete(Append(s, a)) && |s.buf + a| <= s.limits.maxHeader
    ensures Feed(s, Bytes(a)) == StepBody(Entered(Append(s, a)))
  {
    hide Find, StepBody, AfterHead;
  }

  lemma ErrorSteps(e: Parser, d: string)
    requires e.state.Error?
    ensures StepBody(e) == e && Observed(StepBody(Append(e, d))) == Observed(e) && RunSafe(e, d)
    ensures Feed(e, Bytes(d)) == e
  {
  }

  lemma HeadFeedComposes(s: Parser, a: string, b: string)
    requires Cuttable(s) && HeadComplete(Append(s, a)) && |s.buf + a| <= s.limits.maxHeader
    ensures Observed(Feed(Feed(s, Bytes(a)), Bytes(b))) == Observed(Feed(s, Bytes(a + b)))
            <==> CutSafe(s, a, b)
  {
    hide Find, StepBody, Entered, RunSafe, SameHead;
    if |s.buf + a + b| <= s.limits.maxHeader {
      HeadFitsComposes(s, a, b);
    } else {
      assert s.buf + (a + b) == s.buf + a + b;
      var e := Entered(Append(s, a));
      EnteredFacts(Append(s, a));
      CompletedFeed(s, a);
      StepBodyFaults(e);
      BodyFaults(StepBody(e), b);
      assert Feed(s, Bytes(a + b)).fault == HeaderTooLarge;
    }
  }

  /** Composition of two feeds, exactly: one cut is invisible if and only if it is safe. */
  lemma FeedComposes(s: Parser, a: string, b: string)
    requires Cuttable(s)
    ensures Observed(Feed(Feed(s, Bytes(a)), Bytes(b))) == Observed(Feed(s, Bytes(a + b)))
            <==> CutSafe(s, a, b)
  {
    hide Feed, CutSafe;
    if !s.InHead() {
      BodyFeedComposes(s, a, b);
    } else if |s.buf + a| <= s.limits.maxHeader && HeadComplete(Append(s, a)) {
      HeadFeedComposes(s, a, b);
    } else if |s.buf + a| <= s.limits.maxHeader {
      HeadWaits(s, a, b);
    } else {
      HeadOverflows(s, a, b);
    }
  }
}
