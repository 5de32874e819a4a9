/** One request and response exchange over an abstract transport (src/http_socket.cpp:431-477). */
module HttpClient {
  import opened Wrappers
  import opened Text
  import opened HttpSpec
  import opened HttpFragments
  import opened HttpLimits
  import opened HttpProgress
  import HttpParser

  /** What one `read_some` reports. A successful read carries at least one byte, at most the caller's buffer. */
  datatype ReadEvent = Data(bytes: string) | EndOfStream | ReadFailed

  const READ_BUFFER: nat := 8192

  predicate Lawful(ev: ReadEvent) { ev.Data? ==> 0 < |ev.bytes| <= READ_BUFFER }

  predicate AllLawful(script: seq<ReadEvent>) { forall i :: 0 <= i < |script| ==> Lawful(script[i]) }

  /** `Blocked`: the peer has said nothing more yet, and the loop is still waiting. */
  datatype Outcome =
    | Delivered(status: int, reason: string, body: string)
    | ConnectFailed | SendFailed | ReceiveFailed | Malformed(fault: Fault) | EndedEarly | Blocked

  /** The peer: its answers so far, and what the client did to the connection. */
  class Transport {
    const connects: bool
    const accepts: bool
    var script: seq<ReadEvent>
    var closes: nat

    constructor (connects: bool, accepts: bool, script: seq<ReadEvent>)
      ensures this.connects == connects && this.accepts == accepts && this.script == script && closes == 0
    {
      this.connects, this.accepts, this.script, this.closes := connects, accepts, script, 0;
    }

    method Connect() returns (ok: bool)
      ensures ok == connects
    {
      ok := connects;
    }

    method SendAll(wire: string) returns (ok: bool)
      ensures ok == accepts
    {
      ok := accepts;
    }

    method ReadSome() returns (ev: Option<ReadEvent>)
      modifies `script
      ensures old(script) == [] ==> ev.None? && script == []
      ensures old(script) != [] ==> ev == Some(old(script)[0]) && script == old(script)[1..]
    {
      if script == [] { return None; }
      ev := Some(script[0]);
      script := script[1..];
    }

    method Close()
      modifies `closes
      ensures closes == old(closes) + 1
    {
      closes := closes + 1;
    }
  }

  function Finish(p: Parser): Outcome {
    if p.state.Done? then Delivered(p.status, p.reason, p.body)
    else if p.state.Error? then Malformed(p.fault)
    else EndedEarly
  }

  /** The read loop: what the client reports when the peer answers with `script`. */
  function ReadLoop(p: Parser, script: seq<ReadEvent>): Outcome
    decreases |script|
  {
    if p.Terminal() then Finish(p)
    else if script == [] then Blocked
    else match script[0]
      case ReadFailed => ReceiveFailed
      case EndOfStream => Finish(Feed(p, Eof))
      case Data(d) => ReadLoop(Feed(p, Bytes(d)), script[1..])
  }

  /** `HttpClient::request`: the transport is closed exactly once after a successful connect. */
  method Request(t: Transport, wire: string) returns (r: Outcome)
    modifies t
    ensures !t.connects ==> r == ConnectFailed && t.closes == old(t.closes)
    ensures t.connects && !t.accepts ==> r == SendFailed && t.closes == old(t.closes) + 1
    ensures t.connects && t.accepts ==>
      && r == ReadLoop(Init(DEFAULT_LIMITS, true), old(t.script))
      && t.closes == old(t.closes) + (if r == Blocked then 0 else 1)
  {
    var ok := t.Connect();
    if !ok { return ConnectFailed; }
    ok := t.SendAll(wire);
    if !ok {
      t.Close();
      return SendFailed;
    }
    var parser := new HttpParser.HttpResponseParser(true, DEFAULT_LIMITS);
    while !parser.state.Done?
      invariant fresh(parser) && t.closes == old(t.closes)
      invariant !parser.state.Error?
      invariant ReadLoop(parser.Model(), t.script) == ReadLoop(Init(DEFAULT_LIMITS, true), old(t.script))
      decreases |t.script|
    {
      ghost var before, script := parser.Model(), t.script;
      var ev := t.ReadSome();
      if ev.None? { return Blocked; }
      if ev.value.ReadFailed? {
        t.Close();
        return ReceiveFailed;
      }
      if ev.value.EndOfStream? {
        ok := parser.Feed(Eof);
        t.Close();
        return if !ok then Malformed(parser.fault)
               else if parser.state.Done? then Delivered(parser.status, parser.reason, parser.body)
               else EndedEarly;
      }
      ok := parser.Feed(Bytes(ev.value.bytes));
      assert ReadLoop(before, script) == ReadLoop(parser.Model(), t.script);
      if !ok {
        t.Close();
        return Malformed(parser.fault);
      }
    }
    t.Close();
    r := Delivered(parser.status, parser.reason, parser.body);
  }

  // ---- what the outcomes mean ----

  /** The parser inputs that the first `n` reads stand for. */
  function InputsOf(script: seq<ReadEvent>, n: nat): seq<Input>
    requires n <= |script|
  {
    if n == 0 then []
    else InputsOf(script, n - 1) + (match script[n - 1]
           case Data(d) => [Bytes(d)]
           case EndOfStream => [Eof]
           case ReadFailed => [])
  }

  /** How many reads of the loop pause the decoder inside a trailer section. */
  function PauseCount(p: Parser, script: seq<ReadEvent>): nat
    decreases |script|
  {
    if p.Terminal() || script == [] || !script[0].Data? then 0
    else
      var d := script[0].bytes;
      (if PausesInTrailer(p, d) then 1 else 0) + PauseCount(Feed(p, Bytes(d)), script[1..])
  }

  predicate MeetsChunks(p: Parser, script: seq<ReadEvent>)
    decreases |script|
  {
    || p.state.BodyChunked?
    || (script != [] && script[0].Data? && !p.Terminal() && MeetsChunks(Feed(p, Bytes(script[0].bytes)), script[1..]))
  }

  /** No parser's rank is higher. */
  function Budget(limits: Limits): nat { limits.maxHeader + Room(limits, 0) + limits.maxChunkLine + 4 }

  lemma RankBounded(p: Parser)
    requires Bounded(p)
    ensures Rank(p) <= Budget(p.limits)
  {
    RoomCovers(p.limits);
    if p.body != "" {
      hide Room;
      RoomShrinks(p.limits, 0, |p.body|);
    }
  }

  /** The reads that `pauses` pauses can cost. */
  function PauseCost(pauses: nat, limits: Limits): nat { pauses * (Budget(limits) + 1) }

  lemma OnePauseMore(pauses: nat, limits: Limits)
    ensures PauseCost(pauses + 1, limits) == PauseCost(pauses, limits) + Budget(limits) + 1
  {
    hide Budget;
  }

  /** The loop ends within `Rank` reads, and after at most so many more for each read that pauses it inside a
      trailer section. */
  lemma {:induction false} LoopEnds(p: Parser, script: seq<ReadEvent>)
    requires Bounded(p) && AllLawful(script)
    requires |script| >= Rank(p) + PauseCost(PauseCount(p, script), p.limits)
    ensures ReadLoop(p, script) != Blocked
    decreases |script|
  {
    hide Find, Feed, Room, PausesInTrailer, Budget, PauseCost, Rank, Bounded;
    if !p.Terminal() {
      RankPositive(p);
      if script[0].Data? {
        var d, rest := script[0].bytes, script[1..];
        var q := Feed(p, Bytes(d));
        FeedBounded(p, Bytes(d));
        FeedLimits(p, d);
        if PausesInTrailer(p, d) {
          RankBounded(q);
          OnePauseMore(PauseCount(q, rest), p.limits);
        } else {
          FeedProgress(p, d);
        }
        LoopEnds(q, rest);
      }
    }
  }

  lemma FeedLimits(p: Parser, d: string)
    requires Bounded(p)
    ensures Feed(p, Bytes(d)).limits == p.limits
  {
    hide Find, ChunkRun, AfterHead;
    if !p.Terminal() {
      var s := Append(p, d);
      if HeadComplete(s) { HeadFaults(s, Find(s.buf, BLANK_LINE, 0).value); }
      var e := Entered(s);
      if e.state.BodyChunked? { ChunkKeeps(e); }
    }
  }

  lemma RankPositive(p: Parser)
    requires Bounded(p) && !p.Terminal()
    ensures Rank(p) > 0
    ensures !p.state.BodyChunked? ==> PlainRank(p) > 0
  {
    hide Room;
  }

  /** Outside chunked framing the number of reads is bounded by the two limits and a constant. */
  lemma {:induction false} PlainLoopEnds(p: Parser, script: seq<ReadEvent>)
    requires Bounded(p) && AllLawful(script) && !MeetsChunks(p, script)
    requires |script| >= PlainRank(p)
    ensures ReadLoop(p, script) != Blocked
    decreases |script|
  {
    hide Find, Feed, Room, EndsInTrailer;
    if !p.Terminal() {
      RankPositive(p);
      if script[0].Data? {
        var d := script[0].bytes;
        PlainFeed(p, d);
        if !PausesInTrailer(p, d) {
          FeedProgress(p, d);
          PlainLoopEnds(Feed(p, Bytes(d)), script[1..]);
        }
      }
    }
  }

  /** A feed that does not enter chunked framing does not pause in a trailer. */
  lemma PlainFeed(p: Parser, d: string)
    requires Bounded(p) && !p.Terminal() && !p.state.BodyChunked? && !Feed(p, Bytes(d)).state.BodyChunked?
    ensures PausesInTrailer(p, d) ==> Feed(p, Bytes(d)).state.Error?
  {
    hide Find, ChunkMove, ChunkRun, EndsInTrailer, AfterHead;
    var e := Entered(Append(p, d));
    if e.state.BodyChunked? && EndsInTrailer(e) { TrailerEndWaits(e); }
  }

  lemma {:induction false} TrailerEndWaits(s: Parser)
    requires s.state.BodyChunked? && EndsInTrailer(s)
    ensures ChunkRun(s).state.BodyChunked?
    decreases |s.buf|
  {
    hide Find, HexValue, ScanTrailer;
    if ChunkMove(s).Go? { TrailerEndWaits(ChunkMove(s).next); }
  }

  /** The numbers of reads for the client's own parser. */
  lemma ReadBounds(script: seq<ReadEvent>)
    requires AllLawful(script)
    ensures var p := Init(DEFAULT_LIMITS, true);
      && (!MeetsChunks(p, script) && |script| >= DEFAULT_LIMITS.maxHeader + DEFAULT_LIMITS.maxBody + 2
          ==> ReadLoop(p, script) != Blocked)
      && (|script| >= Budget(DEFAULT_LIMITS) + PauseCost(PauseCount(p, script), DEFAULT_LIMITS)
          ==> ReadLoop(p, script) != Blocked)
  {
    hide ReadLoop, MeetsChunks, PauseCount, PauseCost, Room;
    var p := Init(DEFAULT_LIMITS, true);
    if !MeetsChunks(p, script) && |script| >= PlainRank(p) { PlainLoopEnds(p, script); }
    if |script| >= Rank(p) + PauseCost(PauseCount(p, script), p.limits) { LoopEnds(p, script); }
  }

  /** With a peer that keeps repeating a zero-size line, one per read, the loop never ends. */
  lemma {:induction false} LoopNeedNotEnd(p: Parser, n: nat)
    requires p.state.BodyChunked? && !p.chunkStarted && p.buf == ""
    ensures ReadLoop(p, seq(n, _ => Data(ZERO_LINE))) == Blocked
  {
    hide Feed;
    if n > 0 {
      ZeroLinePauses(p);
      LoopNeedNotEnd(p, n - 1);
      assert seq(n, _ => Data(ZERO_LINE))[1..] == seq(n - 1, _ => Data(ZERO_LINE));
    }
  }

  // ---- streams of reads ----

  /** The reads `from` to `from + n - 1` of a stream. */
  function Segment(stream: nat -> ReadEvent, from: nat, n: nat): seq<ReadEvent> {
    seq(n, i requires 0 <= i < n => stream(from + i))
  }

  lemma SegmentStarts(stream: nat -> ReadEvent, from: nat, n: nat)
    requires n > 0
    ensures Segment(stream, from, n)[0] == stream(from)
    ensures Segment(stream, from, n)[1..] == Segment(stream, from + 1, n - 1)
  {
  }

  /** The parser after `n` reads of data. */
  function ParserAfter(p: Parser, stream: nat -> ReadEvent, from: nat, n: nat): Parser
    decreases n
  {
    if n == 0 || !stream(from).Data? then p
    else ParserAfter(Feed(p, Bytes(stream(from).bytes)), stream, from + 1, n - 1)
  }

  /** After `n` reads the loop is still waiting for more. */
  predicate Waits(p: Parser, stream: nat -> ReadEvent, from: nat, n: nat) {
    ReadLoop(p, Segment(stream, from, n)) == Blocked
  }

  /** The loop gets as far as read `n`, and that read pauses it inside a trailer section. */
  predicate PausesAt(p: Parser, stream: nat -> ReadEvent, from: nat, n: nat) {
    Waits(p, stream, from, n) && stream(from + n).Data?
    && PausesInTrailer(ParserAfter(p, stream, from, n), stream(from + n).bytes)
  }

  /** A loop that waits after `n` reads goes on from the parser it has then. */
  lemma {:induction false} GoesOn(p: Parser, stream: nat -> ReadEvent, from: nat, n: nat, k: nat)
    requires Waits(p, stream, from, n)
    ensures var q := ParserAfter(p, stream, from, n);
      && ReadLoop(p, Segment(stream, from, n + k)) == ReadLoop(q, Segment(stream, from + n, k))
      && ParserAfter(p, stream, from, n + k) == ParserAfter(q, stream, from + n, k)
    decreases n
  {
    hide Feed;
    if n > 0 {
      SegmentStarts(stream, from, n);
      SegmentStarts(stream, from, n + k);
      GoesOn(Feed(p, Bytes(stream(from).bytes)), stream, from + 1, n - 1, k);
    }
  }

  /** A loop that waits after more reads waited after fewer. */
  lemma {:induction false} WaitedBefore(p: Parser, stream: nat -> ReadEvent, from: nat, n: nat, k: nat)
    requires Waits(p, stream, from, n + k)
    ensures Waits(p, stream, from, n)
    decreases n
  {
    hide Feed;
    if n + k > 0 { SegmentStarts(stream, from, n + k); }
    if n > 0 {
      SegmentStarts(stream, from, n);
      WaitedBefore(Feed(p, Bytes(stream(from).bytes)), stream, from + 1, n - 1, k);
    }
  }

  lemma {:induction false} AfterBounded(p: Parser, stream: nat -> ReadEvent, from: nat, n: nat)
    requires Bounded(p)
    ensures Bounded(ParserAfter(p, stream, from, n))
    decreases n
  {
    hide Feed, Bounded;
    if n > 0 && stream(from).Data? {
      FeedBounded(p, Bytes(stream(from).bytes));
      AfterBounded(Feed(p, Bytes(stream(from).bytes)), stream, from + 1, n - 1);
    }
  }

  /** A counted pause is a pause at some read. */
  lemma {:induction false} SomePause(p: Parser, stream: nat -> ReadEvent, from: nat, n: nat) returns (k: nat)
    requires PauseCount(p, Segment(stream, from, n)) > 0
    ensures k < n && PausesAt(p, stream, from, k)
    decreases n
  {
    hide Feed, PausesInTrailer;
    SegmentStarts(stream, from, n);
    k := 0;
    assert Segment(stream, from, 0) == [];
    if !PausesInTrailer(p, stream(from).bytes) {
      var j := SomePause(Feed(p, Bytes(stream(from).bytes)), stream, from + 1, n - 1);
      k := j + 1;
      SegmentStarts(stream, from, k);
    }
  }

  ghost predicate LawfulStream(stream: nat -> ReadEvent) { forall i: nat :: Lawful(stream(i)) }

  ghost predicate PausesLater(p: Parser, stream: nat -> ReadEvent, n: nat) {
    exists m: nat :: n <= m && PausesAt(p, stream, 0, m)
  }

  /** After any number of reads comes one that pauses. */
  ghost predicate PausesForEver(p: Parser, stream: nat -> ReadEvent) { forall n: nat :: PausesLater(p, stream, n) }

  lemma PauseShifts(p: Parser, stream: nat -> ReadEvent, n: nat, i: nat)
    requires Waits(p, stream, 0, n) && PausesAt(ParserAfter(p, stream, 0, n), stream, n, i)
    ensures PausesAt(p, stream, 0, n + i)
  {
    hide Feed, PausesInTrailer;
    GoesOn(p, stream, 0, n, i);
  }

  /** From a loop that waits without ever pausing again, a read that ends it. */
  lemma QuietStreamEnds(p: Parser, stream: nat -> ReadEvent, n: nat) returns (end: nat)
    requires Bounded(p) && LawfulStream(stream) && Waits(p, stream, 0, n)
    requires !PausesLater(p, stream, n)
    ensures !Waits(p, stream, 0, end)
  {
    hide Feed, Rank, Bounded, PausesInTrailer;
    var q := ParserAfter(p, stream, 0, n);
    AfterBounded(p, stream, 0, n);
    var k := Rank(q);
    var script := Segment(stream, n, k);
    if PauseCount(q, script) > 0 {
      var i := SomePause(q, stream, n, k);
      PauseShifts(p, stream, n, i);
    } else {
      LoopEnds(q, script);
      GoesOn(p, stream, 0, n, k);
    }
    end := n + k;
  }

  /** Against any stream of lawful reads, the loop never ends if and only if infinitely many reads pause it
      inside a trailer section. */
  lemma EndlessIffPauses(p: Parser, stream: nat -> ReadEvent)
    requires Bounded(p) && LawfulStream(stream)
    ensures (forall n: nat :: Waits(p, stream, 0, n)) <==> PausesForEver(p, stream)
  {
    hide Waits, PausesAt, Bounded, LawfulStream;
    if PausesForEver(p, stream) {
      forall n: nat ensures Waits(p, stream, 0, n) {
        assert PausesLater(p, stream, n);
        var m: nat :| n <= m && PausesAt(p, stream, 0, m);
        PauseWaits(p, stream, m);
        WaitedBefore(p, stream, 0, n, m - n);
      }
    } else if forall n: nat :: Waits(p, stream, 0, n) {
      var n: nat :| !PausesLater(p, stream, n);
      var end := QuietStreamEnds(p, stream, n);
    }
  }

  lemma PauseWaits(p: Parser, stream: nat -> ReadEvent, m: nat)
    requires PausesAt(p, stream, 0, m)
    ensures Waits(p, stream, 0, m)
  {
  }

  // ---- what is delivered ----

  /** A response is delivered only from a finished parser: its fields are those of the parser after a
      prefix of the reads. */
  lemma {:induction false} DeliveredIsDone(p: Parser, script: seq<ReadEvent>)
    requires ReadLoop(p, script).Delivered?
    ensures exists n: nat :: n <= |script| && DoneAfter(p, script, n)
    decreases |script|
  {
    hide Feed;
    if p.Terminal() {
      assert DoneAfter(p, script, 0);
    } else if script[0].EndOfStream? {
      OneInput(p, script);
      assert DoneAfter(p, script, 1);
    } else {
      var p1, rest := Feed(p, Bytes(script[0].bytes)), script[1..];
      DeliveredIsDone(p1, rest);
      var n: nat :| n <= |rest| && DoneAfter(p1, rest, n);
      OneInput(p, script);
      InputsShift(p, script, n);
      assert DoneAfter(p, script, n + 1);
    }
  }

  predicate DoneAfter(p: Parser, script: seq<ReadEvent>, n: nat)
    requires n <= |script|
  {
    var q := FeedInputs(p, InputsOf(script, n));
    q.state.Done? && ReadLoop(p, script) == Delivered(q.status, q.reason, q.body)
  }

  lemma OneInput(p: Parser, script: seq<ReadEvent>)
    requires script != [] && !script[0].ReadFailed?
    ensures var input := if script[0].Data? then Bytes(script[0].bytes) else Eof;
      InputsOf(script, 1) == [input] && FeedInputs(p, [input]) == Feed(p, input)
  {
    hide Feed;
    assert InputsOf(script, 0) == [];
    var input := if script[0].Data? then Bytes(script[0].bytes) else Eof;
    assert [input][..0] == [];
  }

  /** Feeding the first read and then `n` more is feeding `n + 1` reads. */
  lemma {:induction false} InputsShift(p: Parser, script: seq<ReadEvent>, n: nat)
    requires script != [] && script[0].Data? && n <= |script[1..]|
    ensures FeedInputs(p, InputsOf(script, n + 1))
         == FeedInputs(Feed(p, Bytes(script[0].bytes)), InputsOf(script[1..], n))
  {
    hide Feed;
    OneInput(p, script);
    if n > 0 {
      InputsShift(p, script, n - 1);
      assert script[1..][n - 1] == script[n];
      AppendInput(p, InputsOf(script, n), InputsOf(script, n + 1), script[n]);
      AppendInput(Feed(p, Bytes(script[0].bytes)), InputsOf(script[1..], n - 1), InputsOf(script[1..], n), script[n]);
    }
  }

  lemma AppendInput(p: Parser, a: seq<Input>, b: seq<Input>, ev: ReadEvent)
    requires b == a + (match ev case Data(d) => [Bytes(d)] case EndOfStream => [Eof] case ReadFailed => [])
    ensures FeedInputs(p, b) == match ev
      case Data(d) => Feed(FeedInputs(p, a), Bytes(d))
      case EndOfStream => Feed(FeedInputs(p, a), Eof)
      case ReadFailed => FeedInputs(p, a)
  {
    hide Feed;
    if ev.ReadFailed? { assert b == a; } else { assert b[..|b| - 1] == a; }
  }
}
