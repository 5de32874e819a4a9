/** Content-Length and end-of-stream framing over whole messages and any number of cuts. */
module HttpMessages {
  import opened Wrappers
  import opened Text
  import opened HttpSpec
  import opened HttpFraming
  import opened HttpHeads
  import opened HttpFragments

  /** Where the blank line ends and what the head decided. */
  function HeadOf(w: string, limits: Limits, allowEof: bool): Parser {
    Entered(Append(Init(limits, allowEof), w))
  }

  /** The head is complete and within the header limit. */
  predicate HeadFits(w: string, limits: Limits) {
    match Find(w, BLANK_LINE, 0) case None => false case Some(h) => h + 4 <= limits.maxHeader
  }

  /** A message that is not chunked, as far as its head decides that in every fragmentation. */
  predicate PlainMessage(w: string, limits: Limits, allowEof: bool) {
    && limits.maxHeader <= limits.maxBody
    && (HeadFits(w, limits) && StableMessage(w) ==> !HeadOf(w, limits, allowEof).state.BodyChunked?)
  }

  /** The exact class of messages that fragmentation cannot affect: the head alone exceeds the header limit,
      or the whole message fits it, its head is stable, and no byte follows a Content-Length body. */
  predicate Robust(w: string, limits: Limits, allowEof: bool) {
    HeadFits(w, limits) ==>
      && |w| <= limits.maxHeader && StableMessage(w)
      && var e := HeadOf(w, limits, allowEof);
         (e.state.BodyContentLength? ==> |w| <= Find(w, BLANK_LINE, 0).value + 4 + e.contentLength)
  }

  /** A prefix of a message with a stable head has the same head once that is complete. */
  lemma PrefixHead(a: string, b: string, limits: Limits, allowEof: bool)
    requires Find(a, BLANK_LINE, 0).Some? && StableMessage(a + b)
    ensures StableMessage(a) && Find(a + b, BLANK_LINE, 0) == Find(a, BLANK_LINE, 0)
    ensures HeadOf(a + b, limits, allowEof) == Append(HeadOf(a, limits, allowEof), b)
  {
    hide StableHead, AfterHead, SameHead;
    assert "" + a == a && "" + (a + b) == a + b;
    FindExtends(a, b, BLANK_LINE, 0);
    var s := Append(Init(limits, allowEof), a);
    assert Append(s, b) == Append(Init(limits, allowEof), a + b);
    StableBefore(a, b, Find(a, BLANK_LINE, 0).value);
    StableIsSame(s, b);
    EnteredExtends(s, b);
  }

  lemma PrefixFits(a: string, b: string, limits: Limits)
    ensures HeadFits(a, limits) ==> HeadFits(a + b, limits)
    ensures Find(a, BLANK_LINE, 0).Some? && |a| <= limits.maxHeader ==> HeadFits(a, limits)
  {
    hide Find;
    if Find(a, BLANK_LINE, 0).Some? { FindExtends(a, b, BLANK_LINE, 0); }
  }

  lemma PlainPrefix(a: string, b: string, limits: Limits, allowEof: bool)
    requires PlainMessage(a + b, limits, allowEof) && Robust(a + b, limits, allowEof)
    ensures PlainMessage(a, limits, allowEof) && Robust(a, limits, allowEof)
  {
    hide Find, StableHead, Entered;
    PrefixFits(a, b, limits);
    if HeadFits(a, limits) { PrefixHead(a, b, limits, allowEof); }
  }

  lemma FirstFeed(a: string, limits: Limits, allowEof: bool)
    ensures Feed(Init(limits, allowEof), Bytes(a)) ==
      if |a| > limits.maxHeader then Fail(Append(Init(limits, allowEof), a), HeaderTooLarge)
      else if Find(a, BLANK_LINE, 0).Some? then StepBody(HeadOf(a, limits, allowEof))
      else Append(Init(limits, allowEof), a)
  {
    assert "" + a == a;
  }

  /** The state on entering the body, in a message whose head is complete. */
  lemma HeadFacts(a: string, limits: Limits, allowEof: bool)
    requires Find(a, BLANK_LINE, 0).Some?
    ensures var e := HeadOf(a, limits, allowEof);
      && Coherent(e) && !e.InHead() && !e.state.Done?
      && (!e.state.Error? ==> e.buf == a[Find(a, BLANK_LINE, 0).value + 4..])
      && (e.state.BodyEof? ==> allowEof) && e.allowEof == allowEof
  {
    assert "" + a == a;
    HeadFaults(Append(Init(limits, allowEof), a), Find(a, BLANK_LINE, 0).value);
  }

  lemma RobustCut(a: string, b: string, limits: Limits, allowEof: bool)
    requires PlainMessage(a + b, limits, allowEof) && Robust(a + b, limits, allowEof)
    ensures CutSafe(Init(limits, allowEof), a, b)
  {
    hide Find, StableHead, AfterHead, ChunkRun, SameHead, RunSafe;
    var s := Init(limits, allowEof);
    assert "" + a == a && "" + a + b == a + b;
    FirstFeed(a, limits, allowEof);
    PrefixFits(a, b, limits);
    if Find(a, BLANK_LINE, 0).Some? && |a| <= limits.maxHeader {
      PrefixHead(a, b, limits, allowEof);
      HeadFacts(a, limits, allowEof);
      StableIsSame(Append(s, a), b);
    }
    if !(|a| > limits.maxHeader) { OnlyChunkedRuns(Entered(Append(s, a)), b); }
  }

  /** Every fragmentation of a robust message is indistinguishable from one feed of the whole. */
  lemma {:induction false} RobustSplit(ds: seq<string>, limits: Limits, allowEof: bool)
    requires PlainMessage(Concat(ds), limits, allowEof) && Robust(Concat(ds), limits, allowEof)
    ensures Observed(FeedAll(Init(limits, allowEof), ds))
         == Observed(Feed(Init(limits, allowEof), Bytes(Concat(ds))))
  {
    var s := Init(limits, allowEof);
    if ds == [] {
      FirstFeed("", limits, allowEof);
      assert s.buf + "" == s.buf;
    } else {
      var init, last := ds[..|ds| - 1], ds[|ds| - 1];
      var a := Concat(init);
      PlainPrefix(a, last, limits, allowEof);
      RobustSplit(init, limits, allowEof);
      ObservedFeed(FeedAll(s, init), Feed(s, Bytes(a)), Bytes(last));
      RobustCut(a, last, limits, allowEof);
      FeedComposes(s, a, last);
    }
  }

  /** A prefix that contains the blank line at `h` has it as its first blank line. */
  lemma CutAfterHead(w: string, cut: nat, h: nat)
    requires Find(w, BLANK_LINE, 0) == Some(h) && h + 4 <= cut <= |w|
    ensures w == w[..cut] + w[cut..] && Find(w[..cut], BLANK_LINE, 0) == Some(h)
  {
    assert w == w[..cut] + w[cut..];
    FindShrinks(w[..cut], w[cut..], BLANK_LINE, h);
  }

  /** A message over the header limit whose head fits: the cut just after the head shows. */
  lemma LimitCut(w: string, h: nat, limits: Limits, allowEof: bool)
    requires Find(w, BLANK_LINE, 0) == Some(h) && h + 4 <= limits.maxHeader < |w|
    ensures !CutSafe(Init(limits, allowEof), w[..h + 4], w[h + 4..])
  {
    CutAfterHead(w, h + 4, h);
    assert "" + w[..h + 4] == w[..h + 4];
  }

  /** Bytes after a Content-Length body: the cut just after the body shows. */
  lemma SurplusCut(w: string, h: nat, n: nat, limits: Limits, allowEof: bool)
    requires Find(w, BLANK_LINE, 0) == Some(h) && StableMessage(w) && h + 4 + n < |w| <= limits.maxHeader
    requires HeadOf(w, limits, allowEof).state.BodyContentLength? && HeadOf(w, limits, allowEof).contentLength == n
    ensures !CutSafe(Init(limits, allowEof), w[..h + 4 + n], w[h + 4 + n..])
  {
    hide Find, ParseHead, ChunkRun, StableHead;
    var cut := h + 4 + n;
    CutAfterHead(w, cut, h);
    PrefixHead(w[..cut], w[cut..], limits, allowEof);
    FirstFeed(w[..cut], limits, allowEof);
    HeadFacts(w[..cut], limits, allowEof);
  }

  // ---- heads that are not stable ----

  lemma BareText(a: string, h: nat)
    requires Find(a, BLANK_LINE, 0) == Some(h) && |a| == h + 4 && !HasHeaderLine(a, h)
    ensures HeaderText(a, h) == CRLF
  {
    hide Find;
    CrlfInHead(a, h);
    FindHits(a, BLANK_LINE, 0);
    assert a[h + 2..] == a[h..h + 4][2..];
  }

  lemma NoLines()
    ensures AllQuiet(Lines(CRLF, 0))
  {
    assert At(CRLF, CRLF, 0) && LineEnd(CRLF, 0) == 0;
    assert Lines(CRLF, 2) == [] && Lines(CRLF, 0) == [CRLF[0..0]] + [];
    assert Find("", ":", 0).None?;
  }

  /** A head that is not stable decides nothing by itself, and something with the bytes behind it. */
  lemma UnstableChanges(w: string, h: nat, limits: Limits, allowEof: bool)
    requires Find(w, BLANK_LINE, 0) == Some(h) && !StableHead(w, h) && h + 4 <= |w|
    ensures !SameHead(Append(Init(limits, allowEof), w[..h + 4]), w[h + 4..])
  {
    hide Find, Lines, AllQuiet, FoldHeaders, HeaderText, StatusRejected;
    CutAfterHead(w, h + 4, h);
    var a, b := w[..h + 4], w[h + 4..];
    var s := Append(Init(limits, allowEof), a);
    assert s.buf == a && a + b == w;
    HeaderTextExtends(a, b, h);
    CrlfInHead(a, h);
    StatusLineExtends(s, b);
    BareText(a, h);
    NoLines();
    QuietFold(CRLF, 0, Framed(NoFraming, 0, NoFault), limits.maxBody);
    LoudFold(HeaderText(w, h), 0, limits.maxBody);
  }

  /** A message whose head is not stable: the cut just after the head shows. */
  lemma UnstableCut(w: string, h: nat, limits: Limits, allowEof: bool)
    requires Find(w, BLANK_LINE, 0) == Some(h) && !StableHead(w, h) && |w| <= limits.maxHeader
    ensures h + 4 <= |w| && !CutSafe(Init(limits, allowEof), w[..h + 4], w[h + 4..])
  {
    hide Find, StableHead, SameHead, RunSafe;
    FindHits(w, BLANK_LINE, 0);
    UnstableChanges(w, h, limits, allowEof);
    CutAfterHead(w, h + 4, h);
    assert "" + w[..h + 4] == w[..h + 4] && w[..h + 4] + w[h + 4..] == w;
  }

  // ---- the theorem ----

  /** Outside the robust class some cut shows. */
  lemma VisibleCut(w: string, limits: Limits, allowEof: bool) returns (a: string, b: string)
    requires PlainMessage(w, limits, allowEof) && !Robust(w, limits, allowEof)
    ensures w == a + b && !CutSafe(Init(limits, allowEof), a, b)
  {
    hide Find, StableHead, Entered, CutSafe;
    var h := Find(w, BLANK_LINE, 0).value;
    if |w| > limits.maxHeader {
      LimitCut(w, h, limits, allowEof);
      a, b := w[..h + 4], w[h + 4..];
    } else if !StableMessage(w) {
      UnstableCut(w, h, limits, allowEof);
      a, b := w[..h + 4], w[h + 4..];
    } else {
      var n := HeadOf(w, limits, allowEof).contentLength;
      SurplusCut(w, h, n, limits, allowEof);
      a, b := w[..h + 4 + n], w[h + 4 + n..];
    }
    assert w == a + b;
  }

  predicate SplitsAgree(w: string, limits: Limits, allowEof: bool, ds: seq<string>) {
    Concat(ds) == w ==>
      Observed(FeedAll(Init(limits, allowEof), ds)) == Observed(Feed(Init(limits, allowEof), Bytes(w)))
  }

  /** A plain message is immune to fragmentation if and only if it is robust. */
  lemma FragmentationIndependence(w: string, limits: Limits, allowEof: bool)
    requires PlainMessage(w, limits, allowEof)
    ensures Robust(w, limits, allowEof) <==> forall ds :: SplitsAgree(w, limits, allowEof, ds)
  {
    hide PlainMessage, Robust, Feed, FeedAll, CutSafe, Concat;
    if Robust(w, limits, allowEof) {
      forall ds ensures SplitsAgree(w, limits, allowEof, ds) {
        if Concat(ds) == w { RobustSplit(ds, limits, allowEof); }
      }
    } else {
      var a, b := VisibleCut(w, limits, allowEof);
      StartIsCuttable(w, limits, allowEof);
      FeedComposes(Init(limits, allowEof), a, b);
      TwoFeeds(Init(limits, allowEof), a, b);
      assert !SplitsAgree(w, limits, allowEof, [a, b]);
    }
  }

  lemma StartIsCuttable(w: string, limits: Limits, allowEof: bool)
    requires PlainMessage(w, limits, allowEof)
    ensures Cuttable(Init(limits, allowEof))
  {
  }

  lemma TwoFeeds(s: Parser, a: string, b: string)
    ensures Concat([a, b]) == a + b
    ensures FeedAll(s, [a, b]) == Feed(Feed(s, Bytes(a)), Bytes(b))
  {
    assert [a, b][..1] == [a] && [a][..0] == [];
    assert Concat([a]) == "" + a == a;
    assert FeedAll(s, [a]) == Feed(s, Bytes(a));
  }
}
