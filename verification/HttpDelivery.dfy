/** Whole messages that are not chunked, of any length, under any sequence of feeds: exactly which are delivered. */
module HttpDelivery {
  import opened Wrappers
  import opened Text
  import opened HttpSpec
  import opened HttpHeads
  import opened HttpFeeds
  import opened HttpFragments
  import opened HttpMessages

  /** A message with its blank line at `h`, as it is sent to a parser. */
  datatype Message = Message(w: string, h: nat, limits: Limits, allowEof: bool) {
    predicate Headed() { h + 4 <= |w| && Find(w, BLANK_LINE, 0) == Some(h) && StableHead(w, h) }

    function Start(): Parser { Init(limits, allowEof) }

    /** The parser on entering the body, when nothing but the head has arrived. */
    function Entry(): Parser
      requires h + 4 <= |w|
    {
      HeadOf(w[..h + 4], limits, allowEof)
    }

    /** Its end is marked by its Content-Length or by the end of the stream. */
    predicate Complete() {
      && Headed()
      && ((Entry().state.BodyEof? && limits.maxHeader <= limits.maxBody)
          || (Entry().state.BodyContentLength? && |w| == h + 4 + Entry().contentLength))
    }

    /** A body that lasts until the end of the stream stays within the body limit for the first `q` bytes; a
        Content-Length does so anyway. */
    predicate Within(q: nat)
      requires h + 4 <= |w|
    {
      Entry().state.BodyEof? ==> q <= h + 4 + limits.maxBody
    }
  }

  /** The parser after `q` bytes that pass the limits. */
  function After(m: Message, q: nat): Parser
    requires m.h + 4 <= |m.w| && q <= |m.w|
  {
    if q < m.h + 4 then Append(m.Start(), m.w[..q]) else StepBody(m.Entry().(buf := m.w[m.h + 4..q]))
  }

  lemma EntryFacts(m: Message)
    requires m.Headed()
    ensures var e := m.Entry();
      && Coherent(e) && !e.InHead() && !e.state.Done? && e.limits == m.limits && e.allowEof == m.allowEof
      && (!e.state.Error? ==> e.buf == "") && (e.state.BodyEof? ==> m.allowEof)
  {
    hide Find, StableHead, ParseHead;
    CutAfterHead(m.w, m.h + 4, m.h);
    assert "" + m.w[..m.h + 4] == m.w[..m.h + 4] && m.w[..m.h + 4][m.h + 4..] == "";
    HeadFaults(Append(m.Start(), m.w[..m.h + 4]), m.h);
  }

  /** The state on entering the body with the body bytes that arrived so far. */
  lemma EntryWithBody(m: Message, q: nat)
    requires m.Headed() && m.h + 4 <= q <= |m.w|
    ensures Find(m.w[..q], BLANK_LINE, 0) == Some(m.h)
    ensures HeadOf(m.w[..q], m.limits, m.allowEof) == Append(m.Entry(), m.w[m.h + 4..q])
  {
    hide Find, StableHead, Entered;
    CutAfterHead(m.w, q, m.h);
    StableBefore(m.w[..q], m.w[q..], m.h);
    CutAfterHead(m.w[..q], m.h + 4, m.h);
    assert m.w[..q][..m.h + 4] == m.w[..m.h + 4] && m.w[..q][m.h + 4..] == m.w[m.h + 4..q];
    PrefixHead(m.w[..m.h + 4], m.w[m.h + 4..q], m.limits, m.allowEof);
  }

  /** The feed that completes the head. */
  lemma FeedCompletes(m: Message, q: nat, d: string)
    requires m.Headed() && !m.Entry().state.Error?
    requires q < m.h + 4 <= q + |d| <= |m.w| && m.w[q..q + |d|] == d && q + |d| <= m.limits.maxHeader
    ensures Feed(Append(m.Start(), m.w[..q]), Bytes(d)) == After(m, q + |d|)
  {
    hide Find, StableHead, AfterHead, StepBody;
    var p := q + |d|;
    var s := Append(Append(m.Start(), m.w[..q]), d);
    assert s.buf == m.w[..p] && "" + m.w[..p] == m.w[..p];
    EntryWithBody(m, p);
    EntryFacts(m);
    assert "" + m.w[m.h + 4..p] == m.w[m.h + 4..p];
    assert Append(m.Entry(), m.w[m.h + 4..p]) == m.Entry().(buf := m.w[m.h + 4..p]);
  }

  /** A feed behind the head. */
  lemma FeedBehind(m: Message, q: nat, d: string)
    requires m.Complete() && m.h + 4 <= q && q + |d| <= |m.w| && m.w[q..q + |d|] == d && m.Within(q)
    ensures if m.Within(q + |d|) then Feed(After(m, q), Bytes(d)) == After(m, q + |d|)
            else Feed(After(m, q), Bytes(d)).state.Error?
  {
    hide Find, StableHead, Entered, ChunkRun;
    EntryFacts(m);
    var e, x := m.Entry(), m.w[m.h + 4..q];
    assert m.w[m.h + 4..q + |d|] == x + d;
    if e.state.BodyContentLength? && q == |m.w| { assert d == "" && x + d == x; }
  }

  /** Feeds that let the head pass reach `After`, unless the body outgrows its limit. */
  lemma {:induction false} FeedsReach(m: Message, ds: seq<string>)
    requires m.Complete() && Concat(ds) <= m.w
    requires GuardPasses(m.h + 4, m.limits.maxHeader, ds) && m.h + 4 <= m.limits.maxHeader
    ensures var r, q := FeedAll(m.Start(), ds), |Concat(ds)|; if m.Within(q) then r == After(m, q) else r.state.Error?
  {
    hide Find, Feed, StepBody, HeadOf, StableHead;
    if ds == [] {
      assert Append(m.Start(), m.w[..0]) == m.Start();
    } else {
      var init, d := ds[..|ds| - 1], ds[|ds| - 1];
      var q := |Concat(init)|;
      assert m.w[..|Concat(ds)|] == Concat(init) + d;
      assert Concat(init) == m.w[..q] && m.w[q..q + |d|] == d;
      if q + |d| < m.h + 4 {
        ShortOfHead(m.w, m.h, ds, m.Start());
      } else if q < m.h + 4 {
        GuardLast(m.h + 4, m.limits.maxHeader, ds);
        ShortOfHead(m.w, m.h, init, m.Start());
        FeedCompletes(m, q, d);
      } else {
        GuardInit(m.h + 4, m.limits.maxHeader, ds);
        FeedsReach(m, init);
        if m.Within(q) { FeedBehind(m, q, d); } else { FinishedStays(FeedAll(m.Start(), init), Bytes(d)); }
      }
    }
  }

  lemma WholeReached(m: Message)
    requires m.Complete()
    ensures var r, e := After(m, |m.w|), m.Entry();
      if e.state.BodyEof? then r == e.(buf := m.w[m.h + 4..]) && r.allowEof
      else r == e.(body := m.w[m.h + 4..], buf := "", state := Done)
  {
    hide Find, StableHead, Entered, ChunkRun;
    EntryFacts(m);
    var x := m.w[m.h + 4..];
    assert x[..|x|] == x && x[|x|..] == "" && m.w[m.h + 4..|m.w|] == x;
  }

  /** A complete message is delivered, with exactly its status, reason and body, if and only if the feed that
      completes its head leaves no more than the header limit in the buffer and its body is within the body
      limit; every other fragmentation ends in an error. With a Content-Length the parser is done before the
      stream ends. */
  lemma Delivered(m: Message, ds: seq<string>)
    requires m.Complete() && Concat(ds) == m.w
    ensures var fed, e := FeedAll(m.Start(), ds), m.Entry();
      if GuardPasses(m.h + 4, m.limits.maxHeader, ds) && m.Within(|m.w|)
      then
        && Feed(fed, Eof) == e.(state := Done, body := m.w[m.h + 4..], buf := "")
        && (e.state.BodyContentLength? ==> fed.state.Done?)
      else fed.state.Error?
  {
    hide Find, FeedAll, After, HeadOf, StableHead;
    if !GuardPasses(m.h + 4, m.limits.maxHeader, ds) {
      GuardFails(m.w, m.h, ds, m.Start());
    } else {
      GuardNeedsRoom(m.h + 4, m.limits.maxHeader, ds);
      FeedsReach(m, ds);
      WholeReached(m);
    }
  }

  /** A Content-Length message that is cut short is never delivered: when its stream ends, the parser fails. */
  lemma CutShort(m: Message, ds: seq<string>)
    requires m.Complete() && m.Entry().state.BodyContentLength? && Concat(ds) < m.w
    ensures Feed(FeedAll(m.Start(), ds), Eof).state.Error?
  {
    hide Find, Feed, FeedAll, HeadOf, StableHead, Concat, StepBody;
    var fed, q := FeedAll(m.Start(), ds), |Concat(ds)|;
    if q < m.h + 4 {
      ShortOfHead(m.w, m.h, ds, m.Start());
    } else if !GuardPasses(m.h + 4, m.limits.maxHeader, ds) {
      GuardFails(m.w, m.h, ds, m.Start());
    } else {
      GuardNeedsRoom(m.h + 4, m.limits.maxHeader, ds);
      FeedsReach(m, ds);
      PartReached(m, q);
    }
    EndFails(fed);
  }

  /** Part of a Content-Length body leaves the parser waiting for the rest. */
  lemma PartReached(m: Message, q: nat)
    requires m.Complete() && m.Entry().state.BodyContentLength? && m.h + 4 <= q < |m.w|
    ensures After(m, q).state.BodyContentLength?
  {
    hide Find, HeadOf, StableHead;
  }

  lemma FeedRejects(m: Message, q: nat, d: string)
    requires m.Headed() && m.Entry().state.Error?
    requires q < m.h + 4 <= q + |d| <= |m.w| && m.w[q..q + |d|] == d
    ensures Feed(Append(m.Start(), m.w[..q]), Bytes(d)).state.Error?
  {
    hide Find, StableHead, AfterHead, StepBody;
    var p := q + |d|;
    var s := Append(Append(m.Start(), m.w[..q]), d);
    assert s.buf == m.w[..p] && "" + m.w[..p] == m.w[..p];
    EntryWithBody(m, p);
    RejectedBody(Append(m.Entry(), m.w[m.h + 4..p]));
  }

  lemma RejectedBody(s: Parser)
    requires s.state.Error?
    ensures StepBody(s) == s
  {
  }

  /** A message whose head is rejected ends in an error once the head has arrived, however it is cut. */
  lemma {:induction false} Rejected(m: Message, ds: seq<string>)
    requires m.Headed() && m.Entry().state.Error? && Concat(ds) <= m.w && |Concat(ds)| >= m.h + 4
    ensures FeedAll(m.Start(), ds).state.Error?
  {
    hide Find, Feed, HeadOf, StableHead;
    var init, d := ds[..|ds| - 1], ds[|ds| - 1];
    var q := |Concat(init)|;
    assert m.w[..|Concat(ds)|] == Concat(init) + d;
    assert Concat(init) == m.w[..q] && m.w[q..q + |d|] == d;
    if q >= m.h + 4 {
      Rejected(m, init);
      FinishedStays(FeedAll(m.Start(), init), Bytes(d));
    } else {
      ShortOfHead(m.w, m.h, init, m.Start());
      var before := FeedAll(m.Start(), init);
      if before.state.Error? { FinishedStays(before, Bytes(d)); } else { FeedRejects(m, q, d); }
    }
  }
}
