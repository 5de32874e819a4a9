/** What any sequence of feeds does to the head of a message: it is only buffered, and passes if the feed that
    completes it leaves no more than the header limit in the buffer. */
module HttpFeeds {
  import opened Wrappers
  import opened Text
  import opened HttpSpec

  /** How many bytes the first `k` feeds carry. */
  function Pos(ds: seq<string>, k: nat): nat
    requires k <= |ds|
  {
    |Concat(ds[..k])|
  }

  /** The feed that completes a head of `head` bytes does not push the buffer over the limit. */
  predicate GuardPasses(head: nat, limit: nat, ds: seq<string>) {
    forall k :: 0 < k <= |ds| ==> Pos(ds, k - 1) < head <= Pos(ds, k) ==> Pos(ds, k) <= limit
  }

  lemma PosInit(ds: seq<string>, k: nat)
    requires ds != [] && k < |ds|
    ensures Pos(ds[..|ds| - 1], k) == Pos(ds, k)
    ensures Pos(ds, |ds|) == |Concat(ds)| == Pos(ds, |ds| - 1) + |ds[|ds| - 1]|
  {
    assert ds[..|ds| - 1][..k] == ds[..k];
    assert ds[..|ds|] == ds;
  }

  lemma GuardInit(head: nat, limit: nat, ds: seq<string>)
    requires ds != [] && GuardPasses(head, limit, ds)
    ensures GuardPasses(head, limit, ds[..|ds| - 1])
  {
    var init := ds[..|ds| - 1];
    forall k | 0 <= k <= |init| ensures Pos(init, k) == Pos(ds, k) {
      PosInit(ds, k);
    }
  }

  /** The last feed, when it is the one that completes the head. */
  lemma GuardLast(head: nat, limit: nat, ds: seq<string>)
    requires ds != [] && GuardPasses(head, limit, ds)
    requires |Concat(ds[..|ds| - 1])| < head <= |Concat(ds)|
    ensures |Concat(ds)| <= limit
  {
    PosInit(ds, |ds| - 1);
  }

  /** If a head passes the guard, it fits the limit itself. */
  lemma {:induction false} GuardNeedsRoom(head: nat, limit: nat, ds: seq<string>)
    requires 0 < head <= |Concat(ds)| && GuardPasses(head, limit, ds)
    ensures head <= limit
    decreases |ds|
  {
    var init := ds[..|ds| - 1];
    if |Concat(init)| < head {
      GuardLast(head, limit, ds);
    } else {
      GuardInit(head, limit, ds);
      GuardNeedsRoom(head, limit, init);
    }
  }

  lemma LastOfPrefix(s: Parser, ds: seq<string>, k: nat)
    requires 0 < k <= |ds|
    ensures FeedAll(s, ds[..k]) == Feed(FeedAll(s, ds[..k - 1]), Bytes(ds[k - 1]))
    ensures Pos(ds, k) == Pos(ds, k - 1) + |ds[k - 1]|
  {
    hide Feed;
    assert ds[..k][..k - 1] == ds[..k - 1];
  }

  lemma {:induction false} ConcatPrefix(ds: seq<string>, k: nat)
    requires k <= |ds|
    ensures Concat(ds[..k]) <= Concat(ds)
    decreases |ds|
  {
    if k == |ds| {
      assert ds[..k] == ds;
    } else {
      assert ds[..|ds| - 1][..k] == ds[..k];
      ConcatPrefix(ds[..|ds| - 1], k);
    }
  }

  lemma {:induction false} ErrorStays(s: Parser, ds: seq<string>, k: nat)
    requires k <= |ds| && FeedAll(s, ds[..k]).state.Error?
    ensures FeedAll(s, ds).state.Error?
    decreases |ds|
  {
    if k == |ds| {
      assert ds[..k] == ds;
    } else {
      assert ds[..|ds| - 1][..k] == ds[..k];
      ErrorStays(s, ds[..|ds| - 1], k);
    }
  }

  lemma HeadUnfinished(w: string, h: nat, q: nat)
    requires Find(w, BLANK_LINE, 0) == Some(h) && q < h + 4 && q <= |w|
    ensures Find(w[..q], BLANK_LINE, 0).None?
  {
    hide Find;
    assert w == w[..q] + w[q..];
    if Find(w[..q], BLANK_LINE, 0).Some? { FindExtends(w[..q], w[q..], BLANK_LINE, 0); }
  }

  lemma OverLimit(s: Parser, d: string)
    requires s.InHead() && |s.buf| + |d| > s.limits.maxHeader
    ensures Feed(s, Bytes(d)).state.Error?
  {
  }

  lemma StillInHead(s: Parser, d: string)
    requires s.InHead() && |s.buf + d| <= s.limits.maxHeader && Find(s.buf + d, BLANK_LINE, 0).None?
    ensures Feed(s, Bytes(d)) == Append(s, d)
  {
    hide Find;
  }

  lemma FinishedStays(s: Parser, input: Input)
    requires s.Terminal()
    ensures Feed(s, input) == s
  {
  }

  /** Feeds without a blank line are only buffered, up to the header limit. */
  lemma {:induction false} OnlyBuffered(ds: seq<string>, s: Parser)
    requires Find(Concat(ds), BLANK_LINE, 0).None? && s.InHead() && s.buf == ""
    ensures FeedAll(s, ds) == Append(s, Concat(ds)) || FeedAll(s, ds).state.Error?
    ensures |Concat(ds)| <= s.limits.maxHeader ==> FeedAll(s, ds) == Append(s, Concat(ds))
  {
    hide Find, Feed;
    if ds == [] {
      assert Append(s, "") == s;
    } else {
      var init, d := ds[..|ds| - 1], ds[|ds| - 1];
      if Find(Concat(init), BLANK_LINE, 0).Some? { FindExtends(Concat(init), d, BLANK_LINE, 0); }
      OnlyBuffered(init, s);
      var p := Append(s, Concat(init));
      if FeedAll(s, init) == p {
        assert p.buf == Concat(init) && p.buf + d == Concat(ds);
        if |Concat(ds)| <= s.limits.maxHeader {
          StillInHead(p, d);
          assert Append(p, d) == Append(s, Concat(ds));
        } else {
          OverLimit(p, d);
        }
      } else {
        FinishedStays(FeedAll(s, init), Bytes(d));
      }
    }
  }

  /** So are feeds that stay short of the end of a head. */
  lemma ShortOfHead(w: string, h: nat, ds: seq<string>, s: Parser)
    requires Find(w, BLANK_LINE, 0) == Some(h) && Concat(ds) <= w && |Concat(ds)| < h + 4
    requires s.InHead() && s.buf == ""
    ensures FeedAll(s, ds) == Append(s, Concat(ds)) || FeedAll(s, ds).state.Error?
    ensures |Concat(ds)| <= s.limits.maxHeader ==> FeedAll(s, ds) == Append(s, Concat(ds))
  {
    hide Find, FeedAll, Concat;
    HeadUnfinished(w, h, |Concat(ds)|);
    assert w[..|Concat(ds)|] == Concat(ds);
    OnlyBuffered(ds, s);
  }

  /** Only a body that lasts until the end of the stream may end with it. */
  lemma EndFails(s: Parser)
    requires !s.state.Done? && !s.state.BodyEof?
    ensures Feed(s, Eof).state.Error?
  {
  }

  /** A stream that ends inside the head is an error, whatever its framing would have been. */
  lemma HeadCutShort(ds: seq<string>, s: Parser)
    requires Find(Concat(ds), BLANK_LINE, 0).None? && s.InHead() && s.buf == ""
    ensures Feed(FeedAll(s, ds), Eof).state.Error?
  {
    hide Find, FeedAll, Feed;
    OnlyBuffered(ds, s);
    EndFails(FeedAll(s, ds));
  }

  /** Feeding past the header limit while completing the head fails, whatever follows. */
  lemma GuardFails(w: string, h: nat, ds: seq<string>, s: Parser)
    requires Find(w, BLANK_LINE, 0) == Some(h) && Concat(ds) <= w
    requires s.InHead() && s.buf == "" && !GuardPasses(h + 4, s.limits.maxHeader, ds)
    ensures FeedAll(s, ds).state.Error?
  {
    hide Find, Feed, FeedAll, Concat;
    var k :| 0 < k <= |ds| && Pos(ds, k - 1) < h + 4 <= Pos(ds, k) && Pos(ds, k) > s.limits.maxHeader;
    ConcatPrefix(ds, k - 1);
    ShortOfHead(w, h, ds[..k - 1], s);
    LastOfPrefix(s, ds, k);
    var before := FeedAll(s, ds[..k - 1]);
    if before.state.Error? { FinishedStays(before, Bytes(ds[k - 1])); } else { OverLimit(before, ds[k - 1]); }
    ErrorStays(s, ds, k);
  }
}
