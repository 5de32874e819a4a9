/** Matching discovered containers against the rules (src/discovery.cpp). */
module Discovery {
  import opened Wrappers
  import opened Text
  import opened Config

  datatype Container = Container(id: string, names: seq<string>, image: string, state: string, status: string)

  datatype Matched = Matched(container: Container, ruleIndex: nat)

  /** An empty needle never matches. */
  function ContainsSubstring(haystack: string, needle: string): bool {
    needle != "" && Find(haystack, needle, 0).Some?
  }

  lemma ContainsIsOccurs(haystack: string, needle: string)
    ensures ContainsSubstring(haystack, needle) <==> needle != "" && Occurs(needle, haystack)
  {
    FindIffOccurs(haystack, needle);
  }

  /** Rule `r` hits container `c`: some name contains its pattern. */
  predicate Hits(c: Container, rule: TargetRule) {
    exists k :: 0 <= k < |c.names| && ContainsSubstring(c.names[k], rule.nameMatch)
  }

  /** A rule hits a container exactly if its pattern is not empty and occurs in one of the names. */
  lemma HitIff(c: Container, rule: TargetRule)
    ensures Hits(c, rule) <==> rule.nameMatch != "" && exists name :: name in c.names && Occurs(rule.nameMatch, name)
  {
    hide ContainsSubstring, Occurs;
    if Hits(c, rule) {
      var k :| 0 <= k < |c.names| && ContainsSubstring(c.names[k], rule.nameMatch);
      ContainsIsOccurs(c.names[k], rule.nameMatch);
    }
    forall name | name in c.names && Occurs(rule.nameMatch, name) && rule.nameMatch != "" ensures Hits(c, rule) {
      var k :| 0 <= k < |c.names| && c.names[k] == name;
      ContainsIsOccurs(c.names[k], rule.nameMatch);
    }
  }

  /** The least rule at or after `r` that hits. */
  function FirstHit(c: Container, rules: seq<TargetRule>, r: nat): (h: Option<nat>)
    requires r <= |rules|
    ensures h.Some? ==> h.value < |rules|
    decreases |rules| - r
  {
    if r == |rules| then None else if Hits(c, rules[r]) then Some(r) else FirstHit(c, rules, r + 1)
  }

  /** The matches among the first `n` containers. */
  function Matches(cs: seq<Container>, rules: seq<TargetRule>, n: nat): seq<Matched>
    requires n <= |cs|
  {
    if n == 0 then []
    else match FirstHit(cs[n - 1], rules, 0)
      case None => Matches(cs, rules, n - 1)
      case Some(r) => Matches(cs, rules, n - 1) + [Matched(cs[n - 1], r)]
  }

  function MatchAll(cs: seq<Container>, rules: seq<TargetRule>): seq<Matched> { Matches(cs, rules, |cs|) }

  /** Every match carries the index of a rule. */
  predicate Indexed(ms: seq<Matched>, rules: seq<TargetRule>) {
    forall k :: 0 <= k < |ms| ==> ms[k].ruleIndex < |rules|
  }

  lemma {:induction false} MatchesAreIndexed(cs: seq<Container>, rules: seq<TargetRule>, n: nat)
    requires n <= |cs|
    ensures Indexed(Matches(cs, rules, n), rules)
  {
    hide FirstHit;
    if n > 0 { MatchesAreIndexed(cs, rules, n - 1); }
  }

  /** `match_containers`: three nested loops with early exits. */
  method MatchContainers(cs: seq<Container>, rules: seq<TargetRule>) returns (matched: seq<Matched>)
    ensures matched == MatchAll(cs, rules)
  {
    matched := [];
    for n := 0 to |cs|
      invariant matched == Matches(cs, rules, n)
    {
      var c, r := cs[n], 0;
      while r < |rules|
        invariant r <= |rules| && FirstHit(c, rules, 0) == FirstHit(c, rules, r)
      {
        var hit, k := false, 0;
        while k < |c.names| && !hit
          invariant k <= |c.names|
          invariant hit ==> Hits(c, rules[r])
          invariant !hit ==> forall j :: 0 <= j < k ==> !ContainsSubstring(c.names[j], rules[r].nameMatch)
          decreases |c.names| - k, !hit
        {
          if ContainsSubstring(c.names[k], rules[r].nameMatch) { hit := true; } else { k := k + 1; }
        }
        if hit {
          matched := matched + [Matched(c, r)];
          break;
        }
        r := r + 1;
      }
    }
  }

  // ---- what the result is ----

  /** `r` is the least rule index that hits `c`. */
  predicate LeastHit(c: Container, rules: seq<TargetRule>, r: nat) {
    r < |rules| && Hits(c, rules[r]) && forall q :: 0 <= q < r ==> !Hits(c, rules[q])
  }

  lemma {:induction false} FirstHitIsLeast(c: Container, rules: seq<TargetRule>, r: nat)
    requires r <= |rules| && forall q :: 0 <= q < r ==> !Hits(c, rules[q])
    ensures match FirstHit(c, rules, r)
      case Some(k) => LeastHit(c, rules, k)
      case None => forall q :: 0 <= q < |rules| ==> !Hits(c, rules[q])
    decreases |rules| - r
  {
    hide Hits;
    if r < |rules| && !Hits(c, rules[r]) { FirstHitIsLeast(c, rules, r + 1); }
  }

  predicate HitBySome(c: Container, rules: seq<TargetRule>) {
    exists q :: 0 <= q < |rules| && Hits(c, rules[q])
  }

  /** `source` gives, for each match, the position of its container among the first `n`; the positions
      left out are exactly those that no rule hits. */
  ghost predicate Selects(cs: seq<Container>, rules: seq<TargetRule>, n: nat, m: seq<Matched>, source: seq<nat>)
    requires n <= |cs|
  {
    && |source| == |m|
    && (forall k :: 0 <= k < |m| ==> source[k] < n && MatchAt(cs, rules, source[k], m[k]))
    && (forall j, k :: 0 <= j < k < |m| ==> source[j] < source[k])
    && (forall i: nat :: i in source <==> i < n && HitBySome(cs[i], rules))
  }

  /** `m` is the match of container `i`, with the least rule that hits it. */
  predicate MatchAt(cs: seq<Container>, rules: seq<TargetRule>, i: nat, m: Matched) {
    i < |cs| && m.container == cs[i] && LeastHit(cs[i], rules, m.ruleIndex)
  }

  lemma SelectSkip(cs: seq<Container>, rules: seq<TargetRule>, n: nat, m: seq<Matched>, source: seq<nat>)
    requires n < |cs| && Selects(cs, rules, n, m, source) && !HitBySome(cs[n], rules)
    ensures Selects(cs, rules, n + 1, m, source)
  {
    hide HitBySome, MatchAt;
  }

  lemma SelectTake(cs: seq<Container>, rules: seq<TargetRule>, n: nat, m: seq<Matched>, source: seq<nat>, last: Matched)
    requires n < |cs| && Selects(cs, rules, n, m, source) && HitBySome(cs[n], rules) && MatchAt(cs, rules, n, last)
    ensures Selects(cs, rules, n + 1, m + [last], source + [n])
  {
    hide HitBySome, MatchAt;
    var source' := source + [n];
    forall i: nat ensures i in source' <==> i < n + 1 && HitBySome(cs[i], rules) {
      assert i in source' <==> i in source || i == n;
    }
  }

  /** Matching is an order-preserving selection with least rule indices. */
  lemma {:induction false} MatchingIsSelection(cs: seq<Container>, rules: seq<TargetRule>, n: nat)
    returns (source: seq<nat>)
    requires n <= |cs|
    ensures Selects(cs, rules, n, Matches(cs, rules, n), source)
  {
    if n == 0 {
      source := [];
    } else {
      hide Selects, Hits;
      var before := MatchingIsSelection(cs, rules, n - 1);
      FirstHitIsLeast(cs[n - 1], rules, 0);
      var hit := FirstHit(cs[n - 1], rules, 0);
      if hit.Some? {
        source := before + [n - 1];
        SelectTake(cs, rules, n - 1, Matches(cs, rules, n - 1), before, Matched(cs[n - 1], hit.value));
      } else {
        source := before;
        SelectSkip(cs, rules, n - 1, Matches(cs, rules, n - 1), before);
      }
    }
  }

  predicate SameTarget(m: Matched, k: Matched) {
    m.container.id == k.container.id && m.container.names == k.container.names && m.ruleIndex == k.ruleIndex
  }

  /** Only names decide: changing images, states or statuses changes nothing but the copies carried along. */
  lemma {:induction false} NamesDecide(cs: seq<Container>, ds: seq<Container>, rules: seq<TargetRule>, n: nat)
    requires |cs| == |ds| && n <= |cs|
    requires forall i :: 0 <= i < |cs| ==> cs[i].id == ds[i].id && cs[i].names == ds[i].names
    ensures var m, k := Matches(cs, rules, n), Matches(ds, rules, n);
      && |m| == |k|
      && forall i :: 0 <= i < |m| ==> SameTarget(m[i], k[i])
  {
    if n > 0 {
      NamesDecide(cs, ds, rules, n - 1);
      SameHits(cs[n - 1], ds[n - 1], rules, 0);
    }
  }

  lemma {:induction false} SameHits(c: Container, d: Container, rules: seq<TargetRule>, r: nat)
    requires c.names == d.names && r <= |rules|
    ensures FirstHit(c, rules, r) == FirstHit(d, rules, r)
    decreases |rules| - r
  {
    if r < |rules| { SameHits(c, d, rules, r + 1); }
  }
}
