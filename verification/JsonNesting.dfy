/** Exactly how deep a text may nest: any well-formed text parses to its meaning if nothing in it lies below depth
    64, and is refused otherwise. */
module JsonNesting {
  import opened Wrappers
  import opened Text
  import opened JsonSyntax
  import opened JsonDepth
  import opened JsonSpec
  import opened JsonTokens
  import opened JsonProofs

  // ---- values that lie too deep ----

  lemma ElemsSplit(es: Elems, post: string) returns (mark: char, more: string)
    ensures mark == if es.LastElem? then ']' else ','
    ensures more == if es.LastElem? then post else ElemsText(es.rest) + post
    ensures ElemsText(es) + post == es.before + (ValueText(es.v) + (es.after + ([mark] + more)))
  {
    hide ValueText;
    mark, more := if es.LastElem? then ']' else ',', if es.LastElem? then post else ElemsText(es.rest) + post;
    if es.LastElem? {
      Around(es.before, ValueText(es.v), es.after, "]", "", post);
      assert "]" + "" == "]" && "" + post == post;
    } else {
      Around(es.before, ValueText(es.v), es.after, ",", ElemsText(es.rest), post);
    }
  }

  lemma MembersSplit(ms: Members, post: string) returns (mark: char, more: string)
    ensures mark == if ms.LastMember? then '}' else ','
    ensures more == if ms.LastMember? then post else MembersText(ms.rest) + post
    ensures MembersText(ms) + post == KeyText(ms.m) + (ValueText(ms.m.v) + (ms.m.ws3 + ([mark] + more)))
  {
    hide ValueText, KeyText;
    mark, more := if ms.LastMember? then '}' else ',', if ms.LastMember? then post else MembersText(ms.rest) + post;
    if ms.LastMember? {
      Around(KeyText(ms.m), ValueText(ms.m.v), ms.m.ws3, "}", "", post);
      assert "}" + "" == "}" && "" + post == post;
    } else {
      Around(KeyText(ms.m), ValueText(ms.m.v), ms.m.ws3, ",", MembersText(ms.rest), post);
    }
  }

  /** A well-formed value with something below depth 64 is refused. */
  lemma {:induction false} TooDeep(v: Value, d: nat, post: string, inRange: string -> bool)
    requires Spelled(v, inRange) && Delimited(post) && d + Depth(v) > 64
    ensures ParseValue(ValueText(v) + post, d, inRange).Bad?
    decreases v, 1
  {
    hide ParseArray, ParseObject, ParseString, ParseNumber, ParseElems, ParseMembers, ElemsText, MembersText, Delimited;
    if d <= MAX_DEPTH {
      match v
      case Array(es) =>
        ElemsTooDeep(es, d, [], post, inRange);
        ArrayOpens(es, d, post, inRange);
      case Object(ms) =>
        MembersTooDeep(ms, d, map[], post, inRange);
        ObjectOpens(ms, d, post, inRange);
    }
  }

  lemma {:induction false} ElemsTooDeep(es: Elems, d: nat, acc: seq<Json>, post: string, inRange: string -> bool)
    requires ElemsSpelled(es, inRange) && d + 1 + ElemsDepth(es) > 64
    ensures ParseElems(ElemsText(es) + post, d, acc, inRange).Bad?
    decreases es, 0
  {
    hide ParseValue, ValueText, ElemsText, Spelled, Meaning, Depth;
    var mark, more := ElemsSplit(es, post);
    var tail := es.after + ([mark] + more);
    SkipToValue(es.before, es.v, tail, inRange);
    DelimitedBy(es.after, mark, more);
    if d + 1 + Depth(es.v) > 64 {
      TooDeep(es.v, d + 1, tail, inRange);
    } else {
      ValidIff(es.v, d + 1, inRange);
      ValueComplete(es.v, d + 1, tail, inRange);
      assert ([mark] + more)[1..] == more;
      ElemsTooDeep(es.rest, d, acc + [Meaning(es.v, d + 1, inRange)], post, inRange);
    }
  }

  lemma {:induction false} MembersTooDeep(ms: Members, d: nat, acc: map<string, Json>, post: string,
                                          inRange: string -> bool)
    requires MembersSpelled(ms, inRange) && d + 1 + MembersDepth(ms) > 64
    ensures ParseMembers(MembersText(ms) + post, d, acc, inRange).Bad?
    decreases ms, 0
  {
    hide ParseValue, ParseKey, ValueText, MembersText, KeyText, Spelled, Meaning, Depth, ItemsValue;
    var m := ms.m;
    assert MemberSpelled(m, inRange);
    var mark, more := MembersSplit(ms, post);
    var tail := m.ws3 + ([mark] + more);
    KeyComplete(m, tail, inRange);
    DelimitedBy(m.ws3, mark, more);
    if d + 1 + Depth(m.v) > 64 {
      TooDeep(m.v, d + 1, tail, inRange);
    } else {
      ValidIff(m.v, d + 1, inRange);
      ValueComplete(m.v, d + 1, tail, inRange);
      assert ([mark] + more)[1..] == more;
      MembersTooDeep(ms.rest, d, acc[ItemsValue(m.key) := Meaning(m.v, d + 1, inRange)], post, inRange);
    }
  }

  /** A well-formed text, of any depth, parses if and only if nothing in it lies below depth 64; then it parses to
      its meaning. */
  lemma DepthDecides(doc: Document, inRange: string -> bool)
    requires AllWs(doc.before) && AllWs(doc.after) && Spelled(doc.v, inRange)
    ensures ValueValid(doc.v, 0, inRange) <==> Depth(doc.v) <= 64
    ensures Parse(DocumentText(doc), inRange)
         == if Depth(doc.v) <= 64 then Some(Meaning(doc.v, 0, inRange)) else None
  {
    hide ParseValue, ValueText, Spelled, ValueValid, Meaning, Depth;
    ValidIff(doc.v, 0, inRange);
    if Depth(doc.v) <= 64 {
      DocumentParses(doc, inRange);
    } else {
      assert DocumentText(doc) == doc.before + (ValueText(doc.v) + doc.after);
      SkipToValue(doc.before, doc.v, doc.after, inRange);
      WsDelimits(doc.after);
      TooDeep(doc.v, 0, doc.after, inRange);
    }
  }

  lemma WsDelimits(ws: string)
    requires AllWs(ws)
    ensures Delimited(ws)
  {
  }

  // ---- brackets ----

  /** `n` opening brackets, `inner`, and `n` closing brackets. */
  function Wrapped(n: nat, inner: string): string {
    if n == 0 then inner else "[" + Wrapped(n - 1, inner) + "]"
  }

  /** The same with objects of one member. */
  function Keyed(n: nat, inner: string): string {
    if n == 0 then inner else "{\"k\":" + Keyed(n - 1, inner) + "}"
  }

  function WrapValue(n: nat, inner: Value): Value {
    if n == 0 then inner else Array(LastElem("", WrapValue(n - 1, inner), ""))
  }

  function KeyValue(n: nat, inner: Value): Value {
    if n == 0 then inner else Object(LastMember(Member("", [Raw('k')], "", "", KeyValue(n - 1, inner), "")))
  }

  lemma {:induction false} WrapSpells(n: nat, inner: Value, inRange: string -> bool)
    requires Spelled(inner, inRange)
    ensures Spelled(WrapValue(n, inner), inRange) && ValueText(WrapValue(n, inner)) == Wrapped(n, ValueText(inner))
    ensures Depth(WrapValue(n, inner)) == n + Depth(inner)
  {
    if n > 0 {
      WrapSpells(n - 1, inner, inRange);
      var t := ValueText(WrapValue(n - 1, inner));
      assert "" + (t + ("" + "]")) == t + "]" && "[" + (t + "]") == "[" + t + "]";
    }
  }

  lemma {:induction false} KeySpells(n: nat, inner: Value, inRange: string -> bool)
    requires Spelled(inner, inRange)
    ensures Spelled(KeyValue(n, inner), inRange) && ValueText(KeyValue(n, inner)) == Keyed(n, ValueText(inner))
    ensures Depth(KeyValue(n, inner)) == n + Depth(inner)
  {
    if n > 0 {
      KeySpells(n - 1, inner, inRange);
      OneMemberText(KeyValue(n - 1, inner));
      var m := Member("", [Raw('k')], "", "", KeyValue(n - 1, inner), "");
      assert MemberSpelled(m, inRange) && MembersSpelled(LastMember(m), inRange);
    }
  }

  lemma OneMemberText(v: Value)
    ensures ValueText(Object(LastMember(Member("", [Raw('k')], "", "", v, "")))) == "{\"k\":" + ValueText(v) + "}"
  {
    hide ValueText;
    var m := Member("", [Raw('k')], "", "", v, "");
    assert [Raw('k')][1..] == [] && ItemsText([Raw('k')]) == "k" + ItemsText([]) == "k";
    assert StringText(m.key) == "\"k\"" && KeyText(m) == "\"k\":";
    assert MembersText(LastMember(m)) == "\"k\":" + (ValueText(v) + ("" + "}"));
    assert "{" + MembersText(LastMember(m)) == "{\"k\":" + ValueText(v) + "}";
    OneObject(LastMember(m));
  }

  lemma OneObject(ms: Members)
    ensures ValueText(Object(ms)) == "{" + MembersText(ms)
  {
  }

  lemma SpelledText(v: Value, inRange: string -> bool)
    requires Spelled(v, inRange)
    ensures Parse(ValueText(v), inRange).Some? <==> Depth(v) <= 64
  {
    hide ValueText, Spelled, Depth, Parse;
    assert "" + ValueText(v) + "" == ValueText(v);
    DepthDecides(Document("", v, ""), inRange);
  }

  /** Nested arrays parse if and only if there are 1 to 65 of them, or up to 64 around a value. */
  lemma ArrayNesting(n: nat, inRange: string -> bool)
    ensures Parse(Wrapped(n, ""), inRange).Some? <==> 1 <= n <= 65
    ensures Parse(Wrapped(n, "null"), inRange).Some? <==> n <= 64
  {
    hide Parse;
    WrapSpells(n, NullLit, inRange);
    SpelledText(WrapValue(n, NullLit), inRange);
    if n == 0 {
      NothingParses(inRange);
    } else {
      var inner := EmptyArray("");
      WrapSpells(n - 1, inner, inRange);
      assert ValueText(inner) == "[" + "" + "]" == "[]";
      WrappedInside(n - 1);
      SpelledText(WrapValue(n - 1, inner), inRange);
    }
  }

  lemma NothingParses(inRange: string -> bool)
    ensures Parse("", inRange).None?
  {
  }

  lemma {:induction false} WrappedInside(n: nat)
    ensures Wrapped(n + 1, "") == Wrapped(n, "[]")
  {
    if n > 0 { WrappedInside(n - 1); } else { assert "[" + "" + "]" == "[]"; }
  }

  /** The same for objects: up to 64 around a value or an empty object. */
  lemma ObjectNesting(n: nat, inRange: string -> bool)
    ensures Parse(Keyed(n, "{}"), inRange).Some? <==> n <= 64
    ensures Parse(Keyed(n, "null"), inRange).Some? <==> n <= 64
  {
    hide Parse;
    var inner := EmptyObject("");
    assert ValueText(inner) == "{}";
    KeySpells(n, inner, inRange);
    SpelledText(KeyValue(n, inner), inRange);
    KeySpells(n, NullLit, inRange);
    SpelledText(KeyValue(n, NullLit), inRange);
  }
}
