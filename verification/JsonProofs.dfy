/** The parser accepts exactly the texts of the dialect, with the values the dialect gives them. */
module JsonProofs {
  import opened Wrappers
  import opened Text
  import opened Unicode
  import opened JsonSyntax
  import opened JsonDepth
  import opened JsonSpec
  import opened JsonTokens

  // ---- completeness ----

  predicate ClosesOrSeparates(c: char) { c == ',' || c == ']' || c == '}' }

  /** How a value starts: never with white space or with a closing or separating mark. */
  lemma FirstByte(v: Value, inRange: string -> bool)
    requires Spelled(v, inRange)
    ensures var t := ValueText(v);
      && t != "" && !IsWs(t[0]) && !ClosesOrSeparates(t[0])
      && (v.Number? ==> IsDigit(t[0]) || t[0] == '-' || t[0] == '+')
  {
    if v.Number? { assert IsDigit(v.n.digits[0]); }
  }

  /** White space, a mark and more text delimit a value. */
  lemma DelimitedBy(ws: string, mark: char, more: string)
    requires AllWs(ws) && ClosesOrSeparates(mark)
    ensures Delimited(ws + ([mark] + more)) && SkipWs(ws + ([mark] + more)) == [mark] + more
  {
    SkipWsComplete(ws, [mark] + more);
  }

  lemma SkipToValue(ws: string, v: Value, post: string, inRange: string -> bool)
    requires AllWs(ws) && Spelled(v, inRange)
    ensures SkipWs(ws + (ValueText(v) + post)) == ValueText(v) + post
  {
    hide ValueText, Spelled;
    FirstByte(v, inRange);
    SkipWsComplete(ws, ValueText(v) + post);
  }

  lemma ElemsSkip(s: string, d: nat, acc: seq<Json>, inRange: string -> bool)
    ensures ParseElems(SkipWs(s), d, acc, inRange) == ParseElems(s, d, acc, inRange)
  {
    hide ParseValue;
    SkipWsTwice(s);
  }

  lemma MembersSkip(s: string, d: nat, acc: map<string, Json>, inRange: string -> bool)
    ensures ParseMembers(SkipWs(s), d, acc, inRange) == ParseMembers(s, d, acc, inRange)
  {
    hide ParseValue;
    SkipWsTwice(s);
  }

  lemma {:induction false} ValueComplete(v: Value, d: nat, post: string, inRange: string -> bool)
    requires ValueValid(v, d, inRange) && Delimited(post)
    ensures ParseValue(ValueText(v) + post, d, inRange) == Ok(Meaning(v, d, inRange), post)
    decreases v, 1
  {
    match v
    case NullLit => LiteralComplete("null", post);
    case TrueLit => LiteralComplete("true", post);
    case FalseLit => LiteralComplete("false", post);
    case Number(n) => NumberValue(v, d, post, inRange);
    case String(items) => StringComplete(items, post);
    case EmptyArray(ws) => EmptyArrayComplete(ws, d, post, inRange);
    case Array(elems) =>
      ElemsComplete(elems, d, [], post, inRange);
      ElemsValidIff(elems, d + 1, inRange);
      ArrayOpens(elems, d, post, inRange);
      assert [] + ElemsMeaning(elems, d + 1, inRange) == ElemsMeaning(elems, d + 1, inRange);
    case EmptyObject(ws) => EmptyObjectComplete(ws, d, post, inRange);
    case Object(members) =>
      MembersComplete(members, d, map[], post, inRange);
      MembersValidIff(members, d + 1, inRange);
      ObjectOpens(members, d, post, inRange);
      assert map[] + MembersMeaning(members, d + 1, inRange) == MembersMeaning(members, d + 1, inRange);
  }

  lemma LiteralComplete(literal: string, post: string)
    ensures literal <= literal + post && (literal + post)[|literal|..] == post
  {
  }

  lemma NumberValue(v: Value, d: nat, post: string, inRange: string -> bool)
    requires v.Number? && ValueValid(v, d, inRange) && Delimited(post)
    ensures ParseValue(ValueText(v) + post, d, inRange) == Ok(Meaning(v, d, inRange), post)
  {
    hide ParseNumber, Number.Text;
    ValidIff(v, d, inRange);
    FirstByte(v, inRange);
    ParseNumberComplete(v.n, post, inRange);
  }

  lemma EmptyArrayComplete(ws: string, d: nat, post: string, inRange: string -> bool)
    requires AllWs(ws) && d <= MAX_DEPTH
    ensures ParseValue("[" + ws + "]" + post, d, inRange) == Ok(Arr([]), post)
  {
    var s := "[" + ws + "]" + post;
    assert s[1..] == ws + ("]" + post);
    DelimitedBy(ws, ']', post);
  }

  lemma EmptyObjectComplete(ws: string, d: nat, post: string, inRange: string -> bool)
    requires AllWs(ws) && d <= MAX_DEPTH
    ensures ParseValue("{" + ws + "}" + post, d, inRange) == Ok(Obj(map[]), post)
  {
    var s := "{" + ws + "}" + post;
    assert s[1..] == ws + ("}" + post);
    DelimitedBy(ws, '}', post);
  }

  /** Behind the bracket of a non-empty array the element loop starts. */
  lemma ArrayOpens(es: Elems, d: nat, post: string, inRange: string -> bool)
    requires ElemsSpelled(es, inRange) && d <= MAX_DEPTH
    ensures ParseValue("[" + ElemsText(es) + post, d, inRange) == ParseElems(ElemsText(es) + post, d, [], inRange)
  {
    hide ParseElems, ValueText, ValueValid;
    var s := "[" + ElemsText(es) + post;
    assert s[1..] == ElemsText(es) + post;
    var tail := es.after + (if es.LastElem? then "]" else "," + ElemsText(es.rest)) + post;
    assert s[1..] == es.before + (ValueText(es.v) + tail);
    SkipToValue(es.before, es.v, tail, inRange);
    FirstByte(es.v, inRange);
    ElemsSkip(s[1..], d, [], inRange);
  }

  lemma {:induction false} ElemsComplete(es: Elems, d: nat, acc: seq<Json>, post: string, inRange: string -> bool)
    requires ElemsValid(es, d + 1, inRange)
    ensures ParseElems(ElemsText(es) + post, d, acc, inRange)
         == Ok(Arr(acc + ElemsMeaning(es, d + 1, inRange)), post)
    decreases es, 0
  {
    hide ParseValue, ValueText, ElemsText, ValueValid, Meaning, ElemsMeaning;
    var mark, more := if es.LastElem? then ']' else ',', if es.LastElem? then post else ElemsText(es.rest) + post;
    var tail := es.after + ([mark] + more);
    var m := Meaning(es.v, d + 1, inRange);
    if es.LastElem? {
      LastElemExplain(es.before, es.v, es.after, d, acc, post, inRange);
    } else {
      MoreElemsExplain(es.before, es.v, es.after, es.rest, d, acc, post, inRange);
      ElemsComplete(es.rest, d, acc + [m], post, inRange);
    }
    ValidIff(es.v, d + 1, inRange);
    SkipToValue(es.before, es.v, tail, inRange);
    DelimitedBy(es.after, mark, more);
    ValueComplete(es.v, d + 1, tail, inRange);
    assert ([mark] + more)[1..] == more;
  }

  lemma KeyComplete(m: Member, post: string, inRange: string -> bool)
    requires MemberSpelled(m, inRange)
    ensures ParseKey(KeyText(m) + (ValueText(m.v) + post)) == Ok(ItemsValue(m.key), ValueText(m.v) + post)
  {
    hide ParseString, ValueText, Spelled, ItemsValue;
    var value := ValueText(m.v) + post;
    var afterKey := m.ws1 + (":" + (m.ws2 + value));
    assert KeyText(m) + value == m.ws0 + (StringText(m.key) + afterKey);
    SkipWsComplete(m.ws0, StringText(m.key) + afterKey);
    StringComplete(m.key, afterKey);
    SkipWsComplete(m.ws1, ":" + (m.ws2 + value));
    assert (":" + (m.ws2 + value))[1..] == m.ws2 + value;
    SkipToValue(m.ws2, m.v, post, inRange);
  }

  lemma ObjectOpens(ms: Members, d: nat, post: string, inRange: string -> bool)
    requires MembersSpelled(ms, inRange) && d <= MAX_DEPTH
    ensures ParseValue("{" + MembersText(ms) + post, d, inRange)
         == ParseMembers(MembersText(ms) + post, d, map[], inRange)
  {
    hide ParseMembers, MembersText, ItemsValid, MembersSpelled;
    var s := "{" + MembersText(ms) + post;
    assert s[1..] == MembersText(ms) + post;
    var tail := MembersStart(ms, post, inRange);
    SkipWsComplete(ms.m.ws0, "\"" + tail);
    MembersSkip(s[1..], d, map[], inRange);
  }

  /** A member list starts with white space and a quote. */
  lemma MembersStart(ms: Members, post: string, inRange: string -> bool) returns (tail: string)
    requires MembersSpelled(ms, inRange)
    ensures AllWs(ms.m.ws0) && MembersText(ms) + post == ms.m.ws0 + ("\"" + tail)
  {
    hide ValueText, Spelled, ItemsText;
    var m := ms.m;
    assert MemberSpelled(m, inRange);
    var rest := ValueText(m.v) + (m.ws3 + if ms.LastMember? then "}" else "," + MembersText(ms.rest));
    var key, colon := ItemsText(m.key) + "\"", m.ws1 + (":" + m.ws2);
    tail := key + (colon + (rest + post));
    assert KeyText(m) + (rest + post) == m.ws0 + ("\"" + tail);
    assert MembersText(ms) == KeyText(m) + rest;
  }

  lemma {:induction false} MembersComplete(ms: Members, d: nat, acc: map<string, Json>, post: string,
                                           inRange: string -> bool)
    requires MembersValid(ms, d + 1, inRange)
    ensures ParseMembers(MembersText(ms) + post, d, acc, inRange)
         == Ok(Obj(acc + MembersMeaning(ms, d + 1, inRange)), post)
    decreases ms, 0
  {
    hide ParseValue, ValueText, MembersText, ValueValid, Meaning, MembersMeaning, KeyText, ParseKey, ItemsValue;
    var m, last := ms.m, ms.LastMember?;
    assert MemberValid(m, d + 1, inRange);
    var mark, more := if last then '}' else ',', if last then post else MembersText(ms.rest) + post;
    var tail := m.ws3 + ([mark] + more);
    var key, v := ItemsValue(m.key), Meaning(m.v, d + 1, inRange);
    if last {
      LastMemberExplain(m, d, acc, post, inRange);
    } else {
      MoreMembersExplain(m, ms.rest, d, acc, post, inRange);
      MembersComplete(ms.rest, d, acc[key := v], post, inRange);
    }
    ValidIff(m.v, d + 1, inRange);
    KeyComplete(m, tail, inRange);
    DelimitedBy(m.ws3, mark, more);
    ValueComplete(m.v, d + 1, tail, inRange);
    assert ([mark] + more)[1..] == more;
  }

  // ---- soundness ----

  /** `v` spells the text that a successful parse consumed, and means its result. */
  predicate Explains(v: Value, s: string, d: nat, r: Parsed<Json>, inRange: string -> bool) {
    ValueValid(v, d, inRange) && r.Ok? && s == ValueText(v) + r.rest && Meaning(v, d, inRange) == r.v
  }

  lemma {:induction false} ValueSound(s: string, d: nat, inRange: string -> bool) returns (v: Value)
    requires ParseValue(s, d, inRange).Ok?
    ensures Explains(v, s, d, ParseValue(s, d, inRange), inRange)
    decreases |s|, 1
  {
    hide ParseArray, ParseObject, ParseString, ParseNumber, ParseLiteral, Explains;
    if s[0] == '{' {
      v := ObjectSound(s, d, inRange);
    } else if s[0] == '[' {
      v := ArraySound(s, d, inRange);
    } else if s[0] == '"' {
      v := StringValueSound(s, d, inRange);
    } else if s[0] == 't' || s[0] == 'f' || s[0] == 'n' {
      v := LiteralSound(s, d, inRange);
    } else {
      v := NumberValueSound(s, d, inRange);
    }
  }

  lemma StringValueSound(s: string, d: nat, inRange: string -> bool) returns (v: Value)
    requires Starts(s, '"') && ParseValue(s, d, inRange).Ok?
    ensures Explains(v, s, d, ParseValue(s, d, inRange), inRange)
  {
    hide ParseString, ItemsValid, ItemsText, ItemsValue, StringText;
    var items := StringSound(s);
    v := String(items);
  }

  lemma LiteralSound(s: string, d: nat, inRange: string -> bool) returns (v: Value)
    requires (Starts(s, 't') || Starts(s, 'f') || Starts(s, 'n')) && ParseValue(s, d, inRange).Ok?
    ensures Explains(v, s, d, ParseValue(s, d, inRange), inRange)
  {
    v := if s[0] == 't' then TrueLit else if s[0] == 'f' then FalseLit else NullLit;
    assert ValueText(v) <= s;
  }

  lemma NumberValueSound(s: string, d: nat, inRange: string -> bool) returns (v: Value)
    requires s != "" && s[0] !in {'{', '[', '"', 't', 'f', 'n'} && ParseValue(s, d, inRange).Ok?
    ensures Explains(v, s, d, ParseValue(s, d, inRange), inRange)
  {
    hide NumberEnd, DigitsEnd, SignEnd, Number.Valid, Number.Text;
    var n := NumberSound(s);
    v := Value.Number(n);
    assert s == s[..NumberEnd(s)] + s[NumberEnd(s)..];
  }

  lemma {:induction false} ArraySound(s: string, d: nat, inRange: string -> bool) returns (v: Value)
    requires Starts(s, '[') && d <= MAX_DEPTH && ParseArray(s, d, inRange).Ok?
    ensures Explains(v, s, d, ParseArray(s, d, inRange), inRange)
    decreases |s|, 0
  {
    hide ParseElems;
    var ws := SkipWsSound(s[1..]);
    var s1 := SkipWs(s[1..]);
    if Starts(s1, ']') {
      v := EmptyArray(ws);
      assert s == "[" + ws + "]" + s1[1..];
    } else {
      ElemsSkip(s[1..], d, [], inRange);
      var es := ElemsSound(s[1..], d, [], inRange);
      v := Array(es);
      assert [] + ElemsMeaning(es, d + 1, inRange) == ElemsMeaning(es, d + 1, inRange);
      assert s == "[" + s[1..];
    }
  }

  predicate ElemsExplain(es: Elems, s: string, d: nat, acc: seq<Json>, r: Parsed<Json>, inRange: string -> bool) {
    && ElemsValid(es, d + 1, inRange) && r.Ok? && s == ElemsText(es) + r.rest
    && r.v == Arr(acc + ElemsMeaning(es, d + 1, inRange))
  }

  /** Text around a value, reassembled. */
  lemma Around(before: string, v: string, after: string, mark: string, rest: string, post: string)
    ensures before + (v + (after + (mark + (rest + post)))) == before + (v + (after + (mark + rest))) + post
  {
    assert mark + (rest + post) == mark + rest + post;
    assert after + (mark + rest + post) == after + (mark + rest) + post;
    assert v + (after + (mark + rest) + post) == v + (after + (mark + rest)) + post;
  }

  /** One element and a comma in front of a list. */
  lemma MoreElemsExplain(before: string, v: Value, after: string, rest: Elems, d: nat, acc: seq<Json>, post: string,
                         inRange: string -> bool)
    requires AllWs(before) && AllWs(after) && ValueValid(v, d + 1, inRange) && ElemsValid(rest, d + 1, inRange)
    ensures var es, m := MoreElems(before, v, after, rest), Meaning(v, d + 1, inRange);
      && ElemsValid(es, d + 1, inRange)
      && ElemsText(es) + post == before + (ValueText(v) + (after + ("," + (ElemsText(rest) + post))))
      && acc + ElemsMeaning(es, d + 1, inRange) == acc + [m] + ElemsMeaning(rest, d + 1, inRange)
  {
    hide ValueText, ValueValid, Meaning;
    Around(before, ValueText(v), after, ",", ElemsText(rest), post);
  }

  lemma LastElemExplain(before: string, v: Value, after: string, d: nat, acc: seq<Json>, post: string,
                        inRange: string -> bool)
    requires AllWs(before) && AllWs(after) && ValueValid(v, d + 1, inRange)
    ensures var es, m := LastElem(before, v, after), Meaning(v, d + 1, inRange);
      && ElemsValid(es, d + 1, inRange)
      && ElemsText(es) + post == before + (ValueText(v) + (after + ("]" + post)))
      && acc + ElemsMeaning(es, d + 1, inRange) == acc + [m]
  {
    hide ValueText, ValueValid, Meaning;
    Around(before, ValueText(v), after, "]", "", post);
    assert "]" + "" == "]" && "" + post == post;
  }

  lemma {:induction false} ElemsSound(s: string, d: nat, acc: seq<Json>, inRange: string -> bool) returns (es: Elems)
    requires ParseElems(s, d, acc, inRange).Ok?
    ensures ElemsExplain(es, s, d, acc, ParseElems(s, d, acc, inRange), inRange)
    decreases |s|, 2
  {
    hide ParseValue, ValueText, ElemsText, ValueValid, Meaning, ElemsMeaning, ElemsValid;
    var before := SkipWsSound(s);
    var r := ParseValue(SkipWs(s), d + 1, inRange);
    var v := ValueSound(SkipWs(s), d + 1, inRange);
    var after := SkipWsSound(r.rest);
    var s1 := SkipWs(r.rest);
    var post := ParseElems(s, d, acc, inRange).rest;
    if Starts(s1, ',') {
      var rest := ElemsSound(s1[1..], d, acc + [r.v], inRange);
      es := MoreElems(before, v, after, rest);
      assert s1 == "," + (ElemsText(rest) + post);
      MoreElemsExplain(before, v, after, rest, d, acc, post, inRange);
    } else {
      es := LastElem(before, v, after);
      assert s1 == "]" + post;
      LastElemExplain(before, v, after, d, acc, post, inRange);
    }
  }

  lemma {:induction false} ObjectSound(s: string, d: nat, inRange: string -> bool) returns (v: Value)
    requires Starts(s, '{') && d <= MAX_DEPTH && ParseObject(s, d, inRange).Ok?
    ensures Explains(v, s, d, ParseObject(s, d, inRange), inRange)
    decreases |s|, 0
  {
    hide ParseMembers, MembersText, ItemsText, ItemsValue, StringText;
    var ws := SkipWsSound(s[1..]);
    var s1 := SkipWs(s[1..]);
    if Starts(s1, '}') {
      v := EmptyObject(ws);
      assert s == "{" + ws + "}" + s1[1..];
    } else {
      MembersSkip(s[1..], d, map[], inRange);
      var ms := MembersSound(s[1..], d, map[], inRange);
      v := Object(ms);
      assert map[] + MembersMeaning(ms, d + 1, inRange) == MembersMeaning(ms, d + 1, inRange);
      assert s == "{" + s[1..];
    }
  }

  predicate MembersExplain(ms: Members, s: string, d: nat, acc: map<string, Json>, r: Parsed<Json>,
                           inRange: string -> bool) {
    && MembersValid(ms, d + 1, inRange) && r.Ok? && s == MembersText(ms) + r.rest
    && r.v == Obj(acc + MembersMeaning(ms, d + 1, inRange))
  }

  lemma KeySound(s: string) returns (ws0: string, key: seq<Item>, ws1: string, ws2: string)
    requires ParseKey(s).Ok?
    ensures AllWs(ws0) && AllWs(ws1) && AllWs(ws2) && ItemsValid(key) && ParseKey(s).v == ItemsValue(key)
    ensures s == ws0 + (StringText(key) + (ws1 + (":" + ws2))) + ParseKey(s).rest
  {
    hide ParseString, ItemsText, ItemsValue;
    ws0 := SkipWsSound(s);
    var r := ParseString(SkipWs(s));
    key := StringSound(SkipWs(s));
    ws1 := SkipWsSound(r.rest);
    var s1 := SkipWs(r.rest);
    ws2 := SkipWsSound(s1[1..]);
    var rest := ParseKey(s).rest;
    assert s1[1..] == ws2 + rest && s1 == ":" + s1[1..];
    assert r.rest == ws1 + (":" + (ws2 + rest));
    Around(ws0, StringText(key), ws1, ":", ws2, rest);
  }

  /** One member and a comma in front of a list. */
  lemma MoreMembersExplain(m: Member, rest: Members, d: nat, acc: map<string, Json>, post: string,
                           inRange: string -> bool)
    requires MemberValid(m, d + 1, inRange) && MembersValid(rest, d + 1, inRange)
    ensures var ms, key, v := MoreMembers(m, rest), ItemsValue(m.key), Meaning(m.v, d + 1, inRange);
      && MembersValid(ms, d + 1, inRange)
      && MembersText(ms) + post == KeyText(m) + (ValueText(m.v) + (m.ws3 + ("," + (MembersText(rest) + post))))
      && acc + MembersMeaning(ms, d + 1, inRange) == acc[key := v] + MembersMeaning(rest, d + 1, inRange)
  {
    hide ValueText, ValueValid, Meaning, ItemsText, ItemsValue, StringText, KeyText;
    Around(KeyText(m), ValueText(m.v), m.ws3, ",", MembersText(rest), post);
  }

  lemma LastMemberExplain(m: Member, d: nat, acc: map<string, Json>, post: string, inRange: string -> bool)
    requires MemberValid(m, d + 1, inRange)
    ensures var ms, key, v := LastMember(m), ItemsValue(m.key), Meaning(m.v, d + 1, inRange);
      && MembersValid(ms, d + 1, inRange)
      && MembersText(ms) + post == KeyText(m) + (ValueText(m.v) + (m.ws3 + ("}" + post)))
      && acc + MembersMeaning(ms, d + 1, inRange) == acc[key := v]
  {
    hide ValueText, ValueValid, Meaning, ItemsText, ItemsValue, StringText, KeyText;
    Around(KeyText(m), ValueText(m.v), m.ws3, "}", "", post);
    assert "}" + "" == "}" && "" + post == post;
  }

  lemma {:induction false} MembersSound(s: string, d: nat, acc: map<string, Json>, inRange: string -> bool)
    returns (ms: Members)
    requires ParseMembers(s, d, acc, inRange).Ok?
    ensures MembersExplain(ms, s, d, acc, ParseMembers(s, d, acc, inRange), inRange)
    decreases |s|, 2
  {
    hide ParseValue, ValueText, ValueValid, Meaning, ParseKey, ItemsText, ItemsValue, StringText, MembersText,
      MembersMeaning, MembersValid;
    var ws0, key, ws1, ws2 := KeySound(s);
    var text := ParseKey(s).rest;
    var r := ParseValue(text, d + 1, inRange);
    var v := ValueSound(text, d + 1, inRange);
    var ws3 := SkipWsSound(r.rest);
    var s1 := SkipWs(r.rest);
    var m := Member(ws0, key, ws1, ws2, v, ws3);
    var post := ParseMembers(s, d, acc, inRange).rest;
    if Starts(s1, ',') {
      var rest := MembersSound(s1[1..], d, acc[ItemsValue(key) := r.v], inRange);
      ms := MoreMembers(m, rest);
      assert s1 == "," + (MembersText(rest) + post);
      MoreMembersExplain(m, rest, d, acc, post, inRange);
    } else {
      ms := LastMember(m);
      assert s1 == "}" + post;
      LastMemberExplain(m, d, acc, post, inRange);
    }
  }

  // ---- whole texts ----

  lemma DocumentParses(doc: Document, inRange: string -> bool)
    requires DocumentValid(doc, inRange)
    ensures Parse(DocumentText(doc), inRange) == Some(Meaning(doc.v, 0, inRange))
  {
    hide ParseValue, ValueText, ValueValid, Meaning;
    assert DocumentText(doc) == doc.before + (ValueText(doc.v) + doc.after);
    ValidIff(doc.v, 0, inRange);
    SkipToValue(doc.before, doc.v, doc.after, inRange);
    ValueComplete(doc.v, 0, doc.after, inRange);
    assert doc.after + "" == doc.after;
    SkipWsComplete(doc.after, "");
  }

  /** Soundness and completeness: a text parses to a value exactly when it derives that value. */
  lemma ParseIffDerives(text: string, j: Json, inRange: string -> bool)
    ensures Parse(text, inRange) == Some(j) <==> Derives(text, j, inRange)
  {
    hide ParseValue, ValueText, ValueValid, Meaning;
    if Parse(text, inRange) == Some(j) {
      var before := SkipWsSound(text);
      var r := ParseValue(SkipWs(text), 0, inRange);
      var v := ValueSound(SkipWs(text), 0, inRange);
      var after := SkipWsSound(r.rest);
      var doc := Document(before, v, after);
      assert after + "" == after;
      assert DocumentText(doc) == before + (ValueText(v) + after);
      assert DocumentValid(doc, inRange) && DocumentText(doc) == text && Meaning(doc.v, 0, inRange) == j;
    } else {
      forall doc | DocumentValid(doc, inRange) && DocumentText(doc) == text
        ensures Meaning(doc.v, 0, inRange) != j
      {
        DocumentParses(doc, inRange);
      }
    }
  }

  /** The grammar is unambiguous: a text derives at most one value. */
  lemma OneMeaning(text: string, j: Json, k: Json, inRange: string -> bool)
    requires Derives(text, j, inRange) && Derives(text, k, inRange)
    ensures j == k
  {
    ParseIffDerives(text, j, inRange);
    ParseIffDerives(text, k, inRange);
  }
}
