/** Which values the parser can produce, escapes of Unicode scalar values, and the nesting bound. */
module JsonValues {
  import opened Wrappers
  import opened Text
  import opened Unicode
  import opened JsonSyntax
  import opened JsonDepth
  import opened JsonSpec
  import opened JsonTokens
  import opened JsonProofs

  // ---- escapes ----

  /** A scalar value of the basic plane written as one escape is read as its UTF-8 form. */
  lemma EscapedUnit(h: string, rest: string, acc: string)
    requires IsHex4(h) && IsScalar(HexValue(h))
    ensures Hex4Value(h) == HexValue(h)
    ensures ParseBody("\\u" + h + rest, acc) == ParseBody(rest, acc + Utf8(Hex4Value(h)))
    ensures DecodeUtf8(Utf8(Hex4Value(h))) == Some(HexValue(h))
  {
    hide HexValue, Utf8, LowAhead;
    ReadItem(Unit(h), rest, acc);
    Utf8RoundTrip(Hex4Value(h));
  }

  /** Every other scalar value, written as its surrogate pair, is read as its UTF-8 form. */
  lemma EscapedPair(cp: nat, hi: string, lo: string, rest: string, acc: string)
    requires 0x10000 <= cp < 0x110000 && IsHex4(hi) && IsHex4(lo)
    requires HexValue(hi) == HighOf(cp) && HexValue(lo) == LowOf(cp)
    ensures ParseBody("\\u" + hi + "\\u" + lo + rest, acc) == ParseBody(rest, acc + Utf8(cp))
    ensures DecodeUtf8(Utf8(cp)) == Some(cp)
  {
    hide HexValue, Utf8, LowAhead;
    PairBijection(HighOf(cp), LowOf(cp), cp);
    ReadItem(Pair(hi, lo), rest, acc);
    Utf8RoundTrip(cp);
  }

  /** After a high surrogate the decoder looks ahead for a low one. If there is none it emits the lone
      surrogate and reads on from the saved cursor, so nothing of what follows is lost; if there is one,
      exactly that escape is consumed with it. */
  lemma HighThenAny(h: string, rest: string, acc: string)
    requires IsHex4(h) && IsHigh(HexValue(h))
    ensures Hex4Value(h) == HexValue(h)
    ensures LowAhead(rest).None? ==>
      ParseBody("\\u" + h + rest, acc) == ParseBody(rest, acc + Utf8(Hex4Value(h)))
    ensures LowAhead(rest).Some? ==> |rest| >= 6 && IsLow(LowAhead(rest).value)
    ensures LowAhead(rest).Some? ==>
      ParseBody("\\u" + h + rest, acc)
      == ParseBody(rest[6..], acc + Utf8(PairValue(HexValue(h), LowAhead(rest).value)))
  {
    hide HexValue, Utf8;
    if LowAhead(rest).None? {
      ReadItem(Unit(h), rest, acc);
    } else {
      Hex4Sound(rest[2..]);
      var lo := rest[2..6];
      assert rest[2..][..4] == lo && rest == "\\u" + lo + rest[6..];
      assert "\\u" + h + rest == Pair(h, lo).Text() + rest[6..];
      ReadItem(Pair(h, lo), rest[6..], acc);
    }
  }

  // ---- nesting ----

  /** How many containers are open around the innermost part of a value. */
  function Nesting(v: Value): nat {
    match v
    case EmptyArray(_) | EmptyObject(_) => 1
    case Array(es) => 1 + ElemsNesting(es)
    case Object(ms) => 1 + MembersNesting(ms)
    case _ => 0
  }

  function ElemsNesting(es: Elems): nat {
    if es.LastElem? then Nesting(es.v) else Max(Nesting(es.v), ElemsNesting(es.rest))
  }

  function MembersNesting(ms: Members): nat {
    if ms.LastMember? then Nesting(ms.m.v) else Max(Nesting(ms.m.v), MembersNesting(ms.rest))
  }

  lemma {:induction false} NestingBound(v: Value, d: nat, inRange: string -> bool)
    requires ValueValid(v, d, inRange)
    ensures Nesting(v) + d <= MAX_DEPTH + 1
  {
    match v
    case Array(es) => ElemsBound(es, d + 1, inRange);
    case Object(ms) => MembersBound(ms, d + 1, inRange);
    case _ =>
  }

  lemma {:induction false} ElemsBound(es: Elems, d: nat, inRange: string -> bool)
    requires ElemsValid(es, d, inRange)
    ensures ElemsNesting(es) + d <= MAX_DEPTH + 1
  {
    NestingBound(es.v, d, inRange);
    if es.MoreElems? { ElemsBound(es.rest, d, inRange); }
  }

  lemma {:induction false} MembersBound(ms: Members, d: nat, inRange: string -> bool)
    requires MembersValid(ms, d, inRange)
    ensures MembersNesting(ms) + d <= MAX_DEPTH + 1
  {
    assert MemberValid(ms.m, d, inRange);
    NestingBound(ms.m.v, d, inRange);
    if ms.MoreMembers? { MembersBound(ms.rest, d, inRange); }
  }

  /** No text with 66 or more nested containers parses, whatever spells it. */
  lemma NoDeepText(doc: Document, inRange: string -> bool)
    requires DocumentValid(doc, inRange)
    ensures Nesting(doc.v) <= 65
  {
    NestingBound(doc.v, 0, inRange);
  }

  // ---- the values that have a text ----

  /** `j` can stand at depth `d`: shallow enough, with convertible number lexemes. */
  ghost predicate Expressible(j: Json, d: nat, inRange: string -> bool)
    decreases j
  {
    d <= MAX_DEPTH &&
    match j
    case Num(lexeme) => inRange(lexeme) && exists n: Number :: n.Valid() && n.Text() == lexeme
    case Arr(items) => forall i :: 0 <= i < |items| ==> Expressible(items[i], d + 1, inRange)
    case Obj(members) => forall k :: k in members ==> Expressible(members[k], d + 1, inRange)
    case _ => true
  }

  lemma {:induction false} ItemsFor(s: string) returns (items: seq<Item>)
    ensures ItemsValid(items) && ItemsValue(items) == s && forall i :: 0 <= i < |items| ==> !items[i].Unit?
  {
    if s == "" {
      items := [];
    } else {
      var rest := ItemsFor(s[1..]);
      var item := if s[0] == '"' || s[0] == '\\' then Short(s[0]) else Raw(s[0]);
      items := [item] + rest;
      assert items[1..] == rest;
      assert s == [s[0]] + s[1..];
    }
  }

  lemma {:induction false} RenderValue(j: Json, d: nat, inRange: string -> bool) returns (v: Value)
    requires Expressible(j, d, inRange)
    ensures ValueValid(v, d, inRange) && Meaning(v, d, inRange) == j
    decreases j, 1
  {
    match j
    case Null => v := NullLit;
    case Bool(b) => v := if b then TrueLit else FalseLit;
    case Num(lexeme) =>
      var n: Number :| n.Valid() && n.Text() == lexeme;
      v := Value.Number(n);
    case Str(s) =>
      var items := ItemsFor(s);
      v := String(items);
    case Arr(items) =>
      if items == [] {
        v := EmptyArray("");
      } else {
        var es := RenderElems(j, 0, d, inRange);
        v := Array(es);
        assert items[0..] == items;
      }
    case Obj(members) =>
      if members == map[] {
        v := EmptyObject("");
      } else {
        var ms := RenderMembers(j, members, d, inRange);
        v := Object(ms);
      }
  }

  lemma {:induction false} RenderElems(j: Json, i: nat, d: nat, inRange: string -> bool) returns (es: Elems)
    requires j.Arr? && Expressible(j, d, inRange) && i < |j.items|
    ensures ElemsValid(es, d + 1, inRange) && ElemsMeaning(es, d + 1, inRange) == j.items[i..]
    decreases j, 0, |j.items| - i
  {
    var v := RenderValue(j.items[i], d + 1, inRange);
    if i + 1 == |j.items| {
      es := LastElem("", v, "");
    } else {
      var rest := RenderElems(j, i + 1, d, inRange);
      es := MoreElems("", v, "", rest);
      assert j.items[i..] == [j.items[i]] + j.items[i + 1..];
    }
  }

  lemma {:induction false} RenderMembers(j: Json, part: map<string, Json>, d: nat, inRange: string -> bool)
    returns (ms: Members)
    requires j.Obj? && Expressible(j, d, inRange) && part != map[]
    requires forall k :: k in part ==> k in j.members && part[k] == j.members[k]
    ensures MembersValid(ms, d + 1, inRange) && MembersMeaning(ms, d + 1, inRange) == part
    decreases j, 0, |part|
  {
    var k :| k in part;
    var key := ItemsFor(k);
    var v := RenderValue(j.members[k], d + 1, inRange);
    var m := Member("", key, "", "", v, "");
    assert MemberValid(m, d + 1, inRange);
    var others := part - {k};
    assert part == map[k := part[k]] + others;
    if others == map[] {
      ms := LastMember(m);
    } else {
      assert |others| < |part| by { assert others.Keys == part.Keys - {k}; }
      var rest := RenderMembers(j, others, d, inRange);
      ms := MoreMembers(m, rest);
    }
  }

  ghost predicate AllExpressible(members: map<string, Json>, d: nat, inRange: string -> bool) {
    forall k :: k in members ==> Expressible(members[k], d, inRange)
  }

  lemma {:induction false} MeaningExpressible(v: Value, d: nat, inRange: string -> bool)
    requires ValueValid(v, d, inRange)
    ensures Expressible(Meaning(v, d, inRange), d, inRange)
    decreases v, 1
  {
    match v
    case Array(es) => ElemsExpressible(es, d + 1, inRange);
    case Object(ms) =>
      MembersExpressible(ms, d + 1, inRange);
    case _ =>
  }

  lemma {:induction false} ElemsExpressible(es: Elems, d: nat, inRange: string -> bool)
    requires ElemsValid(es, d, inRange)
    ensures forall i :: 0 <= i < |ElemsMeaning(es, d, inRange)| ==>
      Expressible(ElemsMeaning(es, d, inRange)[i], d, inRange)
    decreases es, 0
  {
    MeaningExpressible(es.v, d, inRange);
    if es.MoreElems? { ElemsExpressible(es.rest, d, inRange); }
  }

  lemma {:induction false} MembersExpressible(ms: Members, d: nat, inRange: string -> bool)
    requires MembersValid(ms, d, inRange)
    ensures AllExpressible(MembersMeaning(ms, d, inRange), d, inRange)
    decreases ms, 0
  {
    hide Expressible, ItemsValue;
    assert MemberValid(ms.m, d, inRange);
    MeaningExpressible(ms.m.v, d, inRange);
    if ms.MoreMembers? { MembersExpressible(ms.rest, d, inRange); }
    var m := MembersMeaning(ms, d, inRange);
    forall k | k in m ensures Expressible(m[k], d, inRange) {
      if ms.MoreMembers? && k in MembersMeaning(ms.rest, d, inRange) {
        assert m[k] == MembersMeaning(ms.rest, d, inRange)[k];
      } else {
        assert m[k] == Meaning(ms.m.v, d, inRange);
      }
    }
  }

  /** Round trip: a value has a text that parses back to it exactly when it is expressible. */
  lemma RoundTrip(j: Json, inRange: string -> bool)
    ensures Expressible(j, 0, inRange) <==> exists text :: Parse(text, inRange) == Some(j)
  {
    hide ParseValue, ValueText, ValueValid, Meaning, Expressible, Parse;
    if Expressible(j, 0, inRange) {
      var v := RenderValue(j, 0, inRange);
      var doc := Document("", v, "");
      DocumentParses(doc, inRange);
      assert Parse(DocumentText(doc), inRange) == Some(j);
    }
    forall text | Parse(text, inRange) == Some(j) ensures Expressible(j, 0, inRange) {
      ParseIffDerives(text, j, inRange);
      var doc :| DocumentValid(doc, inRange) && DocumentText(doc) == text && Meaning(doc.v, 0, inRange) == j;
      MeaningExpressible(doc.v, 0, inRange);
    }
  }
}
