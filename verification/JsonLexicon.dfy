/** What single characters mean to the JSON parser, by their codes (sections 2, 6 and 7 of RFC 8259). */
module JsonLexicon {
  import opened Wrappers
  import opened Text
  import opened Unicode
  import opened JsonSyntax
  import opened JsonDepth
  import opened JsonSpec
  import opened JsonTokens
  import opened JsonProofs
  import opened JsonNesting

  /** Exactly the four white-space characters may stand in front of a value. */
  lemma WhiteSpace(c: char, inRange: string -> bool)
    ensures Parse([c] + "null", inRange) == Some(Null) <==> c as int in {9, 10, 13, 32}
  {
    hide Parse;
    var s := [c] + "null";
    if IsWs(c) {
      assert [c] + "null" + "" == s;
      DocumentParses(Document([c], NullLit, ""), inRange);
    }
    if Parse(s, inRange) == Some(Null) {
      ParseIffDerives(s, Null, inRange);
      var doc :| DocumentValid(doc, inRange) && DocumentText(doc) == s && Meaning(doc.v, 0, inRange) == Null;
      NullText(doc, inRange);
      SpaceBeforeNull(doc.before, doc.after, c);
      assert IsWs(doc.before[0]);
    }
  }

  lemma NullText(doc: Document, inRange: string -> bool)
    requires DocumentValid(doc, inRange) && Meaning(doc.v, 0, inRange) == Null
    ensures DocumentText(doc) == doc.before + "null" + doc.after
  {
  }

  lemma SpaceBeforeNull(before: string, after: string, c: char)
    requires before + "null" + after == [c] + "null"
    ensures before == [c]
  {
    var s := before + "null" + after;
    assert |before| + |after| == 1 && s[1] == 'n';
    NullSpelled(before, after);
    if |before| == 1 { assert s[0] == before[0]; }
  }

  lemma NullSpelled(before: string, after: string)
    ensures (before + "null" + after)[|before|] == 'n' && (before + "null" + after)[|before| + 1] == 'u'
  {
  }

  /** The character that a short escape stands for, by codes: quote, backslash, slash, and b, f, n, r, t. */
  function EscapedCode(e: int): int {
    match e
    case 34 => 34
    case 92 => 92
    case 47 => 47
    case 98 => 8
    case 102 => 12
    case 110 => 10
    case 114 => 13
    case 116 => 9
    case _ => -1
  }

  /** The text of a string with one escape. */
  function OneEscape(e: char): string { "\"\\" + [e] + "\"" }

  /** A backslash and one more character form a string for exactly eight characters, with these meanings. */
  lemma ShortEscapes(e: char, inRange: string -> bool)
    ensures Parse(OneEscape(e), inRange) ==
      if EscapedCode(e as int) >= 0 then Some(Str([EscapedCode(e as int) as char])) else None
  {
    var s := OneEscape(e);
    var body := s[1..];
    assert body == "\\" + [e] + "\"" && body[2..] == "\"" && body[2..][1..] == "";
    if e in SHORT_ESCAPES {
      BodyEnds([Unescape(e)], "");
      assert "\"" + "" == "\"" && "" + [Unescape(e)] == [Unescape(e)];
    } else if e == 'u' {
      assert ParseHex4(body[2..]).None?;
    }
  }
}
