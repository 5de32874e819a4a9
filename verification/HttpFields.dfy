/** Header lines and Content-Length values as grammars: which lines name which field with which value, and which
    values are lengths (src/http_socket.cpp:261-298, and `strtoull` in the C standard). */
module HttpFields {
  import opened Wrappers
  import opened Text
  import opened HttpSpec
  import opened HttpFraming
  import opened HttpHeads

  // ---- header lines ----

  /** A name without a colon, a colon, and a value between optional spaces and tabs. */
  predicate FieldForm(line: string, name: string, before: string, value: string, after: string) {
    && line == name + ":" + before + value + after
    && name != "" && (forall i :: 0 <= i < |name| ==> name[i] != ':')
    && (forall i :: 0 <= i < |before| ==> before[i] == ' ' || before[i] as int == 9)
    && (forall i :: 0 <= i < |after| ==> after[i] == ' ' || after[i] as int == 9)
    && (value == "" || (value[0] != ' ' && value[0] as int != 9
                        && value[|value| - 1] != ' ' && value[|value| - 1] as int != 9))
  }

  ghost predicate Names(line: string, name: string, value: string) {
    exists before, after :: FieldForm(line, name, before, value, after)
  }

  lemma {:induction false} TrimLeftEnds(v: string)
    ensures TrimLeft(v) == "" || !IsOws(TrimLeft(v)[0])
  {
    if v != "" && IsOws(v[0]) { TrimLeftEnds(v[1..]); }
  }

  lemma {:induction false} TrimRightEnds(v: string)
    ensures TrimRight(v) == "" || !IsOws(TrimRight(v)[|TrimRight(v)| - 1])
    ensures TrimRight(v) != "" ==> TrimRight(v)[0] == v[0]
  {
    if v != "" && IsOws(v[|v| - 1]) { TrimRightEnds(v[..|v| - 1]); }
  }

  lemma {:induction false} TrimLeftIs(before: string, v: string)
    requires AllOws(before) && (v == "" || !IsOws(v[0]))
    ensures TrimLeft(before + v) == v
  {
    if before == "" {
      assert before + v == v;
    } else {
      assert (before + v)[1..] == before[1..] + v;
      TrimLeftIs(before[1..], v);
    }
  }

  lemma {:induction false} TrimRightIs(v: string, after: string)
    requires AllOws(after) && (v == "" || !IsOws(v[|v| - 1]))
    ensures TrimRight(v + after) == v
  {
    if after == "" {
      assert v + after == v;
    } else {
      var s := v + after;
      assert s[..|s| - 1] == v + after[..|after| - 1];
      TrimRightIs(v, after[..|after| - 1]);
    }
  }

  lemma {:induction false} TrimAllOws(s: string)
    requires AllOws(s)
    ensures TrimLeft(s) == ""
  {
    if s != "" { TrimAllOws(s[1..]); }
  }

  lemma TrimIs(before: string, value: string, after: string)
    requires AllOws(before) && AllOws(after)
    requires value == "" || (!IsOws(value[0]) && !IsOws(value[|value| - 1]))
    ensures TrimRight(TrimLeft(before + value + after)) == value
  {
    hide TrimLeft, TrimRight;
    var v := before + value + after;
    if value == "" {
      TrimAllOws(v);
      TrimRightIs("", "");
      assert "" + "" == "";
    } else {
      assert v == before + (value + after);
      TrimLeftIs(before, value + after);
      TrimRightIs(value, after);
    }
  }

  /** A line is read as a field exactly as the grammar says. */
  lemma FieldIff(line: string, name: string, value: string)
    ensures SplitField(line) == Field(name, value) <==> Names(line, name, value)
  {
    hide Find, TrimLeft, TrimRight;
    if SplitField(line) == Field(name, value) {
      FieldSound(line, name, value);
    }
    forall before, after | FieldForm(line, name, before, value, after)
      ensures SplitField(line) == Field(name, value)
    {
      FieldComplete(line, name, before, value, after);
    }
  }

  lemma ColonFirst(line: string)
    requires Find(line, ":", 0).Some?
    ensures var colon := Find(line, ":", 0).value;
      line == line[..colon] + ":" + line[colon + 1..] && forall i :: 0 <= i < colon ==> line[i] != ':'
  {
    hide Find;
    var colon := Find(line, ":", 0).value;
    FindHits(line, ":", 0);
    assert line[colon] == line[colon..colon + 1][0] == ':';
    forall i | 0 <= i < colon ensures line[i] != ':' {
      if line[i] == ':' {
        assert line[i..i + 1] == ":";
        FindFirst(line, ":", 0, i);
      }
    }
  }

  lemma FieldSound(line: string, name: string, value: string)
    requires SplitField(line) == Field(name, value)
    ensures Names(line, name, value)
  {
    hide Find, TrimLeft, TrimRight;
    var raw := line[Find(line, ":", 0).value + 1..];
    ColonFirst(line);
    var before := TrimLeftParts(raw);
    var after := TrimRightParts(TrimLeft(raw));
    TrimLeftEnds(raw);
    TrimRightEnds(TrimLeft(raw));
    assert raw == before + value + after;
    assert FieldForm(line, name, before, value, after);
  }

  lemma FieldComplete(line: string, name: string, before: string, value: string, after: string)
    requires FieldForm(line, name, before, value, after)
    ensures SplitField(line) == Field(name, value)
  {
    hide Find, TrimLeft, TrimRight;
    assert line == name + (":" + before + value + after);
    FoundAfter(name, ":" + before + value + after, ":");
    assert line[..|name|] == name && line[|name| + 1..] == before + value + after;
    TrimIs(before, value, after);
  }

  /** Names compare without regard to case. */
  predicate SameName(s: string, t: string) { |s| == |t| && forall i :: 0 <= i < |s| ==> SameLetter(s[i], t[i]) }

  /** A line is a Content-Length exactly if that is the name of its field, in any case. */
  lemma LengthLineIff(line: string)
    ensures LengthLine(line) <==> exists name, value :: Names(line, name, value) && SameName(name, "content-length")
  {
    hide SplitField, Lower, Names;
    var f := SplitField(line);
    if f.Field? {
      FieldIff(line, f.name, f.value);
      LowerIffSame(f.name, "content-length");
    }
    forall name, value | Names(line, name, value) ensures f == Field(name, value) {
      FieldIff(line, name, value);
    }
  }

  /** A line announces chunked framing exactly if it is a Transfer-Encoding with that word in its value. */
  lemma ChunkedLineIff(line: string)
    ensures ChunkedLine(line) <==>
      exists name, value :: Names(line, name, value) && SameName(name, "transfer-encoding") && Occurs("chunked", value)
  {
    hide SplitField, Lower, Names, Find, Occurs;
    var f := SplitField(line);
    if f.Field? {
      FieldIff(line, f.name, f.value);
      LowerIffSame(f.name, "transfer-encoding");
      FindIffOccurs(f.value, "chunked");
    }
    forall name, value | Names(line, name, value) ensures f == Field(name, value) {
      FieldIff(line, name, value);
    }
  }

  // ---- Content-Length values ----

  /** The white space of the C locale. */
  predicate IsCSpace(c: char) { c as int == 32 || 9 <= c as int <= 13 }

  /** White space, a sign, digits, and nothing more before the end or the first NUL. */
  predicate LengthForm(v: string, space: string, sign: string, digits: string, rest: string) {
    && v == space + sign + digits + rest
    && (forall i :: 0 <= i < |space| ==> IsCSpace(space[i]))
    && (sign == "" || sign == "+" || sign == "-")
    && digits != "" && (forall i :: 0 <= i < |digits| ==> 48 <= digits[i] as int <= 57)
    && (rest == "" || rest[0] as int == 0)
  }

  /** The number such a value stands for: saturated at 2^64 - 1, and negated modulo 2^64. */
  function LengthNumber(sign: string, digits: string): int
    requires AllDigits(digits)
  {
    var n := DecValue(digits);
    if n >= 18_446_744_073_709_551_616 then 18_446_744_073_709_551_615
    else if sign == "-" && n > 0 then 18_446_744_073_709_551_616 - n
    else n
  }

  predicate NoNul(s: string) { forall i :: 0 <= i < |s| ==> s[i] as int != 0 }

  lemma CStringParts(v: string) returns (rest: string)
    ensures v == CString(v) + rest && NoNul(CString(v)) && (rest == "" || rest[0] as int == 0)
  {
    hide Find;
    var end := Find(v, "\0", 0);
    rest := if end.None? then "" else v[end.value..];
    if end.Some? {
      FindHits(v, "\0", 0);
      assert rest[0] == v[end.value..end.value + 1][0];
    }
    forall i | 0 <= i < |CString(v)| ensures CString(v)[i] as int != 0 {
      if v[i] as int == 0 {
        assert v[i..i + 1] == "\0";
        FindFirst(v, "\0", 0, i);
      }
    }
  }

  lemma CStringIs(a: string, rest: string)
    requires NoNul(a) && (rest == "" || rest[0] as int == 0)
    ensures CString(a + rest) == a
  {
    hide Find;
    if rest == "" {
      assert a + rest == a;
      NotFound(a, "\0");
    } else {
      FoundAfter(a, rest, "\0");
      assert (a + rest)[..|a|] == a;
    }
  }

  lemma {:induction false} SkipSpaceParts(s: string) returns (space: string)
    ensures s == space + SkipSpace(s) && forall i :: 0 <= i < |space| ==> IsCSpace(space[i])
  {
    space := "";
    if s != "" && IsSpace(s[0]) {
      space := SkipSpaceParts(s[1..]);
      space := [s[0]] + space;
    }
  }

  lemma {:induction false} SkipSpaceIs(space: string, t: string)
    requires (forall i :: 0 <= i < |space| ==> IsCSpace(space[i])) && (t == "" || !IsSpace(t[0]))
    ensures SkipSpace(space + t) == t
  {
    if space == "" {
      assert space + t == t;
    } else {
      assert (space + t)[1..] == space[1..] + t;
      SkipSpaceIs(space[1..], t);
    }
  }

  /** What is left behind the white space, up to the NUL. */
  lemma TextLeft(v: string, space: string, sign: string, digits: string, rest: string)
    requires LengthForm(v, space, sign, digits, rest)
    ensures SkipSpace(CString(v)) == sign + digits
  {
    hide CString, SkipSpace;
    var t := sign + digits;
    assert v == space + t + rest;
    CStringIs(space + t, rest);
    assert t[0] == if sign == "" then digits[0] else sign[0];
    SkipSpaceIs(space, t);
  }

  lemma SignSplits(sign: string, digits: string)
    requires (sign == "" || sign == "+" || sign == "-") && digits != "" && 48 <= digits[0] as int <= 57
    ensures var t := sign + digits;
      && t != "" && (t[0] == '-' <==> sign == "-")
      && (if t[0] == '-' || t[0] == '+' then t[1..] else t) == digits
  {
    if sign == "" { assert sign + digits == digits; } else { assert (sign + digits)[1..] == digits; }
  }

  lemma LengthComplete(v: string, space: string, sign: string, digits: string, rest: string)
    requires LengthForm(v, space, sign, digits, rest)
    ensures AllDigits(digits) && ParseLength(v) == Some(LengthNumber(sign, digits))
  {
    hide CString, SkipSpace, DecValue;
    TextLeft(v, space, sign, digits, rest);
    SignSplits(sign, digits);
  }

  lemma SignedDigits(t: string) returns (sign: string, digits: string)
    requires var digits := if t != "" && (t[0] == '-' || t[0] == '+') then t[1..] else t;
      digits != "" && AllDigits(digits)
    ensures t == sign + digits && (sign == "" || sign == "+" || sign == "-") && digits != ""
    ensures forall i :: 0 <= i < |digits| ==> 48 <= digits[i] as int <= 57
  {
    sign := if t[0] == '-' || t[0] == '+' then [t[0]] else "";
    digits := t[|sign|..];
  }

  lemma LengthSound(v: string) returns (space: string, sign: string, digits: string, rest: string)
    requires ParseLength(v).Some?
    ensures LengthForm(v, space, sign, digits, rest)
  {
    hide CString, SkipSpace, DecValue, AllDigits;
    rest := CStringParts(v);
    space := SkipSpaceParts(CString(v));
    sign, digits := SignedDigits(SkipSpace(CString(v)));
    assert v == space + (sign + digits) + rest;
  }

  /** A value reads as the number `n` if and only if it has the form of a length and stands for `n`. */
  lemma LengthGrammar(v: string, n: nat)
    ensures ParseLength(v) == Some(n) <==>
      exists space, sign, digits, rest ::
        LengthForm(v, space, sign, digits, rest) && AllDigits(digits) && LengthNumber(sign, digits) == n
  {
    hide ParseLength, LengthNumber;
    if ParseLength(v).Some? {
      var space, sign, digits, rest := LengthSound(v);
      LengthComplete(v, space, sign, digits, rest);
    }
    forall space, sign, digits, rest | LengthForm(v, space, sign, digits, rest)
      ensures AllDigits(digits) && ParseLength(v) == Some(LengthNumber(sign, digits))
    {
      LengthComplete(v, space, sign, digits, rest);
    }
  }

  ghost predicate IsLength(v: string) { exists space, sign, digits, rest :: LengthForm(v, space, sign, digits, rest) }

  /** A value is malformed exactly if it does not have that form. */
  lemma MalformedIff(v: string)
    ensures ParseLength(v).None? <==> !IsLength(v)
  {
    hide ParseLength, LengthNumber;
    if ParseLength(v).Some? {
      var space, sign, digits, rest := LengthSound(v);
      assert IsLength(v);
    }
    forall space, sign, digits, rest | LengthForm(v, space, sign, digits, rest) ensures ParseLength(v).Some? {
      LengthComplete(v, space, sign, digits, rest);
    }
  }

  lemma RestStarts(a: string, rest: string)
    requires rest != ""
    ensures (a + rest)[|a|] == rest[0]
  {
  }

  /** Every byte of a length without a NUL is white space, a sign or a digit. */
  lemma EveryByte(v: string, space: string, sign: string, digits: string, rest: string, i: nat)
    requires LengthForm(v, space, sign, digits, rest) && NoNul(v) && i < |v|
    ensures IsCSpace(v[i]) || v[i] == '+' || v[i] == '-' || 48 <= v[i] as int <= 57
  {
    if rest != "" { RestStarts(space + sign + digits, rest); }
  }

  /** A stray byte anywhere makes a value malformed, as in "12abc" or "5, 5". */
  lemma StrayRefused(v: string, i: nat)
    requires i < |v| && NoNul(v) && !IsCSpace(v[i]) && v[i] != '+' && v[i] != '-' && !(48 <= v[i] as int <= 57)
    ensures ParseLength(v).None?
  {
    hide ParseLength, LengthForm;
    MalformedIff(v);
    forall space, sign, digits, rest | LengthForm(v, space, sign, digits, rest) ensures false {
      EveryByte(v, space, sign, digits, rest, i);
    }
  }
}
