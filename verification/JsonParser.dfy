/** The recursive-descent parser as the source writes it: one shared cursor that every method advances, and
    containers that grow in loops. Every method is proved equal to its function in JsonSpec. */
module JsonParser {
  import opened Wrappers
  import opened Text
  import opened Unicode
  import opened JsonSyntax
  import opened JsonSpec

  /** What a method read: the specification's result, with the text left given by the cursor. */
  predicate Agrees<T(==)>(spec: Parsed<T>, r: Option<T>, left: string) {
    if spec.Bad? then r.None? else r == Some(spec.v) && left == spec.rest
  }

  class Parser {
    const text: string
    const inRange: string -> bool
    var pos: nat

    predicate Valid()
      reads this
    {
      pos <= |text|
    }

    /** The text from the cursor on. */
    function Left(): string
      requires Valid()
      reads this
    {
      text[pos..]
    }

    constructor (text: string, inRange: string -> bool)
      ensures Valid() && this.text == text && this.inRange == inRange && pos == 0
    {
      this.text, this.inRange, this.pos := text, inRange, 0;
    }

    method Parse() returns (r: Option<Json>)
      requires pos == 0
      modifies this
      ensures Valid() && r == JsonSpec.Parse(text, inRange)
    {
      assert Left() == text;
      SkipWs();
      r := ParseValue(0);
      if r.None? { return; }
      SkipWs();
      if pos != |text| { return None; }
    }

    method SkipWs()
      requires Valid()
      modifies this
      ensures Valid() && Left() == JsonSpec.SkipWs(old(Left()))
    {
      while pos < |text| && IsWs(text[pos])
        invariant Valid()
        invariant JsonSpec.SkipWs(Left()) == JsonSpec.SkipWs(old(Left()))
      {
        assert Left()[1..] == text[pos + 1..];
        pos := pos + 1;
      }
    }

    method Eat(c: char) returns (ok: bool)
      requires Valid()
      modifies this
      ensures Valid() && ok == Starts(old(Left()), c)
      ensures Left() == if ok then old(Left())[1..] else old(Left())
    {
      ok := pos < |text| && text[pos] == c;
      if ok { pos := pos + 1; }
    }

    method ParseValue(depth: nat) returns (r: Option<Json>)
      requires Valid()
      modifies this
      ensures Valid() && Agrees(JsonSpec.ParseValue(old(Left()), depth, inRange), r, Left())
      decreases |Left()|, 1
    {
      if depth > MAX_DEPTH { return None; }
      if pos >= |text| { return None; }
      match text[pos] {
        case '{' => r := ParseObject(depth);
        case '[' => r := ParseArray(depth);
        case '"' =>
          var s := ParseString();
          r := if s.None? then None else Some(Str(s.value));
        case 't' => r := ParseLiteral("true", Bool(true));
        case 'f' => r := ParseLiteral("false", Bool(false));
        case 'n' => r := ParseLiteral("null", Null);
        case _ => r := ParseNumber();
      }
    }

    method ParseLiteral(literal: string, v: Json) returns (r: Option<Json>)
      requires Valid()
      modifies this
      ensures Valid() && Agrees(JsonSpec.ParseLiteral(old(Left()), literal, v), r, Left())
    {
      if !(literal <= text[pos..]) { return None; }
      pos := pos + |literal|;
      r := Some(v);
    }

    method ParseNumber() returns (r: Option<Json>)
      requires Valid()
      modifies this
      ensures Valid() && Agrees(JsonSpec.ParseNumber(old(Left()), inRange), r, Left())
    {
      hide SignEnd, DigitsEnd, PointEnd, ExponentEnd;
      var start := pos;
      ghost var s := Left();
      SkipSign(start);
      var first := pos;
      SkipDigits(start);
      var digits := pos > first;
      SkipFraction(start);
      SkipExponent(start);
      if !digits { return None; }
      var lexeme := text[start..pos];
      assert lexeme == s[..pos - start] && Left() == s[pos - start..];
      if !inRange(lexeme) { return None; }
      r := Some(Num(lexeme));
    }

    method SkipSign(start: nat)
      requires Valid() && start <= pos
      modifies this
      ensures Valid() && pos == start + SignEnd(text[start..], old(pos) - start)
    {
      if pos < |text| && (text[pos] == '-' || text[pos] == '+') { pos := pos + 1; }
    }

    method SkipFraction(start: nat)
      requires Valid() && start <= pos
      modifies this
      ensures Valid() && pos == start + PointEnd(text[start..], old(pos) - start)
    {
      if pos < |text| && text[pos] == '.' {
        pos := pos + 1;
        SkipDigits(start);
      }
    }

    method SkipExponent(start: nat)
      requires Valid() && start <= pos
      modifies this
      ensures Valid() && pos == start + ExponentEnd(text[start..], old(pos) - start)
    {
      if pos < |text| && (text[pos] == 'e' || text[pos] == 'E') {
        pos := pos + 1;
        SkipSign(start);
        SkipDigits(start);
      }
    }

    method SkipDigits(start: nat)
      requires Valid() && start <= pos
      modifies this
      ensures Valid() && pos == start + DigitsEnd(text[start..], old(pos) - start)
    {
      ghost var s := text[start..];
      while pos < |text| && IsDigit(text[pos])
        invariant Valid() && start <= pos
        invariant DigitsEnd(s, pos - start) == DigitsEnd(s, old(pos) - start)
      {
        assert s[pos - start] == text[pos];
        pos := pos + 1;
      }
      assert pos < |text| ==> s[pos - start] == text[pos];
    }

    method ParseString() returns (r: Option<string>)
      requires Valid()
      modifies this
      ensures Valid() && Agrees(JsonSpec.ParseString(old(Left())), r, Left())
      ensures r.Some? ==> pos > old(pos)
    {
      var ok := Eat('"');
      if !ok { return None; }
      var acc := "";
      ghost var result := ParseBody(Left(), "");
      while pos < |text|
        invariant Valid() && pos > old(pos)
        invariant ParseBody(Left(), acc) == result
        decreases |text| - pos
      {
        ghost var s, acc0 := Left(), acc;
        var c := text[pos];
        pos := pos + 1;
        if c == '"' { return Some(acc); }
        if c != '\\' {
          acc := acc + [c];
          continue;
        }
        if pos >= |text| { break; }
        var piece;
        ok, piece := ReadEscape(s, acc);
        if !ok { return None; }
        acc := acc + piece;
      }
      r := None;
    }

    /** The escape behind a backslash (lines 143 to 174): the bytes it stands for. `s` is the text from
        the backslash on. */
    method ReadEscape(ghost s: string, ghost acc: string) returns (ok: bool, piece: string)
      requires pos < |text| && |s| >= 2 && s[0] == '\\' && s[1..] == Left()
      modifies this
      ensures Valid() && pos > old(pos)
      ensures if ok then ParseBody(s, acc) == ParseBody(Left(), acc + piece) else ParseBody(s, acc).Bad?
    {
      var esc := text[pos];
      pos := pos + 1;
      assert s[1] == esc && s[2..] == Left();
      if esc in SHORT_ESCAPES { return true, [Unescape(esc)]; }
      if esc != 'u' { return false, ""; }
      var cp := ReadHex4();
      if cp.None? { return false, ""; }
      assert s[6..] == Left();
      var code := cp.value;
      if IsHigh(code) && pos + 1 < |text| && text[pos] == '\\' && text[pos + 1] == 'u' {
        var save := pos;
        pos := pos + 2;
        assert s[6..][2..] == Left();
        var low := ReadHex4();
        if low.Some? && IsLow(low.value) {
          assert s[12..] == Left();
          code := PairValue(code, low.value);
        } else {
          pos := save;
          assert s[6..] == Left();
        }
      }
      return true, Utf8(code);
    }

    method ReadHex4() returns (r: Option<nat>)
      requires Valid()
      modifies this
      ensures Valid() && pos >= old(pos)
      ensures r == ParseHex4(old(Left()))
      ensures r.Some? ==> pos == old(pos) + 4 && r.value < 0x10000
    {
      if pos + 4 > |text| { return None; }
      ghost var start, h := pos, text[pos..pos + 4];
      assert Left()[..4] == h;
      var out := 0;
      for i := 0 to 4
        invariant pos == start + i && AllHex(h[..i]) && out == HexValue(h[..i])
      {
        var c := text[pos];
        pos := pos + 1;
        assert h[i] == c && h[..i + 1][..i] == h[..i] && h[..i + 1][i] == c;
        if !IsHex(c) {
          assert !AllHex(h);
          return None;
        }
        out := 16 * out + HexDigit(c);
      }
      assert h[..4] == h;
      ghost var value := Hex4Value(h);
      r := Some(out);
    }

    method ParseArray(depth: nat) returns (r: Option<Json>)
      requires Valid() && Starts(Left(), '[') && depth <= MAX_DEPTH
      modifies this
      ensures Valid() && Agrees(JsonSpec.ParseArray(old(Left()), depth, inRange), r, Left())
      decreases |Left()|, 0
    {
      var ok := Eat('[');
      SkipWs();
      ok := Eat(']');
      if ok { return Some(Arr([])); }
      ghost var result := ParseElems(Left(), depth, [], inRange);
      var arr: seq<Json> := [];
      while true
        invariant Valid() && |Left()| < old(|Left()|)
        invariant ParseElems(Left(), depth, arr, inRange) == result
        decreases |Left()|
      {
        SkipWs();
        var element := ParseValue(depth + 1);
        if element.None? { return None; }
        arr := arr + [element.value];
        SkipWs();
        ok := Eat(',');
        if ok { continue; }
        ok := Eat(']');
        return if ok then Some(Arr(arr)) else None;
      }
    }

    method ParseObject(depth: nat) returns (r: Option<Json>)
      requires Valid() && Starts(Left(), '{') && depth <= MAX_DEPTH
      modifies this
      ensures Valid() && Agrees(JsonSpec.ParseObject(old(Left()), depth, inRange), r, Left())
      decreases |Left()|, 0
    {
      var ok := Eat('{');
      SkipWs();
      ok := Eat('}');
      if ok { return Some(Obj(map[])); }
      ghost var result := ParseMembers(Left(), depth, map[], inRange);
      var obj: map<string, Json> := map[];
      while true
        invariant Valid() && |Left()| < old(|Left()|)
        invariant ParseMembers(Left(), depth, obj, inRange) == result
        decreases |Left()|
      {
        var key := ReadKey();
        if key.None? { return None; }
        var val := ParseValue(depth + 1);
        if val.None? { return None; }
        obj := obj[key.value := val.value];
        SkipWs();
        ok := Eat(',');
        if ok { continue; }
        ok := Eat('}');
        return if ok then Some(Obj(obj)) else None;
      }
    }

    /** A key, its colon and the white space around them (lines 257 to 265). */
    method ReadKey() returns (r: Option<string>)
      requires Valid()
      modifies this
      ensures Valid() && Agrees(ParseKey(old(Left())), r, Left())
    {
      SkipWs();
      r := ParseString();
      if r.None? { return; }
      SkipWs();
      var ok := Eat(':');
      if !ok { return None; }
      SkipWs();
    }
  }
}
