/** What each parsing function of src/json.cpp computes from the text that is left. The class in
    JsonParser.dfy is proved equal to these functions. */
module JsonSpec {
  import opened Wrappers
  import opened Text
  import opened Unicode
  import opened JsonSyntax

  /** A value and the text left behind it, or failure. */
  datatype Parsed<+T> = Ok(v: T, rest: string) | Bad

  predicate Starts(s: string, c: char) { s != "" && s[0] == c }

  function SkipWs(s: string): (r: string)
    ensures |r| <= |s|
  {
    if s != "" && IsWs(s[0]) then SkipWs(s[1..]) else s
  }

  // ---- literals and numbers ----

  function ParseLiteral(s: string, literal: string, v: Json): (r: Parsed<Json>)
    ensures r.Ok? ==> |r.rest| == |s| - |literal|
  {
    if literal <= s then Ok(v, s[|literal|..]) else Bad
  }

  /** The position behind the digits that start at `i`. */
  function DigitsEnd(s: string, i: nat): (e: nat)
    requires i <= |s|
    ensures i <= e <= |s|
    decreases |s| - i
  {
    if i < |s| && IsDigit(s[i]) then DigitsEnd(s, i + 1) else i
  }

  function SignEnd(s: string, i: nat): (e: nat)
    requires i <= |s|
    ensures i <= e <= |s|
  {
    if i < |s| && (s[i] == '-' || s[i] == '+') then i + 1 else i
  }

  function PointEnd(s: string, i: nat): (e: nat)
    requires i <= |s|
    ensures i <= e <= |s|
  {
    if i < |s| && s[i] == '.' then DigitsEnd(s, i + 1) else i
  }

  function ExponentEnd(s: string, i: nat): (e: nat)
    requires i <= |s|
    ensures i <= e <= |s|
  {
    if i < |s| && (s[i] == 'e' || s[i] == 'E') then DigitsEnd(s, SignEnd(s, i + 1)) else i
  }

  function NumberEnd(s: string): (e: nat)
    ensures SignEnd(s, 0) <= DigitsEnd(s, SignEnd(s, 0)) <= e <= |s|
  {
    ExponentEnd(s, PointEnd(s, DigitsEnd(s, SignEnd(s, 0))))
  }

  function ParseNumber(s: string, inRange: string -> bool): (r: Parsed<Json>)
    ensures r.Ok? ==> |r.rest| < |s|
  {
    if DigitsEnd(s, SignEnd(s, 0)) == SignEnd(s, 0) then Bad
    else if inRange(s[..NumberEnd(s)]) then Ok(Num(s[..NumberEnd(s)]), s[NumberEnd(s)..])
    else Bad
  }

  // ---- strings ----

  function ParseHex4(s: string): Option<nat> {
    if |s| >= 4 && IsHex4(s[..4]) then Some(Hex4Value(s[..4])) else None
  }

  /** The low half of a surrogate pair, if the text continues with one. */
  function LowAhead(s: string): Option<nat> {
    if |s| >= 2 && s[0] == '\\' && s[1] == 'u' then
      match ParseHex4(s[2..])
      case Some(low) => if IsLow(low) then Some(low) else None
      case None => None
    else None
  }

  /** The rest of a string whose first bytes are already in `acc`. */
  function ParseBody(s: string, acc: string): (r: Parsed<string>)
    ensures r.Ok? ==> |r.rest| < |s|
    decreases |s|
  {
    if s == "" then Bad
    else if s[0] == '"' then Ok(acc, s[1..])
    else if s[0] != '\\' then ParseBody(s[1..], acc + [s[0]])
    else if |s| < 2 then Bad
    else if s[1] in SHORT_ESCAPES then ParseBody(s[2..], acc + [Unescape(s[1])])
    else if s[1] != 'u' then Bad
    else match ParseHex4(s[2..])
      case None => Bad
      case Some(cp) =>
        if IsHigh(cp) && LowAhead(s[6..]).Some? then
          ParseBody(s[12..], acc + Utf8(PairValue(cp, LowAhead(s[6..]).value)))
        else
          ParseBody(s[6..], acc + Utf8(cp))
  }

  function ParseString(s: string): (r: Parsed<string>)
    ensures r.Ok? ==> |r.rest| < |s|
  {
    if Starts(s, '"') then ParseBody(s[1..], "") else Bad
  }

  // ---- values ----

  function ParseValue(s: string, d: nat, inRange: string -> bool): (r: Parsed<Json>)
    ensures r.Ok? ==> |r.rest| < |s|
    decreases |s|, 1
  {
    if d > MAX_DEPTH || s == "" then Bad
    else match s[0]
      case '{' => ParseObject(s, d, inRange)
      case '[' => ParseArray(s, d, inRange)
      case '"' => (match ParseString(s) case Ok(v, rest) => Ok(Str(v), rest) case Bad => Bad)
      case 't' => ParseLiteral(s, "true", Bool(true))
      case 'f' => ParseLiteral(s, "false", Bool(false))
      case 'n' => ParseLiteral(s, "null", Null)
      case _ => ParseNumber(s, inRange)
  }

  function ParseArray(s: string, d: nat, inRange: string -> bool): (r: Parsed<Json>)
    requires Starts(s, '[')
    ensures r.Ok? ==> |r.rest| < |s|
    decreases |s|, 0
  {
    var s1 := SkipWs(s[1..]);
    if Starts(s1, ']') then Ok(Arr([]), s1[1..]) else ParseElems(s1, d, [], inRange)
  }

  /** The array loop, with `acc` already read. */
  function ParseElems(s: string, d: nat, acc: seq<Json>, inRange: string -> bool): (r: Parsed<Json>)
    ensures r.Ok? ==> |r.rest| < |s|
    decreases |s|, 2
  {
    match ParseValue(SkipWs(s), d + 1, inRange)
    case Bad => Bad
    case Ok(v, rest) =>
      var s1 := SkipWs(rest);
      if Starts(s1, ',') then ParseElems(s1[1..], d, acc + [v], inRange)
      else if Starts(s1, ']') then Ok(Arr(acc + [v]), s1[1..])
      else Bad
  }

  function ParseObject(s: string, d: nat, inRange: string -> bool): (r: Parsed<Json>)
    requires Starts(s, '{')
    ensures r.Ok? ==> |r.rest| < |s|
    decreases |s|, 0
  {
    var s1 := SkipWs(s[1..]);
    if Starts(s1, '}') then Ok(Obj(map[]), s1[1..]) else ParseMembers(s1, d, map[], inRange)
  }

  /** The text behind a key and its colon. */
  function ParseKey(s: string): (r: Parsed<string>)
    ensures r.Ok? ==> |r.rest| < |s|
  {
    match ParseString(SkipWs(s))
    case Bad => Bad
    case Ok(key, rest) =>
      var s1 := SkipWs(rest);
      if Starts(s1, ':') then Ok(key, SkipWs(s1[1..])) else Bad
  }

  /** The object loop, with `acc` already read. */
  function ParseMembers(s: string, d: nat, acc: map<string, Json>, inRange: string -> bool): (r: Parsed<Json>)
    ensures r.Ok? ==> |r.rest| < |s|
    decreases |s|, 2
  {
    match ParseKey(s)
    case Bad => Bad
    case Ok(key, text) =>
      match ParseValue(text, d + 1, inRange)
      case Bad => Bad
      case Ok(v, rest) =>
        var s1 := SkipWs(rest);
        if Starts(s1, ',') then ParseMembers(s1[1..], d, acc[key := v], inRange)
        else if Starts(s1, '}') then Ok(Obj(acc[key := v]), s1[1..])
        else Bad
  }

  /** `JsonParser::parse`: one value and nothing behind it but white space. */
  function Parse(text: string, inRange: string -> bool): Option<Json> {
    match ParseValue(SkipWs(text), 0, inRange)
    case Bad => None
    case Ok(v, rest) => if SkipWs(rest) == "" then Some(v) else None
  }
}
