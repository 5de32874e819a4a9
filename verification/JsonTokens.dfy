/** White space, numbers and strings: each token parser reads exactly the well-formed tokens. */
module JsonTokens {
  import opened Wrappers
  import opened Text
  import opened Unicode
  import opened JsonSyntax
  import opened JsonSpec

  // ---- white space ----

  predicate Inked(s: string) { s == "" || !IsWs(s[0]) }

  lemma {:induction false} SkipWsSound(s: string) returns (ws: string)
    ensures AllWs(ws) && s == ws + SkipWs(s) && Inked(SkipWs(s))
  {
    if s != "" && IsWs(s[0]) {
      var rest := SkipWsSound(s[1..]);
      ws := [s[0]] + rest;
    } else {
      ws := "";
    }
  }

  lemma {:induction false} SkipWsComplete(ws: string, s: string)
    requires AllWs(ws) && Inked(s)
    ensures SkipWs(ws + s) == s
  {
    if ws == "" {
      assert ws + s == s;
    } else {
      assert (ws + s)[1..] == ws[1..] + s;
      SkipWsComplete(ws[1..], s);
    }
  }

  lemma SkipWsTwice(s: string)
    ensures SkipWs(SkipWs(s)) == SkipWs(s)
  {
    var ws := SkipWsSound(s);
    assert "" + SkipWs(s) == SkipWs(s);
    SkipWsComplete("", SkipWs(s));
  }

  // ---- numbers ----

  /** What may follow a value: it cannot prolong a number. */
  predicate Delimited(post: string) {
    post == "" || IsWs(post[0]) || post[0] == ',' || post[0] == ']' || post[0] == '}'
  }

  lemma {:induction false} DigitsEndSound(s: string, i: nat)
    requires i <= |s|
    ensures AllDigits(s[i..DigitsEnd(s, i)])
    ensures DigitsEnd(s, i) < |s| ==> !IsDigit(s[DigitsEnd(s, i)])
    decreases |s| - i
  {
    if i < |s| && IsDigit(s[i]) {
      DigitsEndSound(s, i + 1);
      assert s[i..DigitsEnd(s, i)] == [s[i]] + s[i + 1..DigitsEnd(s, i)];
    }
  }

  lemma {:induction false} DigitsEndComplete(s: string, i: nat, e: nat)
    requires i <= e <= |s| && AllDigits(s[i..e]) && (e < |s| ==> !IsDigit(s[e]))
    ensures DigitsEnd(s, i) == e
    decreases e - i
  {
    if i < e {
      assert s[i..e][0] == s[i] && s[i..e][1..] == s[i + 1..e];
      DigitsEndComplete(s, i + 1, e);
    }
  }

  lemma NumberSound(s: string) returns (n: Number)
    requires DigitsEnd(s, SignEnd(s, 0)) > SignEnd(s, 0)
    ensures n.Valid() && n.Text() == s[..NumberEnd(s)]
  {
    hide DigitsEnd, ExponentEnd, PointEnd;
    var i0 := SignEnd(s, 0);
    var i1 := DigitsEnd(s, i0);
    DigitsEndSound(s, i0);
    var point, frac := PointSound(s, i1);
    var i2 := PointEnd(s, i1);
    var e, esign, exp := ExponentSound(s, i2);
    n := Number.Number(s[..i0], s[i0..i1], point, frac, e, esign, exp);
    ThreeParts(s, i0, i1, i2, NumberEnd(s));
  }

  lemma ThreeParts(s: string, i0: nat, i1: nat, i2: nat, i3: nat)
    requires i0 <= i1 <= i2 <= i3 <= |s|
    ensures s[..i3] == s[..i0] + (s[i0..i1] + (s[i1..i2] + s[i2..i3]))
  {
  }

  lemma PointSound(s: string, i: nat) returns (point: bool, frac: string)
    requires i <= |s|
    ensures AllDigits(frac) && (point || frac == "")
    ensures s[i..PointEnd(s, i)] == if point then "." + frac else ""
  {
    point, frac := i < |s| && s[i] == '.', "";
    if point {
      DigitsEndSound(s, i + 1);
      frac := s[i + 1..PointEnd(s, i)];
    }
  }

  lemma ExponentSound(s: string, i: nat) returns (e: string, sign: string, exp: string)
    requires i <= |s|
    ensures (e == "" || e == "e" || e == "E") && Sign(sign) && AllDigits(exp) && (e == "" ==> sign == "" && exp == "")
    ensures s[i..ExponentEnd(s, i)] == e + (sign + exp)
  {
    e, sign, exp := "", "", "";
    if i < |s| && (s[i] == 'e' || s[i] == 'E') {
      var j := SignEnd(s, i + 1);
      DigitsEndSound(s, j);
      e, sign, exp := [s[i]], s[i + 1..j], s[j..DigitsEnd(s, j)];
      assert s[i..j] == e + sign && s[i..DigitsEnd(s, j)] == s[i..j] + exp;
    }
  }

  /** Scanning a run of digits at `i`. */
  lemma DigitsAt(s: string, i: nat, digits: string, rest: string)
    requires i <= |s| && s[i..] == digits + rest && AllDigits(digits)
    requires rest != "" ==> !IsDigit(rest[0])
    ensures i + |digits| <= |s| && s[i + |digits|..] == rest && DigitsEnd(s, i) == i + |digits|
  {
    hide DigitsEnd;
    var e := i + |digits|;
    assert s[i..e] == digits && s[e..] == rest;
    assert e < |s| ==> s[e] == rest[0];
    DigitsEndComplete(s, i, e);
  }

  /** Scanning an optional sign at `i`. */
  lemma SignAt(s: string, i: nat, sign: string, rest: string)
    requires i <= |s| && s[i..] == sign + rest && Sign(sign)
    requires rest != "" ==> rest[0] != '-' && rest[0] != '+'
    ensures i + |sign| <= |s| && s[i + |sign|..] == rest && SignEnd(s, i) == i + |sign|
  {
    assert i < |s| ==> s[i] == s[i..][0];
    assert s[i + |sign|..] == rest;
  }

  /** What follows a token does not prolong its digits. */
  predicate Plain(rest: string) {
    rest != "" ==> !IsDigit(rest[0]) && rest[0] != '-' && rest[0] != '+' && rest[0] != '.'
  }

  lemma Append3(a: string, b: string, c: string, post: string)
    ensures a + (b + c) + post == a + (b + (c + post))
  {
  }

  lemma Append4(a: string, b: string, c: string, d: string, post: string)
    ensures a + (b + (c + d)) + post == a + (b + (c + (d + post)))
  {
    Append3(b, c, d, post);
    assert a + (b + (c + d)) + post == a + (b + (c + d) + post);
  }

  lemma ExponentIsPlain(n: Number, post: string)
    requires n.Valid() && Delimited(post)
    ensures n.ExponentPart() + post == n.e + (n.esign + (n.exp + post))
    ensures |n.ExponentPart()| == |n.e| + |n.esign| + |n.exp|
    ensures Plain(n.ExponentPart() + post)
  {
    Append3(n.e, n.esign, n.exp, post);
  }

  lemma TextWith(n: Number, post: string)
    ensures n.Text() + post == n.sign + (n.digits + (n.PointPart() + (n.ExponentPart() + post)))
    ensures |n.Text()| == |n.sign| + |n.digits| + |n.PointPart()| + |n.ExponentPart()|
  {
    hide Number.PointPart, Number.ExponentPart;
    Append4(n.sign, n.digits, n.PointPart(), n.ExponentPart(), post);
  }

  lemma DigitsThenPoint(n: Number, tail: string)
    requires n.Valid() && Plain(tail)
    ensures var rest := n.PointPart() + tail;
      && (rest != "" ==> !IsDigit(rest[0]))
      && (n.digits + rest)[0] != '-' && (n.digits + rest)[0] != '+'
  {
    assert IsDigit(n.digits[0]);
  }

  lemma NumberStarts(n: Number, s: string, tail: string)
    requires n.Valid() && Plain(tail) && s == n.sign + (n.digits + (n.PointPart() + tail))
    ensures SignEnd(s, 0) == |n.sign| && DigitsEnd(s, |n.sign|) == |n.sign| + |n.digits| <= |s|
    ensures s[|n.sign| + |n.digits|..] == n.PointPart() + tail
  {
    hide DigitsEnd, SignEnd, Number.PointPart;
    var rest := n.PointPart() + tail;
    DigitsThenPoint(n, tail);
    assert s[0..] == s;
    SignAt(s, 0, n.sign, n.digits + rest);
    DigitsAt(s, |n.sign|, n.digits, rest);
  }

  lemma NumberComplete(n: Number, post: string)
    requires n.Valid() && Delimited(post)
    ensures NumberEnd(n.Text() + post) == |n.Text()|
    ensures SignEnd(n.Text() + post, 0) == |n.sign|
    ensures DigitsEnd(n.Text() + post, |n.sign|) == |n.sign| + |n.digits|
  {
    hide DigitsEnd, SignEnd, PointEnd, ExponentEnd, Number.ExponentPart, Number.PointPart, Number.Text, Number.Valid,
      Delimited, Plain;
    var tail := n.ExponentPart() + post;
    var s := n.Text() + post;
    TextWith(n, post);
    ExponentIsPlain(n, post);
    NumberStarts(n, s, tail);
    PointAt(n, s, |n.sign| + |n.digits|, tail);
    ExponentAt(n, s, |n.sign| + |n.digits| + |n.PointPart()|, post);
  }

  lemma PointAt(n: Number, s: string, i: nat, rest: string)
    requires n.Valid() && i <= |s| && s[i..] == n.PointPart() + rest && Plain(rest)
    ensures var e := i + |n.PointPart()|;
      e <= |s| && s[e..] == rest && PointEnd(s, i) == e
  {
    assert i < |s| ==> s[i] == s[i..][0];
    if n.point {
      assert s[i + 1..] == n.frac + rest;
      DigitsAt(s, i + 1, n.frac, rest);
    } else {
      assert s[i..] == rest;
    }
  }

  lemma TailAt(s: string, i: nat, c: char, rest: string)
    requires i <= |s| && s[i..] == [c] + rest
    ensures i < |s| && s[i] == c && s[i + 1..] == rest
  {
    assert s[i] == s[i..][0];
  }

  lemma NoExponentAt(s: string, i: nat, post: string)
    requires Delimited(post) && i <= |s| && s[i..] == post
    ensures ExponentEnd(s, i) == i
  {
    if post != "" { TailAt(s, i, post[0], post[1..]); }
  }

  lemma SomeExponentAt(e: char, sign: string, digits: string, s: string, i: nat, post: string)
    requires (e == 'e' || e == 'E') && Sign(sign) && AllDigits(digits) && Delimited(post)
    requires i <= |s| && s[i..] == [e] + (sign + (digits + post))
    ensures ExponentEnd(s, i) == i + 1 + |sign| + |digits|
  {
    hide DigitsEnd, SignEnd, Sign;
    TailAt(s, i, e, sign + (digits + post));
    SignAt(s, i + 1, sign, digits + post);
    DigitsAt(s, i + 1 + |sign|, digits, post);
  }

  lemma ExponentAt(n: Number, s: string, i: nat, post: string)
    requires n.Valid() && Delimited(post) && i <= |s| && s[i..] == n.e + (n.esign + (n.exp + post))
    ensures ExponentEnd(s, i) == i + |n.e| + |n.esign| + |n.exp|
  {
    hide ExponentEnd, Delimited, Sign;
    if n.e == "" {
      assert s[i..] == post;
      NoExponentAt(s, i, post);
    } else {
      assert n.e == [n.e[0]];
      SomeExponentAt(n.e[0], n.esign, n.exp, s, i, post);
    }
  }

  // ---- strings ----

  lemma Hex4Sound(s: string)
    requires ParseHex4(s).Some?
    ensures IsHex4(s[..4]) && ParseHex4(s) == Some(HexValue(s[..4])) && s == s[..4] + s[4..]
  {
  }

  lemma Hex4Complete(h: string, rest: string)
    requires IsHex4(h)
    ensures ParseHex4(h + rest) == Some(HexValue(h)) && (h + rest)[4..] == rest
  {
    assert (h + rest)[..4] == h;
  }

  /** A low surrogate escape is seen ahead exactly when the next piece is one. */
  lemma LowAheadOfItems(items: seq<Item>, rest: string)
    requires ItemsValid(items)
    ensures LowAhead(ItemsText(items) + "\"" + rest).Some? <==> items != [] && items[0].LowUnit()
  {
    hide HexValue;
    if items != [] {
      var tail := ItemsText(items[1..]) + "\"" + rest;
      assert ItemsText(items) + "\"" + rest == items[0].Text() + tail;
      LowAheadOfItem(items[0], tail);
    }
  }

  lemma LowAheadOfItem(item: Item, tail: string)
    requires item.Valid()
    ensures LowAhead(item.Text() + tail).Some? <==> item.LowUnit()
  {
    hide HexValue, ParseHex4;
    match item
    case Raw(c) =>
    case Short(e) =>
    case Unit(h) => LowAheadOfUnit(h, tail);
    case Pair(hi, lo) =>
      LowAheadOfUnit(hi, "\\u" + lo + tail);
      PairText(hi, lo, tail);
  }

  lemma PairText(hi: string, lo: string, tail: string)
    ensures Pair(hi, lo).Text() + tail == "\\u" + hi + ("\\u" + lo + tail)
  {
  }

  lemma LowAheadOfUnit(h: string, rest: string)
    requires IsHex4(h)
    ensures LowAhead("\\u" + h + rest) == if IsLow(HexValue(h)) then Some(HexValue(h)) else None
  {
    hide HexValue;
    var s := "\\u" + h + rest;
    assert s[2..] == h + rest;
    Hex4Complete(h, rest);
  }

  lemma SplitItems(items: seq<Item>, post: string)
    requires items != [] && ItemsValid(items)
    ensures ItemsText(items) + "\"" + post == items[0].Text() + (ItemsText(items[1..]) + "\"" + post)
    ensures ItemsValid(items[1..]) && ItemsValue(items) == items[0].Value() + ItemsValue(items[1..])
    ensures items[0].HighUnit() ==> LowAhead(ItemsText(items[1..]) + "\"" + post).None?
  {
    hide LowAhead, Item.Text, Item.Value, Item.HighUnit, Item.LowUnit;
    LowAheadOfItems(items[1..], post);
    if |items| > 1 { assert items[1] == items[1..][0]; }
  }

  lemma BodyEnds(acc: string, post: string)
    ensures ParseBody("\"" + post, acc) == Ok(acc, post)
  {
    assert ("\"" + post)[1..] == post;
  }

  lemma {:induction false} BodyComplete(items: seq<Item>, acc: string, post: string)
    requires ItemsValid(items)
    ensures ParseBody(ItemsText(items) + "\"" + post, acc) == Ok(acc + ItemsValue(items), post)
    decreases |items|
  {
    if items == [] {
      assert ItemsText(items) + "\"" + post == "\"" + post && acc + "" == acc;
      BodyEnds(acc, post);
    } else {
      hide ParseBody, LowAhead, Item.Valid, Item.Text, Item.Value, Item.HighUnit, ItemsText, ItemsValue, ItemsValid;
      SplitItems(items, post);
      var rest := ItemsText(items[1..]) + "\"" + post;
      ReadItem(items[0], rest, acc);
      BodyComplete(items[1..], acc + items[0].Value(), post);
      assert acc + items[0].Value() + ItemsValue(items[1..]) == acc + (items[0].Value() + ItemsValue(items[1..]));
    }
  }

  /** One piece is read as a whole, provided it cannot pair with what follows. */
  lemma ReadItem(item: Item, rest: string, acc: string)
    requires item.Valid() && (item.HighUnit() ==> LowAhead(rest).None?)
    ensures ParseBody(item.Text() + rest, acc) == ParseBody(rest, acc + item.Value())
  {
    hide HexValue, Utf8, LowAhead;
    var s := item.Text() + rest;
    match item
    case Raw(c) =>
      assert s[1..] == rest;
    case Short(e) =>
      assert s[2..] == rest;
    case Unit(h) =>
      ReadUnit(h, rest, acc);
    case Pair(hi, lo) =>
      ReadPair(hi, lo, rest, acc);
  }

  lemma ReadUnit(h: string, rest: string, acc: string)
    requires IsHex4(h) && (IsHigh(HexValue(h)) ==> LowAhead(rest).None?)
    ensures ParseBody("\\u" + h + rest, acc) == ParseBody(rest, acc + Utf8(Hex4Value(h)))
  {
    hide HexValue, Utf8, LowAhead, ParseHex4;
    var s := "\\u" + h + rest;
    assert s[2..] == h + rest && s[6..] == rest;
    Hex4Complete(h, rest);
  }

  lemma ReadPair(hi: string, lo: string, rest: string, acc: string)
    requires Pair(hi, lo).Valid()
    ensures ParseBody(Pair(hi, lo).Text() + rest, acc) == ParseBody(rest, acc + Pair(hi, lo).Value())
  {
    hide HexValue, Utf8, LowAhead;
    var s, ahead := Pair(hi, lo).Text() + rest, "\\u" + lo + rest;
    assert s == "\\u" + hi + ahead;
    assert s[2..] == hi + ahead && s[6..] == ahead && s[12..] == rest;
    Hex4Complete(hi, ahead);
    LowAheadOfUnit(lo, rest);
  }

  /** `items` spell the text that a run of the loop consumed and the value it added. */
  predicate Spells(items: seq<Item>, s: string, acc: string, r: Parsed<string>) {
    && ItemsValid(items) && r.Ok?
    && s == ItemsText(items) + "\"" + r.rest && r.v == acc + ItemsValue(items)
  }

  lemma {:induction false} BodySound(s: string, acc: string) returns (items: seq<Item>)
    requires ParseBody(s, acc).Ok?
    ensures Spells(items, s, acc, ParseBody(s, acc))
    decreases |s|
  {
    hide Spells, ParseBody, LowAhead, Item.Text, Item.Value;
    if s != "" && s[0] == '"' {
      items := [];
      SpellsNothing(s, acc);
    } else {
      var item := FirstItem(s, acc);
      var tail := s[|item.Text()|..];
      var rest := BodySound(tail, acc + item.Value());
      items := [item] + rest;
      SpellsMore(item, rest, tail, acc, ParseBody(s, acc));
      assert s == item.Text() + tail;
    }
  }

  lemma SpellsNothing(s: string, acc: string)
    requires Starts(s, '"')
    ensures Spells([], s, acc, ParseBody(s, acc))
  {
    assert acc + "" == acc && s == "" + "\"" + s[1..];
  }

  lemma SpellsMore(item: Item, rest: seq<Item>, tail: string, acc: string, r: Parsed<string>)
    requires item.Valid() && (item.HighUnit() ==> LowAhead(tail).None?)
    requires Spells(rest, tail, acc + item.Value(), r)
    ensures Spells([item] + rest, item.Text() + tail, acc, r)
  {
    hide LowAhead, Item.Text, Item.Value;
    PrependItem(item, rest, r.rest);
    Join3(item.Text(), ItemsText(rest), "\"", r.rest);
    assert acc + item.Value() + ItemsValue(rest) == acc + (item.Value() + ItemsValue(rest));
  }

  lemma Join3(a: string, b: string, c: string, d: string)
    ensures a + (b + c + d) == a + b + c + d
  {
  }

  /** A piece before well-formed pieces that it does not pair with. */
  lemma PrependItem(item: Item, rest: seq<Item>, post: string)
    requires item.Valid() && ItemsValid(rest)
    requires item.HighUnit() ==> LowAhead(ItemsText(rest) + "\"" + post).None?
    ensures ItemsValid([item] + rest)
    ensures ItemsText([item] + rest) == item.Text() + ItemsText(rest)
    ensures ItemsValue([item] + rest) == item.Value() + ItemsValue(rest)
  {
    hide LowAhead, HexValue, Utf8, IsHigh, IsLow;
    LowAheadOfItems(rest, post);
    assert ([item] + rest)[1..] == rest;
  }

  /** The piece that the next step of the loop reads. */
  lemma FirstItem(s: string, acc: string) returns (item: Item)
    requires ParseBody(s, acc).Ok? && !Starts(s, '"')
    ensures item.Valid() && |item.Text()| > 0 && item.Text() <= s
    ensures ParseBody(s, acc) == ParseBody(s[|item.Text()|..], acc + item.Value())
    ensures item.HighUnit() ==> LowAhead(s[|item.Text()|..]).None?
  {
    hide HexValue, Utf8;
    if s[0] != '\\' {
      item := Raw(s[0]);
    } else if s[1] in SHORT_ESCAPES {
      item := Short(s[1]);
    } else {
      Hex4Sound(s[2..]);
      var h := s[2..6];
      assert s[2..][..4] == h && s == "\\u" + h + s[6..];
      if IsHigh(HexValue(h)) && LowAhead(s[6..]).Some? {
        Hex4Sound(s[8..]);
        assert s[6..][2..] == s[8..] && s[8..][..4] == s[8..12];
        item := Pair(h, s[8..12]);
        assert s == item.Text() + s[12..];
      } else {
        item := Unit(h);
      }
    }
  }

  lemma StringComplete(items: seq<Item>, post: string)
    requires ItemsValid(items)
    ensures ParseString(StringText(items) + post) == Ok(ItemsValue(items), post)
  {
    hide ParseBody, ItemsText, ItemsValue;
    var s := StringText(items) + post;
    assert s[1..] == ItemsText(items) + "\"" + post;
    BodyComplete(items, "", post);
    assert "" + ItemsValue(items) == ItemsValue(items);
  }

  lemma StringSound(s: string) returns (items: seq<Item>)
    requires ParseString(s).Ok?
    ensures ItemsValid(items) && s == StringText(items) + ParseString(s).rest
    ensures ParseString(s).v == ItemsValue(items)
  {
    hide ParseBody, ItemsText, ItemsValue;
    items := BodySound(s[1..], "");
    assert "" + ItemsValue(items) == ItemsValue(items);
    assert s == "\"" + s[1..];
  }

  lemma ParseNumberComplete(n: Number, post: string, inRange: string -> bool)
    requires n.Valid() && Delimited(post) && inRange(n.Text())
    ensures ParseNumber(n.Text() + post, inRange) == Ok(Num(n.Text()), post)
  {
    hide NumberEnd, SignEnd, DigitsEnd, Number.Text;
    NumberComplete(n, post);
    var s := n.Text() + post;
    assert s[..|n.Text()|] == n.Text() && s[|n.Text()|..] == post;
  }
}
