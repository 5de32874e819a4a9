/** Byte strings. A C++ `char` is modelled by a Dafny `char`; only codes 0 to 255 occur in the source,
    so what is proved over all characters covers them. */
module Wrappers {
  datatype Option<+T> = None | Some(value: T)
}

module Text {
  import opened Wrappers

  const CRLF: string := "\r\n"
  const BLANK_LINE: string := "\r\n\r\n"

  /** `pat` occurs in `s` at position `i`. */
  predicate At(s: string, pat: string, i: nat) {
    i + |pat| <= |s| && s[i..i + |pat|] == pat
  }

  /** `std::string::find`: the first occurrence at or after `from`. */
  function Find(s: string, pat: string, from: nat): (r: Option<nat>)
    ensures r.Some? ==> from <= r.value && r.value + |pat| <= |s|
    decreases |s| - from
  {
    if from + |pat| > |s| then None
    else if At(s, pat, from) then Some(from)
    else Find(s, pat, from + 1)
  }

  lemma {:induction false} FindHits(s: string, pat: string, from: nat)
    requires Find(s, pat, from).Some?
    ensures At(s, pat, Find(s, pat, from).value)
    decreases |s| - from
  {
    if !At(s, pat, from) { FindHits(s, pat, from + 1); }
  }

  /** The occurrence found is the first one; nothing is found only if there is none. */
  lemma {:induction false} FindFirst(s: string, pat: string, from: nat, i: nat)
    requires from <= i && At(s, pat, i)
    ensures Find(s, pat, from).Some? && Find(s, pat, from).value <= i
    decreases |s| - from
  {
    if !At(s, pat, from) { FindFirst(s, pat, from + 1, i); }
  }

  /** Appending bytes never moves an occurrence that was already complete. */
  lemma {:induction false} FindExtends(s: string, t: string, pat: string, from: nat)
    requires Find(s, pat, from).Some?
    ensures Find(s + t, pat, from) == Find(s, pat, from)
    decreases |s| - from
  {
    assert (s + t)[from..from + |pat|] == s[from..from + |pat|];
    if !At(s, pat, from) { FindExtends(s, t, pat, from + 1); }
  }

  /** An occurrence inside the first part is found there too. */
  lemma FindShrinks(s: string, t: string, pat: string, i: nat)
    requires Find(s + t, pat, 0) == Some(i) && i + |pat| <= |s|
    ensures Find(s, pat, 0) == Some(i)
  {
    FindHits(s + t, pat, 0);
    assert (s + t)[i..i + |pat|] == s[i..i + |pat|];
    FindFirst(s, pat, 0, i);
    FindExtends(s, t, pat, 0);
  }

  /** Searching behind a prefix is searching the rest. */
  lemma {:induction false} FindBehind(pre: string, s: string, pat: string, i: nat, from: nat)
    requires from == |pre| + i
    ensures Find(s, pat, i).None? ==> Find(pre + s, pat, from).None?
    ensures Find(s, pat, i).Some? ==> Find(pre + s, pat, from) == Some(|pre| + Find(s, pat, i).value)
    decreases |s| - i
  {
    if i + |pat| <= |s| {
      assert (pre + s)[from..from + |pat|] == s[i..i + |pat|];
      if !At(s, pat, i) { FindBehind(pre, s, pat, i + 1, from + 1); }
    }
  }

  /** An occurrence is the first one if nothing earlier matches. */
  lemma FindIs(s: string, pat: string, from: nat, i: nat)
    requires from <= i && At(s, pat, i)
    requires forall j: nat :: from <= j < i ==> !At(s, pat, j)
    ensures Find(s, pat, from) == Some(i)
  {
    FindFirst(s, pat, from, i);
    FindHits(s, pat, from);
  }

  /** `needle` occurs somewhere in `haystack`. */
  predicate Occurs(needle: string, haystack: string) {
    exists i :: 0 <= i <= |haystack| && At(haystack, needle, i)
  }

  lemma FindIffOccurs(haystack: string, needle: string)
    ensures Find(haystack, needle, 0).Some? <==> Occurs(needle, haystack)
  {
    if Find(haystack, needle, 0).Some? { FindHits(haystack, needle, 0); }
    forall i | 0 <= i <= |haystack| && At(haystack, needle, i) ensures Find(haystack, needle, 0).Some? {
      FindFirst(haystack, needle, 0, i);
    }
  }

  /** A text that does not contain the first character of a pattern does not contain the pattern. */
  lemma NotFound(s: string, pat: string)
    requires pat != "" && forall i :: 0 <= i < |s| ==> s[i] != pat[0]
    ensures Find(s, pat, 0).None?
  {
    hide Find;
    if Find(s, pat, 0).Some? { FirstMatches(s, pat, Find(s, pat, 0).value); }
  }

  lemma FirstMatches(s: string, pat: string, i: nat)
    requires pat != "" && Find(s, pat, 0) == Some(i)
    ensures s[i] == pat[0]
  {
    hide Find;
    FindHits(s, pat, 0);
    assert s[i] == s[i..i + |pat|][0];
  }

  /** The first character that could start a pattern, and does. */
  lemma FoundAfter(before: string, rest: string, pat: string)
    requires pat != "" && pat <= rest && forall i :: 0 <= i < |before| ==> before[i] != pat[0]
    ensures Find(before + rest, pat, 0) == Some(|before|)
  {
    hide Find;
    var s := before + rest;
    assert s[|before|..|before| + |pat|] == pat;
    forall j: nat | j < |before| ensures !At(s, pat, j) {
      assert s[j] == before[j];
    }
    FindIs(s, pat, 0, |before|);
  }

  predicate IsDigit(c: char) { '0' <= c <= '9' }

  predicate IsHex(c: char) { '0' <= c <= '9' || 'a' <= c <= 'f' || 'A' <= c <= 'F' }

  predicate AllHex(s: string) { forall i :: 0 <= i < |s| ==> IsHex(s[i]) }

  function HexDigit(c: char): (d: nat)
    requires IsHex(c)
    ensures d < 16
  {
    if '0' <= c <= '9' then (c - '0') as nat
    else if 'a' <= c <= 'f' then (c - 'a') as nat + 10
    else (c - 'A') as nat + 10
  }

  /** The value of a run of hexadecimal digits, most significant first. */
  function HexValue(s: string): nat
    requires AllHex(s)
  {
    if s == "" then 0 else 16 * HexValue(s[..|s| - 1]) + HexDigit(s[|s| - 1])
  }

  predicate AllDigits(s: string) { forall i :: 0 <= i < |s| ==> IsDigit(s[i]) }

  function DigitValue(c: char): nat
    requires IsDigit(c)
  {
    (c - '0') as nat
  }

  /** The value of a run of decimal digits, most significant first. */
  function DecValue(s: string): nat
    requires AllDigits(s)
  {
    if s == "" then 0 else 10 * DecValue(s[..|s| - 1]) + DigitValue(s[|s| - 1])
  }

  /** `std::to_string` of a non-negative number. */
  function ToDecimal(n: nat): (s: string)
    ensures s != "" && AllDigits(s)
    decreases n
  {
    if n < 10 then [Digit(n)] else ToDecimal(n / 10) + [Digit(n % 10)]
  }

  function Digit(n: nat): (c: char)
    requires n < 10
    ensures IsDigit(c) && DigitValue(c) == n
  {
    '0' + n as char
  }

  lemma {:induction false} DecimalRoundTrip(n: nat)
    ensures DecValue(ToDecimal(n)) == n
  {
    var s := ToDecimal(n);
    if n < 10 {
      assert s[..0] == "";
    } else {
      DecimalRoundTrip(n / 10);
      assert s[..|s| - 1] == ToDecimal(n / 10);
    }
  }

  // ---- what the character tables mean ----

  const LOWER_HEX: string := "0123456789abcdef"
  const UPPER_HEX: string := "0123456789ABCDEF"

  /** A hexadecimal digit is one of sixteen, in either case, and its value is its place. */
  lemma HexPlaces(c: char, k: nat)
    ensures IsHex(c) <==> exists i :: 0 <= i < 16 && (LOWER_HEX[i] == c || UPPER_HEX[i] == c)
    ensures k < 16 && (LOWER_HEX[k] == c || UPPER_HEX[k] == c) ==> IsHex(c) && HexDigit(c) == k
  {
    if IsHex(c) { assert LOWER_HEX[HexDigit(c)] == c || UPPER_HEX[HexDigit(c)] == c; }
  }

  /** A number in hexadecimal. */
  function ToHex(n: nat): (s: string)
    ensures s != "" && AllHex(s)
    decreases n
  {
    if n < 16 then [LOWER_HEX[n]] else ToHex(n / 16) + [LOWER_HEX[n % 16]]
  }

  lemma {:induction false} HexRoundTrip(n: nat)
    ensures HexValue(ToHex(n)) == n
    decreases n
  {
    var s := ToHex(n);
    HexPlaces(LOWER_HEX[n % 16], n % 16);
    if n < 16 {
      assert s[..0] == "";
    } else {
      HexRoundTrip(n / 16);
      assert s[..|s| - 1] == ToHex(n / 16);
    }
  }

  /** The decimal numeral of a number starts with no superfluous zero. */
  lemma {:induction false} NoLeadingZero(n: nat)
    ensures n > 0 ==> ToDecimal(n)[0] != '0'
    ensures n < 10 ==> |ToDecimal(n)| == 1
    decreases n
  {
    if n >= 10 { NoLeadingZero(n / 10); }
  }

  function ToLower(c: char): char {
    if 'A' <= c <= 'Z' then c - 'A' + 'a' else c
  }

  function Lower(s: string): (r: string)
    ensures |r| == |s|
    ensures forall i :: 0 <= i < |s| ==> r[i] == ToLower(s[i])
  {
    seq(|s|, i requires 0 <= i < |s| => ToLower(s[i]))
  }

  /** The same letter in either case, or the same other character. */
  predicate SameLetter(c: char, d: char) {
    || c == d
    || (65 <= c as int <= 90 && d as int == c as int + 32)
    || (65 <= d as int <= 90 && c as int == d as int + 32)
  }

  /** Case folding identifies exactly the two cases of the 26 letters. */
  lemma LowerIffSame(s: string, t: string)
    ensures Lower(s) == Lower(t) <==> |s| == |t| && forall i :: 0 <= i < |s| ==> SameLetter(s[i], t[i])
  {
    if Lower(s) == Lower(t) {
      forall i | 0 <= i < |s| ensures SameLetter(s[i], t[i]) {
        assert Lower(s)[i] == Lower(t)[i];
      }
    }
  }

  /** The pieces of a split, in order. */
  function Concat(ds: seq<string>): string {
    if ds == [] then "" else Concat(ds[..|ds| - 1]) + ds[|ds| - 1]
  }
}
