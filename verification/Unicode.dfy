/** UTF-8 emission and surrogate pairs (section 3 of RFC 3629, section 7 of RFC 8259). */
module Unicode {
  import opened Wrappers
  import opened Text

  /** A code point that is not a surrogate. */
  predicate IsScalar(cp: nat) { cp < 0xD800 || 0xE000 <= cp < 0x110000 }

  predicate IsHigh(cp: nat) { 0xD800 <= cp <= 0xDBFF }

  predicate IsLow(cp: nat) { 0xDC00 <= cp <= 0xDFFF }

  function Byte(n: nat): (c: char)
    requires n < 256
    ensures c as nat == n
  {
    n as char
  }

  /** `append_utf8`: the source's shifts and masks, written as division and remainder. */
  function Utf8(cp: nat): (s: string)
    requires cp < 0x110000
    ensures 1 <= |s| <= 4
  {
    if cp < 0x80 then [Byte(cp)]
    else if cp < 0x800 then [Byte(0xC0 + cp / 64), Byte(0x80 + cp % 64)]
    else if cp < 0x10000 then [Byte(0xE0 + cp / 4096), Byte(0x80 + cp / 64 % 64), Byte(0x80 + cp % 64)]
    else [Byte(0xF0 + cp / 262144), Byte(0x80 + cp / 4096 % 64), Byte(0x80 + cp / 64 % 64), Byte(0x80 + cp % 64)]
  }

  predicate IsTail(c: char) { 0x80 <= c as nat < 0xC0 }

  /** The value of one well-formed UTF-8 sequence; over-long forms, surrogates and values beyond
      0x10FFFF are not well-formed. */
  function DecodeUtf8(s: string): Option<nat> {
    if |s| == 1 && s[0] as nat < 0x80 then Some(s[0] as nat)
    else if |s| == 2 && 0xC0 <= s[0] as nat < 0xE0 && IsTail(s[1]) then
      Checked((s[0] as nat - 0xC0) * 64 + (s[1] as nat - 0x80), 0x80)
    else if |s| == 3 && 0xE0 <= s[0] as nat < 0xF0 && IsTail(s[1]) && IsTail(s[2]) then
      Checked((s[0] as nat - 0xE0) * 4096 + (s[1] as nat - 0x80) * 64 + (s[2] as nat - 0x80), 0x800)
    else if |s| == 4 && 0xF0 <= s[0] as nat < 0xF8 && IsTail(s[1]) && IsTail(s[2]) && IsTail(s[3]) then
      Checked((s[0] as nat - 0xF0) * 262144 + (s[1] as nat - 0x80) * 4096
              + (s[2] as nat - 0x80) * 64 + (s[3] as nat - 0x80), 0x10000)
    else None
  }

  function Checked(cp: nat, least: nat): Option<nat> {
    if least <= cp && IsScalar(cp) then Some(cp) else None
  }

  /** What is emitted decodes back exactly for the scalar values; a lone surrogate does not decode. */
  lemma Utf8RoundTrip(cp: nat)
    requires cp < 0x110000
    ensures DecodeUtf8(Utf8(cp)) == if IsScalar(cp) then Some(cp) else None
    ensures forall i :: 0 <= i < |Utf8(cp)| ==> Utf8(cp)[i] as nat < 256
  {
    assert cp == cp / 64 * 64 + cp % 64;
    assert cp / 64 == cp / 4096 * 64 + cp / 64 % 64 by { Digits(cp, 64); }
    assert cp / 4096 == cp / 262144 * 64 + cp / 4096 % 64 by { Digits(cp, 4096); }
  }

  lemma Digits(n: nat, k: nat)
    requires k == 64 || k == 4096
    ensures n / k == n / (k * 64) * 64 + n / k % 64
  {
  }

  /** Emission is one-to-one, surrogates included. */
  lemma Utf8Injective(a: nat, b: nat)
    requires a < 0x110000 && b < 0x110000 && Utf8(a) == Utf8(b)
    ensures a == b
  {
    assert a == a / 64 * 64 + a % 64 && b == b / 64 * 64 + b % 64;
    Digits(a, 64);
    Digits(b, 64);
    Digits(a, 4096);
    Digits(b, 4096);
    var s, t := Utf8(a), Utf8(b);
    assert |s| == |t| && s[0] == t[0] && s[|s| - 1] == t[|s| - 1];
    assert |s| >= 3 ==> s[1] == t[1] && s[2] == t[2];
  }

  // ---- surrogate pairs ----

  function PairValue(high: nat, low: nat): (cp: nat)
    requires IsHigh(high) && IsLow(low)
    ensures 0x10000 <= cp < 0x110000
  {
    0x10000 + (high - 0xD800) * 1024 + (low - 0xDC00)
  }

  function HighOf(cp: nat): nat
    requires 0x10000 <= cp < 0x110000
  {
    0xD800 + (cp - 0x10000) / 1024
  }

  function LowOf(cp: nat): nat
    requires 0x10000 <= cp < 0x110000
  {
    0xDC00 + (cp - 0x10000) % 1024
  }

  /** Pairs correspond one-to-one to the values from 0x10000 to 0x10FFFF. */
  lemma PairBijection(high: nat, low: nat, cp: nat)
    requires 0x10000 <= cp < 0x110000
    ensures IsHigh(HighOf(cp)) && IsLow(LowOf(cp)) && PairValue(HighOf(cp), LowOf(cp)) == cp
    ensures IsHigh(high) && IsLow(low) ==> HighOf(PairValue(high, low)) == high && LowOf(PairValue(high, low)) == low
  {
  }
}
