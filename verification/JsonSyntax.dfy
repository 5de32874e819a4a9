/** The dialect of JSON that the parser accepts, as concrete syntax: what each phrase looks like, when it is
    well-formed, and what it means. The dialect is that of RFC 8259 except that numbers are looser (a plus
    sign, leading zeros, a bare point or exponent), string bytes are unrestricted, lone surrogates are kept,
    and nesting is capped. */
module JsonSyntax {
  import opened Text
  import opened Unicode

  /** A parsed value. A number is kept as its lexeme. */
  datatype Json =
    | Null
    | Bool(b: bool)
    | Num(lexeme: string)
    | Str(s: string)
    | Arr(items: seq<Json>)
    | Obj(members: map<string, Json>)

  const MAX_DEPTH: nat := 64

  predicate IsWs(c: char) { c == ' ' || c == '\t' || c == '\n' || c == '\r' }

  predicate AllWs(s: string) { forall i :: 0 <= i < |s| ==> IsWs(s[i]) }

  // ---- numbers ----

  datatype Number = Number(sign: string, digits: string, point: bool, frac: string, e: string, esign: string,
                           exp: string)
  {
    predicate Valid() {
      && Sign(sign) && digits != "" && AllDigits(digits)
      && AllDigits(frac) && (point || frac == "")
      && (e == "" || e == "e" || e == "E") && Sign(esign) && AllDigits(exp)
      && (e == "" ==> esign == "" && exp == "")
    }

    function PointPart(): string { if point then "." + frac else "" }

    function ExponentPart(): string { e + (esign + exp) }

    function Text(): string { sign + (digits + (PointPart() + ExponentPart())) }
  }

  predicate Sign(s: string) { s == "" || s == "-" || s == "+" }

  // ---- strings ----

  /** One piece of a string: a plain byte, a short escape, a `\u` escape, or a surrogate pair of them. */
  datatype Item = Raw(c: char) | Short(e: char) | Unit(h: string) | Pair(hi: string, lo: string)
  {
    predicate Valid() {
      match this
      case Raw(c) => c != '"' && c != '\\'
      case Short(e) => e in SHORT_ESCAPES
      case Unit(h) => IsHex4(h)
      case Pair(hi, lo) => IsHex4(hi) && IsHex4(lo) && IsHigh(HexValue(hi)) && IsLow(HexValue(lo))
    }

    function Text(): string {
      match this
      case Raw(c) => [c]
      case Short(e) => ['\\', e]
      case Unit(h) => "\\u" + h
      case Pair(hi, lo) => "\\u" + hi + "\\u" + lo
    }

    function Value(): string
      requires Valid()
    {
      match this
      case Raw(c) => [c]
      case Short(e) => [Unescape(e)]
      case Unit(h) => Utf8(Hex4Value(h))
      case Pair(hi, lo) => Utf8(PairValue(HexValue(hi), HexValue(lo)))
    }

    predicate HighUnit() { Unit? && IsHex4(h) && IsHigh(HexValue(h)) }
    predicate LowUnit() { Unit? && IsHex4(h) && IsLow(HexValue(h)) }
  }

  predicate IsHex4(h: string) { |h| == 4 && AllHex(h) }

  function Hex4Value(h: string): (n: nat)
    requires IsHex4(h)
    ensures n == HexValue(h) && n < 0x10000
  {
    var h3, h2, h1 := h[..3], h[..2], h[..1];
    assert h3[..2] == h2 && h2[..1] == h1 && h1[..0] == "";
    assert HexValue(h1) == HexDigit(h[0]);
    assert HexValue(h2) == 16 * HexValue(h1) + HexDigit(h[1]);
    assert HexValue(h3) == 16 * HexValue(h2) + HexDigit(h[2]);
    16 * HexValue(h3) + HexDigit(h[3])
  }

  const SHORT_ESCAPES: set<char> := {'"', '\\', '/', 'b', 'f', 'n', 'r', 't'}

  function Unescape(e: char): char
    requires e in SHORT_ESCAPES
  {
    match e
    case 'b' => 8 as char
    case 'f' => 12 as char
    case 'n' => '\n'
    case 'r' => '\r'
    case 't' => '\t'
    case _ => e
  }

  /** Pieces of one string; two escapes that form a surrogate pair are one piece. */
  predicate ItemsValid(items: seq<Item>) {
    && (forall i :: 0 <= i < |items| ==> items[i].Valid())
    && (forall i :: 0 < i < |items| ==> !(items[i - 1].HighUnit() && items[i].LowUnit()))
  }

  function ItemsText(items: seq<Item>): string {
    if items == [] then "" else items[0].Text() + ItemsText(items[1..])
  }

  function ItemsValue(items: seq<Item>): string
    requires forall i :: 0 <= i < |items| ==> items[i].Valid()
  {
    if items == [] then "" else items[0].Value() + ItemsValue(items[1..])
  }

  function StringText(items: seq<Item>): string { "\"" + (ItemsText(items) + "\"") }

  // ---- values ----

  datatype Value =
    | NullLit | TrueLit | FalseLit
    | Number(n: Number)
    | String(items: seq<Item>)
    | EmptyArray(ws: string)
    | Array(elems: Elems)
    | EmptyObject(ws: string)
    | Object(members: Members)

  /** Array elements, each with the white space around it, up to the closing bracket. */
  datatype Elems = LastElem(before: string, v: Value, after: string)
                 | MoreElems(before: string, v: Value, after: string, rest: Elems)

  /** A member without what follows it: white space, key, white space, colon, white space, value, white space. */
  datatype Member = Member(ws0: string, key: seq<Item>, ws1: string, ws2: string, v: Value, ws3: string)

  datatype Members = LastMember(m: Member) | MoreMembers(m: Member, rest: Members)

  function ValueText(v: Value): string {
    match v
    case NullLit => "null"
    case TrueLit => "true"
    case FalseLit => "false"
    case Number(n) => n.Text()
    case String(items) => StringText(items)
    case EmptyArray(ws) => "[" + ws + "]"
    case Array(elems) => "[" + ElemsText(elems)
    case EmptyObject(ws) => "{" + ws + "}"
    case Object(members) => "{" + MembersText(members)
  }

  function ElemsText(es: Elems): string {
    match es
    case LastElem(b, v, a) => b + (ValueText(v) + (a + "]"))
    case MoreElems(b, v, a, rest) => b + (ValueText(v) + (a + ("," + ElemsText(rest))))
  }

  function KeyText(m: Member): string { m.ws0 + (StringText(m.key) + (m.ws1 + (":" + m.ws2))) }

  function MembersText(ms: Members): string {
    match ms
    case LastMember(m) => KeyText(m) + (ValueText(m.v) + (m.ws3 + "}"))
    case MoreMembers(m, rest) => KeyText(m) + (ValueText(m.v) + (m.ws3 + ("," + MembersText(rest))))
  }

  /** Well-formed at nesting depth `d`. `inRange` says which lexemes `std::stod` converts. */
  predicate ValueValid(v: Value, d: nat, inRange: string -> bool) {
    d <= MAX_DEPTH &&
    match v
    case NullLit | TrueLit | FalseLit => true
    case Number(n) => n.Valid() && inRange(n.Text())
    case String(items) => ItemsValid(items)
    case EmptyArray(ws) => AllWs(ws)
    case Array(elems) => ElemsValid(elems, d + 1, inRange)
    case EmptyObject(ws) => AllWs(ws)
    case Object(members) => MembersValid(members, d + 1, inRange)
  }

  predicate ElemsValid(es: Elems, d: nat, inRange: string -> bool) {
    && AllWs(es.before) && AllWs(es.after) && ValueValid(es.v, d, inRange)
    && (es.MoreElems? ==> ElemsValid(es.rest, d, inRange))
  }

  predicate MemberValid(m: Member, d: nat, inRange: string -> bool) {
    && AllWs(m.ws0) && AllWs(m.ws1) && AllWs(m.ws2) && AllWs(m.ws3)
    && ItemsValid(m.key) && ValueValid(m.v, d, inRange)
  }

  predicate MembersValid(ms: Members, d: nat, inRange: string -> bool) {
    MemberValid(ms.m, d, inRange) && (ms.MoreMembers? ==> MembersValid(ms.rest, d, inRange))
  }

  function Meaning(v: Value, d: nat, inRange: string -> bool): Json
    requires ValueValid(v, d, inRange)
  {
    match v
    case NullLit => Null
    case TrueLit => Bool(true)
    case FalseLit => Bool(false)
    case Number(n) => Num(n.Text())
    case String(items) => Str(ItemsValue(items))
    case EmptyArray(_) => Arr([])
    case Array(elems) => Arr(ElemsMeaning(elems, d + 1, inRange))
    case EmptyObject(_) => Obj(map[])
    case Object(members) => Obj(MembersMeaning(members, d + 1, inRange))
  }

  function ElemsMeaning(es: Elems, d: nat, inRange: string -> bool): seq<Json>
    requires ElemsValid(es, d, inRange)
  {
    [Meaning(es.v, d, inRange)] + if es.LastElem? then [] else ElemsMeaning(es.rest, d, inRange)
  }

  /** A later member overrides an earlier one with the same key. */
  function MembersMeaning(ms: Members, d: nat, inRange: string -> bool): map<string, Json>
    requires MembersValid(ms, d, inRange)
  {
    assert MemberValid(ms.m, d, inRange);
    var first := map[ItemsValue(ms.m.key) := Meaning(ms.m.v, d, inRange)];
    if ms.LastMember? then first else first + MembersMeaning(ms.rest, d, inRange)
  }

  /** A whole text: white space around one value at depth 0. */
  datatype Document = Document(before: string, v: Value, after: string)

  predicate DocumentValid(doc: Document, inRange: string -> bool) {
    AllWs(doc.before) && AllWs(doc.after) && ValueValid(doc.v, 0, inRange)
  }

  function DocumentText(doc: Document): string { doc.before + ValueText(doc.v) + doc.after }

  /** `text` derives the value `j`. */
  ghost predicate Derives(text: string, j: Json, inRange: string -> bool) {
    exists doc :: DocumentValid(doc, inRange) && DocumentText(doc) == text && Meaning(doc.v, 0, inRange) == j
  }
}
