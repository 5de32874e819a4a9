/** The grammar without its depth limit: how deep a value lies in its text, and that the limit is 64. */
module JsonDepth {
  import opened Text
  import opened JsonSyntax

  /** Well-formed, at any depth. */
  predicate Spelled(v: Value, inRange: string -> bool) {
    match v
    case NullLit | TrueLit | FalseLit => true
    case Number(n) => n.Valid() && inRange(n.Text())
    case String(items) => ItemsValid(items)
    case EmptyArray(ws) => AllWs(ws)
    case Array(elems) => ElemsSpelled(elems, inRange)
    case EmptyObject(ws) => AllWs(ws)
    case Object(members) => MembersSpelled(members, inRange)
  }

  predicate ElemsSpelled(es: Elems, inRange: string -> bool) {
    && AllWs(es.before) && AllWs(es.after) && Spelled(es.v, inRange)
    && (es.MoreElems? ==> ElemsSpelled(es.rest, inRange))
  }

  predicate MemberSpelled(m: Member, inRange: string -> bool) {
    && AllWs(m.ws0) && AllWs(m.ws1) && AllWs(m.ws2) && AllWs(m.ws3)
    && ItemsValid(m.key) && Spelled(m.v, inRange)
  }

  predicate MembersSpelled(ms: Members, inRange: string -> bool) {
    MemberSpelled(ms.m, inRange) && (ms.MoreMembers? ==> MembersSpelled(ms.rest, inRange))
  }

  function Max(a: nat, b: nat): nat { if a < b then b else a }

  /** How many containers enclose the innermost value. */
  function Depth(v: Value): nat {
    match v
    case Array(es) => 1 + ElemsDepth(es)
    case Object(ms) => 1 + MembersDepth(ms)
    case _ => 0
  }

  function ElemsDepth(es: Elems): nat {
    if es.LastElem? then Depth(es.v) else Max(Depth(es.v), ElemsDepth(es.rest))
  }

  function MembersDepth(ms: Members): nat {
    if ms.LastMember? then Depth(ms.m.v) else Max(Depth(ms.m.v), MembersDepth(ms.rest))
  }

  /** A value is valid at depth `d` exactly if it is well-formed and nothing in it lies below depth 64. */
  lemma {:induction false} ValidIff(v: Value, d: nat, inRange: string -> bool)
    ensures ValueValid(v, d, inRange) <==> Spelled(v, inRange) && d + Depth(v) <= 64
    decreases v, 1
  {
    match v
    case Array(es) => ElemsValidIff(es, d + 1, inRange);
    case Object(ms) => MembersValidIff(ms, d + 1, inRange);
    case _ =>
  }

  lemma {:induction false} ElemsValidIff(es: Elems, d: nat, inRange: string -> bool)
    ensures ElemsValid(es, d, inRange) <==> ElemsSpelled(es, inRange) && d + ElemsDepth(es) <= 64
    decreases es, 0
  {
    ValidIff(es.v, d, inRange);
    if es.MoreElems? { ElemsValidIff(es.rest, d, inRange); }
  }

  lemma {:induction false} MembersValidIff(ms: Members, d: nat, inRange: string -> bool)
    ensures MembersValid(ms, d, inRange) <==> MembersSpelled(ms, inRange) && d + MembersDepth(ms) <= 64
    decreases ms, 0
  {
    hide ItemsValid;
    ValidIff(ms.m.v, d, inRange);
    assert MemberValid(ms.m, d, inRange) <==> MemberSpelled(ms.m, inRange) && d + Depth(ms.m.v) <= 64;
    if ms.MoreMembers? { MembersValidIff(ms.rest, d, inRange); }
  }
}
