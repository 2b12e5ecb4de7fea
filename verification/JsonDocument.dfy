/** JSON documents, their token streams, and the walk that the automaton stands for. */
module JsonDocument {
  import opened QueryMachine

  /** JScalar is a number, a boolean or null. Members keep the order, and the repetitions, of the text. */
  datatype Json = JStr(s: string) | JScalar | JArr(elems: seq<Json>) | JObj(members: seq<Member>)
  datatype Member = Member(key: string, value: Json)

  function Tokens(v: Json): seq<Token> {
    match v
    case JStr(s) => [Str(s)]
    case JScalar => [Scalar]
    case JArr(es) => [ArrOpen] + (ElemTokens(es) + [ArrClose])
    case JObj(ms) => [ObjOpen] + (MemberTokens(ms) + [ObjClose])
  }

  function ElemTokens(es: seq<Json>): seq<Token> {
    if es == [] then [] else Tokens(es[0]) + ElemTokens(es[1..])
  }

  function MemberTokens(ms: seq<Member>): seq<Token> {
    if ms == [] then [] else [Str(ms[0].key)] + (Tokens(ms[0].value) + MemberTokens(ms[1..]))
  }

  /** The query position after one more path label: one further on a match, back to the start otherwise. */
  function Advance(q: seq<string>, p: nat, step: string): (p': nat)
    ensures p' <= |q|
  {
    if p < |q| && q[p] == step then p + 1 else 0
  }

  /** The strings below `v` that are reached with the whole query matched, in document order. */
  function Walk(q: seq<string>, v: Json, p: nat): seq<string> {
    match v
    case JStr(s) => if p == |q| then [s] else []
    case JScalar => []
    case JArr(es) => WalkElems(q, es, Advance(q, p, "#"))
    case JObj(ms) => WalkMembers(q, ms, p)
  }

  function WalkElems(q: seq<string>, es: seq<Json>, p: nat): seq<string> {
    if es == [] then [] else Walk(q, es[0], p) + WalkElems(q, es[1..], p)
  }

  function WalkMembers(q: seq<string>, ms: seq<Member>, p: nat): seq<string> {
    if ms == [] then [] else Walk(q, ms[0].value, Advance(q, p, ms[0].key)) + WalkMembers(q, ms[1..], p)
  }

  /** No array, number, boolean or null sits directly inside an array. */
  predicate WellShaped(v: Json) {
    match v
    case JStr(_) => true
    case JScalar => true
    case JArr(es) => forall i :: 0 <= i < |es| ==> (es[i].JStr? || es[i].JObj?) && WellShaped(es[i])
    case JObj(ms) => forall i :: 0 <= i < |ms| ==> WellShaped(ms[i].value)
  }

  /** No array, and no object with members, is reached with the whole query already matched. */
  predicate Bounded(q: seq<string>, v: Json, p: nat) {
    match v
    case JStr(_) => true
    case JScalar => true
    case JArr(es) => p < |q| && forall i :: 0 <= i < |es| ==> Bounded(q, es[i], Advance(q, p, "#"))
    case JObj(ms) =>
      forall i :: 0 <= i < |ms| ==> p < |q| && Bounded(q, ms[i].value, Advance(q, p, ms[i].key))
  }

  predicate ElemsBounded(q: seq<string>, es: seq<Json>, p: nat) {
    forall i :: 0 <= i < |es| ==> Bounded(q, es[i], p)
  }

  predicate MembersBounded(q: seq<string>, ms: seq<Member>, p: nat) {
    forall i :: 0 <= i < |ms| ==> p < |q| && Bounded(q, ms[i].value, Advance(q, p, ms[i].key))
  }
}
