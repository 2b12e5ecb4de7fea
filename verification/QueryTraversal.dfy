/** What the automaton returns on every document, in shape or not: a traversal of the tree that carries the positions of
    the enclosing values. A string, number, boolean or null that is a member takes its position away with it, as does an
    object; but so do a number, a boolean, null or an array in an array, which have none, and then one of an enclosing
    value is gone. */
module QueryTraversal {
  import opened QueryMachine
  import opened JsonDocument
  import opened QueryRefinement
  import opened QueryContexts

  /** The positions behind a part of a document, the innermost last, and the strings collected in it; or the panic. */
  datatype Visit = Visited(ps: seq<nat>, found: seq<string>) | Broken

  datatype Place = InMember | InElement

  /** The position of a value that has been read is taken away; the document's own stays. */
  function Leave(ps: seq<nat>): seq<nat> {
    if |ps| > 1 then Pop(ps) else ps
  }

  function VisitValue(q: seq<string>, v: Json, ps: seq<nat>, place: Place): (r: Visit)
    requires ps != []
    ensures r.Visited? ==> r.ps != []
    decreases v, 1
  {
    match v
    case JStr(s) => Visited(if place.InMember? then Leave(ps) else ps, if Last(ps) == |q| then [s] else [])
    case JScalar => if |ps| == 1 then Broken else Visited(Pop(ps), [])
    case JArr(es) =>
      if Last(ps) >= |q| then Broken
      else
        (match VisitElems(q, es, Pop(ps) + [Advance(q, Last(ps), "#")])
         case Broken => Broken
         case Visited(after, found) => Visited(Leave(after), found))
    case JObj(ms) =>
      match VisitMembers(q, ms, ps)
      case Broken => Broken
      case Visited(after, found) => Visited(if place.InMember? then Leave(after) else after, found)
  }

  function VisitElems(q: seq<string>, es: seq<Json>, ps: seq<nat>): (r: Visit)
    requires ps != []
    ensures r.Visited? ==> r.ps != []
    decreases es, 0
  {
    if es == [] then Visited(ps, [])
    else
      match VisitValue(q, es[0], ps, InElement)
      case Broken => Broken
      case Visited(after, found) => Behind(found, VisitElems(q, es[1..], after))
  }

  function VisitMembers(q: seq<string>, ms: seq<Member>, ps: seq<nat>): (r: Visit)
    requires ps != []
    ensures r.Visited? ==> r.ps != []
    decreases ms, 0
  {
    if ms == [] then Visited(ps, [])
    else if Last(ps) >= |q| then Broken
    else
      match VisitValue(q, ms[0].value, ps + [Advance(q, Last(ps), ms[0].key)], InMember)
      case Broken => Broken
      case Visited(after, found) => Behind(found, VisitMembers(q, ms[1..], after))
  }

  function Behind(found: seq<string>, rest: Visit): Visit {
    match rest
    case Broken => Broken
    case Visited(ps, more) => Visited(ps, found + more)
  }

  /** What a whole document yields. */
  function Traverse(q: seq<string>, doc: Json): Outcome<seq<string>> {
    if doc.JStr? then Ok([])
    else
      match VisitValue(q, doc, [0], InMember)
      case Broken => Panic
      case Visited(_, found) => Ok(found)
  }

  /** The run ends as the traversal does. */
  predicate Follows(o: Outcome<Machine>, m: Machine, v: Visit) {
    match v
    case Broken => o == Panic
    case Visited(ps, found) =>
      && o.Ok? && o.value.positions == ps && Balanced(o.value) && o.value.tree == m.tree
      && o.value.results == m.results + found
  }

  /** The machine stands in front of a value at this place. */
  predicate Before(m: Machine, place: Place) {
    && Balanced(m) && m.tree != []
    && match place
       case InElement => Last(m.tree) == InArr
       case InMember => Last(m.tree) == InObj && !m.key && |m.positions| > 1
  }

  lemma {:induction false} RunsValue(q: seq<string>, v: Json, m: Machine, place: Place)
    requires Before(m, place)
    ensures Follows(Run(q, m, Tokens(v)), m, VisitValue(q, v, m.positions, place))
    ensures place.InMember? && Run(q, m, Tokens(v)).Ok? ==> Run(q, m, Tokens(v)).value.key
    decreases v, 2
  {
    match v
    case JStr(s) => RunOne(q, m, Str(s));
    case JScalar => RunOne(q, m, Scalar);
    case JArr(es) => RunsArr(q, es, m, place);
    case JObj(ms) => RunsObj(q, ms, m, place);
  }

  lemma {:induction false} RunsArr(q: seq<string>, es: seq<Json>, m: Machine, place: Place)
    requires Balanced(m)
    ensures Follows(Run(q, m, Tokens(JArr(es))), m, VisitValue(q, JArr(es), m.positions, place))
    ensures Run(q, m, Tokens(JArr(es))).Ok? ==> Run(q, m, Tokens(JArr(es))).value.key
    decreases es, 2
  {
    RunCons(q, m, ArrOpen, ElemTokens(es) + [ArrClose]);
    if Step(q, m, ArrOpen).Ok? {
      var inside := Step(q, m, ArrOpen).value;
      RunsElems(q, es, inside);
      RunConcat(q, inside, ElemTokens(es), [ArrClose]);
      if Run(q, inside, ElemTokens(es)).Ok? {
        RunOne(q, Run(q, inside, ElemTokens(es)).value, ArrClose);
      }
    }
  }

  lemma {:induction false} RunsObj(q: seq<string>, ms: seq<Member>, m: Machine, place: Place)
    requires Balanced(m) && (place.InElement? <==> m.tree != [] && Last(m.tree) == InArr)
    ensures Follows(Run(q, m, Tokens(JObj(ms))), m, VisitValue(q, JObj(ms), m.positions, place))
    ensures Run(q, m, Tokens(JObj(ms))).Ok? ==> Run(q, m, Tokens(JObj(ms))).value.key
    decreases ms, 2
  {
    RunCons(q, m, ObjOpen, MemberTokens(ms) + [ObjClose]);
    var inside := Step(q, m, ObjOpen).value;
    RunsMembers(q, ms, inside);
    RunConcat(q, inside, MemberTokens(ms), [ObjClose]);
    if Run(q, inside, MemberTokens(ms)).Ok? {
      RunOne(q, Run(q, inside, MemberTokens(ms)).value, ObjClose);
    }
  }

  lemma {:induction false} RunsElems(q: seq<string>, es: seq<Json>, m: Machine)
    requires Before(m, InElement)
    ensures Follows(Run(q, m, ElemTokens(es)), m, VisitElems(q, es, m.positions))
    decreases es, 1
  {
    if es == [] {
      assert m.results + [] == m.results;
    } else {
      RunsValue(q, es[0], m, InElement);
      RunConcat(q, m, Tokens(es[0]), ElemTokens(es[1..]));
      if Run(q, m, Tokens(es[0])).Ok? {
        var n := Run(q, m, Tokens(es[0])).value;
        RunsElems(q, es[1..], n);
        FollowsBehind(Run(q, n, ElemTokens(es[1..])), m, n, VisitValue(q, es[0], m.positions, InElement),
                      VisitElems(q, es[1..], n.positions));
      }
    }
  }

  lemma {:induction false} RunsMembers(q: seq<string>, ms: seq<Member>, m: Machine)
    requires Balanced(m) && m.tree != [] && Last(m.tree) == InObj && m.key
    ensures Follows(Run(q, m, MemberTokens(ms)), m, VisitMembers(q, ms, m.positions))
    ensures Run(q, m, MemberTokens(ms)).Ok? ==> Run(q, m, MemberTokens(ms)).value.key
    decreases ms, 1
  {
    if ms == [] {
      assert m.results + [] == m.results;
    } else {
      var k, v, rest := ms[0].key, ms[0].value, ms[1..];
      RunCons(q, m, Str(k), Tokens(v) + MemberTokens(rest));
      if Step(q, m, Str(k)).Ok? {
        var inside := Step(q, m, Str(k)).value;
        RunsValue(q, v, inside, InMember);
        RunConcat(q, inside, Tokens(v), MemberTokens(rest));
        if Run(q, inside, Tokens(v)).Ok? {
          var n := Run(q, inside, Tokens(v)).value;
          RunsMembers(q, rest, n);
          FollowsBehind(Run(q, n, MemberTokens(rest)), m, n, VisitValue(q, v, inside.positions, InMember),
                        VisitMembers(q, rest, n.positions));
        }
      }
    }
  }

  lemma FollowsBehind(o: Outcome<Machine>, m: Machine, n: Machine, first: Visit, rest: Visit)
    requires first.Visited? && n.tree == m.tree && n.results == m.results + first.found
    requires Follows(o, n, rest)
    ensures Follows(o, m, Behind(first.found, rest))
  {
    if rest.Visited? {
      assert (m.results + first.found) + rest.found == m.results + (first.found + rest.found);
    }
  }

  /** Every document: the automaton returns what the traversal collects, or both panic. */
  lemma RunTraverses(q: seq<string>, doc: Json)
    ensures Collected(Run(q, INITIAL, Tokens(doc))) == Traverse(q, doc)
  {
    var v := VisitValue(q, doc, [0], InMember);
    assert v.Visited? ==> [] + v.found == v.found;
    match doc
    case JStr(s) => RunOne(q, INITIAL, Str(s));
    case JScalar => RunOne(q, INITIAL, Scalar);
    case JArr(es) => RunsArr(q, es, INITIAL, InMember);
    case JObj(ms) => RunsObj(q, ms, INITIAL, InMember);
  }

  // ---- What a value out of shape does to what follows ----

  /** How many positions go with a value: the one of a member, and one for each entry that it pops too many. */
  function Taken(v: Json, place: Place): nat {
    Lost(v) + if place.InMember? || v.JArr? || v.JScalar? then 1 else 0
  }

  /** Behind a value, the innermost position is that of a value further out: one further for each entry that the value
      pops too many. */
  lemma {:induction false} ValueLeaves(q: seq<string>, v: Json, ps: seq<nat>, place: Place)
    requires |ps| > Taken(v, place)
    ensures
      var r := VisitValue(q, v, ps, place);
      r.Visited? ==> r.ps == ps[..|ps| - Taken(v, place)]
    decreases v, 1
  {
    match v
    case JStr(_) =>
    case JScalar =>
    case JArr(es) =>
      if Last(ps) < |q| {
        ElemsLeave(q, es, Pop(ps) + [Advance(q, Last(ps), "#")]);
      }
    case JObj(ms) => MembersLeave(q, ms, ps);
  }

  lemma {:induction false} ElemsLeave(q: seq<string>, es: seq<Json>, ps: seq<nat>)
    requires |ps| > LostElems(es)
    ensures var r := VisitElems(q, es, ps); r.Visited? ==> r.ps == ps[..|ps| - LostElems(es)]
    decreases es, 0
  {
    if es != [] {
      ValueLeaves(q, es[0], ps, InElement);
      var first := VisitValue(q, es[0], ps, InElement);
      if first.Visited? {
        ElemsLeave(q, es[1..], first.ps);
      }
    }
  }

  lemma {:induction false} MembersLeave(q: seq<string>, ms: seq<Member>, ps: seq<nat>)
    requires |ps| > LostMembers(ms)
    ensures var r := VisitMembers(q, ms, ps); r.Visited? ==> r.ps == ps[..|ps| - LostMembers(ms)]
    decreases ms, 0
  {
    if ms != [] && Last(ps) < |q| {
      var inner := ps + [Advance(q, Last(ps), ms[0].key)];
      ValueLeaves(q, ms[0].value, inner, InMember);
      var first := VisitValue(q, ms[0].value, inner, InMember);
      assert inner[..|inner| - 1 - Lost(ms[0].value)] == ps[..|ps| - Lost(ms[0].value)];
      if first.Visited? {
        MembersLeave(q, ms[1..], first.ps);
      }
    }
  }

  /** No string that has been collected is lost again, over any tokens, document or not. */
  lemma {:induction false} NothingIsLost(q: seq<string>, m: Machine, tokens: seq<Token>)
    requires Run(q, m, tokens).Ok?
    ensures m.results <= Run(q, m, tokens).value.results
    decreases |tokens|
  {
    if tokens != [] {
      NothingIsLost(q, Step(q, m, tokens[0]).value, tokens[1..]);
    }
  }

  /** Text that is no JSON ends a run that has not panicked, whatever follows. */
  lemma MalformedEnds(q: seq<string>, m: Machine, front: seq<Token>, rest: seq<Token>)
    ensures Run(q, m, front + ([Malformed] + rest)) == if Run(q, m, front).Ok? then DecodeError else Run(q, m, front)
  {
    RunConcat(q, m, front, [Malformed] + rest);
  }

  lemma {:induction false} MemberTokensConcat(a: seq<Member>, b: seq<Member>)
    ensures MemberTokens(a + b) == MemberTokens(a) + MemberTokens(b)
  {
    if a == [] {
      assert a + b == b;
    } else {
      assert (a + b)[1..] == a[1..] + b;
      MemberTokensConcat(a[1..], b);
    }
  }

  /** The members in front of the first value out of shape: unless the run panics, all that the walk finds in them is at
      the front of the result, whatever follows. */
  lemma FrontSurvives(q: seq<string>, front: seq<Member>, rest: seq<Member>)
    requires forall i :: 0 <= i < |front| ==> WellShaped(front[i].value)
    ensures match Collected(Run(q, INITIAL, Tokens(JObj(front + rest))))
            case Ok(found) => MembersBounded(q, front, 0) && WalkMembers(q, front, 0) <= found
            case Panic => true
            case DecodeError => false
  {
    var inside := PastMember([] + [0], [], [], []);
    assert [] + [0] == [0];
    MemberTokensConcat(front, rest);
    RunCons(q, INITIAL, ObjOpen, MemberTokens(front + rest) + [ObjClose]);
    assert Step(q, INITIAL, ObjOpen) == Ok(inside);
    assert MemberTokens(front + rest) + [ObjClose] == MemberTokens(front) + (MemberTokens(rest) + [ObjClose]);
    RunConcat(q, inside, MemberTokens(front), MemberTokens(rest) + [ObjClose]);
    SimMembers(q, front, [], 0, [], [], []);
    RunTraverses(q, JObj(front + rest));
    if MembersBounded(q, front, 0) {
      var m := PastMember([] + [0], [], [], [] + WalkMembers(q, front, 0));
      if Run(q, m, MemberTokens(rest) + [ObjClose]).Ok? {
        NothingIsLost(q, m, MemberTokens(rest) + [ObjClose]);
        assert [] + WalkMembers(q, front, 0) == WalkMembers(q, front, 0);
      }
    }
  }

  lemma MembersInShape(q: seq<string>, ms: seq<Member>, ps: seq<nat>, p: nat)
    requires forall i :: 0 <= i < |ms| ==> WellShaped(ms[i].value)
    ensures VisitMembers(q, ms, ps + [p])
         == if MembersBounded(q, ms, p) then Visited(ps + [p], WalkMembers(q, ms, p)) else Broken
  {
    var ks: seq<string> := seq(|ps|, _ => "");
    SimMembers(q, ms, ps, p, [], ks, []);
    RunsMembers(q, ms, PastMember(ps + [p], [], ks, []));
    var v := VisitMembers(q, ms, ps + [p]);
    assert v.Visited? ==> [] + v.found == v.found;
    assert [] + WalkMembers(q, ms, p) == WalkMembers(q, ms, p);
  }

  /** {k: {b: [1], ...}}: behind the number's array all other members of the inner object are matched as if they were
      members of the outer one. */
  lemma NumberMovesOutwards(q: seq<string>, k: string, b: string, rest: seq<Member>)
    requires q != [] && forall i :: 0 <= i < |rest| ==> WellShaped(rest[i].value)
    ensures
      var doc := JObj([Member(k, JObj([Member(b, JArr([JScalar]))] + rest))]);
      var p := Advance(q, 0, k);
      Collected(Run(q, INITIAL, Tokens(doc)))
      == if p < |q| && Advance(q, p, b) < |q| && MembersBounded(q, rest, 0) then Ok(WalkMembers(q, rest, 0)) else Panic
  {
    var inner := [Member(b, JArr([JScalar]))] + rest;
    var outer, p := [Member(k, JObj(inner))], Advance(q, 0, k);
    NumberThenRest(q, b, rest, p);
    VisitInner(q, k, inner, p);
    RunTraverses(q, JObj(outer));
  }

  lemma VisitInner(q: seq<string>, k: string, inner: seq<Member>, p: nat)
    requires q != [] && p == Advance(q, 0, k)
    requires VisitMembers(q, inner, [0, p]).Visited? ==> VisitMembers(q, inner, [0, p]).ps == [0]
    ensures VisitValue(q, JObj([Member(k, JObj(inner))]), [0], InMember) == VisitMembers(q, inner, [0, p])
  {
    var outer, v := [Member(k, JObj(inner))], VisitMembers(q, inner, [0, p]);
    assert outer[1..] == [] && [0] + [p] == [0, p];
    assert VisitMembers(q, [], [0]) == Visited([0], []);
    assert VisitValue(q, JObj(inner), [0, p], InMember) == v;
    assert v.Visited? ==> v.found + [] == v.found;
    assert VisitMembers(q, outer, [0]) == v;
  }

  lemma NumberThenRest(q: seq<string>, b: string, rest: seq<Member>, p: nat)
    requires forall i :: 0 <= i < |rest| ==> WellShaped(rest[i].value)
    ensures VisitMembers(q, [Member(b, JArr([JScalar]))] + rest, [0, p])
         == if p < |q| && Advance(q, p, b) < |q| && MembersBounded(q, rest, 0) then
              Visited([0], WalkMembers(q, rest, 0))
            else Broken
  {
    var ms := [Member(b, JArr([JScalar]))] + rest;
    assert ms[1..] == rest && [] + [0] == [0];
    if p < |q| {
      var inner := [0, p] + [Advance(q, p, b)];
      assert Pop(inner) == [0, p] && Pop([0, p]) == [0];
      if Last(inner) < |q| {
        NumberVisited(q, inner);
      }
      MembersInShape(q, rest, [], 0);
    }
  }

  lemma NumberVisited(q: seq<string>, ps: seq<nat>)
    requires |ps| > 2 && Last(ps) < |q|
    ensures VisitValue(q, JArr([JScalar]), ps, InMember) == Visited(Pop(Pop(ps)), [])
  {
    var inside := Pop(ps) + [Advance(q, Last(ps), "#")];
    assert Pop(inside) == Pop(ps);
    assert VisitValue(q, JScalar, inside, InElement) == Visited(Pop(ps), []);
    assert [JScalar][1..] == [];
    assert VisitElems(q, [JScalar], inside) == Visited(Pop(ps), [] + []);
  }
}
