/** The automaton refines the document walk: on every well-shaped document it either returns exactly the walk's strings
    or panics, and it panics just when the document descends below a full match. */
module QueryRefinement {
  import opened QueryMachine
  import opened JsonDocument

  /** What `key` is left at once an array element has been read; inside an array nothing reads it. */
  function KeyAfter(key: bool, es: seq<Json>): bool
    decreases |es|
  {
    if es == [] then key else KeyAfter(key || es[0].JObj?, es[1..])
  }

  /** The machine in front of a member's value: its position and key have been pushed. */
  function AtMember(ps: seq<nat>, p: nat, tree: seq<Bracket>, ks: seq<string>, k: string, res: seq<string>): Machine {
    Machine(ps + [p], tree + [InObj], ks + [k], false, res)
  }

  /** The machine behind that value: position and key popped, the next string is a key. */
  function PastMember(ps: seq<nat>, tree: seq<Bracket>, ks: seq<string>, res: seq<string>): Machine {
    Machine(ps, tree + [InObj], ks, true, res)
  }

  function AtElem(ps: seq<nat>, p: nat, tree: seq<Bracket>, ks: seq<string>, key: bool, res: seq<string>): Machine {
    Machine(ps + [p], tree + [InArr], ks, key, res)
  }

  lemma ElemsBoundedCons(q: seq<string>, es: seq<Json>, p: nat)
    requires es != []
    ensures ElemsBounded(q, es, p) <==> Bounded(q, es[0], p) && ElemsBounded(q, es[1..], p)
  {
    forall i | 0 < i < |es| ensures es[i] == es[1..][i - 1] {}
  }

  lemma MembersBoundedCons(q: seq<string>, ms: seq<Member>, p: nat)
    requires ms != []
    ensures MembersBounded(q, ms, p)
       <==> p < |q| && Bounded(q, ms[0].value, Advance(q, p, ms[0].key)) && MembersBounded(q, ms[1..], p)
  {
    forall i | 0 < i < |ms| ensures ms[i] == ms[1..][i - 1] {}
  }

  lemma WalkElemsCons(q: seq<string>, es: seq<Json>, p: nat, res: seq<string>)
    requires es != []
    ensures (res + Walk(q, es[0], p)) + WalkElems(q, es[1..], p) == res + WalkElems(q, es, p)
  {
  }

  lemma WalkMembersCons(q: seq<string>, ms: seq<Member>, p: nat, res: seq<string>)
    requires ms != []
    ensures (res + Walk(q, ms[0].value, Advance(q, p, ms[0].key))) + WalkMembers(q, ms[1..], p)
         == res + WalkMembers(q, ms, p)
  {
  }

  lemma {:induction false} SimMember(q: seq<string>, v: Json, ps: seq<nat>, p: nat, tree: seq<Bracket>,
                                     ks: seq<string>, k: string, res: seq<string>)
    requires WellShaped(v)
    ensures Run(q, AtMember(ps, p, tree, ks, k, res), Tokens(v))
         == if Bounded(q, v, p) then Ok(PastMember(ps, tree, ks, res + Walk(q, v, p))) else Panic
    decreases v, 1
  {
    var m := AtMember(ps, p, tree, ks, k, res);
    match v
    case JStr(s) =>
      RunOne(q, m, Str(s));
      assert res + [] == res;
    case JScalar =>
      RunOne(q, m, Scalar);
      assert res + [] == res;
    case JArr(es) =>
      SimMemberArr(q, es, ps, p, tree, ks, k, res);
    case JObj(ms) =>
      SimMemberObj(q, ms, ps, p, tree, ks, k, res);
  }

  lemma {:induction false} SimMemberArr(q: seq<string>, es: seq<Json>, ps: seq<nat>, p: nat, tree: seq<Bracket>,
                                        ks: seq<string>, k: string, res: seq<string>)
    requires WellShaped(JArr(es))
    ensures Run(q, AtMember(ps, p, tree, ks, k, res), Tokens(JArr(es)))
         == if Bounded(q, JArr(es), p) then Ok(PastMember(ps, tree, ks, res + Walk(q, JArr(es), p))) else Panic
    decreases es, 1
  {
    var m := AtMember(ps, p, tree, ks, k, res);
    StepArrOpen(q, ps, p, tree, ks, k, res);
    RunCons(q, m, ArrOpen, ElemTokens(es) + [ArrClose]);
    if p < |q| {
      var p' := Advance(q, p, "#");
      SimElems(q, es, ps, p', tree + [InObj], ks + [k], false, res);
      RunConcat(q, AtElem(ps, p', tree + [InObj], ks + [k], false, res), ElemTokens(es), [ArrClose]);
      if ElemsBounded(q, es, p') {
        var last := AtElem(ps, p', tree + [InObj], ks + [k], KeyAfter(false, es), res + WalkElems(q, es, p'));
        RunOne(q, last, ArrClose);
        assert Step(q, last, ArrClose) == Ok(PastMember(ps, tree, ks, res + WalkElems(q, es, p')));
      }
    }
  }

  lemma StepArrOpen(q: seq<string>, ps: seq<nat>, p: nat, tree: seq<Bracket>, ks: seq<string>, k: string,
      res: seq<string>)
    ensures Step(q, AtMember(ps, p, tree, ks, k, res), ArrOpen)
         == if p < |q| then Ok(AtElem(ps, Advance(q, p, "#"), tree + [InObj], ks + [k], false, res)) else Panic
  {
  }

  lemma {:induction false} SimMemberObj(q: seq<string>, ms: seq<Member>, ps: seq<nat>, p: nat, tree: seq<Bracket>,
                                        ks: seq<string>, k: string, res: seq<string>)
    requires WellShaped(JObj(ms))
    ensures Run(q, AtMember(ps, p, tree, ks, k, res), Tokens(JObj(ms)))
         == if Bounded(q, JObj(ms), p) then Ok(PastMember(ps, tree, ks, res + Walk(q, JObj(ms), p))) else Panic
    decreases ms, 2
  {
    var inside := PastMember(ps + [p], tree + [InObj], ks + [k], res);
    RunCons(q, AtMember(ps, p, tree, ks, k, res), ObjOpen, MemberTokens(ms) + [ObjClose]);
    SimMembers(q, ms, ps, p, tree + [InObj], ks + [k], res);
    RunConcat(q, inside, MemberTokens(ms), [ObjClose]);
    assert Bounded(q, JObj(ms), p) <==> MembersBounded(q, ms, p);
    if MembersBounded(q, ms, p) {
      var last := PastMember(ps + [p], tree + [InObj], ks + [k], res + WalkMembers(q, ms, p));
      RunOne(q, last, ObjClose);
      assert Step(q, last, ObjClose) == Ok(PastMember(ps, tree, ks, res + WalkMembers(q, ms, p)));
    }
  }

  lemma {:induction false} SimElem(q: seq<string>, v: Json, ps: seq<nat>, p: nat, tree: seq<Bracket>,
                                   ks: seq<string>, key: bool, res: seq<string>)
    requires v.JStr? || v.JObj?
    requires WellShaped(v)
    ensures Run(q, AtElem(ps, p, tree, ks, key, res), Tokens(v))
         == if Bounded(q, v, p) then Ok(AtElem(ps, p, tree, ks, key || v.JObj?, res + Walk(q, v, p))) else Panic
    decreases v, 1
  {
    var m := AtElem(ps, p, tree, ks, key, res);
    if v.JStr? {
      RunOne(q, m, Str(v.s));
      assert res + [] == res;
    } else {
      var ms := v.members;
      RunCons(q, m, ObjOpen, MemberTokens(ms) + [ObjClose]);
      assert Step(q, m, ObjOpen) == Ok(PastMember(ps + [p], tree + [InArr], ks, res));
      RunConcat(q, PastMember(ps + [p], tree + [InArr], ks, res), MemberTokens(ms), [ObjClose]);
      SimMembers(q, ms, ps, p, tree + [InArr], ks, res);
      assert Bounded(q, v, p) <==> MembersBounded(q, ms, p);
      if MembersBounded(q, ms, p) {
        RunOne(q, PastMember(ps + [p], tree + [InArr], ks, res + WalkMembers(q, ms, p)), ObjClose);
        StepObjCloseInArr(q, ps, p, tree, ks, res + WalkMembers(q, ms, p));
      }
    }
  }

  lemma StepObjCloseInArr(q: seq<string>, ps: seq<nat>, p: nat, tree: seq<Bracket>, ks: seq<string>, res: seq<string>)
    ensures Step(q, PastMember(ps + [p], tree + [InArr], ks, res), ObjClose) == Ok(AtElem(ps, p, tree, ks, true, res))
  {
  }

  lemma {:induction false} SimElems(q: seq<string>, es: seq<Json>, ps: seq<nat>, p: nat, tree: seq<Bracket>,
                                    ks: seq<string>, key: bool, res: seq<string>)
    requires forall i :: 0 <= i < |es| ==> (es[i].JStr? || es[i].JObj?) && WellShaped(es[i])
    ensures Run(q, AtElem(ps, p, tree, ks, key, res), ElemTokens(es))
         == if ElemsBounded(q, es, p)
            then Ok(AtElem(ps, p, tree, ks, KeyAfter(key, es), res + WalkElems(q, es, p))) else Panic
    decreases es, 0
  {
    if es == [] {
      assert res + [] == res;
    } else {
      ElemsBoundedCons(q, es, p);
      RunConcat(q, AtElem(ps, p, tree, ks, key, res), Tokens(es[0]), ElemTokens(es[1..]));
      SimElem(q, es[0], ps, p, tree, ks, key, res);
      if Bounded(q, es[0], p) {
        SimElems(q, es[1..], ps, p, tree, ks, key || es[0].JObj?, res + Walk(q, es[0], p));
      }
      WalkElemsCons(q, es, p, res);
    }
  }

  lemma {:induction false} SimMembers(q: seq<string>, ms: seq<Member>, ps: seq<nat>, p: nat, tree: seq<Bracket>,
                                      ks: seq<string>, res: seq<string>)
    requires forall i :: 0 <= i < |ms| ==> WellShaped(ms[i].value)
    ensures Run(q, PastMember(ps + [p], tree, ks, res), MemberTokens(ms))
         == if MembersBounded(q, ms, p)
            then Ok(PastMember(ps + [p], tree, ks, res + WalkMembers(q, ms, p))) else Panic
    decreases ms, 1
  {
    if ms == [] {
      assert res + [] == res;
    } else {
      MembersBoundedCons(q, ms, p);
      var k, v, rest := ms[0].key, ms[0].value, ms[1..];
      StepKey(q, ps, p, tree, ks, k, res);
      RunCons(q, PastMember(ps + [p], tree, ks, res), Str(k), Tokens(v) + MemberTokens(rest));
      if p < |q| {
        SimMembersRest(q, ms, ps, p, tree, ks, res);
      }
    }
  }

  lemma StepKey(q: seq<string>, ps: seq<nat>, p: nat, tree: seq<Bracket>, ks: seq<string>, k: string, res: seq<string>)
    ensures Step(q, PastMember(ps + [p], tree, ks, res), Str(k))
         == if p < |q| then Ok(AtMember(ps + [p], Advance(q, p, k), tree, ks, k, res)) else Panic
  {
  }

  /** Behind the first key: its value, then the other members. */
  lemma {:induction false} SimMembersRest(q: seq<string>, ms: seq<Member>, ps: seq<nat>, p: nat, tree: seq<Bracket>,
                                          ks: seq<string>, res: seq<string>)
    requires ms != [] && p < |q|
    requires forall i :: 0 <= i < |ms| ==> WellShaped(ms[i].value)
    ensures Run(q, AtMember(ps + [p], Advance(q, p, ms[0].key), tree, ks, ms[0].key, res),
                Tokens(ms[0].value) + MemberTokens(ms[1..]))
         == if Bounded(q, ms[0].value, Advance(q, p, ms[0].key)) && MembersBounded(q, ms[1..], p)
            then Ok(PastMember(ps + [p], tree, ks, res + WalkMembers(q, ms, p))) else Panic
    decreases ms, 0
  {
    var k, v, rest := ms[0].key, ms[0].value, ms[1..];
    var p' := Advance(q, p, k);
    RunConcat(q, AtMember(ps + [p], p', tree, ks, k, res), Tokens(v), MemberTokens(rest));
    SimMember(q, v, ps + [p], p', tree, ks, k, res);
    if Bounded(q, v, p') {
      SimMembers(q, rest, ps, p, tree, ks, res + Walk(q, v, p'));
    }
    WalkMembersCons(q, ms, p, res);
  }

  /** A whole document. `Walk` starts at position 0; a top-level number, boolean or null makes the code panic. */
  lemma {:induction false} RunDocument(q: seq<string>, v: Json)
    requires |q| > 0
    requires WellShaped(v)
    ensures Collected(Run(q, INITIAL, Tokens(v)))
         == if !v.JScalar? && Bounded(q, v, 0) then Ok(Walk(q, v, 0)) else Panic
  {
    match v
    case JStr(s) => RunOne(q, INITIAL, Str(s));
    case JScalar => RunOne(q, INITIAL, Scalar);
    case JArr(es) => RunArrDocument(q, es);
    case JObj(ms) => RunObjDocument(q, ms);
  }

  lemma RunArrDocument(q: seq<string>, es: seq<Json>)
    requires |q| > 0
    requires WellShaped(JArr(es))
    ensures Collected(Run(q, INITIAL, Tokens(JArr(es))))
         == if Bounded(q, JArr(es), 0) then Ok(Walk(q, JArr(es), 0)) else Panic
  {
    var p' := Advance(q, 0, "#");
    var inside := AtElem([], p', [], [], false, []);
    assert Step(q, INITIAL, ArrOpen) == Ok(inside);
    RunCons(q, INITIAL, ArrOpen, ElemTokens(es) + [ArrClose]);
    RunConcat(q, inside, ElemTokens(es), [ArrClose]);
    SimElems(q, es, [], p', [], [], false, []);
    if ElemsBounded(q, es, p') {
      RunOne(q, AtElem([], p', [], [], KeyAfter(false, es), [] + WalkElems(q, es, p')), ArrClose);
      assert [] + WalkElems(q, es, p') == WalkElems(q, es, p');
    }
  }

  lemma RunObjDocument(q: seq<string>, ms: seq<Member>)
    requires WellShaped(JObj(ms))
    ensures Collected(Run(q, INITIAL, Tokens(JObj(ms))))
         == if Bounded(q, JObj(ms), 0) then Ok(Walk(q, JObj(ms), 0)) else Panic
  {
    var inside := PastMember([] + [0], [], [], []);
    assert [] + [0] == [0];
    assert Step(q, INITIAL, ObjOpen) == Ok(inside);
    RunCons(q, INITIAL, ObjOpen, MemberTokens(ms) + [ObjClose]);
    RunConcat(q, inside, MemberTokens(ms), [ObjClose]);
    SimMembers(q, ms, [], 0, [], [], []);
    if MembersBounded(q, ms, 0) {
      RunOne(q, PastMember([] + [0], [], [], [] + WalkMembers(q, ms, 0)), ObjClose);
      assert [] + WalkMembers(q, ms, 0) == WalkMembers(q, ms, 0);
    }
  }
}
