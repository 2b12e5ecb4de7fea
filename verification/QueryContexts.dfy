/** Why the shape condition is there: a value out of shape loses entries of the position stack of whatever encloses it.
    `WellShaped` and `Bounded` are exactly what a value needs for the machine to be right about it in every context. */
module QueryContexts {
  import opened QueryMachine
  import opened JsonDocument
  import opened QueryRefinement

  /** In every context, the value yields the walk's strings and gives the stacks back as they were. */
  ghost predicate Faithful(q: seq<string>, v: Json, p: nat) {
    forall ps: seq<nat>, tree: seq<Bracket>, ks: seq<string>, k: string, res: seq<string> :: |ps| == |ks| + 1 ==>
      Run(q, AtMember(ps, p, tree, ks, k, res), Tokens(v)) == Ok(PastMember(ps, tree, ks, res + Walk(q, v, p)))
  }

  /** How many entries too many a value pops: one for each array, number, boolean or null directly inside an array. */
  function Lost(v: Json): nat {
    match v
    case JStr(_) => 0
    case JScalar => 0
    case JArr(es) => LostElems(es)
    case JObj(ms) => LostMembers(ms)
  }

  function LostElems(es: seq<Json>): nat {
    if es == [] then 0
    else (if es[0].JArr? || es[0].JScalar? then 1 else 0) + Lost(es[0]) + LostElems(es[1..])
  }

  function LostMembers(ms: seq<Member>): nat {
    if ms == [] then 0 else Lost(ms[0].value) + LostMembers(ms[1..])
  }

  lemma {:induction false} LostNothing(v: Json)
    ensures Lost(v) == 0 <==> WellShaped(v)
  {
    match v
    case JStr(_) =>
    case JScalar =>
    case JArr(es) => LostNoElems(es);
    case JObj(ms) => LostNoMembers(ms);
  }

  lemma {:induction false} LostNoElems(es: seq<Json>)
    ensures LostElems(es) == 0 <==> forall i :: 0 <= i < |es| ==> (es[i].JStr? || es[i].JObj?) && WellShaped(es[i])
  {
    if es != [] {
      LostNothing(es[0]);
      LostNoElems(es[1..]);
      forall i | 0 < i < |es| ensures es[i] == es[1..][i - 1] {}
    }
  }

  lemma {:induction false} LostNoMembers(ms: seq<Member>)
    ensures LostMembers(ms) == 0 <==> forall i :: 0 <= i < |ms| ==> WellShaped(ms[i].value)
  {
    if ms != [] {
      LostNothing(ms[0].value);
      LostNoMembers(ms[1..]);
      forall i | 0 < i < |ms| ensures ms[i] == ms[1..][i - 1] {}
    }
  }

  predicate Balanced(m: Machine) {
    |m.positions| == |m.keys| + 1
  }

  /** The run panics, or it pops `n` entries, as far as there are so many, and is back at the same bracket. */
  predicate Pops(o: Outcome<Machine>, m: Machine, n: nat) {
    o == Panic
    || (o.Ok? && Balanced(o.value) && o.value.tree == m.tree
        && |o.value.keys| == if n <= |m.keys| then |m.keys| - n else 0)
  }

  lemma {:induction false} CountMember(q: seq<string>, v: Json, m: Machine)
    requires Balanced(m)
    requires |m.tree| > 0 && Last(m.tree) == InObj && !m.key
    ensures Pops(Run(q, m, Tokens(v)), m, 1 + Lost(v))
    ensures Run(q, m, Tokens(v)).Ok? ==> Run(q, m, Tokens(v)).value.key
    decreases v, 2
  {
    match v
    case JStr(s) => RunOne(q, m, Str(s));
    case JScalar => RunOne(q, m, Scalar);
    case JArr(es) => CountArr(q, es, m);
    case JObj(ms) => CountObj(q, ms, m);
  }

  lemma {:induction false} CountElem(q: seq<string>, v: Json, m: Machine)
    requires Balanced(m)
    requires |m.tree| > 0 && Last(m.tree) == InArr
    ensures Pops(Run(q, m, Tokens(v)), m, (if v.JArr? || v.JScalar? then 1 else 0) + Lost(v))
    decreases v, 2
  {
    match v
    case JStr(s) => RunOne(q, m, Str(s));
    case JScalar => RunOne(q, m, Scalar);
    case JArr(es) => CountArr(q, es, m);
    case JObj(ms) => CountObj(q, ms, m);
  }

  lemma {:induction false} CountArr(q: seq<string>, es: seq<Json>, m: Machine)
    requires Balanced(m)
    requires |m.tree| > 0
    ensures Pops(Run(q, m, Tokens(JArr(es))), m, 1 + LostElems(es))
    ensures Run(q, m, Tokens(JArr(es))).Ok? ==> Run(q, m, Tokens(JArr(es))).value.key
    decreases es, 2
  {
    RunCons(q, m, ArrOpen, ElemTokens(es) + [ArrClose]);
    if Step(q, m, ArrOpen).Ok? {
      var inside := Step(q, m, ArrOpen).value;
      CountElems(q, es, inside);
      RunConcat(q, inside, ElemTokens(es), [ArrClose]);
      if Run(q, inside, ElemTokens(es)).Ok? {
        RunOne(q, Run(q, inside, ElemTokens(es)).value, ArrClose);
      }
    }
  }

  lemma {:induction false} CountObj(q: seq<string>, ms: seq<Member>, m: Machine)
    requires Balanced(m)
    requires |m.tree| > 0
    ensures Pops(Run(q, m, Tokens(JObj(ms))), m, (if Last(m.tree) == InObj then 1 else 0) + LostMembers(ms))
    ensures Run(q, m, Tokens(JObj(ms))).Ok? ==> Run(q, m, Tokens(JObj(ms))).value.key
    decreases ms, 2
  {
    RunCons(q, m, ObjOpen, MemberTokens(ms) + [ObjClose]);
    var inside := Step(q, m, ObjOpen).value;
    CountMembers(q, ms, inside);
    RunConcat(q, inside, MemberTokens(ms), [ObjClose]);
    if Run(q, inside, MemberTokens(ms)).Ok? {
      RunOne(q, Run(q, inside, MemberTokens(ms)).value, ObjClose);
    }
  }

  lemma {:induction false} CountElems(q: seq<string>, es: seq<Json>, m: Machine)
    requires Balanced(m)
    requires |m.tree| > 0 && Last(m.tree) == InArr
    ensures Pops(Run(q, m, ElemTokens(es)), m, LostElems(es))
    decreases es, 1
  {
    if es != [] {
      CountElem(q, es[0], m);
      RunConcat(q, m, Tokens(es[0]), ElemTokens(es[1..]));
      if Run(q, m, Tokens(es[0])).Ok? {
        CountElems(q, es[1..], Run(q, m, Tokens(es[0])).value);
      }
    }
  }

  lemma {:induction false} CountMembers(q: seq<string>, ms: seq<Member>, m: Machine)
    requires Balanced(m)
    requires |m.tree| > 0 && Last(m.tree) == InObj && m.key
    ensures Pops(Run(q, m, MemberTokens(ms)), m, LostMembers(ms))
    ensures Run(q, m, MemberTokens(ms)).Ok? ==> Run(q, m, MemberTokens(ms)).value.key
    decreases ms, 1
  {
    if ms != [] {
      var k, v, rest := ms[0].key, ms[0].value, ms[1..];
      RunCons(q, m, Str(k), Tokens(v) + MemberTokens(rest));
      if Step(q, m, Str(k)).Ok? {
        var n := Step(q, m, Str(k)).value;
        CountMember(q, v, n);
        RunConcat(q, n, Tokens(v), MemberTokens(rest));
        if Run(q, n, Tokens(v)).Ok? {
          CountMembers(q, rest, Run(q, n, Tokens(v)).value);
        }
      }
    }
  }

  /** The two conditions are necessary and sufficient for a value to be read correctly wherever it stands. */
  lemma FaithfulIff(q: seq<string>, v: Json, p: nat)
    ensures Faithful(q, v, p) <==> WellShaped(v) && Bounded(q, v, p)
  {
    if WellShaped(v) {
      forall ps: seq<nat>, tree: seq<Bracket>, ks: seq<string>, k: string, res: seq<string> | |ps| == |ks| + 1
        ensures Run(q, AtMember(ps, p, tree, ks, k, res), Tokens(v))
             == if Bounded(q, v, p) then Ok(PastMember(ps, tree, ks, res + Walk(q, v, p))) else Panic
      {
        SimMember(q, v, ps, p, tree, ks, k, res);
      }
      var m := AtMember([0], p, [], [], "", []);
    } else {
      LostNothing(v);
      var ks: seq<string> := seq(Lost(v), _ => "");
      var ps: seq<nat> := seq(Lost(v) + 1, _ => 0);
      var m := AtMember(ps, p, [], ks, "", []);
      CountMember(q, v, m);
      assert Run(q, m, Tokens(v)) != Ok(PastMember(ps, [], ks, [] + Walk(q, v, p)));
    }
  }
}
