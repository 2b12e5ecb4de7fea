/** Documents on which the code and the intent part: one for every condition of the theorems above. */
module QueryExamples {
  import opened QueryMachine
  import opened JsonDocument
  import opened QueryPaths
  import QueryRefinement

  function One(k: string, v: Json): Json {
    JObj([Member(k, v)])
  }

  /** An occurrence of the query right behind one more copy of its first label is missed, whatever the query: the copy
      has begun an occurrence, the next label breaks it, and the reset gives up the one that had begun meanwhile. */
  lemma RepeatedStartIsMissed(q: seq<string>)
    requires q != []
    ensures ([q[0]] + q)[1..] == q && !Selected(q, [q[0]] + q)
  {
    var path := [q[0]] + q;
    assert path[..1] == [q[0]] && Pop([q[0]]) == [];
    assert PositionOf(q, [q[0]]) == Advance(q, 0, q[0]) == 1;
  }

  /** So {"a": {"a": {"b": s}}} asked for a.b yields nothing. */
  lemma RepeatedStartYieldsNothing(a: string, b: string, s: string)
    requires a != b
    ensures Collected(Run([a, b], INITIAL, Tokens(One(a, One(a, One(b, JStr(s))))))) == Ok([])
  {
    var q, inner := [a, b], One(b, JStr(s));
    var middle := One(a, inner);
    WalkOne(q, b, JStr(s), 0);
    WalkOne(q, a, inner, 1);
    WalkOne(q, a, middle, 0);
    QueryRefinement.RunDocument(q, One(a, middle));
  }

  lemma WalkOne(q: seq<string>, k: string, v: Json, p: nat)
    ensures Walk(q, One(k, v), p) == Walk(q, v, Advance(q, p, k))
    ensures Bounded(q, One(k, v), p) <==> p < |q| && Bounded(q, v, Advance(q, p, k))
    ensures WellShaped(One(k, v)) <==> WellShaped(v)
  {
    var ms := [Member(k, v)];
    assert ms[1..] == [] && ms[0].value == v;
    assert WalkMembers(q, [], p) == [];
    assert WalkMembers(q, ms, p) == Walk(q, v, Advance(q, p, k)) + [] == Walk(q, v, Advance(q, p, k));
  }

  /** [1]: the number pops a key that was never pushed. */
  lemma NumberInArrayPanics(q: seq<string>)
    requires |q| > 0
    ensures Collected(Run(q, INITIAL, Tokens(JArr([JScalar])))) == Panic
  {
    var m := Step(q, INITIAL, ArrOpen).value;
    assert ElemTokens([JScalar]) == [Scalar];
    RunCons(q, INITIAL, ArrOpen, [Scalar] + [ArrClose]);
    RunCons(q, m, Scalar, [ArrClose]);
    assert Step(q, m, Scalar) == Panic;
  }

  /** [[],s] asked for #.#: the inner array leaves its own position behind, and s is collected although it lies at #. */
  lemma ArrayInArrayLosesPlace(s: string)
    ensures var q, doc := ["#", "#"], JArr([JArr([]), JStr(s)]);
            && Walk(q, doc, 0) == []
            && Bounded(q, doc, 0)
            && Collected(Run(q, INITIAL, Tokens(doc))) == Ok([s])
  {
    SampleTokens(s);
    SampleRun(s);
    SampleWalk(s);
  }

  lemma SampleTokens(s: string)
    ensures Tokens(JArr([JArr([]), JStr(s)])) == [ArrOpen] + ([ArrOpen] + ([ArrClose] + ([Str(s)] + [ArrClose])))
  {
    var es := [JArr([]), JStr(s)];
    assert es[1..] == [JStr(s)] && [JStr(s)][1..] == [];
    assert Tokens(JArr([])) == [ArrOpen] + [ArrClose];
    assert ElemTokens([JStr(s)]) == [Str(s)];
  }

  lemma SampleWalk(s: string)
    ensures var q, doc := ["#", "#"], JArr([JArr([]), JStr(s)]);
            Walk(q, doc, 0) == [] && Bounded(q, doc, 0)
  {
    var q := ["#", "#"];
    var es := [JArr([]), JStr(s)];
    assert es[1..] == [JStr(s)] && [JStr(s)][1..] == [];
    assert Bounded(q, JArr([]), 1) && Bounded(q, JStr(s), 1);
    assert WalkElems(q, [JStr(s)], 1) == [] && WalkElems(q, es, 1) == [];
  }

  lemma SampleRun(s: string)
    ensures Collected(Run(["#", "#"], INITIAL,
                          [ArrOpen] + ([ArrOpen] + ([ArrClose] + ([Str(s)] + [ArrClose]))))) == Ok([s])
  {
    var q := ["#", "#"];
    var m1 := Machine([1], [InArr], [], false, []);
    var m2 := Machine([2], [InArr, InArr], [], false, []);
    var m3 := Machine([2], [InArr], [], true, []);
    var m4 := Machine([2], [InArr], [], true, [s]);
    RunCons(q, INITIAL, ArrOpen, [ArrOpen] + ([ArrClose] + ([Str(s)] + [ArrClose])));
    RunCons(q, m1, ArrOpen, [ArrClose] + ([Str(s)] + [ArrClose]));
    RunCons(q, m2, ArrClose, [Str(s)] + [ArrClose]);
    RunCons(q, m3, Str(s), [ArrClose]);
    RunOne(q, m4, ArrClose);
    SampleSteps(s, m1, m2, m3, m4);
  }

  lemma SampleSteps(s: string, m1: Machine, m2: Machine, m3: Machine, m4: Machine)
    requires m1 == Machine([1], [InArr], [], false, [])
    requires m2 == Machine([2], [InArr, InArr], [], false, [])
    requires m3 == Machine([2], [InArr], [], true, [])
    requires m4 == Machine([2], [InArr], [], true, [s])
    ensures var q := ["#", "#"];
            && Step(q, INITIAL, ArrOpen) == Ok(m1) && Step(q, m1, ArrOpen) == Ok(m2)
            && Step(q, m2, ArrClose) == Ok(m3) && Step(q, m3, Str(s)) == Ok(m4)
  {
    var q := ["#", "#"];
    assert Pop([0]) + [1] == [1] && [] + [InArr] == [InArr];
    assert Pop([1]) + [2] == [2] && [InArr] + [InArr] == [InArr, InArr];
    assert Pop([InArr, InArr]) == [InArr] && [] + [s] == [s];
  }

  /** {"a":["x"]} asked for a: the array is reached with the whole query matched, and the index is out of range. */
  lemma ArrayAtFullMatchPanics()
    ensures Collected(Run(["a"], INITIAL, Tokens(One("a", JArr([JStr("x")]))))) == Panic
  {
    var arr := JArr([JStr("x")]);
    assert !Bounded(["a"], arr, 1);
    assert One("a", arr).members[0].value == arr;
    assert WellShaped(arr) && WellShaped(One("a", arr));
    assert !Bounded(["a"], One("a", arr), 0);
    QueryRefinement.RunDocument(["a"], One("a", arr));
  }
}
