/** Which strings the query selects, said in terms of their paths. */
module QueryPaths {
  import opened QueryMachine
  import opened JsonDocument

  /** A string of the document under the member keys, and a "#" for every array, that lead to it. */
  datatype Leaf = Leaf(path: seq<string>, s: string)

  function Leaves(v: Json, path: seq<string>): seq<Leaf> {
    match v
    case JStr(s) => [Leaf(path, s)]
    case JScalar => []
    case JArr(es) => ElemLeaves(es, path + ["#"])
    case JObj(ms) => MemberLeaves(ms, path)
  }

  function ElemLeaves(es: seq<Json>, path: seq<string>): seq<Leaf> {
    if es == [] then [] else Leaves(es[0], path) + ElemLeaves(es[1..], path)
  }

  function MemberLeaves(ms: seq<Member>, path: seq<string>): seq<Leaf> {
    if ms == [] then [] else Leaves(ms[0].value, path + [ms[0].key]) + MemberLeaves(ms[1..], path)
  }

  /** How much of the query is matched behind a path. */
  function PositionOf(q: seq<string>, path: seq<string>): (p: nat)
    decreases |path|
  {
    if path == [] then 0 else Advance(q, PositionOf(q, Pop(path)), Last(path))
  }

  /** The path ends with the query, and nothing of the query is matched where that occurrence starts. */
  predicate Selected(q: seq<string>, path: seq<string>) {
    && |q| <= |path|
    && path[|path| - |q|..] == q
    && PositionOf(q, path[..|path| - |q|]) == 0
  }

  function SelectedStrings(q: seq<string>, leaves: seq<Leaf>): seq<string> {
    if leaves == [] then []
    else (if Selected(q, leaves[0].path) then [leaves[0].s] else []) + SelectedStrings(q, leaves[1..])
  }

  lemma {:induction false} SelectedConcat(q: seq<string>, a: seq<Leaf>, b: seq<Leaf>)
    ensures SelectedStrings(q, a + b) == SelectedStrings(q, a) + SelectedStrings(q, b)
  {
    if a == [] {
      assert a + b == b;
    } else {
      SelectedConcat(q, a[1..], b);
      assert (a + b)[1..] == a[1..] + b && (a + b)[0] == a[0];
    }
  }

  /** The matched part of the query is what the path ends with, and it started from nothing matched. */
  lemma {:induction false} PositionIsSuffix(q: seq<string>, path: seq<string>)
    ensures var p := PositionOf(q, path);
            p <= |q| && p <= |path| && path[|path| - p..] == q[..p] && PositionOf(q, path[..|path| - p]) == 0
    decreases |path|
  {
    if path != [] {
      PositionIsSuffix(q, Pop(path));
      var p, p' := PositionOf(q, Pop(path)), PositionOf(q, path);
      if p' > 0 {
        assert path[|path| - p'..] == Pop(path)[|path| - 1 - p..] + [Last(path)];
        assert q[..p'] == q[..p] + [q[p]];
        assert path[..|path| - p'] == Pop(path)[..|path| - 1 - p];
      } else {
        assert path[..|path|] == path;
      }
    }
  }

  lemma {:induction false} PositionAfterMatch(q: seq<string>, path: seq<string>, n: nat)
    requires n <= |q| && n <= |path|
    requires path[|path| - n..] == q[..n]
    requires PositionOf(q, path[..|path| - n]) == 0
    ensures PositionOf(q, path) == n
    decreases n
  {
    if n == 0 {
      assert path[..|path|] == path;
    } else {
      var front := Pop(path);
      assert front[|front| - (n - 1)..] == Pop(path[|path| - n..]) == Pop(q[..n]) == q[..n - 1];
      assert front[..|front| - (n - 1)] == path[..|path| - n];
      PositionAfterMatch(q, front, n - 1);
      assert Last(path) == path[|path| - n..][n - 1] == q[n - 1];
    }
  }

  lemma FullMatchIff(q: seq<string>, path: seq<string>)
    ensures PositionOf(q, path) == |q| <==> Selected(q, path)
  {
    assert q[..|q|] == q;
    if Selected(q, path) {
      PositionAfterMatch(q, path, |q|);
    }
    PositionIsSuffix(q, path);
  }

  /** A path that ends with the query is selected whenever no non-empty end of what stands before that occurrence is a
      beginning of the query. Without that condition the reset to the start can miss an occurrence. */
  lemma SelectedWhenFresh(q: seq<string>, before: seq<string>)
    requires forall n :: 0 < n <= |q| && n <= |before| ==> before[|before| - n..] != q[..n]
    ensures Selected(q, before + q)
  {
    PositionIsSuffix(q, before);
    assert (before + q)[|before|..] == q;
    assert (before + q)[..|before|] == before;
  }

  lemma {:induction false} WalkSelects(q: seq<string>, v: Json, path: seq<string>)
    ensures Walk(q, v, PositionOf(q, path)) == SelectedStrings(q, Leaves(v, path))
    decreases v, 1
  {
    match v
    case JStr(s) =>
      FullMatchIff(q, path);
      assert Leaves(v, path)[1..] == [];
    case JScalar =>
    case JArr(es) =>
      assert Pop(path + ["#"]) == path;
      WalkElemsSelects(q, es, path + ["#"]);
    case JObj(ms) => WalkMembersSelects(q, ms, path);
  }

  lemma {:induction false} WalkElemsSelects(q: seq<string>, es: seq<Json>, path: seq<string>)
    ensures WalkElems(q, es, PositionOf(q, path)) == SelectedStrings(q, ElemLeaves(es, path))
    decreases es, 0
  {
    if es != [] {
      WalkSelects(q, es[0], path);
      WalkElemsSelects(q, es[1..], path);
      SelectedConcat(q, Leaves(es[0], path), ElemLeaves(es[1..], path));
    }
  }

  lemma {:induction false} WalkMembersSelects(q: seq<string>, ms: seq<Member>, path: seq<string>)
    ensures WalkMembers(q, ms, PositionOf(q, path)) == SelectedStrings(q, MemberLeaves(ms, path))
    decreases ms, 0
  {
    if ms != [] {
      var inner := path + [ms[0].key];
      assert Pop(inner) == path;
      WalkSelects(q, ms[0].value, inner);
      WalkMembersSelects(q, ms[1..], path);
      SelectedConcat(q, Leaves(ms[0].value, inner), MemberLeaves(ms[1..], path));
    }
  }
}
