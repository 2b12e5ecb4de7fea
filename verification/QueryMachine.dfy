/** The token automaton of pkg/qjson/query.go: one pass over a JSON token stream that collects the strings a dotted
    query selects. `Step` says what one token does, `CollectStrings` is the loop itself. What the loop is for (a walk
    of the document tree) is defined in `JsonDocument` and proved in `QueryRefinement` and `QueryTraversal`. */
module QueryMachine {
  datatype Token = ObjOpen | ObjClose | ArrOpen | ArrClose | Str(s: string) | Scalar | Malformed

  datatype Bracket = InObj | InArr

  /** Panic is a Go run-time panic: an index or a slice bound out of range. */
  datatype Outcome<+T> = Ok(value: T) | DecodeError | Panic

  datatype Machine = Machine(positions: seq<nat>, tree: seq<Bracket>, keys: seq<string>, key: bool,
      results: seq<string>)

  const INITIAL := Machine([0], [], [], false, [])

  function Last<T>(s: seq<T>): T
    requires |s| > 0
  {
    s[|s| - 1]
  }

  function Pop<T>(s: seq<T>): seq<T>
    requires |s| > 0
  {
    s[..|s| - 1]
  }

  predicate IsWithinObject(tree: seq<Bracket>)
    requires |tree| > 0
  {
    Last(tree) == InObj
  }

  predicate IsObjectWithinArray(tree: seq<Bracket>) {
    |tree| > 1 && tree[|tree| - 1] == InObj && tree[|tree| - 2] == InArr
  }

  function Step(q: seq<string>, m: Machine, token: Token): Outcome<Machine> {
    if token == Malformed then DecodeError
    else if |m.positions| == 0 then Panic
    else
      var current := Last(m.positions);
      match token
      case ObjOpen => Ok(m.(tree := m.tree + [InObj], key := true))
      case ObjClose =>
        if |m.tree| == 0 then Panic
        else if |m.keys| > 0 && !IsObjectWithinArray(m.tree) then
          Ok(Machine(Pop(m.positions), Pop(m.tree), Pop(m.keys), true, m.results))
        else Ok(m.(tree := Pop(m.tree), key := true))
      case ArrOpen =>
        if current >= |q| then Panic
        else
          Ok(Machine(Pop(m.positions) + [if q[current] == "#" then current + 1 else 0],
                     m.tree + [InArr], m.keys, false, m.results))
      case ArrClose =>
        if |m.tree| == 0 then Panic
        else if |m.keys| > 0 then Ok(Machine(Pop(m.positions), Pop(m.tree), Pop(m.keys), true, m.results))
        else Ok(m.(tree := Pop(m.tree), key := true))
      case Str(s) =>
        if |m.tree| == 0 then Ok(m)
        else if IsWithinObject(m.tree) then
          if m.key then
            if current >= |q| then Panic
            else
              Ok(m.(positions := m.positions + [if q[current] == s then current + 1 else 0],
                    keys := m.keys + [s], key := false))
          else if |m.keys| == 0 then Panic
          else
            Ok(Machine(Pop(m.positions), m.tree, Pop(m.keys), true,
                       if current == |q| then m.results + [s] else m.results))
        else Ok(m.(results := if current == |q| then m.results + [s] else m.results))
      case Scalar =>
        if |m.keys| == 0 || |m.tree| == 0 then Panic
        else Ok(m.(positions := Pop(m.positions), keys := Pop(m.keys), key := IsWithinObject(m.tree)))
  }

  function Run(q: seq<string>, m: Machine, tokens: seq<Token>): Outcome<Machine>
    decreases |tokens|
  {
    if tokens == [] then Ok(m)
    else
      match Step(q, m, tokens[0])
      case Ok(next) => Run(q, next, tokens[1..])
      case DecodeError => DecodeError
      case Panic => Panic
  }

  /** The coupling of the stacks, and the bounds of the query positions. */
  predicate Shaped(q: seq<string>, m: Machine) {
    |m.positions| == |m.keys| + 1 && forall j :: 0 <= j < |m.positions| ==> m.positions[j] <= |q|
  }

  lemma StepKeepsShape(q: seq<string>, m: Machine, token: Token)
    requires Shaped(q, m) && Step(q, m, token).Ok?
    ensures Shaped(q, Step(q, m, token).value)
  {
  }

  /** Over any tokens, document or not, that do not make it panic. */
  lemma {:induction false} RunKeepsShape(q: seq<string>, m: Machine, tokens: seq<Token>)
    requires Shaped(q, m) && Run(q, m, tokens).Ok?
    ensures Shaped(q, Run(q, m, tokens).value)
    decreases |tokens|
  {
    if tokens != [] {
      StepKeepsShape(q, m, tokens[0]);
      RunKeepsShape(q, Step(q, m, tokens[0]).value, tokens[1..]);
    }
  }

  function Collected(o: Outcome<Machine>): Outcome<seq<string>> {
    match o
    case Ok(m) => Ok(m.results)
    case DecodeError => DecodeError
    case Panic => Panic
  }

  /** A run over two token lists is a run over the first, then over the second. */
  lemma {:induction false} RunConcat(q: seq<string>, m: Machine, a: seq<Token>, b: seq<Token>)
    ensures Run(q, m, a + b) == match Run(q, m, a)
                                case Ok(n) => Run(q, n, b)
                                case DecodeError => DecodeError
                                case Panic => Panic
    decreases |a|
  {
    if a == [] {
      assert a + b == b;
    } else {
      assert (a + b)[1..] == a[1..] + b;
      if Step(q, m, a[0]).Ok? {
        RunConcat(q, Step(q, m, a[0]).value, a[1..], b);
      }
    }
  }

  lemma RunOne(q: seq<string>, m: Machine, t: Token)
    ensures Run(q, m, [t]) == Step(q, m, t)
  {
    assert [t][1..] == [];
  }

  /** A run over one more token at the front. */
  lemma RunCons(q: seq<string>, m: Machine, t: Token, rest: seq<Token>)
    ensures Run(q, m, [t] + rest) == match Step(q, m, t)
                                     case Ok(n) => Run(q, n, rest)
                                     case DecodeError => DecodeError
                                     case Panic => Panic
  {
    assert ([t] + rest)[1..] == rest;
  }
}
