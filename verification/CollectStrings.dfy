/** CollectStrings of pkg/qjson/query.go itself: the token loop. */
module CollectStrings {
  import opened QueryMachine
  import opened JsonDocument
  import opened QueryPaths
  import QueryRefinement
  import QueryTraversal
  import Text

  /** What the outcome has to be on the token stream of a well-shaped document. */
  predicate Meets(q: seq<string>, doc: Json, outcome: Outcome<seq<string>>) {
    outcome == if !doc.JScalar? && Bounded(q, doc, 0) then Ok(SelectedStrings(q, Leaves(doc, []))) else Panic
  }

  /** What the run does on the tokens of a document. */
  lemma OnDocument(q: seq<string>, doc: Json)
    requires q != []
    ensures Collected(Run(q, INITIAL, Tokens(doc))) == QueryTraversal.Traverse(q, doc)
    ensures WellShaped(doc) ==> Meets(q, doc, QueryTraversal.Traverse(q, doc))
  {
    QueryTraversal.RunTraverses(q, doc);
    if WellShaped(doc) {
      QueryRefinement.RunDocument(q, doc);
      WalkSelects(q, doc, []);
    }
  }

  /** The token loop. `tokens` is what the decoder delivers until the end of input or its first error. */
  method CollectStrings(queryString: string, tokens: seq<Token>) returns (outcome: Outcome<seq<string>>)
    ensures outcome == Collected(Run(Text.Split(queryString, '.'), INITIAL, tokens))
    ensures forall doc: Json :: tokens == Tokens(doc) ==>
              && outcome == QueryTraversal.Traverse(Text.Split(queryString, '.'), doc)
              && (WellShaped(doc) ==> Meets(Text.Split(queryString, '.'), doc, outcome))
  {
    forall doc: Json | tokens == Tokens(doc)
      ensures QueryTraversal.Traverse(Text.Split(queryString, '.'), doc)
           == Collected(Run(Text.Split(queryString, '.'), INITIAL, tokens))
      ensures WellShaped(doc) ==>
                Meets(Text.Split(queryString, '.'), doc, QueryTraversal.Traverse(Text.Split(queryString, '.'), doc))
    {
      OnDocument(Text.Split(queryString, '.'), doc);
    }
    var query := Text.Split(queryString, '.');
    var positions: seq<nat> := [0];
    var tree: seq<Bracket>, keys: seq<string>, key := [], [], false;
    var results: seq<string> := [];
    for i := 0 to |tokens|
      invariant |positions| == |keys| + 1
      invariant forall j :: 0 <= j < |positions| ==> positions[j] <= |query|
      invariant Run(query, INITIAL, tokens) == Run(query, Machine(positions, tree, keys, key, results), tokens[i..])
    {
      var token := tokens[i];
      var current := positions[|positions| - 1];
      ghost var before := Machine(positions, tree, keys, key, results);
      assert tokens[i..][1..] == tokens[i + 1..];
      match token {
        case Malformed =>
          return DecodeError;
        case ObjOpen =>
          tree := tree + [InObj];
          key := true;
        case ObjClose =>
          if |tree| == 0 { return Panic; }
          if |keys| > 0 && !IsObjectWithinArray(tree) {
            positions := positions[..|positions| - 1];
            keys := keys[..|keys| - 1];
          }
          tree := tree[..|tree| - 1];
          key := true;
        case ArrOpen =>
          tree := tree + [InArr];
          key := false;
          if current >= |query| { return Panic; }
          var next := if query[current] == "#" then current + 1 else 0;
          assert positions[|positions| - 1 := next] == Pop(positions) + [next];
          positions := positions[|positions| - 1 := next];
        case ArrClose =>
          if |tree| == 0 { return Panic; }
          if |keys| > 0 {
            positions := positions[..|positions| - 1];
            keys := keys[..|keys| - 1];
          }
          tree := tree[..|tree| - 1];
          key := true;
        case Str(value) =>
          if |tree| == 0 {
          } else if IsWithinObject(tree) {
            if key {
              if current >= |query| { return Panic; }
              if query[current] == value {
                positions := positions + [current + 1];
              } else {
                positions := positions + [0];
              }
              keys := keys + [value];
            } else {
              if current == |query| {
                results := results + [value];
              }
              if |keys| == 0 { return Panic; }
              positions := positions[..|positions| - 1];
              keys := keys[..|keys| - 1];
            }
            key := !key;
          } else if current == |query| {
            results := results + [value];
          }
        case Scalar =>
          if |keys| == 0 || |tree| == 0 { return Panic; }
          positions := positions[..|positions| - 1];
          keys := keys[..|keys| - 1];
          key := IsWithinObject(tree);
      }
      assert Step(query, before, token) == Ok(Machine(positions, tree, keys, key, results));
    }
    return Ok(results);
  }
}
