/** What Get, Set and Merge of pkg/addons/object.go do to a document as a value, and the laws they satisfy. */
module JsonObjects {
  import opened Wrappers

  datatype Atom = Null | Bool(b: bool) | Number(r: real) | Str(s: string)

  datatype Json = JLeaf(a: Atom) | JArray(elems: seq<Json>) | JObject(members: map<string, Json>)

  const EMPTY := JObject(map[])

  /** The error names the first `depth` keys of the path. */
  datatype GetError = KeyNotFound(depth: nat) | NotAMap(depth: nat)

  function Deeper(r: Result<Json, GetError>, n: nat): Result<Json, GetError> {
    match r
    case Ok(j) => Ok(j)
    case Err(KeyNotFound(d)) => Err(KeyNotFound(d + n))
    case Err(NotAMap(d)) => Err(NotAMap(d + n))
  }

  function Get(j: Json, path: seq<string>): Result<Json, GetError>
    requires j.JObject? && path != []
    decreases |path|
  {
    var k := path[0];
    if k !in j.members then Err(KeyNotFound(1))
    else if |path| == 1 then Ok(j.members[k])
    else if j.members[k].JObject? then Deeper(Get(j.members[k], path[1..]), 1)
    else Err(NotAMap(1))
  }

  /** The map to go on with below a key: what is there if it is a map, else a new one. */
  function MapAt(j: Json, k: string): Json
    requires j.JObject?
  {
    if k in j.members && j.members[k].JObject? then j.members[k] else EMPTY
  }

  function Set(j: Json, path: seq<string>, v: Json): (r: Json)
    requires j.JObject? && path != []
    ensures r.JObject?
    decreases |path|
  {
    var k := path[0];
    j.(members := j.members[k := if |path| == 1 then v else Set(MapAt(j, k), path[1..], v)])
  }

  function Merge(a: Json, b: Json): Json
    decreases b
  {
    if a.JObject? && b.JObject? then
      JObject(map k | k in a.members.Keys + b.members.Keys ::
                if k !in b.members then a.members[k]
                else if k !in a.members then b.members[k]
                else Merge(a.members[k], b.members[k]))
    else b
  }

  /** GetString: a string at the end of the path, or an error. */
  function StringAt(j: Json, path: seq<string>): Option<string>
    requires j.JObject? && path != []
  {
    match Get(j, path)
    case Ok(JLeaf(Str(s))) => Some(s)
    case _ => None
  }

  /** GetObjectArray: an array of maps at the end of the path, or an error; on null the code panics. */
  datatype ArrayResult<+T> = Items(items: seq<T>) | NoArray | NullPanic

  function ArrayAt(j: Json, path: seq<string>): ArrayResult<Json>
    requires j.JObject? && path != []
  {
    match Get(j, path)
    case Ok(JArray(es)) => if forall i :: 0 <= i < |es| ==> es[i].JObject? then Items(es) else NoArray
    case Ok(JLeaf(Null)) => NullPanic
    case _ => NoArray
  }

  // ---- Get and Set ----

  /** The first n keys lead to this map. */
  predicate LeadsTo(j: Json, path: seq<string>, n: nat, o: Json)
    requires j.JObject? && n < |path|
  {
    o.JObject? && if n == 0 then o == j else Get(j, path[..n]) == Ok(o)
  }

  /** The error at depth n: the keys in front lead to a map, and there the n-th key is not; or it is, with more keys to
      come, and what it holds is no map. */
  lemma {:induction false} GetFailsIff(j: Json, path: seq<string>, n: nat)
    requires j.JObject? && 0 < n <= |path|
    ensures Get(j, path) == Err(KeyNotFound(n)) <==>
            exists o :: LeadsTo(j, path, n - 1, o) && path[n - 1] !in o.members
    ensures Get(j, path) == Err(NotAMap(n)) <==>
            exists o :: LeadsTo(j, path, n - 1, o) && n < |path| && path[n - 1] in o.members
                        && !o.members[path[n - 1]].JObject?
    decreases |path|
  {
    if n == 1 {
      assert LeadsTo(j, path, 0, j);
    } else {
      var k, before, inner := path[0], n - 1, n - 2;
      if k in j.members && j.members[k].JObject? {
        GetFailsIff(j.members[k], path[1..], n - 1);
        forall o ensures LeadsTo(j, path, before, o) <==> LeadsTo(j.members[k], path[1..], inner, o) {
          LeadsFurther(j, path, n - 1, o);
        }
      } else {
        forall o ensures !LeadsTo(j, path, before, o) {}
      }
    }
  }

  lemma LeadsFurther(j: Json, path: seq<string>, n: nat, o: Json)
    requires j.JObject? && 0 < n < |path| && path[0] in j.members && j.members[path[0]].JObject?
    ensures LeadsTo(j, path, n, o) <==> LeadsTo(j.members[path[0]], path[1..], n - 1, o)
  {
    assert path[..n][1..] == path[1..][..n - 1];
  }

  lemma {:induction false} GetAfterSet(j: Json, path: seq<string>, v: Json)
    requires j.JObject? && path != []
    ensures Get(Set(j, path, v), path) == Ok(v)
    decreases |path|
  {
    if |path| > 1 {
      GetAfterSet(MapAt(j, path[0]), path[1..], v);
    }
  }

  /** Neither path is a beginning of the other. */
  predicate Incomparable(p: seq<string>, q: seq<string>) {
    !(p <= q) && !(q <= p)
  }

  /** Another path keeps its value or keeps failing, also where Set has put maps in the place of something else. */
  lemma {:induction false} GetAfterSetElsewhere(j: Json, p: seq<string>, v: Json, q: seq<string>)
    requires j.JObject? && p != [] && q != [] && Incomparable(p, q)
    ensures var before, after := Get(j, q), Get(Set(j, p, v), q);
      before.Ok? || after.Ok? ==> after == before
    decreases |p|
  {
    if p[0] == q[0] {
      IncomparableTails(p, q);
      var m := MapAt(j, p[0]);
      GetAfterSetElsewhere(m, p[1..], v, q[1..]);
    }
  }

  lemma IncomparableTails(p: seq<string>, q: seq<string>)
    requires p != [] && q != [] && Incomparable(p, q) && p[0] == q[0]
    ensures |p| > 1 && |q| > 1 && Incomparable(p[1..], q[1..])
  {
    assert p == [p[0]] + p[1..] && q == [q[0]] + q[1..];
  }

  /** How many keys two paths share at the front. */
  function Shared(p: seq<string>, q: seq<string>): nat {
    if p == [] || q == [] || p[0] != q[0] then 0 else 1 + Shared(p[1..], q[1..])
  }

  /** Along the first `n` keys there are maps all the way. */
  predicate MapsAlong(j: Json, path: seq<string>, n: nat)
    requires j.JObject? && n <= |path|
    decreases n
  {
    n == 0 || (path[0] in j.members && j.members[path[0]].JObject? && MapsAlong(j.members[path[0]], path[1..], n - 1))
  }

  lemma {:induction false} SharedBound(p: seq<string>, q: seq<string>)
    requires Incomparable(p, q)
    ensures Shared(p, q) < |p| && Shared(p, q) < |q|
  {
    if p != [] && q != [] && p[0] == q[0] {
      IncomparableTails(p, q);
      SharedBound(p[1..], q[1..]);
    }
  }

  /** The error of another path stays the same exactly when Set creates no map on the way that the two paths share. */
  lemma {:induction false} ErrorAfterSetElsewhere(j: Json, p: seq<string>, v: Json, q: seq<string>)
    requires j.JObject? && p != [] && q != [] && Incomparable(p, q)
    ensures Shared(p, q) < |p|
    ensures Get(Set(j, p, v), q) == Get(j, q) <==> MapsAlong(j, p, Shared(p, q))
    ensures !MapsAlong(j, p, Shared(p, q)) ==> Get(Set(j, p, v), q) == Err(KeyNotFound(Shared(p, q) + 1))
    ensures !MapsAlong(j, p, Shared(p, q)) ==> Get(j, q).Err? && Get(j, q).error.depth <= Shared(p, q)
    decreases |p|
  {
    SharedBound(p, q);
    if p[0] == q[0] {
      IncomparableTails(p, q);
      ErrorAfterSetElsewhere(MapAt(j, p[0]), p[1..], v, q[1..]);
    }
  }

  /** What Set puts at the first key. */
  function Below(j: Json, p: seq<string>, v: Json): Json
    requires j.JObject? && p != []
  {
    if |p| == 1 then v else Set(MapAt(j, p[0]), p[1..], v)
  }

  lemma SetAtKey(j: Json, p: seq<string>, v: Json)
    requires j.JObject? && p != []
    ensures Set(j, p, v) == JObject(j.members[p[0] := Below(j, p, v)])
  {
  }

  lemma {:induction false} SetCommutes(j: Json, p: seq<string>, v: Json, q: seq<string>, w: Json)
    requires j.JObject? && p != [] && q != [] && Incomparable(p, q)
    ensures Set(Set(j, p, v), q, w) == Set(Set(j, q, w), p, v)
    decreases |p|
  {
    SetAtKey(j, p, v);
    SetAtKey(j, q, w);
    SetAtKey(Set(j, p, v), q, w);
    SetAtKey(Set(j, q, w), p, v);
    if p[0] == q[0] {
      IncomparableTails(p, q);
      SetCommutes(MapAt(j, p[0]), p[1..], v, q[1..], w);
      SameKey(j, p, v, q, w);
    } else {
      OtherKeys(j, p, v, q, w);
    }
  }

  lemma SameKey(j: Json, p: seq<string>, v: Json, q: seq<string>, w: Json)
    requires j.JObject? && |p| > 1 && |q| > 1 && p[0] == q[0]
    requires Set(Set(MapAt(j, p[0]), p[1..], v), q[1..], w) == Set(Set(MapAt(j, p[0]), q[1..], w), p[1..], v)
    ensures Below(JObject(j.members[p[0] := Below(j, p, v)]), q, w)
         == Below(JObject(j.members[q[0] := Below(j, q, w)]), p, v)
  {
  }

  lemma OtherKeys(j: Json, p: seq<string>, v: Json, q: seq<string>, w: Json)
    requires j.JObject? && p != [] && q != [] && p[0] != q[0]
    ensures var x, y := Below(j, p, v), Below(j, q, w);
      && Below(JObject(j.members[p[0] := x]), q, w) == y
      && Below(JObject(j.members[q[0] := y]), p, v) == x
      && j.members[p[0] := x][q[0] := y] == j.members[q[0] := y][p[0] := x]
  {
  }

  /** Putting an empty map on the way, where there is none, does not change what Set arrives at. */
  lemma {:induction false} SetThroughEmpty(j: Json, path: seq<string>, n: nat, v: Json)
    requires j.JObject? && 0 < n < |path|
    requires MapsAlong(j, path, n - 1) && !MapsAlong(j, path, n)
    ensures Set(Set(j, path[..n], EMPTY), path, v) == Set(j, path, v)
    decreases n
  {
    var k := path[0];
    if n == 1 {
      assert Set(j, path[..1], EMPTY).members == j.members[k := EMPTY];
      assert Set(Set(j, path[..1], EMPTY), path, v).members == j.members[k := Set(EMPTY, path[1..], v)];
    } else {
      assert path[..n][1..] == path[1..][..n - 1];
      SetThroughEmpty(j.members[k], path[1..], n - 1, v);
    }
  }

  // ---- Merge ----

  /** What every path of a merged document reads: where the argument has a value, that value, merged with the receiver's
      if both are maps; where it has a leaf on the way, nothing; where it has no such key, what the receiver has. */
  lemma {:induction false} GetAfterMerge(a: Json, b: Json, path: seq<string>)
    requires a.JObject? && b.JObject? && path != []
    ensures var x, y, r := Get(a, path), Get(b, path), Get(Merge(a, b), path);
      match y
      case Ok(v) => r == Ok(if x.Ok? then Merge(x.value, v) else v)
      case Err(NotAMap(_)) => r == y
      case Err(KeyNotFound(_)) => (x.Ok? || r.Ok? ==> r == x)
    decreases |path|
  {
    var k := path[0];
    if |path| > 1 && k in b.members && b.members[k].JObject? {
      if k in a.members && a.members[k].JObject? {
        GetAfterMerge(a.members[k], b.members[k], path[1..]);
      }
    }
  }

  /** A leaf of the argument wins. */
  lemma LeafWins(a: Json, b: Json, path: seq<string>)
    requires a.JObject? && b.JObject? && path != []
    requires Get(b, path).Ok? && !Get(b, path).value.JObject?
    ensures Get(Merge(a, b), path) == Get(b, path)
  {
    GetAfterMerge(a, b, path);
  }

  lemma {:induction false} MergeSelf(b: Json)
    ensures Merge(b, b) == b
  {
    if b.JObject? {
      forall k | k in b.members ensures Merge(b.members[k], b.members[k]) == b.members[k] {
        MergeSelf(b.members[k]);
      }
      assert Merge(b, b).members == b.members;
    }
  }

  /** Merging the same argument again changes nothing. */
  lemma {:induction false} MergeIdempotent(a: Json, b: Json)
    ensures Merge(Merge(a, b), b) == Merge(a, b)
    decreases b
  {
    var m := Merge(a, b);
    if a.JObject? && b.JObject? {
      forall k | k in b.members ensures Merge(m.members[k], b.members[k]) == m.members[k] {
        if k in a.members {
          MergeIdempotent(a.members[k], b.members[k]);
        } else {
          MergeSelf(b.members[k]);
        }
      }
      assert Merge(m, b).members == m.members;
    } else {
      MergeSelf(b);
    }
  }

  /** `c` has every key of `a`, and again below, wherever both hold maps. */
  predicate Covers(c: Json, a: Json)
    decreases a
  {
    a.JObject? && c.JObject? ==>
      forall k :: k in a.members ==> k in c.members && Covers(c.members[k], a.members[k])
  }

  lemma {:induction false} CoversIff(a: Json, c: Json)
    ensures Covers(c, a) <==> Merge(a, c) == c
    decreases a
  {
    if a.JObject? && c.JObject? {
      var m := Merge(a, c);
      forall k | k in a.members && k in c.members
        ensures Covers(c.members[k], a.members[k]) <==> m.members[k] == c.members[k]
      {
        CoversIff(a.members[k], c.members[k]);
      }
      if Covers(c, a) {
        assert m.members == c.members;
      }
      if m == c {
        forall k | k in a.members ensures k in c.members {
          assert k in m.members;
        }
      }
    }
  }

  /** Nowhere does a non-map of `b` separate maps of `a` and `c` of which the former is not covered by the latter. */
  predicate Associates(a: Json, b: Json, c: Json)
    decreases c
  {
    if !a.JObject? || !c.JObject? then true
    else if !b.JObject? then Covers(c, a)
    else
      forall k :: k in a.members && k in b.members && k in c.members ==>
        Associates(a.members[k], b.members[k], c.members[k])
  }

  /** Merging in two ways gives the same document exactly under that condition. */
  lemma {:induction false} MergeAssociativeIff(a: Json, b: Json, c: Json)
    ensures Merge(Merge(a, b), c) == Merge(a, Merge(b, c)) <==> Associates(a, b, c)
    decreases c
  {
    if a.JObject? && c.JObject? {
      if !b.JObject? {
        CoversIff(a, c);
      } else {
        var l, r := Merge(Merge(a, b), c), Merge(a, Merge(b, c));
        forall k | k in a.members && k in b.members && k in c.members
          ensures l.members[k] == r.members[k] <==> Associates(a.members[k], b.members[k], c.members[k])
        {
          MergeAssociativeIff(a.members[k], b.members[k], c.members[k]);
        }
        assert l.members.Keys == r.members.Keys;
        if Associates(a, b, c) {
          assert forall k :: k in l.members ==> l.members[k] == r.members[k];
          assert l.members == r.members;
        }
      }
    }
  }

  /** In particular when no non-map of `b` separates maps of `a` and `c` at all. */
  predicate NeverSeparated(a: Json, b: Json, c: Json)
    decreases c
  {
    if !a.JObject? || !c.JObject? then true
    else
      b.JObject?
      && forall k :: k in a.members && k in b.members && k in c.members ==>
           NeverSeparated(a.members[k], b.members[k], c.members[k])
  }

  lemma {:induction false} MergeAssociative(a: Json, b: Json, c: Json)
    requires NeverSeparated(a, b, c)
    ensures Associates(a, b, c)
    ensures Merge(Merge(a, b), c) == Merge(a, Merge(b, c))
    decreases c
  {
    if a.JObject? && c.JObject? {
      forall k | k in a.members && k in b.members && k in c.members
        ensures Associates(a.members[k], b.members[k], c.members[k])
      {
        MergeAssociative(a.members[k], b.members[k], c.members[k]);
      }
    }
    MergeAssociativeIff(a, b, c);
  }

  /** {"k": {"x": null}}, {"k": null} and {"k": {}}: the null in between wipes out x, unless it is merged away first. */
  lemma NullBetweenMaps()
    ensures
      var a, b := JObject(map["k" := JObject(map["x" := JLeaf(Null)])]), JObject(map["k" := JLeaf(Null)]);
      var c := JObject(map["k" := EMPTY]);
      && Get(Merge(Merge(a, b), c), ["k"]) == Ok(EMPTY)
      && Get(Merge(a, Merge(b, c)), ["k", "x"]) == Ok(JLeaf(Null))
      && Merge(Merge(a, b), c) != Merge(a, Merge(b, c))
  {
    var x := JObject(map["x" := JLeaf(Null)]);
    var a, b, c := JObject(map["k" := x]), JObject(map["k" := JLeaf(Null)]), JObject(map["k" := EMPTY]);
    assert Merge(a, b).members["k"] == JLeaf(Null) && Merge(b, c).members["k"] == EMPTY;
    assert Merge(x, EMPTY).members == x.members;
    assert Merge(a, Merge(b, c)).members["k"] == x;
    assert ["k", "x"][1..] == ["x"];
  }
}
