/** transformList with withImageRepository of pkg/addons/transform.go, rewriting the containers of a list of manifests
    in place. */
module Transform {
  import opened Wrappers
  import opened JsonObjects
  import opened Objects
  import opened Manifests

  // ---- One element of an array of maps ----

  ghost function ElemSteps(path: seq<string>, i: nat): seq<Step> {
    KeySteps(path) + [Index(i)]
  }

  lemma ElemStepsTail(path: seq<string>, i: nat)
    requires path != []
    ensures ElemSteps(path, i)[0] == KeySteps(path)[0] == Key(path[0])
    ensures ElemSteps(path, i)[1..] == ElemSteps(path[1..], i) && KeySteps(path)[1..] == KeySteps(path[1..])
  {
  }

  lemma ReplaceIndex(t: Tree, i: nat, sub: Tree)
    requires t.TArray? && i < |t.elems|
    ensures var p := ElemSteps([], i);
      Has(t, p) && At(t, p) == t.elems[i] && Replace(t, p, sub) == TArray(t.elems[i := sub])
  {
    var p := ElemSteps([], i);
    assert p == [Index(i)] && p[1..] == [];
  }

  lemma KidReplaced(t: Tree, k: string, kid: Tree)
    requires t.TObject?
    ensures JsonOf(t.(kids := t.kids[k := kid])) == JObject(JsonOf(t).members[k := JsonOf(kid)])
  {
    assert JsonOf(t.(kids := t.kids[k := kid])).members == JsonOf(t).members[k := JsonOf(kid)];
  }

  /** Replacing one element of an array of maps, on the tree and on the document. */
  lemma {:induction false} ReplaceElem(t: Tree, path: seq<string>, i: nat, sub: Tree)
    requires path != [] && Has(t, KeySteps(path)) && At(t, KeySteps(path)).TArray?
    requires i < |At(t, KeySteps(path)).elems|
    ensures Has(t, ElemSteps(path, i)) && At(t, ElemSteps(path, i)) == At(t, KeySteps(path)).elems[i]
    ensures var t' := Replace(t, ElemSteps(path, i), sub);
      var elems' := At(t, KeySteps(path)).elems[i := sub];
      && t.TObject? && t'.TObject?
      && Has(t', KeySteps(path)) && At(t', KeySteps(path)) == TArray(elems')
      && JsonOf(t') == Set(JsonOf(t), path, JsonOf(TArray(elems')))
    decreases |path|
  {
    ElemStepsTail(path, i);
    var k := path[0];
    var kid := t.kids[k];
    if |path| == 1 {
      assert KeySteps(path[1..]) == [] && path[1..] == [];
      ReplaceIndex(kid, i, sub);
    } else {
      ReplaceElem(kid, path[1..], i, sub);
    }
    KidReplaced(t, k, Replace(kid, ElemSteps(path[1..], i), sub));
  }

  /** The first `n` containers updated, the others as they were. */
  function PartlyUpdated(es: seq<Json>, n: nat, upd: string -> Option<string>): seq<Json>
    requires AllObjects(es) && n <= |es|
  {
    UpdateContainers(es, upd)[..n] + es[n..]
  }

  lemma NextUpdated(es: seq<Json>, n: nat, upd: string -> Option<string>)
    requires AllObjects(es) && n < |es|
    ensures PartlyUpdated(es, n, upd)[n] == es[n]
    ensures PartlyUpdated(es, n, upd)[n := UpdateContainer(es[n], upd)] == PartlyUpdated(es, n + 1, upd)
  {
  }

  /** The document `t` holds these containers at the path, the first `n` of them updated, and is otherwise `j`. */
  ghost predicate Halfway(t: Tree, j: Json, path: seq<string>, es: seq<Json>, n: nat, containers: seq<Object>,
                          upd: string -> Option<string>) {
    && j.JObject? && path != [] && AllObjects(es) && n <= |es| == |containers|
    && HoldsObjects(t, KeySteps(path), containers)
    && JsonOf(At(t, KeySteps(path))) == JArray(PartlyUpdated(es, n, upd))
    && JsonOf(t) == Set(j, path, JArray(PartlyUpdated(es, n, upd)))
  }

  lemma {:induction false} SetTwice(j: Json, path: seq<string>, v: Json, w: Json)
    requires j.JObject? && path != []
    ensures Set(Set(j, path, v), path, w) == Set(j, path, w)
    decreases |path|
  {
    var k := path[0];
    if |path| > 1 {
      SetTwice(MapAt(j, k), path[1..], v, w);
    }
    assert Set(Set(j, path, v), path, w).members == Set(j, path, w).members;
  }

  lemma StartHalfway(t: Tree, path: seq<string>, containers: seq<Object>, upd: string -> Option<string>)
    requires t.TObject? && path != [] && ArrayAt(JsonOf(t), path).Items?
    requires HoldsObjects(t, KeySteps(path), containers)
    requires Get(JsonOf(t), path) == Ok(JsonOf(At(t, KeySteps(path))))
    ensures Halfway(t, JsonOf(t), path, ArrayAt(JsonOf(t), path).items, 0, containers, upd)
  {
    var es := ArrayAt(JsonOf(t), path).items;
    assert PartlyUpdated(es, 0, upd) == es;
    SetSame(JsonOf(t), path);
  }

  lemma StepHalfway(t: Tree, j: Json, path: seq<string>, es: seq<Json>, n: nat, containers: seq<Object>,
                    upd: string -> Option<string>, sub: Tree)
    requires Halfway(t, j, path, es, n, containers, upd) && n < |es|
    requires sub.TObject? && sub.o == containers[n] && JsonOf(sub) == UpdateContainer(es[n], upd)
    ensures Has(t, ElemSteps(path, n))
    ensures Halfway(Replace(t, ElemSteps(path, n), sub), j, path, es, n + 1, containers, upd)
  {
    ReplaceElem(t, path, n, sub);
    NextUpdated(es, n, upd);
    var node := At(t, KeySteps(path));
    assert JsonOf(TArray(node.elems[n := sub])) == JArray(JsonOf(node).elems[n := JsonOf(sub)]);
    SetTwice(j, path, JArray(PartlyUpdated(es, n, upd)), JArray(PartlyUpdated(es, n + 1, upd)));
  }

  // ---- The code ----

  /** The callback of withImageRepository on one container. */
  method UpdateImageOf(container: Object, upd: string -> Option<string>, ghost t: Tree)
    returns (ghost t': Tree)
    requires Document(t, container)
    modifies Objs(t)
    ensures Document(t', container) && Objs(t') <= Objs(t)
    ensures JsonOf(t') == UpdateContainer(JsonOf(t), upd)
  {
    t' := t;
    ghost var objs := Objs(t);
    ghost var held := Snap(objs);
    Text.SplitNone("image", '.');
    var image := container.GetString("image", t);
    SameSnap(objs, held);
    if image == None {
      return;
    }
    var updated := upd(image.value);
    if updated == None {
      return;
    }
    t' := container.SetString("image", updated.value, t);
  }

  /** The containers at one path of an item. */
  method UpdateContainersAt(o: Object, path: seq<string>, containers: seq<Object>, upd: string -> Option<string>,
                            ghost t: Tree) returns (ghost t': Tree)
    requires Document(t, o) && path != [] && ArrayAt(JsonOf(t), path).Items?
    requires HoldsObjects(t, KeySteps(path), containers)
    requires Get(JsonOf(t), path) == Ok(JsonOf(At(t, KeySteps(path))))
    modifies Objs(t)
    ensures Document(t', o) && Objs(t') <= Objs(t)
    ensures JsonOf(t') == UpdatePath(JsonOf(t), path, upd)
  {
    ghost var es := ArrayAt(JsonOf(t), path).items;
    StartHalfway(t, path, containers, upd);
    t' := t;
    for i := 0 to |containers|
      invariant Document(t', o) && Objs(t') <= Objs(t)
      invariant Halfway(t', JsonOf(t), path, es, i, containers, upd)
    {
      t' := UpdateNextContainer(o, path, containers, i, upd, t', JsonOf(t), es);
    }
    assert PartlyUpdated(es, |es|, upd) == UpdateContainers(es, upd);
  }

  /** The body of that loop. */
  method UpdateNextContainer(ghost o: Object, ghost path: seq<string>, containers: seq<Object>, i: nat,
                             upd: string -> Option<string>, ghost t: Tree, ghost j: Json, ghost es: seq<Json>)
    returns (ghost t': Tree)
    requires Document(t, o) && i < |containers|
    requires Halfway(t, j, path, es, i, containers, upd)
    modifies Objs(t)
    ensures Document(t', o) && Objs(t') <= Objs(t)
    ensures Halfway(t', j, path, es, i + 1, containers, upd)
  {
    ghost var p := ElemSteps(path, i);
    ghost var node := At(t, KeySteps(path)).elems[i];
    ReplaceElem(t, path, i, node);
    NextUpdated(es, i, upd);
    PartOf(t, p);
    ghost var before := Snap(Objs(t));
    ghost var sub := UpdateImageOf(containers[i], upd, node);
    PartChanged(t, p, sub, before);
    StepHalfway(t, j, path, es, i, containers, upd, sub);
    t' := Replace(t, p, sub);
  }

  /** A part of a document is one. */
  lemma PartOf(t: Tree, p: seq<Step>)
    requires Rep(t) && Tidy(t) && Has(t, p)
    ensures Rep(At(t, p)) && Tidy(At(t, p)) && Objs(At(t, p)) <= Objs(t)
  {
    AtWithin(t, p);
    HoldsAt(t, p, Snap(Objs(t)));
    HoldsFrame(At(t, p), Snap(Objs(t)), Snap(Objs(At(t, p))));
  }

  lemma {:induction false} GetAt(t: Tree, path: seq<string>)
    requires t.TObject? && path != [] && Has(t, KeySteps(path))
    ensures Get(JsonOf(t), path) == Ok(JsonOf(At(t, KeySteps(path))))
    decreases |path|
  {
    ElemStepsTail(path, 0);
    if |path| > 1 {
      GetAt(t.kids[path[0]], path[1..]);
    } else {
      assert KeySteps(path[1..]) == [];
    }
  }

  /** The paths are apart from each other and made of keys without dots. */
  predicate PlainPaths(paths: seq<seq<string>>) {
    && Apart(paths)
    && forall i, k :: 0 <= i < |paths| && 0 <= k < |paths[i]| ==> '.' !in paths[i][k]
  }

  lemma ContainerPathsArePlain()
    ensures PlainPaths(CONTAINER_PATHS)
  {
    ContainerPathsApart();
    assert '.' !in "spec" && '.' !in "template" && '.' !in "jobTemplate" && '.' !in "containers"
        && '.' !in "initContainers";
  }

  /** No panic at the first `n` paths. */
  predicate NoNullBefore(j: Json, paths: seq<seq<string>>, n: nat)
    requires j.JObject? && Apart(paths) && n <= |paths|
  {
    n == 0 || (NoNullBefore(j, paths, n - 1) && ArrayAt(j, paths[n - 1]) != NullPanic)
  }

  lemma {:induction false} NoNullIff(j: Json, paths: seq<seq<string>>, n: nat)
    requires j.JObject? && Apart(paths) && n <= |paths|
    ensures NoNullBefore(j, paths, n) <==> forall i :: 0 <= i < n ==> ArrayAt(j, paths[i]) != NullPanic
  {
    if n > 0 {
      NoNullIff(j, paths, n - 1);
    }
  }

  lemma NullSomewhere(j: Json, paths: seq<seq<string>>, x: nat)
    requires j.JObject? && Apart(paths) && x < |paths|
    ensures ArrayAt(j, paths[x]) == NullPanic ==> PathsPanic(j, paths)
    ensures NoNullBefore(j, paths, |paths|) <==> !PathsPanic(j, paths)
  {
    NoNullIff(j, paths, |paths|);
  }

  /** While the paths before `x` have been updated, the list at path `x` is still the one of the item. */
  lemma NextPath(j: Json, paths: seq<seq<string>>, x: nat, upd: string -> Option<string>)
    requires j.JObject? && Apart(paths) && x < |paths|
    ensures var before := UpdatePaths(j, paths[..x], upd);
      && ArrayAt(before, paths[x]) == ArrayAt(j, paths[x])
      && (NoNullBefore(j, paths, x + 1) <==> NoNullBefore(j, paths, x) && ArrayAt(j, paths[x]) != NullPanic)
      && UpdatePaths(j, paths[..x + 1], upd) == UpdatePath(before, paths[x], upd)
  {
    var front := paths[..x];
    assert forall i :: 0 <= i < |front| ==> front[i] == paths[i];
    PathsFrame(j, front, upd, paths[x]);
    assert paths[..x + 1][..x] == front;
  }

  /** The transform that withImageRepository returns. It fails to return (ok is false) where the code panics. */
  method WithImageRepository(o: Object, upd: string -> Option<string>, ghost t: Tree)
    returns (ok: bool, ghost t': Tree)
    requires Document(t, o)
    modifies Objs(t)
    ensures ok <==> !ItemPanics(JsonOf(t))
    ensures ok ==> Document(t', o) && Objs(t') <= Objs(t)
    ensures ok ==> JsonOf(t') == RewriteItem(JsonOf(t), upd)
  {
    ContainerPathsArePlain();
    ok, t' := ForEachContainer(o, CONTAINER_PATHS, upd, t);
  }

  /** forEachContainer with the callback of withImageRepository. */
  method ForEachContainer(o: Object, paths: seq<seq<string>>, upd: string -> Option<string>, ghost t: Tree)
    returns (ok: bool, ghost t': Tree)
    requires Document(t, o) && PlainPaths(paths)
    modifies Objs(t)
    ensures ok <==> !PathsPanic(JsonOf(t), paths)
    ensures ok ==> Document(t', o) && Objs(t') <= Objs(t)
    ensures ok ==> JsonOf(t') == UpdatePaths(JsonOf(t), paths, upd)
  {
    ghost var j := JsonOf(t);
    t' := t;
    for x := 0 to |paths|
      invariant Document(t', o) && Objs(t') <= Objs(t)
      invariant JsonOf(t') == UpdatePaths(j, paths[..x], upd)
      invariant NoNullBefore(j, paths, x)
    {
      NextPath(j, paths, x, upd);
      NullSomewhere(j, paths, x);
      ok, t' := RewriteContainersAt(o, paths[x], upd, t');
      if !ok {
        return;
      }
    }
    ok := true;
    NoNullIff(j, paths, |paths|);
    AllOf(paths);
  }

  /** The body of that loop. */
  method RewriteContainersAt(o: Object, path: seq<string>, upd: string -> Option<string>, ghost t: Tree)
    returns (ok: bool, ghost t': Tree)
    requires Document(t, o) && path != [] && forall k :: 0 <= k < |path| ==> '.' !in path[k]
    modifies Objs(t)
    ensures ok <==> ArrayAt(JsonOf(t), path) != NullPanic
    ensures ok ==> Document(t', o) && Objs(t') <= Objs(t)
    ensures ok ==> JsonOf(t') == UpdatePath(JsonOf(t), path, upd)
  {
    t' := t;
    ghost var objs := Objs(t);
    ghost var held := Snap(objs);
    Text.SplitJoin(path, '.');
    var containers := o.GetObjectArray(Text.Join(path, '.'), t);
    SameSnap(objs, held);
    if containers.NullPanic? {
      return false, t;
    }
    if containers.Items? {
      GetAt(t, path);
      t' := UpdateContainersAt(o, path, containers.items, upd, t);
    }
    ok := true;
  }

  // ---- The list ----

  /** The list `t` with its first `n` items rewritten. */
  ghost predicate ItemsRewritten(t: Tree, es: seq<Json>, n: nat, items: seq<Object>, upd: string -> Option<string>) {
    && AllObjects(es) && n <= |es| == |items|
    && HoldsObjects(t, KeySteps(ITEMS), items)
    && forall i :: 0 <= i < |es| ==>
         JsonOf(At(t, KeySteps(ITEMS)).elems[i]) == if i < n then RewriteItem(es[i], upd) else es[i]
  }

  lemma StartItems(t: Tree, items: seq<Object>, upd: string -> Option<string>)
    requires t.TObject? && ArrayAt(JsonOf(t), ITEMS).Items? && HoldsObjects(t, KeySteps(ITEMS), items)
    ensures ItemsRewritten(t, ItemsOf(JsonOf(t)), 0, items, upd)
  {
    GetAt(t, ITEMS);
    ArrayOfTree(At(t, KeySteps(ITEMS)));
  }

  lemma StepItems(t: Tree, es: seq<Json>, n: nat, items: seq<Object>, upd: string -> Option<string>, sub: Tree)
    requires ItemsRewritten(t, es, n, items, upd) && n < |es|
    requires sub.TObject? && sub.o == items[n] && JsonOf(sub) == RewriteItem(es[n], upd)
    ensures Has(t, ElemSteps(ITEMS, n)) && At(t, ElemSteps(ITEMS, n)) == At(t, KeySteps(ITEMS)).elems[n]
    ensures ItemsRewritten(Replace(t, ElemSteps(ITEMS, n), sub), es, n + 1, items, upd)
  {
    ReplaceElem(t, ITEMS, n, sub);
  }

  /** The body of the loop over the items. */
  method RewriteNextItem(ghost l: Object, items: seq<Object>, i: nat, upd: string -> Option<string>,
                         ghost t: Tree, ghost es: seq<Json>) returns (ok: bool, ghost t': Tree)
    requires Document(t, l) && i < |items|
    requires ItemsRewritten(t, es, i, items, upd)
    modifies Objs(t)
    ensures ok <==> !ItemPanics(es[i])
    ensures ok ==> Document(t', l) && Objs(t') <= Objs(t)
    ensures ok ==> ItemsRewritten(t', es, i + 1, items, upd)
  {
    ghost var p := ElemSteps(ITEMS, i);
    ghost var node := At(t, KeySteps(ITEMS)).elems[i];
    ReplaceElem(t, ITEMS, i, node);
    PartOf(t, p);
    ghost var before := Snap(Objs(t));
    ghost var sub;
    ok, sub := WithImageRepository(items[i], upd, node);
    t' := t;
    if ok {
      PartChanged(t, p, sub, before);
      StepItems(t, es, i, items, upd, sub);
      t' := Replace(t, p, sub);
    }
  }

  /** No panic in the first `n` items. */
  predicate NonePanic(es: seq<Json>, n: nat)
    requires AllObjects(es) && n <= |es|
  {
    n == 0 || (NonePanic(es, n - 1) && !ItemPanics(es[n - 1]))
  }

  lemma {:induction false} NonePanicIff(es: seq<Json>, n: nat)
    requires AllObjects(es) && n <= |es|
    ensures NonePanic(es, n) <==> forall i :: 0 <= i < n ==> !ItemPanics(es[i])
  {
    if n > 0 {
      NonePanicIff(es, n - 1);
    }
  }

  lemma {:induction false} PanicStays(es: seq<Json>, n: nat, k: nat)
    requires AllObjects(es) && n <= k <= |es| && !NonePanic(es, n)
    ensures !NonePanic(es, k)
    decreases k
  {
    if n < k {
      PanicStays(es, n, k - 1);
    }
  }

  /** The loop of transformList over the items. */
  method TransformItems(ghost l: Object, items: seq<Object>, upd: string -> Option<string>, ghost t: Tree,
                        ghost es: seq<Json>) returns (ok: bool, transformedItems: seq<Object>, ghost t': Tree)
    requires Document(t, l) && ItemsRewritten(t, es, 0, items, upd)
    modifies Objs(t)
    ensures ok <==> NonePanic(es, |es|)
    ensures ok ==> transformedItems == items && Document(t', l) && Objs(t') <= Objs(t)
    ensures ok ==> ItemsRewritten(t', es, |es|, items, upd)
  {
    t', transformedItems := t, [];
    for i := 0 to |items|
      invariant Document(t', l) && Objs(t') <= Objs(t)
      invariant ItemsRewritten(t', es, i, items, upd)
      invariant transformedItems == items[..i]
      invariant NonePanic(es, i)
    {
      ok, t' := RewriteNextItem(l, items, i, upd, t', es);
      if !ok {
        PanicStays(es, i + 1, |es|);
        return;
      }
      transformedItems := transformedItems + [items[i]];
      OneMore(items, i);
    }
    ok := true;
    AllOf(items);
  }

  lemma OneMore<T>(s: seq<T>, i: nat)
    requires i < |s|
    ensures s[..i] + [s[i]] == s[..i + 1]
  {
  }

  lemma AllOf<T>(s: seq<T>)
    ensures s[..|s|] == s
  {
  }

  /** transformList with the one transform that the code gives it. An error of GetObjectArray leaves it no items. */
  method TransformList(l: Object, upd: string -> Option<string>, ghost t: Tree)
    returns (ok: bool, n: Object?, ghost tn: Tree)
    requires Document(t, l)
    modifies Objs(t)
    ensures ok <==> !ListPanics(JsonOf(t))
    ensures ok ==> n != null && fresh(n) && Document(tn, n)
    ensures ok ==> JsonOf(tn) == RewriteList(JsonOf(t), upd)
  {
    var items := GetItems(l, t);
    ok, n, tn := TransformEither(l, items, upd, t);
  }

  method GetItems(l: Object, ghost t: Tree) returns (r: ArrayResult<Object>)
    requires Document(t, l)
    ensures Document(t, l) && ItemsAre(t, r)
  {
    ghost var objs := Objs(t);
    ghost var held := Snap(objs);
    Text.SplitNone("items", '.');
    r := l.GetObjectArray("items", t);
    SameSnap(objs, held);
  }

  /** What GetObjectArray has found at the items. */
  ghost predicate ItemsAre(t: Tree, r: ArrayResult<Object>)
    requires t.TObject?
  {
    match ArrayAt(JsonOf(t), ITEMS)
    case Items(_) => r.Items? && HoldsObjects(t, KeySteps(ITEMS), r.items)
    case NoArray => r == NoArray
    case NullPanic => r == NullPanic
  }

  method TransformEither(ghost l: Object, found: ArrayResult<Object>, upd: string -> Option<string>, ghost t: Tree)
    returns (ok: bool, n: Object?, ghost tn: Tree)
    requires Document(t, l) && ItemsAre(t, found)
    modifies Objs(t)
    ensures ok <==> !ListPanics(JsonOf(t))
    ensures ok ==> n != null && fresh(n) && Document(tn, n)
    ensures ok ==> JsonOf(tn) == RewriteList(JsonOf(t), upd)
  {
    match found {
      case NullPanic =>
        ok, n, tn := false, null, t;
      case NoArray =>
        ok := true;
        n, tn := NewEmptyList();
        assert RewriteItems([], upd) == [];
      case Items(items) =>
        ok, n, tn := TransformFound(l, items, upd, t, ItemsOf(JsonOf(t)));
    }
  }

  method TransformFound(ghost l: Object, items: seq<Object>, upd: string -> Option<string>, ghost t: Tree,
                        ghost es: seq<Json>) returns (ok: bool, n: Object?, ghost tn: Tree)
    requires Document(t, l) && ArrayAt(JsonOf(t), ITEMS) == ArrayResult.Items(es)
        && HoldsObjects(t, KeySteps(ITEMS), items)
    modifies Objs(t)
    ensures ok <==> forall i :: 0 <= i < |es| ==> !ItemPanics(es[i])
    ensures ok ==> n != null && fresh(n) && Document(tn, n)
    ensures ok ==> JsonOf(tn) == ListOf(RewriteItems(es, upd))
  {
    StartItems(t, items, upd);
    NonePanicIff(es, |es|);
    var transformedItems;
    ghost var t';
    ok, transformedItems, t' := TransformItems(l, items, upd, t, es);
    n, tn := null, t;
    if ok {
      PartOf(t', KeySteps(ITEMS));
      n, tn := NewList(transformedItems, At(t', KeySteps(ITEMS)), RewriteItems(es, upd));
    }
  }

  method NewEmptyList() returns (n: Object, ghost tn: Tree)
    ensures fresh(n) && Document(tn, n) && JsonOf(tn) == ListOf([])
  {
    n, tn := NewList([], TArray([]), []);
  }

  /** The constant entries of a new list. */
  method NewHeader() returns (n: Object, ghost tn: Tree)
    ensures fresh(n) && Document(tn, n) && Objs(tn) == {n}
    ensures JsonOf(tn) == JObject(map["apiVersion" := JLeaf(Str("v1"))]["kind" := JLeaf(Str("List"))])
  {
    n := new Object();
    EmptyRep(n);
    assert JsonOf(TObject(n, map[])).members == map[];
    tn := n.AddKey("apiVersion", Leaf(Str("v1")), TObject(n, map[]), TLeaf(Str("v1")));
    assert JsonOf(tn).members == map["apiVersion" := JLeaf(Str("v1"))];
    tn := n.AddKey("kind", Leaf(Str("List")), tn, TLeaf(Str("List")));
  }

  /** list: a new map around the items. */
  method NewList(items: seq<Object>, ghost all: Tree, ghost js: seq<Json>) returns (n: Object, ghost tn: Tree)
    requires Rep(all) && Tidy(all) && all.TArray? && |items| == |all.elems| == |js|
    requires forall i :: 0 <= i < |items| ==>
               all.elems[i].TObject? && all.elems[i].o == items[i] && JsonOf(all.elems[i]) == js[i]
    ensures fresh(n) && Document(tn, n) && JsonOf(tn) == ListOf(js)
  {
    ArrayOfTree(all);
    ghost var objs := Objs(all);
    ghost var held := Snap(objs);
    n, tn := NewHeader();
    assert n !in objs;
    SameSnap(objs, held);
    var slice := seq(|items|, i requires 0 <= i < |items| => Ref(items[i]));
    assert Top(all) == Array(slice) && JsonOf(all) == JArray(js);
    tn := n.AddKey("items", Array(slice), tn, all);
    ListOfKeys(js);
  }

  lemma ListOfKeys(js: seq<Json>)
    ensures ListOf(js)
         == JObject(map["apiVersion" := JLeaf(Str("v1"))]["kind" := JLeaf(Str("List"))]["items" := JArray(js)])
  {
    assert "apiVersion" != "kind" && "apiVersion" != "items" && "kind" != "items";
  }
}
