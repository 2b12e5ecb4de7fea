/** What the image rewriting of pkg/addons/transform.go does to manifests as values, and its frame: nothing but the
    image of containers at the four listed paths. `upd` is UpdateImage for one repository, None where that fails. */
module Manifests {
  import opened Wrappers
  import opened JsonObjects

  const IMAGE := ["image"]

  const CONTAINER_PATHS: seq<seq<string>> := [
    ["spec", "template", "spec", "initContainers"],
    ["spec", "template", "spec", "containers"],
    ["spec", "jobTemplate", "spec", "template", "spec", "initContainers"],
    ["spec", "jobTemplate", "spec", "template", "spec", "containers"]]

  function UpdateContainer(c: Json, upd: string -> Option<string>): (r: Json)
    requires c.JObject?
    ensures r.JObject?
  {
    match StringAt(c, IMAGE)
    case None => c
    case Some(image) =>
      match upd(image)
      case None => c
      case Some(updated) => Set(c, IMAGE, JLeaf(Str(updated)))
  }

  predicate AllObjects(es: seq<Json>) {
    forall i :: 0 <= i < |es| ==> es[i].JObject?
  }

  function UpdateContainers(es: seq<Json>, upd: string -> Option<string>): (r: seq<Json>)
    requires AllObjects(es)
    ensures |r| == |es| && AllObjects(r)
  {
    seq(|es|, i requires 0 <= i < |es| => UpdateContainer(es[i], upd))
  }

  /** The containers at one path; where there is no array of maps, nothing. */
  function UpdatePath(j: Json, path: seq<string>, upd: string -> Option<string>): (r: Json)
    requires j.JObject? && path != []
    ensures r.JObject?
  {
    match ArrayAt(j, path)
    case Items(es) => Set(j, path, JArray(UpdateContainers(es, upd)))
    case _ => j
  }

  function UpdatePaths(j: Json, paths: seq<seq<string>>, upd: string -> Option<string>): (r: Json)
    requires j.JObject? && forall i :: 0 <= i < |paths| ==> paths[i] != []
    ensures r.JObject?
    decreases |paths|
  {
    if paths == [] then j
    else UpdatePath(UpdatePaths(j, paths[..|paths| - 1], upd), paths[|paths| - 1], upd)
  }

  /** forEachContainer with the callback of withImageRepository. */
  function RewriteItem(j: Json, upd: string -> Option<string>): Json
    requires j.JObject?
  {
    UpdatePaths(j, CONTAINER_PATHS, upd)
  }

  /** On null in the place of a list of containers the code panics. */
  predicate ItemPanics(j: Json)
    requires j.JObject?
  {
    PathsPanic(j, CONTAINER_PATHS)
  }

  predicate PathsPanic(j: Json, paths: seq<seq<string>>)
    requires j.JObject? && forall i :: 0 <= i < |paths| ==> paths[i] != []
  {
    exists x :: 0 <= x < |paths| && ArrayAt(j, paths[x]) == NullPanic
  }

  const ITEMS := ["items"]

  function ItemsOf(l: Json): seq<Json>
    requires l.JObject?
  {
    match ArrayAt(l, ITEMS)
    case Items(es) => es
    case _ => []
  }

  predicate ListPanics(l: Json)
    requires l.JObject?
  {
    ArrayAt(l, ITEMS) == NullPanic || exists i :: 0 <= i < |ItemsOf(l)| && ItemPanics(ItemsOf(l)[i])
  }

  function RewriteItems(es: seq<Json>, upd: string -> Option<string>): (r: seq<Json>)
    requires AllObjects(es)
    ensures |r| == |es|
  {
    seq(|es|, i requires 0 <= i < |es| => RewriteItem(es[i], upd))
  }

  function ListOf(items: seq<Json>): Json {
    JObject(map["apiVersion" := JLeaf(Str("v1")), "kind" := JLeaf(Str("List")), "items" := JArray(items)])
  }

  /** transformList with withImageRepository. */
  function RewriteList(l: Json, upd: string -> Option<string>): Json
    requires l.JObject?
  {
    ListOf(RewriteItems(ItemsOf(l), upd))
  }

  // ---- The frame ----

  lemma {:induction false} MapsOnTheWay(j: Json, path: seq<string>, n: nat)
    requires j.JObject? && path != [] && n < |path| && Get(j, path).Ok?
    ensures MapsAlong(j, path, n)
    decreases |path|
  {
    if n > 0 {
      MapsOnTheWay(j.members[path[0]], path[1..], n - 1);
    }
  }

  /** Updating one path leaves every other path as it is, value or error. */
  lemma PathFrame(j: Json, path: seq<string>, upd: string -> Option<string>, q: seq<string>)
    requires j.JObject? && path != [] && q != [] && Incomparable(path, q)
    ensures Get(UpdatePath(j, path, upd), q) == Get(j, q)
  {
    match ArrayAt(j, path)
    case Items(es) =>
      var v := JArray(UpdateContainers(es, upd));
      ErrorAfterSetElsewhere(j, path, v, q);
      MapsOnTheWay(j, path, Shared(path, q));
    case NoArray =>
    case NullPanic =>
  }

  lemma PathUpdated(j: Json, path: seq<string>, upd: string -> Option<string>)
    requires j.JObject? && path != []
    ensures ArrayAt(UpdatePath(j, path, upd), path)
         == match ArrayAt(j, path)
            case Items(es) => Items(UpdateContainers(es, upd))
            case other => other
  {
    match ArrayAt(j, path)
    case Items(es) => GetAfterSet(j, path, JArray(UpdateContainers(es, upd)));
    case NoArray =>
    case NullPanic =>
  }

  predicate Apart(paths: seq<seq<string>>) {
    && (forall i :: 0 <= i < |paths| ==> paths[i] != [])
    && (forall i, j :: 0 <= i < j < |paths| ==> Incomparable(paths[i], paths[j]) && Incomparable(paths[j], paths[i]))
  }

  lemma {:induction false} PathsFrame(j: Json, paths: seq<seq<string>>, upd: string -> Option<string>, q: seq<string>)
    requires j.JObject? && Apart(paths) && q != []
    requires forall i :: 0 <= i < |paths| ==> Incomparable(paths[i], q)
    ensures Get(UpdatePaths(j, paths, upd), q) == Get(j, q)
    decreases |paths|
  {
    if paths != [] {
      var front := paths[..|paths| - 1];
      assert forall i :: 0 <= i < |front| ==> front[i] == paths[i];
      PathsFrame(j, front, upd, q);
      PathFrame(UpdatePaths(j, front, upd), paths[|paths| - 1], upd, q);
    }
  }

  lemma {:induction false} PathsUpdated(j: Json, paths: seq<seq<string>>, upd: string -> Option<string>, x: nat)
    requires j.JObject? && Apart(paths) && x < |paths|
    ensures ArrayAt(UpdatePaths(j, paths, upd), paths[x])
         == match ArrayAt(j, paths[x])
            case Items(es) => Items(UpdateContainers(es, upd))
            case other => other
    decreases |paths|
  {
    var last := |paths| - 1;
    var front := paths[..last];
    assert forall i :: 0 <= i < |front| ==> front[i] == paths[i];
    var before := UpdatePaths(j, front, upd);
    assert UpdatePaths(j, paths, upd) == UpdatePath(before, paths[last], upd);
    if x == last {
      PathsFrame(j, front, upd, paths[x]);
      PathUpdated(before, paths[x], upd);
    } else {
      assert Apart(front) && front[x] == paths[x];
      PathsUpdated(j, front, upd, x);
      PathFrame(before, paths[last], upd, paths[x]);
    }
  }

  lemma ContainerPathsApart()
    ensures Apart(CONTAINER_PATHS)
  {
    assert "initContainers"[0] != "containers"[0];
    assert "template"[0] != "jobTemplate"[0];
    forall i, j | 0 <= i < j < |CONTAINER_PATHS|
      ensures Incomparable(CONTAINER_PATHS[i], CONTAINER_PATHS[j])
          && Incomparable(CONTAINER_PATHS[j], CONTAINER_PATHS[i])
    {
      var p, q := CONTAINER_PATHS[i], CONTAINER_PATHS[j];
      assert p[1] != q[1] || p[|p| - 1] != q[|p| - 1];
    }
  }

  /** The images at the four paths are updated, each once; a place without a list of maps stays what it is. */
  lemma RewriteUpdates(j: Json, upd: string -> Option<string>, x: nat)
    requires j.JObject? && x < |CONTAINER_PATHS|
    ensures ArrayAt(RewriteItem(j, upd), CONTAINER_PATHS[x])
         == match ArrayAt(j, CONTAINER_PATHS[x])
            case Items(es) => Items(UpdateContainers(es, upd))
            case other => other
  {
    ContainerPathsApart();
    PathsUpdated(j, CONTAINER_PATHS, upd, x);
  }

  /** Nothing else in the item changes. */
  lemma RewriteFrame(j: Json, upd: string -> Option<string>, q: seq<string>)
    requires j.JObject? && q != []
    requires forall x :: 0 <= x < |CONTAINER_PATHS| ==> Incomparable(CONTAINER_PATHS[x], q)
    ensures Get(RewriteItem(j, upd), q) == Get(j, q)
  {
    ContainerPathsApart();
    PathsFrame(j, CONTAINER_PATHS, upd, q);
  }

  /** In a container only the image changes: to the updated one if there is a string that UpdateImage accepts. */
  lemma ContainerFrame(c: Json, upd: string -> Option<string>)
    requires c.JObject?
    ensures var r := UpdateContainer(c, upd);
      && r.members.Keys == c.members.Keys
      && (forall k :: k in c.members && k != "image" ==> r.members[k] == c.members[k])
      && ("image" in c.members ==>
            r.members["image"] == match c.members["image"]
                                  case JLeaf(Str(s)) => JLeaf(Str(if upd(s).Some? then upd(s).value else s))
                                  case other => other)
  {
  }

  /** The containers of a pod template, in a workload like a Deployment or in a CronJob. */
  predicate OfPod(p: seq<string>) {
    || p == ["spec", "template", "spec", "containers"]
    || p == ["spec", "template", "spec", "initContainers"]
    || p == ["spec", "jobTemplate", "spec", "template", "spec", "containers"]
    || p == ["spec", "jobTemplate", "spec", "template", "spec", "initContainers"]
  }

  /** The container with its image replaced, if that is a string that can be updated. */
  predicate WithImage(c: Json, r: Json, upd: string -> Option<string>)
    requires c.JObject?
  {
    match if "image" in c.members then c.members["image"] else JArray([])
    case JLeaf(Str(s)) =>
      (match upd(s)
       case Some(updated) => r == JObject(c.members["image" := JLeaf(Str(updated))])
       case None => r == c)
    case _ => r == c
  }

  /** There the list has the same length, and each container its updated image. */
  lemma PodsRewritten(j: Json, upd: string -> Option<string>, p: seq<string>, es: seq<Json>)
    requires j.JObject? && OfPod(p) && Get(j, p) == Ok(JArray(es)) && AllObjects(es)
    ensures var r := Get(RewriteItem(j, upd), p);
      && r.Ok? && r.value.JArray? && |r.value.elems| == |es|
      && forall i :: 0 <= i < |es| ==> WithImage(es[i], r.value.elems[i], upd)
  {
    var x := PathOf(p);
    RewriteUpdates(j, upd, x);
    forall i | 0 <= i < |es| ensures WithImage(es[i], UpdateContainer(es[i], upd), upd) {
      UpdatedImage(es[i], upd);
    }
  }

  lemma UpdatedImage(c: Json, upd: string -> Option<string>)
    requires c.JObject?
    ensures WithImage(c, UpdateContainer(c, upd), upd)
  {
  }

  lemma PathOf(p: seq<string>) returns (x: nat)
    requires OfPod(p)
    ensures x < |CONTAINER_PATHS| && CONTAINER_PATHS[x] == p
  {
    assert CONTAINER_PATHS[0][3] == "initContainers" && CONTAINER_PATHS[1][3] == "containers";
    if p == CONTAINER_PATHS[0] {
      x := 0;
    } else if p == CONTAINER_PATHS[1] {
      x := 1;
    } else if p == CONTAINER_PATHS[2] {
      x := 2;
    } else {
      x := 3;
    }
  }

  /** Every path that neither leads to one of these nor goes on behind it reads as before. */
  lemma OthersUntouched(j: Json, upd: string -> Option<string>, q: seq<string>)
    requires j.JObject? && q != [] && forall p :: OfPod(p) ==> Incomparable(p, q)
    ensures Get(RewriteItem(j, upd), q) == Get(j, q)
  {
    forall x | 0 <= x < |CONTAINER_PATHS| ensures Incomparable(CONTAINER_PATHS[x], q) {
      assert OfPod(CONTAINER_PATHS[x]);
    }
    RewriteFrame(j, upd, q);
  }

  lemma {:induction false} SetSame(j: Json, path: seq<string>)
    requires j.JObject? && path != [] && Get(j, path).Ok?
    ensures Set(j, path, Get(j, path).value) == j
    decreases |path|
  {
    if |path| > 1 {
      SetSame(j.members[path[0]], path[1..]);
    }
    assert Set(j, path, Get(j, path).value).members == j.members;
  }

  /** Updating the result again changes nothing: it stays, or it is no longer accepted. */
  predicate Settles(upd: string -> Option<string>, image: string) {
    match upd(image)
    case None => true
    case Some(updated) => upd(updated) == None || upd(updated) == Some(updated)
  }

  predicate ContainerSettles(c: Json, upd: string -> Option<string>)
    requires c.JObject?
  {
    match StringAt(c, IMAGE)
    case None => true
    case Some(image) => Settles(upd, image)
  }

  predicate PathSettles(j: Json, path: seq<string>, upd: string -> Option<string>)
    requires j.JObject? && path != []
  {
    match ArrayAt(j, path)
    case Items(es) => forall i :: 0 <= i < |es| ==> ContainerSettles(es[i], upd)
    case _ => true
  }

  lemma ContainerTwiceIff(c: Json, upd: string -> Option<string>)
    requires c.JObject?
    ensures UpdateContainer(UpdateContainer(c, upd), upd) == UpdateContainer(c, upd) <==> ContainerSettles(c, upd)
  {
    ContainerFrame(c, upd);
    var r := UpdateContainer(c, upd);
    ContainerFrame(r, upd);
    if ContainerSettles(c, upd) {
      assert UpdateContainer(r, upd).members == r.members;
    }
  }

  lemma ContainersTwiceIff(es: seq<Json>, upd: string -> Option<string>)
    requires AllObjects(es)
    ensures UpdateContainers(UpdateContainers(es, upd), upd) == UpdateContainers(es, upd) <==>
            forall i :: 0 <= i < |es| ==> ContainerSettles(es[i], upd)
  {
    var us := UpdateContainers(es, upd);
    var vs := UpdateContainers(us, upd);
    forall i | 0 <= i < |es|
      ensures vs[i] == us[i] <==> ContainerSettles(es[i], upd)
    {
      ContainerTwiceIff(es[i], upd);
    }
  }

  /** Rewriting an item twice is rewriting it once exactly when every image at the four paths settles. */
  lemma RewriteIdempotentIff(j: Json, upd: string -> Option<string>)
    requires j.JObject?
    ensures RewriteItem(RewriteItem(j, upd), upd) == RewriteItem(j, upd) <==>
            forall x :: 0 <= x < |CONTAINER_PATHS| ==> PathSettles(j, CONTAINER_PATHS[x], upd)
  {
    var r := RewriteItem(j, upd);
    forall x | 0 <= x < |CONTAINER_PATHS|
      ensures RewriteItem(r, upd) == r ==> PathSettles(j, CONTAINER_PATHS[x], upd)
      ensures PathSettles(j, CONTAINER_PATHS[x], upd) ==> UpdatePath(r, CONTAINER_PATHS[x], upd) == r
    {
      PathTwice(j, upd, x);
    }
    if forall x :: 0 <= x < |CONTAINER_PATHS| ==> PathSettles(j, CONTAINER_PATHS[x], upd) {
      PathsIdle(r, CONTAINER_PATHS, upd);
    }
  }

  lemma UnsettledIsNotIdempotent(j: Json, upd: string -> Option<string>, x: nat, i: nat, image: string)
    requires j.JObject? && x < |CONTAINER_PATHS|
    requires ArrayAt(j, CONTAINER_PATHS[x]).Items? && i < |ArrayAt(j, CONTAINER_PATHS[x]).items|
    requires StringAt(ArrayAt(j, CONTAINER_PATHS[x]).items[i], IMAGE) == Some(image) && !Settles(upd, image)
    ensures RewriteItem(RewriteItem(j, upd), upd) != RewriteItem(j, upd)
  {
    assert !ContainerSettles(ArrayAt(j, CONTAINER_PATHS[x]).items[i], upd);
    assert !PathSettles(j, CONTAINER_PATHS[x], upd);
    RewriteIdempotentIff(j, upd);
  }

  lemma PathTwice(j: Json, upd: string -> Option<string>, x: nat)
    requires j.JObject? && x < |CONTAINER_PATHS|
    ensures var r, path := RewriteItem(j, upd), CONTAINER_PATHS[x];
      && (RewriteItem(r, upd) == r ==> PathSettles(j, path, upd))
      && (PathSettles(j, path, upd) ==> UpdatePath(r, path, upd) == r)
  {
    var r, path := RewriteItem(j, upd), CONTAINER_PATHS[x];
    RewriteUpdates(j, upd, x);
    RewriteUpdates(r, upd, x);
    match ArrayAt(j, path)
    case Items(es) =>
      ContainersTwiceIff(es, upd);
      if PathSettles(j, path, upd) {
        SetSame(r, path);
      }
    case NoArray =>
    case NullPanic =>
  }

  lemma {:induction false} PathsIdle(j: Json, paths: seq<seq<string>>, upd: string -> Option<string>)
    requires j.JObject? && forall i :: 0 <= i < |paths| ==> paths[i] != [] && UpdatePath(j, paths[i], upd) == j
    ensures UpdatePaths(j, paths, upd) == j
    decreases |paths|
  {
    if paths != [] {
      PathsIdle(j, paths[..|paths| - 1], upd);
    }
  }

  /** The list keeps the number and the order of its items. */
  lemma ListKeepsItems(l: Json, upd: string -> Option<string>, i: nat)
    requires l.JObject? && i < |ItemsOf(l)|
    ensures |ItemsOf(RewriteList(l, upd))| == |ItemsOf(l)|
    ensures ItemsOf(RewriteList(l, upd))[i] == RewriteItem(ItemsOf(l)[i], upd)
  {
    var es := RewriteItems(ItemsOf(l), upd);
    assert "items" != "kind" && "items" != "apiVersion";
    assert Get(RewriteList(l, upd), ITEMS) == Ok(JArray(es));
  }

  /** The result is a list of version v1 with just the rewritten items, in order. */
  lemma ListIsRewritten(l: Json, upd: string -> Option<string>, es: seq<Json>)
    requires l.JObject? && Get(l, ["items"]) == Ok(JArray(es)) && AllObjects(es)
    ensures var r := RewriteList(l, upd);
      && r.JObject? && r.members.Keys == {"apiVersion", "kind", "items"}
      && r.members["apiVersion"] == JLeaf(Str("v1")) && r.members["kind"] == JLeaf(Str("List"))
      && r.members["items"].JArray? && |r.members["items"].elems| == |es|
      && forall i :: 0 <= i < |es| ==> r.members["items"].elems[i] == RewriteItem(es[i], upd)
  {
    assert ItemsOf(l) == es;
    assert "items" != "kind" && "items" != "apiVersion" && "kind" != "apiVersion";
  }
}
