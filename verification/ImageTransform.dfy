/** withImageRepository for one repository: UpdateImage on every container image of a list of manifests. */
module ImageTransform {
  import opened Wrappers
  import opened JsonObjects
  import opened Manifests
  import ImageReference
  import Images
  import ImageUpdates
  import Objects
  import ReferenceSplitter
  import Transform

  /** The image that the callback arrives at: UpdateImage's result, None where UpdateImage fails. */
  function Updater(lower: string -> string, repository: string): string -> Option<string> {
    (image: string) => match ImageUpdates.Update(Images.SCANS, lower, image, repository)
                       case Ok(updated) => Some(updated)
                       case Err(_) => None
  }

  method RewriteImages(l: Objects.Object, lower: string -> string, repository: string, ghost t: Objects.Tree)
    returns (ok: bool, n: Objects.Object?, ghost tn: Objects.Tree)
    requires Objects.Document(t, l)
    modifies Objects.Objs(t)
    ensures ok <==> !ListPanics(Objects.JsonOf(t))
    ensures ok ==> n != null && fresh(n) && Objects.Document(tn, n)
    ensures ok ==> Objects.JsonOf(tn) == RewriteList(Objects.JsonOf(t), Updater(lower, repository))
  {
    ok, n, tn := Transform.TransformList(l, Updater(lower, repository), t);
  }

  /** What becomes of the image of one container: updated if UpdateImage accepts it, else kept. */
  lemma ContainerImage(j: Json, lower: string -> string, repository: string, x: nat, i: nat, image: string)
    requires j.JObject? && x < |CONTAINER_PATHS|
    requires ArrayAt(j, CONTAINER_PATHS[x]).Items? && i < |ArrayAt(j, CONTAINER_PATHS[x]).items|
    requires var c := ArrayAt(j, CONTAINER_PATHS[x]).items[i];
      "image" in c.members && c.members["image"] == JLeaf(Str(image))
    ensures var r := ArrayAt(RewriteItem(j, Updater(lower, repository)), CONTAINER_PATHS[x]);
      && r.Items? && |r.items| == |ArrayAt(j, CONTAINER_PATHS[x]).items|
      && "image" in r.items[i].members
      && r.items[i].members["image"] == JLeaf(Str(match ImageUpdates.Update(Images.SCANS, lower, image, repository)
                                                  case Ok(updated) => updated
                                                  case Err(_) => image))
  {
    RewriteUpdates(j, Updater(lower, repository), x);
    ContainerFrame(ArrayAt(j, CONTAINER_PATHS[x]).items[i], Updater(lower, repository));
  }

  /** With a good repository every document is rewritten once and for all. */
  lemma GoodRepositoryIsIdempotent(j: Json, lower: string -> string, repository: string)
    requires j.JObject? && ImageUpdates.GoodRepository(Images.SCANS, repository)
    ensures var upd := Updater(lower, repository);
      RewriteItem(RewriteItem(j, upd), upd) == RewriteItem(j, upd)
  {
    var upd := Updater(lower, repository);
    ReferenceSplitter.ScansAreConsistent();
    forall image: string
      ensures Settles(upd, image)
    {
      if upd(image).Some? {
        ImageUpdates.GoodRepositorySettles(Images.SCANS, lower, image, repository);
      }
    }
    RewriteIdempotentIff(j, upd);
  }

  /** With a plain word for the host, no document with a plain word for some image is. */
  lemma PlainHostIsNotIdempotent(j: Json, lower: string -> string, host: string, x: nat, i: nat, image: string)
    requires j.JObject? && x < |CONTAINER_PATHS| && Images.Plain(image)
    requires Images.Plain(host) && |host| <= ImageReference.NAME_TOTAL_LENGTH_MAX
    requires ArrayAt(j, CONTAINER_PATHS[x]).Items? && i < |ArrayAt(j, CONTAINER_PATHS[x]).items|
    requires StringAt(ArrayAt(j, CONTAINER_PATHS[x]).items[i], IMAGE) == Some(image)
    ensures var upd := Updater(lower, host);
      RewriteItem(RewriteItem(j, upd), upd) != RewriteItem(j, upd)
  {
    PlainHostUnsettled(lower, host, image);
    UnsettledIsNotIdempotent(j, Updater(lower, host), x, i, image);
  }

  lemma PlainHostUnsettled(lower: string -> string, host: string, image: string)
    requires Images.Plain(host) && |host| <= ImageReference.NAME_TOTAL_LENGTH_MAX && Images.Plain(image)
    ensures !Settles(Updater(lower, host), image)
  {
    Images.PlainWord(host);
    Images.PlainHostIsForgotten(lower, image, host, host);
  }

  /** For instance a deployment with one container of image alpine, and registry. */
  lemma AlpineDeployment(lower: string -> string)
    ensures
      var container := JObject(map["image" := JLeaf(Str("alpine"))]);
      var path := ["spec", "template", "spec", "containers"];
      var j, upd := Set(EMPTY, path, JArray([container])), Updater(lower, "registry");
      RewriteItem(RewriteItem(j, upd), upd) != RewriteItem(j, upd)
  {
    var container := JObject(map["image" := JLeaf(Str("alpine"))]);
    var j := Set(EMPTY, CONTAINER_PATHS[1], JArray([container]));
    GetAfterSet(EMPTY, CONTAINER_PATHS[1], JArray([container]));
    assert ArrayAt(j, CONTAINER_PATHS[1]) == Items([container]);
    PlainHostIsNotIdempotent(j, lower, "registry", 1, 0, "alpine");
  }
}
