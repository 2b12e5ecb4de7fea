/** The order of images (pkg/registry/image.go), and the script that puts them into another registry
    (cmd/wksctl/registrysynccommands/registrysynccommands.go). */
module RetagScript {
  import opened Wrappers
  import opened ImageCoordinates
  import opened DockerCommands

  /** strings.Compare. */
  function Compare(a: string, b: string): int {
    if a == [] then (if b == [] then 0 else -1)
    else if b == [] then 1
    else if a[0] < b[0] then -1
    else if a[0] > b[0] then 1
    else Compare(a[1..], b[1..])
  }

  predicate Less(a: Image, b: Image) {
    var registry := Compare(a.registry, b.registry);
    if registry != 0 then registry < 0
    else
      var user := Compare(a.user, b.user);
      if user != 0 then user < 0
      else
        var name := Compare(a.name, b.name);
        if name != 0 then name < 0
        else Compare(a.tag, b.tag) < 0
  }

  lemma {:induction false} CompareTotal(a: string, b: string)
    ensures Compare(a, b) == 0 <==> a == b
    ensures Compare(b, a) == -Compare(a, b)
  {
    if a != [] && b != [] {
      CompareTotal(a[1..], b[1..]);
      assert a == [a[0]] + a[1..] && b == [b[0]] + b[1..];
    }
  }

  /** The first k characters agree, and there the first text ends or has the smaller character. */
  predicate SmallerAt(a: string, b: string, k: nat) {
    k <= |a| && k < |b| && a[..k] == b[..k] && (k == |a| || a[k] < b[k])
  }

  ghost predicate Smaller(a: string, b: string) {
    exists k: nat :: SmallerAt(a, b, k)
  }

  lemma {:induction false} CompareIff(a: string, b: string)
    ensures Compare(a, b) < 0 <==> Smaller(a, b)
  {
    if a != [] && b != [] && a[0] == b[0] {
      CompareIff(a[1..], b[1..]);
      forall k: nat ensures SmallerAt(a, b, k + 1) <==> SmallerAt(a[1..], b[1..], k) {
        FirstTheSame(a, b, k);
      }
      assert !SmallerAt(a, b, 0);
      forall k: nat | SmallerAt(a, b, k) ensures SmallerAt(a[1..], b[1..], k - 1) {}
    } else if a == [] && b != [] {
      assert SmallerAt(a, b, 0);
    } else if a != [] && b != [] {
      assert a[0] < b[0] ==> SmallerAt(a, b, 0);
      forall k: nat | SmallerAt(a, b, k) ensures a[0] < b[0] {
        assert k > 0 ==> a[..k][0] == b[..k][0];
      }
    }
  }

  lemma FirstTheSame(a: string, b: string, k: nat)
    requires a != [] && b != [] && a[0] == b[0]
    ensures SmallerAt(a, b, k + 1) <==> SmallerAt(a[1..], b[1..], k)
  {
    if k + 1 <= |a| && k + 1 < |b| {
      assert a[..k + 1] == [a[0]] + a[1..][..k] && b[..k + 1] == [b[0]] + b[1..][..k];
      assert a[1..][..k] == b[1..][..k] ==> a[..k + 1] == b[..k + 1];
      assert a[..k + 1] == b[..k + 1] ==> a[..k + 1][1..] == b[..k + 1][1..];
    }
  }

  /** By registry, then by user, by name and by tag, each from the smaller text to the larger. */
  lemma LessIff(a: Image, b: Image)
    ensures Less(a, b) <==>
            || Smaller(a.registry, b.registry)
            || (a.registry == b.registry && Smaller(a.user, b.user))
            || (a.registry == b.registry && a.user == b.user && Smaller(a.name, b.name))
            || (a.registry == b.registry && a.user == b.user && a.name == b.name && Smaller(a.tag, b.tag))
  {
    CompareIff(a.registry, b.registry);
    CompareIff(a.user, b.user);
    CompareIff(a.name, b.name);
    CompareIff(a.tag, b.tag);
    CompareTotal(a.registry, b.registry);
    CompareTotal(a.user, b.user);
    CompareTotal(a.name, b.name);
  }

  lemma {:induction false} CompareTransitive(a: string, b: string, c: string)
    requires Compare(a, b) < 0 && Compare(b, c) < 0
    ensures Compare(a, c) < 0
  {
    if a != [] && b != [] && c != [] && a[0] == b[0] == c[0] {
      CompareTransitive(a[1..], b[1..], c[1..]);
    }
  }

  /** A strict total order: of two different images, exactly one comes first. */
  lemma LessIsTotal(a: Image, b: Image)
    ensures a != b <==> Less(a, b) || Less(b, a)
    ensures !(Less(a, b) && Less(b, a))
  {
    CompareTotal(a.registry, b.registry);
    CompareTotal(a.user, b.user);
    CompareTotal(a.name, b.name);
    CompareTotal(a.tag, b.tag);
  }

  lemma Chain(a: string, b: string, c: string)
    ensures Compare(a, b) < 0 && Compare(b, c) < 0 ==> Compare(a, c) < 0
    ensures Compare(a, b) == 0 <==> a == b
    ensures Compare(b, c) == 0 <==> b == c
    ensures Compare(a, c) == 0 <==> a == c
  {
    CompareTotal(a, b);
    CompareTotal(b, c);
    CompareTotal(a, c);
    if Compare(a, b) < 0 && Compare(b, c) < 0 {
      CompareTransitive(a, b, c);
    }
  }

  lemma LessIsTransitive(a: Image, b: Image, c: Image)
    requires Less(a, b) && Less(b, c)
    ensures Less(a, c)
  {
    Chain(a.registry, b.registry, c.registry);
    Chain(a.user, b.user, c.user);
    Chain(a.name, b.name, c.name);
    Chain(a.tag, b.tag, c.tag);
  }

  /** What sort.Sort promises: nothing stands before something less. */
  predicate SortedBy<T>(less: (T, T) -> bool, s: seq<T>) {
    forall i, j :: 0 <= i < j < |s| ==> !less(s[j], s[i])
  }

  ghost predicate Total<T(!new)>(less: (T, T) -> bool) {
    forall a, b :: a != b ==> less(a, b) || less(b, a)
  }

  lemma SortedHead<T(!new)>(less: (T, T) -> bool, a: seq<T>, b: seq<T>)
    requires Total(less) && SortedBy(less, a) && SortedBy(less, b) && a != [] && b != []
    requires a[0] in b && b[0] in a
    ensures a[0] == b[0]
  {
    var j :| 0 <= j < |b| && b[j] == a[0];
    var k :| 0 <= k < |a| && a[k] == b[0];
    assert j > 0 ==> !less(b[j], b[0]);
    assert k > 0 ==> !less(a[k], a[0]);
  }

  lemma TailMultiset<T>(s: seq<T>)
    requires s != []
    ensures multiset(s[1..]) == multiset(s) - multiset{s[0]}
  {
    assert s == [s[0]] + s[1..];
  }

  /** Two sorted sequences of the same elements are the same. */
  lemma {:induction false} SortedIsUnique<T(!new)>(less: (T, T) -> bool, a: seq<T>, b: seq<T>)
    requires Total(less) && SortedBy(less, a) && SortedBy(less, b) && multiset(a) == multiset(b)
    ensures a == b
  {
    if a == [] {
      assert |multiset(b)| == 0;
    } else {
      assert |multiset(b)| > 0;
      assert a[0] in multiset(b) && b[0] in multiset(a);
      SortedHead(less, a, b);
      TailMultiset(a);
      TailMultiset(b);
      SortedIsUnique(less, a[1..], b[1..]);
      assert a == [a[0]] + a[1..] && b == [b[0]] + b[1..];
    }
  }

  predicate Sorted(images: seq<Image>) {
    SortedBy(Less, images)
  }

  ghost predicate SortsCorrectly(sort: seq<Image> -> seq<Image>) {
    forall images :: Sorted(sort(images)) && multiset(sort(images)) == multiset(images)
  }

  lemma LessTotal()
    ensures Total(Less)
  {
    forall a: Image, b: Image | a != b
      ensures Less(a, b) || Less(b, a)
    {
      LessIsTotal(a, b);
    }
  }

  function CommandsToRetagAs(source: Image, dest: Image): seq<string> {
    ["docker pull " + Printed(source),
     "docker tag " + Printed(source) + " " + Printed(dest),
     "docker push " + Printed(dest)]
  }

  function Destination(source: Image, registry: string, organization: string): Image {
    source.(registry := registry, user := organization)
  }

  /** What a loop that appends f of every item leaves. */
  function Blocks<T, U>(items: seq<T>, f: T -> seq<U>): seq<U> {
    if items == [] then [] else Blocks(items[..|items| - 1], f) + f(items[|items| - 1])
  }

  lemma {:induction false} BlockAt<T(!new), U>(items: seq<T>, f: T -> seq<U>, n: nat, k: nat)
    requires k < |items| && forall i :: |f(i)| == n
    ensures |Blocks(items, f)| == n * |items| && n * (k + 1) <= n * |items|
    ensures Blocks(items, f)[n * k..n * (k + 1)] == f(items[k])
  {
    var last := |items| - 1;
    var init := items[..last];
    if k < last {
      BlockAt(init, f, n, k);
    } else if last > 0 {
      BlockAt(init, f, n, last - 1);
    }
    assert n * |items| == n * last + n;
  }

  function Script(images: seq<Image>, registry: string, organization: string): seq<string> {
    Blocks(images, i => CommandsToRetagAs(i, Destination(i, registry, organization)))
  }

  /** The commands for a set of images: one block of three for each of them, in order. */
  ghost predicate IsScript(sources: set<Image>, registry: string, organization: string, commands: seq<string>) {
    exists images ::
      Sorted(images) && multiset(images) == multiset(sources) && commands == Script(images, registry, organization)
  }

  /** The script depends on the set of images alone. */
  lemma ScriptIsUnique(sources: set<Image>, registry: string, organization: string, c1: seq<string>, c2: seq<string>)
    requires IsScript(sources, registry, organization, c1) && IsScript(sources, registry, organization, c2)
    ensures c1 == c2
  {
    var i1 :| Sorted(i1) && multiset(i1) == multiset(sources) && c1 == Script(i1, registry, organization);
    var i2 :| Sorted(i2) && multiset(i2) == multiset(sources) && c2 == Script(i2, registry, organization);
    LessTotal();
    SortedIsUnique(Less, i1, i2);
  }

  /** Pull, tag and push of the k-th image, next to each other. */
  lemma ScriptBlock(images: seq<Image>, registry: string, organization: string, k: nat)
    requires k < |images|
    ensures |Script(images, registry, organization)| == 3 * |images|
    ensures Script(images, registry, organization)[3 * k..3 * (k + 1)] ==
            CommandsToRetagAs(images[k], Destination(images[k], registry, organization))
  {
    BlockAt(images, i => CommandsToRetagAs(i, Destination(i, registry, organization)), 3, k);
  }

  // ---- What running the script does ----

  /** One block: the image is pulled, and its content is pushed to the destination. */
  lemma RunsBlock(w: World, source: Image, dest: Image)
    requires ' ' !in Printed(source) && ' ' !in Printed(dest) && Printed(source) in w.remote
    ensures
      var r := Run(w, CommandsToRetagAs(source, dest));
      r.Some? && r.value.remote == w.remote[Printed(dest) := w.remote[Printed(source)]]
  {
    var x, y := Printed(source), Printed(dest);
    var commands := CommandsToRetagAs(source, dest);
    var w1 := w.(local := w.local[x := w.remote[x]]);
    var w2 := w1.(local := w1.local[y := w1.local[x]]);
    var w3 := w2.(remote := w2.remote[y := w2.local[y]]);
    Pulls(w, x);
    Tags(w1, x, y);
    Pushes(w2, y);
    assert commands[1..][1..][1..] == [];
    assert commands[1..][0] == commands[1] && commands[1..][1..][0] == commands[2];
    assert Run(w2, commands[1..][1..]) == Some(w3);
  }

  function PulledFrom(images: seq<Image>): seq<string> {
    seq(|images|, i requires 0 <= i < |images| => Printed(images[i]))
  }

  function PushedTo(images: seq<Image>, registry: string, organization: string): seq<string> {
    seq(|images|, i requires 0 <= i < |images| => Printed(Destination(images[i], registry, organization)))
  }

  /** If every source is in its registry, no command of the script fails, and the registries are synced. */
  lemma {:induction false} RunsScript(w: World, images: seq<Image>, registry: string, organization: string)
    requires OneWord(PulledFrom(images)) && OneWord(PushedTo(images, registry, organization))
    requires forall x :: x in PulledFrom(images) ==> x in w.remote
    ensures
      var r := Run(w, Script(images, registry, organization));
      r.Some? && Synced(PulledFrom(images), PushedTo(images, registry, organization), w.remote, r.value.remote)
    decreases |images|
  {
    var from, to := PulledFrom(images), PushedTo(images, registry, organization);
    if images != [] {
      var n := |images| - 1;
      var last, front := images[n], images[..n];
      var dest := Destination(last, registry, organization);
      assert PulledFrom(front) == from[..n] && PushedTo(front, registry, organization) == to[..n];
      assert Printed(last) == from[n] && Printed(dest) == to[n];
      RunsScript(w, front, registry, organization);
      RunConcat(w, Script(front, registry, organization), CommandsToRetagAs(last, dest));
      var middle := Run(w, Script(front, registry, organization)).value;
      SyncedMore(from, to, w.remote, middle.remote);
      RunsBlock(middle, last, dest);
    }
  }

  /** What the commands are for: whatever there is, if the sources are there, none of them fails, and the registries are
      synced. */
  ghost predicate Syncs(from: seq<string>, to: seq<string>, commands: seq<string>)
    requires |from| == |to|
  {
    OneWord(from) && OneWord(to) ==>
      forall w: World | forall x :: x in from ==> x in w.remote ::
        Run(w, commands).Some? && Synced(from, to, w.remote, Run(w, commands).value.remote)
  }

  lemma ScriptSyncs(images: seq<Image>, registry: string, organization: string)
    ensures Syncs(PulledFrom(images), PushedTo(images, registry, organization), Script(images, registry, organization))
  {
    var from, to := PulledFrom(images), PushedTo(images, registry, organization);
    if OneWord(from) && OneWord(to) {
      forall w: World | forall x :: x in from ==> x in w.remote
        ensures var r := Run(w, Script(images, registry, organization));
          r.Some? && Synced(from, to, w.remote, r.value.remote)
      {
        RunsScript(w, images, registry, organization);
      }
    }
  }

  /** Registry, organization, name and tag as they are written. */
  lemma DestinationText(image: Image, registry: string, organization: string)
    requires registry != "" && organization != ""
    ensures Printed(Destination(image, registry, organization))
         == registry + "/" + organization + "/" + image.name + (if image.tag == "" then "" else ":" + image.tag)
  {
    Regroup(registry + "/", organization + "/", image.name, if image.tag == "" then "" else ":" + image.tag);
  }

  lemma Regroup(a: string, b: string, c: string, d: string)
    ensures a + b + (c + d) == a + b + c + d
  {
  }

  /** An image that lies at the destination of one in front of it is pushed over before it is pulled: it is gone from
      the registry, and the other one stands in its place. For instance quay.io/wks/n:t behind docker.io/x/n:t, with
      quay.io and wks. */
  lemma QuayIsOverwritten()
    ensures
      var a, b := Image("docker.io", "x", "n", "t"), Image("quay.io", "wks", "n", "t");
      && Sorted([a, b])
      && Origin(PulledFrom([a, b]), PushedTo([a, b], "quay.io", "wks"), 2, Printed(b)) == Printed(a) != Printed(b)
  {
    var a, b := Image("docker.io", "x", "n", "t"), Image("quay.io", "wks", "n", "t");
    assert Compare("quay.io", "docker.io") == 1;
    assert Printed(a)[0] != Printed(b)[0];
    var from, to := PulledFrom([a, b]), PushedTo([a, b], "quay.io", "wks");
    assert from == [Printed(a), Printed(b)] && to == [Printed(b), Printed(b)];
    assert Origin(from, to, 0, Printed(a)) == Printed(a);
    assert Origin(from, to, 1, Printed(b)) == Printed(a);
  }

  /** The names that addons are parsed into; so two of them are pushed to one place only if name and tag agree. */
  lemma SharedDestinationIff(t1: string, t2: string, registry: string, organization: string)
    requires Parsed(t1).Some? && Parsed(t2).Some?
    ensures
      var a, b := Parsed(t1).value, Parsed(t2).value;
      Printed(Destination(a, registry, organization)) == Printed(Destination(b, registry, organization)) <==>
      a.name == b.name && a.tag == b.tag
  {
    ParsedShape(t1);
    ParsedShape(t2);
    SameDestinationIff(Parsed(t1).value, Parsed(t2).value, registry, organization);
  }

  ghost function ImagesOf(addons: seq<seq<Image>>): set<Image> {
    set a, i | 0 <= a < |addons| && 0 <= i < |addons[a]| :: addons[a][i]
  }

  method Deduplicate(addons: seq<seq<Image>>) returns (imagesSet: set<Image>)
    ensures imagesSet == ImagesOf(addons)
  {
    imagesSet := {};
    for a := 0 to |addons|
      invariant imagesSet == set b, i | 0 <= b < a && 0 <= i < |addons[b]| :: addons[b][i]
    {
      for i := 0 to |addons[a]|
        invariant imagesSet == (set b, j | 0 <= b < a && 0 <= j < |addons[b]| :: addons[b][j])
                               + set j | 0 <= j < i :: addons[a][j]
      {
        imagesSet := imagesSet + {addons[a][i]};
      }
    }
  }

  /** In whatever order the map yields its keys. */
  method ToSlice(imagesSet: set<Image>) returns (images: seq<Image>)
    ensures multiset(images) == multiset(imagesSet)
  {
    images := [];
    var left := imagesSet;
    while left != {}
      invariant left <= imagesSet && multiset(images) == multiset(imagesSet - left)
      decreases |left|
    {
      var image :| image in left;
      images := images + [image];
      left := left - {image};
    }
    assert imagesSet - left == imagesSet;
  }

  method GenerateCommands(images: seq<Image>, registry: string, organization: string) returns (commands: seq<string>)
    ensures commands == Script(images, registry, organization)
  {
    commands := [];
    ghost var f := i => CommandsToRetagAs(i, Destination(i, registry, organization));
    for k := 0 to |images|
      invariant commands == Blocks(images[..k], f)
    {
      var destImage := images[k];
      destImage := destImage.(registry := registry);
      destImage := destImage.(user := organization);
      commands := commands + CommandsToRetagAs(images[k], destImage);
      assert images[..k + 1][..k] == images[..k];
    }
    assert images[..|images|] == images;
  }

  /** Whatever the order of the map and whatever correct sort is used: the one script of the set of images. */
  method RegistrySync(addons: seq<seq<Image>>, sort: seq<Image> -> seq<Image>, registry: string, organization: string)
    returns (commands: seq<string>)
    requires SortsCorrectly(sort)
    ensures exists images :: Sorted(images) && multiset(images) == multiset(ImagesOf(addons))
                             && Syncs(PulledFrom(images), PushedTo(images, registry, organization), commands)
    ensures forall other :: IsScript(ImagesOf(addons), registry, organization, other) <==> other == commands
  {
    var imagesSet := Deduplicate(addons);
    var images := ToSlice(imagesSet);
    images := sort(images);
    commands := GenerateCommands(images, registry, organization);
    ScriptSyncs(images, registry, organization);
    assert IsScript(imagesSet, registry, organization, commands);
    forall other | IsScript(imagesSet, registry, organization, other)
      ensures other == commands
    {
      ScriptIsUnique(imagesSet, registry, organization, other, commands);
    }
  }
}
