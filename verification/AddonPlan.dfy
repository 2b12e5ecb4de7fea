/** The plan that installs the addons' manifests (pkg/plan/recipe/install_plans.go), and what any schedule of it
    does. */
module AddonPlan {
  import opened AddonNames
  import opened Wrappers

  /** How resources and their files are called. */
  datatype Naming = Naming(of: (string, nat) -> string, file: (string, nat) -> string)

  const NAMING := Naming(ResourceName, FileName)

  /** No two manifests share a resource name. */
  ghost predicate Injective(nm: Naming) {
    forall a, i: nat, b, j: nat :: nm.of(a, i) == nm.of(b, j) ==> a == b && i == j
  }

  lemma NamingIsInjective()
    ensures Injective(NAMING)
  {
    forall a, i: nat, b, j: nat | NAMING.of(a, i) == NAMING.of(b, j)
      ensures a == b && i == j
    {
      ResourceNameInjective(a, i, b, j);
    }
  }

  lemma SameName(nm: Naming, a: string, i: nat, b: string, j: nat)
    requires Injective(nm)
    ensures nm.of(a, i) == nm.of(b, j) <==> a == b && i == j
  {
  }

  type Manifest = string

  /** A KubectlApply and the names of the resources it depends on. */
  datatype Resource = Resource(manifest: Manifest, filename: string, dependsOn: set<string>)

  type Plan = map<string, Resource>

  type Addons = map<string, seq<Manifest>>

  predicate IsManifest(addons: Addons, a: string, i: nat) {
    a in addons && i < |addons[a]|
  }

  /** What the i-th manifest of an addon becomes. */
  function ResourceFor(nm: Naming, addons: Addons, a: string, i: nat): Resource
    requires IsManifest(addons, a, i)
  {
    Resource(addons[a][i], nm.file(a, i) + ".yaml", if i > 0 then {nm.of(a, i - 1)} else {})
  }

  ghost predicate HasAll(nm: Naming, addons: Addons, plan: Plan) {
    forall a, i: nat :: IsManifest(addons, a, i) ==>
      nm.of(a, i) in plan && plan[nm.of(a, i)] == ResourceFor(nm, addons, a, i)
  }

  ghost predicate HasOnly(nm: Naming, addons: Addons, plan: Plan) {
    forall name :: name in plan ==> exists a, i: nat :: IsManifest(addons, a, i) && name == nm.of(a, i)
  }

  /** One resource for every manifest, and no other. */
  ghost predicate IsPlanFor(nm: Naming, addons: Addons, plan: Plan) {
    HasAll(nm, addons, plan) && HasOnly(nm, addons, plan)
  }

  /** What the plan has for a manifest, under which name: its text, its file, and the dependency on the one before. */
  lemma PlanSays(addons: Addons, plan: Plan, a: string, i: nat) returns (digits: string, before: string)
    requires IsPlanFor(NAMING, addons, plan) && IsManifest(addons, a, i)
    ensures Value(digits) == i && |digits| >= 2 && (i > 0 ==> Value(before) == i - 1 && |before| >= 2)
    ensures
      var name := "install:addon:" + a + "-" + digits;
      && name in plan && plan[name].manifest == addons[a][i]
      && plan[name].filename == a + "-" + digits + ".yaml"
      && plan[name].dependsOn == if i > 0 then {"install:addon:" + a + "-" + before} else {}
  {
    digits := NamesDenote(a, i);
    before := "";
    if i > 0 {
      before := NamesDenote(a, i - 1);
    }
    assert plan[NAMING.of(a, i)] == ResourceFor(NAMING, addons, a, i);
  }

  lemma Origin(nm: Naming, addons: Addons, plan: Plan, name: string) returns (a: string, i: nat)
    requires IsPlanFor(nm, addons, plan) && name in plan
    ensures IsManifest(addons, a, i) && name == nm.of(a, i) && plan[name] == ResourceFor(nm, addons, a, i)
  {
    a, i :| IsManifest(addons, a, i) && name == nm.of(a, i);
  }

  /** There is only one such plan, so the order in which the map yields the addons does not show. */
  lemma PlanIsUnique(nm: Naming, addons: Addons, p: Plan, q: Plan)
    requires IsPlanFor(nm, addons, p) && IsPlanFor(nm, addons, q)
    ensures p == q
  {
    SamePart(nm, addons, p, q);
    SamePart(nm, addons, q, p);
    assert p.Keys == q.Keys;
  }

  lemma SamePart(nm: Naming, addons: Addons, p: Plan, q: Plan)
    requires IsPlanFor(nm, addons, p) && HasAll(nm, addons, q)
    ensures forall name :: name in p ==> name in q && p[name] == q[name]
  {
    forall name | name in p
      ensures name in q && p[name] == q[name]
    {
      var a, i := Origin(nm, addons, p, name);
    }
  }

  // ---- Schedules ----

  /** Nothing twice, only resources of the plan, and each of them after its dependencies. A run that has not come to the
      end, or that has failed on the way, is such a schedule too. */
  predicate Respects(plan: Plan, schedule: seq<string>) {
    schedule == []
    || (var init, last := schedule[..|schedule| - 1], schedule[|schedule| - 1];
        && Respects(plan, init) && last !in init && last in plan
        && forall d :: d in plan[last].dependsOn ==> d in init)
  }

  /** The part of a schedule that concerns some of the resources. */
  function Part(names: seq<string>, schedule: seq<string>): seq<string> {
    if schedule == [] then []
    else
      var last := schedule[|schedule| - 1];
      Part(names, schedule[..|schedule| - 1]) + if last in names then [last] else []
  }

  lemma {:induction false} PartIsFilter(names: seq<string>, schedule: seq<string>, n: string)
    ensures n in Part(names, schedule) <==> n in names && n in schedule
  {
    if schedule != [] {
      var init, last := schedule[..|schedule| - 1], schedule[|schedule| - 1];
      PartIsFilter(names, init, n);
      assert schedule == init + [last];
    }
  }

  /** Resources that depend each on the one before it in the list and on nothing else. */
  predicate Lined(plan: Plan, names: seq<string>) {
    && (forall i, j :: 0 <= i < j < |names| ==> names[i] != names[j])
    && (forall i: nat :: i < |names| ==> Follows(plan, names, i))
  }

  predicate Follows(plan: Plan, names: seq<string>, i: nat)
    requires i < |names|
  {
    names[i] in plan && plan[names[i]].dependsOn == if i > 0 then {names[i - 1]} else {}
  }

  /** At any time, whatever else runs in between: the first few of the line have been applied, in order. */
  lemma {:induction false} AppliedInOrder(plan: Plan, names: seq<string>, schedule: seq<string>)
    requires Lined(plan, names) && Respects(plan, schedule)
    ensures Part(names, schedule) <= names
  {
    if schedule != [] {
      var init, last := schedule[..|schedule| - 1], schedule[|schedule| - 1];
      AppliedInOrder(plan, names, init);
      if last in names {
        var i :| 0 <= i < |names| && names[i] == last;
        assert Follows(plan, names, i);
        NextInLine(plan, names, init, i);
      }
    }
  }

  lemma NextInLine(plan: Plan, names: seq<string>, init: seq<string>, i: nat)
    requires Lined(plan, names) && i < |names| && Follows(plan, names, i) && Part(names, init) <= names
    requires names[i] !in init && forall d :: d in plan[names[i]].dependsOn ==> d in init
    ensures i == |Part(names, init)|
  {
    var done := Part(names, init);
    assert forall k :: 0 <= k < |done| ==> done[k] == names[k];
    PartIsFilter(names, init, names[i]);
    if i > 0 {
      assert names[i - 1] in plan[names[i]].dependsOn;
      PartIsFilter(names, init, names[i - 1]);
      var k :| 0 <= k < |done| && done[k] == names[i - 1];
      assert done[k] == names[k];
    }
  }

  predicate Complete(plan: Plan, schedule: seq<string>) {
    forall n :: n in plan ==> n in schedule
  }

  lemma AllInTheEnd(plan: Plan, names: seq<string>, schedule: seq<string>)
    requires Lined(plan, names) && Complete(plan, schedule) && Part(names, schedule) <= names
    ensures Part(names, schedule) == names
  {
    var done := Part(names, schedule);
    if |done| < |names| {
      assert forall k :: 0 <= k < |done| ==> done[k] == names[k];
      assert Follows(plan, names, |done|);
      PartIsFilter(names, schedule, names[|done|]);
    }
  }

  /** While one of the line is missing, a missing one can be applied. */
  lemma {:induction false} CanGoOn(plan: Plan, names: seq<string>, schedule: seq<string>, i: nat) returns (next: string)
    requires Lined(plan, names) && Respects(plan, schedule) && i < |names| && names[i] !in schedule
    ensures next in plan && next !in schedule && Respects(plan, schedule + [next])
  {
    if i > 0 && names[i - 1] !in schedule {
      next := CanGoOn(plan, names, schedule, i - 1);
    } else {
      next := names[i];
      var longer := schedule + [next];
      assert longer[..|longer| - 1] == schedule && longer[|longer| - 1] == next;
      assert Follows(plan, names, i);
    }
  }

  // ---- What that means for the addons ----

  function Names(nm: Naming, addons: Addons, a: string): seq<string>
    requires a in addons
  {
    seq(|addons[a]|, i requires 0 <= i => nm.of(a, i))
  }

  lemma AddonsAreLined(nm: Naming, addons: Addons, plan: Plan, a: string)
    requires Injective(nm) && HasAll(nm, addons, plan) && a in addons
    ensures Lined(plan, Names(nm, addons, a))
    ensures forall i :: 0 <= i < |addons[a]| ==> plan[Names(nm, addons, a)[i]].manifest == addons[a][i]
  {
    var names := Names(nm, addons, a);
    forall i, j | 0 <= i < j < |names|
      ensures names[i] != names[j]
    {
      SameName(nm, a, i, a, j);
    }
    forall i | 0 <= i < |names|
      ensures names[i] in plan && plan[names[i]] == ResourceFor(nm, addons, a, i) && Follows(plan, names, i)
    {
      assert IsManifest(addons, a, i);
    }
  }

  /** The manifests that applying resources one after the other applies. */
  function Manifests(plan: Plan, names: seq<string>): seq<Manifest>
    requires forall n :: n in names ==> n in plan
  {
    seq(|names|, k requires 0 <= k < |names| => plan[names[k]].manifest)
  }

  /** Every schedule that respects the dependencies applies each addon's manifests in list order: a prefix of the list
      at any time, all of it in the end. */
  lemma ManifestsInOrder(nm: Naming, addons: Addons, plan: Plan, a: string, schedule: seq<string>)
    requires Injective(nm) && HasAll(nm, addons, plan) && a in addons && Respects(plan, schedule)
    ensures
      var mine := Part(Names(nm, addons, a), schedule);
      && (forall n :: n in mine ==> n in plan) && Manifests(plan, mine) <= addons[a]
      && (Complete(plan, schedule) ==> Manifests(plan, mine) == addons[a])
  {
    var names := Names(nm, addons, a);
    var mine := Part(names, schedule);
    AddonsAreLined(nm, addons, plan, a);
    AppliedInOrder(plan, names, schedule);
    assert forall k :: 0 <= k < |mine| ==> mine[k] == names[k];
    if Complete(plan, schedule) {
      AllInTheEnd(plan, names, schedule);
    }
  }

  /** A schedule stops only when everything has been applied. */
  lemma NeverStuck(nm: Naming, addons: Addons, plan: Plan, schedule: seq<string>)
    requires Injective(nm) && IsPlanFor(nm, addons, plan) && Respects(plan, schedule)
    ensures Complete(plan, schedule) <==> forall n :: n !in schedule ==> !Respects(plan, schedule + [n])
  {
    if !Complete(plan, schedule) {
      var missing :| missing in plan && missing !in schedule;
      var a, i := Origin(nm, addons, plan, missing);
      AddonsAreLined(nm, addons, plan, a);
      var next := CanGoOn(plan, Names(nm, addons, a), schedule, i);
    } else {
      forall n | n !in schedule
        ensures !Respects(plan, schedule + [n])
      {
        assert (schedule + [n])[|schedule|] == n;
      }
    }
  }

  /** Each resource depends on the one before it. */
  predicate Chain(plan: Plan, path: seq<string>) {
    && (forall k :: 0 <= k < |path| ==> path[k] in plan)
    && (forall k :: 0 < k < |path| ==> path[k - 1] in plan[path[k]].dependsOn)
  }

  lemma LinkClimbs(nm: Naming, addons: Addons, plan: Plan, name: string, a: string, i: nat)
    requires Injective(nm) && IsPlanFor(nm, addons, plan)
    requires name in plan && nm.of(a, i) in plan[name].dependsOn
    ensures name == nm.of(a, i + 1)
  {
    var b, j := Origin(nm, addons, plan, name);
    SameName(nm, a, i, b, j - 1);
  }

  lemma {:induction false} ChainClimbs(nm: Naming, addons: Addons, plan: Plan, path: seq<string>)
      returns (a: string, i: nat)
    requires Injective(nm) && IsPlanFor(nm, addons, plan) && Chain(plan, path) && path != []
    ensures forall k :: 0 <= k < |path| ==> path[k] == nm.of(a, i + k)
  {
    var n := |path| - 1;
    if n == 0 {
      a, i := Origin(nm, addons, plan, path[0]);
    } else {
      var init := path[..n];
      a, i := ChainClimbs(nm, addons, plan, init);
      assert init[n - 1] == path[n - 1];
      LinkClimbs(nm, addons, plan, path[n], a, i + (n - 1));
      assert forall k :: 0 <= k < n ==> path[k] == init[k];
    }
  }

  /** A chain of dependencies stays in one addon and climbs by one each time, so it never comes back. */
  lemma Acyclic(nm: Naming, addons: Addons, plan: Plan, path: seq<string>)
    requires Injective(nm) && IsPlanFor(nm, addons, plan) && Chain(plan, path)
    ensures forall k, l :: 0 <= k < l < |path| ==> path[k] != path[l]
  {
    if path != [] {
      var a, i := ChainClimbs(nm, addons, plan, path);
      forall k, l | 0 <= k < l < |path|
        ensures path[k] != path[l]
      {
        SameName(nm, a, i + k, a, i + l);
      }
    }
  }

  // ---- The code ----

  lemma AddToAll(nm: Naming, addons: Addons, plan: Plan, a: string, ms: seq<Manifest>, i: nat)
    requires Injective(nm) && i < |ms| && HasAll(nm, addons[a := ms[..i]], plan)
    ensures HasAll(nm, addons[a := ms[..i + 1]], plan[nm.of(a, i) := ResourceFor(nm, addons[a := ms], a, i)])
  {
    var before, after := addons[a := ms[..i]], addons[a := ms[..i + 1]];
    var longer := plan[nm.of(a, i) := ResourceFor(nm, addons[a := ms], a, i)];
    forall b, j: nat | IsManifest(after, b, j)
      ensures nm.of(b, j) in longer && longer[nm.of(b, j)] == ResourceFor(nm, after, b, j)
    {
      SameName(nm, a, i, b, j);
      if b != a || j < i {
        assert IsManifest(before, b, j) && ResourceFor(nm, before, b, j) == ResourceFor(nm, after, b, j);
      }
    }
  }

  lemma AddToOnly(nm: Naming, addons: Addons, plan: Plan, a: string, ms: seq<Manifest>, i: nat, r: Resource)
    requires Injective(nm) && i < |ms| && HasOnly(nm, addons[a := ms[..i]], plan)
    ensures nm.of(a, i) !in plan && HasOnly(nm, addons[a := ms[..i + 1]], plan[nm.of(a, i) := r])
  {
    var before, after := addons[a := ms[..i]], addons[a := ms[..i + 1]];
    assert IsManifest(after, a, i);
    forall n | n in plan
      ensures n != nm.of(a, i) && exists b, j: nat :: IsManifest(after, b, j) && n == nm.of(b, j)
    {
      var b, j: nat :| IsManifest(before, b, j) && n == nm.of(b, j);
      SameName(nm, a, i, b, j);
      assert IsManifest(after, b, j);
    }
  }

  lemma StartAddon(nm: Naming, addons: Addons, plan: Plan, a: string)
    requires IsPlanFor(nm, addons, plan) && a !in addons
    ensures IsPlanFor(nm, addons[a := []], plan)
  {
    var more := addons[a := []];
    forall b, j: nat | IsManifest(more, b, j)
      ensures IsManifest(addons, b, j) && ResourceFor(nm, more, b, j) == ResourceFor(nm, addons, b, j)
    {
    }
    forall n | n in plan
      ensures exists b, j: nat :: IsManifest(more, b, j) && n == nm.of(b, j)
    {
      var b, j := Origin(nm, addons, plan, n);
      assert IsManifest(more, b, j);
    }
  }

  /** In whatever order the map yields the addons: the one plan for them. */
  method BuildAddonPlan(addons: Addons) returns (plan: Plan)
    ensures forall p :: IsPlanFor(NAMING, addons, p) <==> p == plan
  {
    NamingIsInjective();
    plan := BuildPlan(NAMING, addons);
  }

  method BuildPlan(nm: Naming, addons: Addons) returns (plan: Plan)
    requires Injective(nm) && Prefixed(nm)
    ensures forall p :: IsPlanFor(nm, addons, p) <==> p == plan
  {
    plan := map[];
    var left := addons.Keys;
    ghost var done: Addons := map[];
    while left != {}
      invariant left <= addons.Keys && done == map a | a in addons && a !in left :: addons[a]
      invariant IsPlanFor(nm, done, plan)
      decreases |left|
    {
      var name :| name in left;
      StartAddon(nm, done, plan, name);
      plan := AddManifests(nm, done, plan, name, addons[name]);
      left := left - {name};
      done := done[name := addons[name]];
    }
    assert done == addons;
    forall p | IsPlanFor(nm, addons, p)
      ensures p == plan
    {
      PlanIsUnique(nm, addons, p, plan);
    }
  }

  ghost predicate Prefixed(nm: Naming) {
    forall a, i: nat :: nm.of(a, i) == PREFIX + nm.file(a, i)
  }

  method AddManifests(nm: Naming, ghost done: Addons, before: Plan, name: string, manifests: seq<Manifest>)
    returns (plan: Plan)
    requires Injective(nm) && Prefixed(nm) && IsPlanFor(nm, done[name := []], before)
    ensures IsPlanFor(nm, done[name := manifests], plan)
  {
    plan := before;
    var previous: Option<string> := None;
    assert manifests[..0] == [];
    for i := 0 to |manifests|
      invariant IsPlanFor(nm, done[name := manifests[..i]], plan)
      invariant previous == if i == 0 then None else Some(nm.of(name, i - 1))
    {
      ghost var r := ResourceFor(nm, done[name := manifests], name, i);
      AddToAll(nm, done, plan, name, manifests, i);
      AddToOnly(nm, done, plan, name, manifests, i, r);
      var resFile := nm.file(name, i);
      var resName := PREFIX + resFile;
      if previous.Some? {
        plan := plan[resName := Resource(manifests[i], resFile + ".yaml", {previous.value})];
      } else {
        plan := plan[resName := Resource(manifests[i], resFile + ".yaml", {})];
      }
      previous := Some(resName);
    }
    assert manifests[..|manifests|] == manifests;
  }
}
