/** Renaming the entries of a downloaded kubeconfig and merging it into another
    (pkg/kubernetes/config/kubeconfig.go). */
module KubeConfigs {
  import opened Wrappers

  /** The names of the entries to rename: package variables of the source, so they are parameters here. */
  datatype Names = Names(cluster: string, admin: string, context: string)

  const DEFAULTS := Names("kubernetes", "kubernetes-admin", "kubernetes-admin@kubernetes")

  /** The values a context carries; the namespace stands for all that nobody touches. */
  datatype Binding = Binding(cluster: string, user: string, namespace: string)

  /** A kubeconfig as a value. Its entries are pointers, None for nil. */
  datatype Config = Config(clusters: map<string, Option<string>>, users: map<string, Option<string>>,
                           contexts: map<string, Option<Binding>>, current: string)

  function Get<V>(m: map<string, Option<V>>, k: string): Option<V> {
    if k in m then m[k] else None
  }

  function Moved<V>(m: map<string, V>, from: string, to: string, v: V): map<string, V> {
    m[to := v] - {from}
  }

  /** The name that the entries get. */
  function NameFor(cluster: string): string {
    "wks-" + cluster
  }

  /** The renamed config. Where the default cluster or user is missing, nil takes its place. */
  function Renamed(d: Names, c: Config, name: string): Config
    requires Get(c.contexts, d.context).Some?
  {
    var b := c.contexts[d.context].value;
    Config(Moved(c.clusters, d.cluster, name, Get(c.clusters, d.cluster)),
           Moved(c.users, d.admin, name, Get(c.users, d.admin)),
           Moved(c.contexts, d.context, name, Some(b.(cluster := name, user := name))),
           name)
  }

  function Merged(existing: Config, other: Config): Config {
    existing.(clusters := existing.clusters + other.clusters, users := existing.users + other.users,
              contexts := existing.contexts + other.contexts)
  }

  // ---- Referential integrity ----

  predicate Resolves(c: Config, b: Option<Binding>) {
    b.Some? && Get(c.clusters, b.value.cluster).Some? && Get(c.users, b.value.user).Some?
  }

  /** Every context names a cluster and a user that are there. */
  predicate Closed(c: Config) {
    forall k :: k in c.contexts ==> Resolves(c, c.contexts[k])
  }

  /** A context that does not depend on the entries that go away; the one the new name replaces, if any, goes itself. */
  predicate Survives(d: Names, c: Config, name: string, k: string)
    requires k in c.contexts
  {
    match c.contexts[k]
    case None => false
    case Some(b) =>
      && b.cluster != d.cluster && b.user != d.admin
      && (b.cluster == name || Get(c.clusters, b.cluster).Some?)
      && (b.user == name || Get(c.users, b.user).Some?)
  }

  predicate Apart(d: Names, name: string) {
    name != d.cluster && name != d.admin && name != d.context
  }

  lemma DefaultsAreApart(cluster: string)
    ensures Apart(DEFAULTS, NameFor(cluster))
  {
    assert NameFor(cluster)[0] == 'w';
  }

  /** Different clusters get different names. */
  lemma NameForInjective(a: string, b: string)
    requires NameFor(a) == NameFor(b)
    ensures a == b
  {
    assert NameFor(a)[4..] == a && NameFor(b)[4..] == b;
  }

  /** Exactly when renaming leaves a closed config: the defaults are there, and nobody else depends on them. */
  lemma RenamedClosedIff(d: Names, c: Config, name: string)
    requires Apart(d, name) && Get(c.contexts, d.context).Some?
    ensures Closed(Renamed(d, c, name)) <==>
            && Get(c.clusters, d.cluster).Some? && Get(c.users, d.admin).Some?
            && forall k :: k in c.contexts && k != d.context && k != name ==>
                 Survives(d, c, name, k)
  {
    var r := Renamed(d, c, name);
    assert name in r.contexts && r.contexts[name].value.cluster == name && r.contexts[name].value.user == name;
    assert Resolves(r, r.contexts[name]) <==> Get(c.clusters, d.cluster).Some? && Get(c.users, d.admin).Some?;
    forall k | k in c.contexts && k != d.context && k != name
      ensures k in r.contexts && r.contexts[k] == c.contexts[k]
      ensures Resolves(r, r.contexts[name]) ==> (Resolves(r, r.contexts[k]) <==> Survives(d, c, name, k))
    {
    }
  }

  /** What the new context stands for is what the default one stood for. */
  lemma RenamedMeansTheSame(d: Names, c: Config, name: string)
    requires Apart(d, name) && Get(c.contexts, d.context).Some?
    ensures
      var r := Renamed(d, c, name);
      && r.current == name && Get(r.contexts, name).Some?
      && var b := r.contexts[name].value;
      && Get(r.clusters, b.cluster) == Get(c.clusters, d.cluster)
      && Get(r.users, b.user) == Get(c.users, d.admin)
      && b.namespace == c.contexts[d.context].value.namespace
  {
  }

  /** Where the second config has a name that a context of the first needs, it must not have nil for it. */
  predicate NoNilFor(b: Config, used: Binding) {
    && (used.cluster in b.clusters ==> b.clusters[used.cluster].Some?)
    && (used.user in b.users ==> b.users[used.user].Some?)
  }

  /** Merging two closed configs gives a closed one, unless a nil entry of the second hides one that is in use. */
  lemma MergedClosedIff(a: Config, b: Config)
    requires Closed(a) && Closed(b)
    ensures Closed(Merged(a, b)) <==>
            forall k :: k in a.contexts && k !in b.contexts ==> NoNilFor(b, a.contexts[k].value)
  {
    var m := Merged(a, b);
    forall k | k in b.contexts
      ensures Resolves(m, m.contexts[k])
    {
      assert Resolves(b, b.contexts[k]);
    }
    forall k | k in a.contexts && k !in b.contexts
      ensures k in m.contexts && a.contexts[k].Some?
          && (Resolves(m, m.contexts[k]) <==> NoNilFor(b, a.contexts[k].value))
    {
      assert Resolves(a, a.contexts[k]);
    }
  }

  /** The contexts of the second config mean what they meant there; whatever it has no name for is as it was. */
  lemma MergedKeeps(a: Config, b: Config)
    requires Closed(b)
    ensures
      var m := Merged(a, b);
      && m.current == a.current
      && (forall k :: k in b.contexts ==>
            && k in m.contexts && m.contexts[k] == b.contexts[k] && b.contexts[k].Some?
            && var used := b.contexts[k].value;
            && Get(m.clusters, used.cluster) == Get(b.clusters, used.cluster)
            && Get(m.users, used.user) == Get(b.users, used.user))
      && (forall k :: k in a.contexts && k !in b.contexts ==> k in m.contexts && m.contexts[k] == a.contexts[k])
      && (forall n :: n !in b.clusters ==> Get(m.clusters, n) == Get(a.clusters, n))
      && (forall n :: n !in b.users ==> Get(m.users, n) == Get(a.users, n))
  {
    forall k | k in b.contexts
      ensures b.contexts[k].Some?
      ensures b.contexts[k].value.cluster in b.clusters && b.contexts[k].value.user in b.users
    {
      assert Resolves(b, b.contexts[k]);
    }
  }

  predicate NoNils(c: Config) {
    (forall n :: n in c.clusters ==> c.clusters[n].Some?) && (forall n :: n in c.users ==> c.users[n].Some?)
  }

  /** The whole transaction: a downloaded config with the defaults, renamed and merged into a closed config. The result
      is closed and its new context stands for what the default one did. */
  lemma InstallKeepsClosed(d: Names, existing: Config, c: Config, name: string)
    requires Apart(d, name) && Closed(existing) && NoNils(c) && Get(c.contexts, d.context).Some?
    requires d.cluster in c.clusters && d.admin in c.users
    requires forall k :: k in c.contexts && k != d.context && k != name ==>
               Survives(d, c, name, k)
    ensures
      var m := Merged(existing, Renamed(d, c, name));
      && Closed(m) && Get(m.contexts, name).Some? && m.current == existing.current
      && Get(m.clusters, m.contexts[name].value.cluster) == c.clusters[d.cluster]
      && Get(m.users, m.contexts[name].value.user) == c.users[d.admin]
  {
    var r := Renamed(d, c, name);
    RenamedClosedIff(d, c, name);
    RenamedMeansTheSame(d, c, name);
    MergedClosedIff(existing, r);
    MergedKeeps(existing, r);
  }

  /** What the merged config has under a name: the renamed entry, else what the download has under it and has not
      renamed, else what was there. */
  function Found(existing: map<string, Option<string>>, downloaded: map<string, Option<string>>, from: string,
                 name: string, n: string): Option<string> {
    if n == name then Get(downloaded, from)
    else if n != from && n in downloaded then downloaded[n]
    else Get(existing, n)
  }

  predicate WillResolve(d: Names, existing: Config, c: Config, name: string, b: Option<Binding>) {
    && b.Some?
    && Found(existing.clusters, c.clusters, d.cluster, name, b.value.cluster).Some?
    && Found(existing.users, c.users, d.admin, name, b.value.user).Some?
  }

  lemma FoundInMerged(existing: map<string, Option<string>>, downloaded: map<string, Option<string>>, from: string,
                      name: string, n: string)
    requires name != from
    ensures Get(existing + Moved(downloaded, from, name, Get(downloaded, from)), n) ==
            Found(existing, downloaded, from, name, n)
  {
  }

  lemma FoundIsMerged(d: Names, existing: Config, c: Config, name: string, b: Option<Binding>)
    requires Apart(d, name) && Get(c.contexts, d.context).Some?
    ensures Resolves(Merged(existing, Renamed(d, c, name)), b) <==> WillResolve(d, existing, c, name, b)
  {
    if b.Some? {
      FoundInMerged(existing.clusters, c.clusters, d.cluster, name, b.value.cluster);
      FoundInMerged(existing.users, c.users, d.admin, name, b.value.user);
    }
  }

  /** Exactly when a rename and a merge end in a closed config, whatever the two configs are. */
  lemma InstallClosedIff(d: Names, existing: Config, c: Config, name: string)
    requires Apart(d, name) && Get(c.contexts, d.context).Some?
    ensures Closed(Merged(existing, Renamed(d, c, name))) <==>
            && Get(c.clusters, d.cluster).Some? && Get(c.users, d.admin).Some?
            && (forall k :: k in c.contexts && k != d.context && k != name ==>
                  WillResolve(d, existing, c, name, c.contexts[k]))
            && (forall k :: k in existing.contexts && k != name && (k !in c.contexts || k == d.context) ==>
                  WillResolve(d, existing, c, name, existing.contexts[k]))
  {
    var r := Renamed(d, c, name);
    var m := Merged(existing, r);
    FoundIsMerged(d, existing, c, name, r.contexts[name]);
    assert name in m.contexts && m.contexts[name] == r.contexts[name];
    forall k | k in c.contexts && k != d.context && k != name
      ensures k in m.contexts && (Resolves(m, m.contexts[k]) <==> WillResolve(d, existing, c, name, c.contexts[k]))
    {
      FoundIsMerged(d, existing, c, name, c.contexts[k]);
    }
    forall k | k in existing.contexts && k != name && (k !in c.contexts || k == d.context)
      ensures k in m.contexts
      ensures Resolves(m, m.contexts[k]) <==> WillResolve(d, existing, c, name, existing.contexts[k])
    {
      FoundIsMerged(d, existing, c, name, existing.contexts[k]);
    }
  }

  /** Every entry of the old config that has no namesake in the renamed one is as it was. */
  lemma InstallKeepsOthers(d: Names, existing: Config, c: Config, name: string)
    requires Apart(d, name) && Get(c.contexts, d.context).Some?
    ensures
      var m := Merged(existing, Renamed(d, c, name));
      && (forall k :: k in existing.contexts && k != name && (k !in c.contexts || k == d.context) ==>
            k in m.contexts && m.contexts[k] == existing.contexts[k])
      && (forall n :: n in existing.clusters && n != name && (n !in c.clusters || n == d.cluster) ==>
            n in m.clusters && m.clusters[n] == existing.clusters[n])
      && (forall n :: n in existing.users && n != name && (n !in c.users || n == d.admin) ==>
            n in m.users && m.users[n] == existing.users[n])
  {
  }

  /** Without the default cluster the rename puts nil under the new name, and the new context does not resolve. */
  lemma MissingClusterBreaks(d: Names, c: Config, name: string)
    requires Apart(d, name) && Get(c.contexts, d.context).Some? && d.cluster !in c.clusters
    ensures
      var r := Renamed(d, c, name);
      name in r.clusters && r.clusters[name].None? && !Closed(r)
  {
    RenamedClosedIff(d, c, name);
  }

  // ---- The code ----

  class Context {
    var cluster: string
    var user: string
    var namespace: string

    constructor (b: Binding)
      ensures Bound() == b
    {
      cluster, user, namespace := b.cluster, b.user, b.namespace;
    }

    function Bound(): Binding
      reads this
    {
      Binding(cluster, user, namespace)
    }
  }

  /** What has been merged while some keys are left. */
  ghost function PartlyOver<V>(m: map<string, V>, other: map<string, V>, left: set<string>): map<string, V> {
    m + (other - left)
  }

  lemma OverlayStep<V>(m: map<string, V>, other: map<string, V>, left: set<string>, k: string)
    requires k in left && k in other
    ensures PartlyOver(m, other, left)[k := other[k]] == PartlyOver(m, other, left - {k})
  {
  }

  lemma OverlayEnds<V>(m: map<string, V>, other: map<string, V>)
    ensures PartlyOver(m, other, other.Keys) == m && PartlyOver(m, other, {}) == m + other
  {
    assert other - other.Keys == map[] && other - {} == other;
  }

  /** The merge loop, in whatever order the map yields its keys. */
  method Overlay<V>(m: map<string, V>, other: map<string, V>) returns (r: map<string, V>)
    ensures r == m + other
  {
    OverlayEnds(m, other);
    r := m;
    var left := other.Keys;
    while left != {}
      invariant left <= other.Keys && r == PartlyOver(m, other, left)
      decreases |left|
    {
      var k :| k in left;
      OverlayStep(m, other, left, k);
      r := r[k := other[k]];
      left := left - {k};
    }
  }

  ghost function Bindings(contexts: map<string, Context?>): map<string, Option<Binding>>
    reads contexts.Values
  {
    map k | k in contexts :: if contexts[k] == null then None else Some(contexts[k].Bound())
  }

  lemma OverlayBinds(a: map<string, Context?>, b: map<string, Context?>, both: map<string, Context?>)
    requires both == a + b
    ensures Bindings(both) == Bindings(a) + Bindings(b)
  {
  }

  ghost predicate Distinct(contexts: map<string, Context?>) {
    forall j, k :: j in contexts && k in contexts && j != k && contexts[j] != null ==> contexts[j] != contexts[k]
  }

  /** What the names stand for when one object has got another binding: all of its names have. */
  ghost function Rebound(contexts: map<string, Context?>, before: map<string, Option<Binding>>, x: Context, b: Binding)
    : map<string, Option<Binding>>
    requires contexts.Keys <= before.Keys
  {
    map k | k in contexts :: if contexts[k] == x then Some(b) else before[k]
  }

  /** Without shared objects, only the new name has. */
  lemma ReboundDistinct(contexts: map<string, Context?>, before: map<string, Option<Binding>>, from: string,
                        name: string, x: Context, b: Binding)
    requires Distinct(contexts) && from in contexts && contexts[from] == x && before.Keys == contexts.Keys
    ensures Rebound(Moved(contexts, from, name, x), before[name := Some(b)], x, b) == Moved(before, from, name, Some(b))
  {
  }

  method RenameContext(contexts: map<string, Context?>, from: string, name: string) returns (r: map<string, Context?>)
    requires from in contexts && contexts[from] != null
    modifies contexts[from]
    ensures r == Moved(contexts, from, name, contexts[from])
    ensures var b := old(contexts[from].Bound()).(cluster := name, user := name);
      Bindings(r) == Rebound(r, old(Bindings(contexts))[name := Some(b)], contexts[from], b)
  {
    r := contexts[name := contexts[from]];
    contexts[from].cluster := name;
    contexts[from].user := name;
    r := r - {from};
  }

  class KubeConfig {
    var clusters: map<string, Option<string>>
    var users: map<string, Option<string>>
    var contexts: map<string, Context?>
    var current: string

    constructor (clusters: map<string, Option<string>>, users: map<string, Option<string>>,
                 contexts: map<string, Context?>, current: string)
      ensures this.clusters == clusters && this.users == users && this.contexts == contexts && this.current == current
    {
      this.clusters, this.users, this.contexts, this.current := clusters, users, contexts, current;
    }

    ghost function Value(): Config
      reads this, contexts.Values
    {
      Config(clusters, users, Bindings(contexts), current)
    }

    /** Value() == v, field by field. */
    ghost predicate Holds(v: Config)
      reads this, contexts.Values
    {
      clusters == v.clusters && users == v.users && Bindings(contexts) == v.contexts && current == v.current
    }

    /** Renamed from this value and these context objects: every name of the renamed object shows the new binding. */
    ghost predicate HasRenamed(d: Names, v: Config, before: map<string, Context?>, name: string)
      requires Get(v.contexts, d.context).Some? && before.Keys == v.contexts.Keys
      reads this, contexts.Values
    {
      var b := v.contexts[d.context].value.(cluster := name, user := name);
      var x := before[d.context];
      && clusters == Moved(v.clusters, d.cluster, name, Get(v.clusters, d.cluster))
      && users == Moved(v.users, d.admin, name, Get(v.users, d.admin))
      && current == name && contexts == Moved(before, d.context, name, x)
      && x != null && Bindings(contexts) == Rebound(contexts, v.contexts[name := Some(b)], x, b)
    }

    /** So the entries lie under the new name alone, and the context is the object that it was, with new names in it. */
    lemma RenamedEntries(d: Names, v: Config, before: map<string, Context?>, name: string)
      requires Apart(d, name) && Get(v.contexts, d.context).Some? && before.Keys == v.contexts.Keys
      requires HasRenamed(d, v, before, name)
      ensures current == name && d.cluster !in clusters && d.admin !in users && d.context !in contexts
      ensures name in clusters && clusters[name] == Get(v.clusters, d.cluster)
      ensures name in users && users[name] == Get(v.users, d.admin)
      ensures name in contexts && contexts[name] == before[d.context]
      ensures contexts[name] != null && contexts[name].cluster == name && contexts[name].user == name
    {
      assert Bindings(contexts)[name].value.cluster == name;
    }

    /** False where the default context is missing or nil and the code dereferences nil; by then the clusters and the
        users are renamed, and the new context is nil. */
    method RenameConfig(d: Names, clusterName: string) returns (ok: bool)
      modifies this, contexts.Values
      ensures ok <==> Get(old(Bindings(contexts)), d.context).Some?
      ensures ok && Distinct(old(contexts)) ==> Holds(Renamed(d, old(Value()), NameFor(clusterName)))
      ensures ok ==> HasRenamed(d, old(Value()), old(contexts), NameFor(clusterName))
      ensures ok ==> current == "wks-" + clusterName
      ensures !ok ==>
                && clusters == old(Moved(clusters, d.cluster, NameFor(clusterName), Get(clusters, d.cluster)))
                && users == old(Moved(users, d.admin, NameFor(clusterName), Get(users, d.admin)))
                && contexts == old(contexts)[NameFor(clusterName) := null] && current == old(current)
                && Bindings(contexts) == old(Bindings(contexts))[NameFor(clusterName) := None]
    {
      var name := NameFor(clusterName);
      RenameEntries(d, name);
      assert Bindings(contexts) == old(Bindings(contexts));
      if d.context !in contexts || contexts[d.context] == null {
        StoreNil(name);
        return false;
      }
      contexts := RenameContext(contexts, d.context, name);
      current := name;
      if Distinct(old(contexts)) {
        ReboundDistinct(old(contexts), old(Bindings(contexts)), d.context, name, old(contexts[d.context]),
                        old(contexts[d.context].Bound()).(cluster := name, user := name));
      }
      return true;
    }

    method StoreNil(name: string)
      modifies this`contexts
      ensures contexts == old(contexts)[name := null] && Bindings(contexts) == old(Bindings(contexts))[name := None]
    {
      contexts := contexts[name := null];
    }

    method RenameEntries(d: Names, name: string)
      modifies this`clusters, this`users
      ensures clusters == Moved(old(clusters), d.cluster, name, Get(old(clusters), d.cluster))
      ensures users == Moved(old(users), d.admin, name, Get(old(users), d.admin))
    {
      clusters := clusters[name := Get(clusters, d.cluster)];
      clusters := clusters - {d.cluster};
      users := users[name := Get(users, d.admin)];
      users := users - {d.admin};
    }

    /** The context objects are shared with the other config afterwards. */
    method Merge(other: KubeConfig)
      modifies this
      ensures Holds(Merged(old(Value()), old(other.Value())))
      ensures contexts == old(contexts) + old(other.contexts)
    {
      MergeEntries(other);
      assert Bindings(contexts) == old(Bindings(contexts)) && Bindings(other.contexts) == old(Bindings(other.contexts));
      MergeContexts(other);
    }

    method MergeEntries(other: KubeConfig)
      modifies this`clusters, this`users
      ensures clusters == old(clusters) + old(other.clusters)
      ensures users == old(users) + old(other.users)
    {
      clusters := Overlay(clusters, other.clusters);
      users := Overlay(users, other.users);
    }

    method MergeContexts(other: KubeConfig)
      modifies this`contexts
      ensures contexts == old(contexts) + old(other.contexts)
      ensures Bindings(contexts) == old(Bindings(contexts)) + old(Bindings(other.contexts))
    {
      var both := Overlay(contexts, other.contexts);
      OverlayBinds(contexts, other.contexts, both);
      contexts := both;
    }
  }
}
