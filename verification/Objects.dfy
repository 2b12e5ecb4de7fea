/** The nested mutable maps of pkg/addons/object.go. A Go map is an Object; the values in it may refer to other maps. A
    `Tree` says which maps a document is made of and how they hang together: `Rep` ties it to the heap, `Tidy` says that
    no map occurs twice, and `JsonOf` is the document as a value. */
module Objects {
  import opened Wrappers
  import opened JsonObjects
  import Text

  datatype Value = Leaf(a: Atom) | Array(elems: seq<Value>) | Ref(o: Object)

  /** A Go map[string]interface{}. The ghost arguments say what the maps involved hold. */
  class Object {
    var m: map<string, Value>

    constructor ()
      ensures m == map[]
    {
      m := map[];
    }

    /** m[k] = v on a map at place `p` of a document. */
    method Assign(k: string, v: Value, ghost t: Tree, ghost p: seq<Step>, ghost sub: Tree)
      requires Rep(t) && Tidy(t) && Has(t, p) && At(t, p).TObject? && At(t, p).o == this
      requires Rep(sub) && Tidy(sub) && Top(sub) == v && Objs(sub) !! Objs(t)
      modifies this
      ensures m == old(m)[k := v]
      ensures Rep(Put(t, p, k, sub)) && Tidy(Put(t, p, k, sub)) && Top(Put(t, p, k, sub)) == Top(t)
      ensures Objs(Put(t, p, k, sub)) <= Objs(t) + Objs(sub)
    {
      RepHas(t, p);
      ghost var before, sobjs := Snap(Objs(t)), Objs(sub);
      ghost var held := Snap(sobjs);
      m := m[k := v];
      SameSnap(sobjs, held);
      Assigned(t, p, k, sub, before);
    }

    /** m[k] = v on the outermost map of a document. */
    method AddKey(k: string, v: Value, ghost t: Tree, ghost sub: Tree) returns (ghost t': Tree)
      requires Document(t, this)
      requires Rep(sub) && Tidy(sub) && Top(sub) == v && Objs(sub) !! Objs(t)
      modifies this
      ensures Document(t', this) && Objs(t') <= Objs(t) + Objs(sub)
      ensures JsonOf(t') == JObject(JsonOf(t).members[k := JsonOf(sub)])
    {
      this.Assign(k, v, t, [], sub);
      t' := Put(t, [], k, sub);
      PutOutermost(t, k, sub);
    }

    /** object.Get: what the path leads to on the document, as the value that stands for it in its map. */
    method Get(path: string, ghost t: Tree) returns (r: Result<Value, GetError>)
      requires t.TObject? && t.o == this && Rep(t)
      ensures Got(t, Text.Split(path, '.'), r)
    {
      var parts := Text.Split(path, '.');
      var m: Object := this;
      ghost var node := t;
      for i := 0 to |parts|
        invariant node.TObject? && node.o == m && Rep(node)
        invariant i < |parts| ==> Has(t, KeySteps(parts[..i])) && At(t, KeySteps(parts[..i])) == node
        invariant i < |parts|
      {
        GetAlong(t, parts, i);
        var part := parts[i];
        if part !in m.m {
          return Err(KeyNotFound(i + 1));
        }
        var v := m.m[part];
        AtStep(t, parts, i);
        if i == |parts| - 1 {
          assert parts[..i + 1] == parts;
          return Ok(v);
        }
        if v.Ref? {
          RepKid(node, part);
          node := node.kids[part];
          m := v.o;
        } else {
          return Err(NotAMap(i + 1));
        }
      }
    }

    /** object.GetString. */
    method GetString(path: string, ghost t: Tree) returns (r: Option<string>)
      requires t.TObject? && t.o == this && Rep(t)
      ensures r == StringAt(JsonOf(t), Text.Split(path, '.'))
      ensures forall s :: r == Some(s) <==> JsonObjects.Get(JsonOf(t), Text.Split(path, '.')) == Ok(JLeaf(Str(s)))
    {
      var v := this.Get(path, t);
      if v.Ok? && v.value.Leaf? && v.value.a.Str? {
        r := Some(v.value.a.s);
      } else {
        r := None;
      }
    }

    /** object.GetObjectArray. */
    method GetObjectArray(path: string, ghost t: Tree) returns (r: ArrayResult<Object>)
      requires t.TObject? && t.o == this && Rep(t)
      ensures match ArrayAt(JsonOf(t), Text.Split(path, '.'))
              case Items(_) => r.Items? && HoldsObjects(t, KeySteps(Text.Split(path, '.')), r.items)
              case NoArray => r == NoArray
              case NullPanic => r == NullPanic
      ensures r.NullPanic? <==> JsonObjects.Get(JsonOf(t), Text.Split(path, '.')) == Ok(JLeaf(Null))
      ensures r.Items? <==>
                match JsonObjects.Get(JsonOf(t), Text.Split(path, '.'))
                case Ok(JArray(es)) => forall i :: 0 <= i < |es| ==> es[i].JObject?
                case _ => false
    {
      var v := this.Get(path, t);
      if v.Err? {
        return NoArray;
      }
      if v.value.Leaf? && v.value.a.Null? {
        return NullPanic;
      }
      if !v.value.Array? {
        return NoArray;
      }
      var slice := v.value.elems;
      ghost var found := At(t, KeySteps(Text.Split(path, '.')));
      ghost var elems := found.elems;
      ArrayOfTree(found);
      var objects: seq<Object> := [];
      for i := 0 to |slice|
        invariant |objects| == i
        invariant forall j :: 0 <= j < i ==> elems[j].TObject? && elems[j].o == objects[j]
      {
        assert slice[i] == Top(elems[i]) && JsonOf(found).elems[i] == JsonOf(elems[i]);
        if slice[i].Ref? {
          objects := objects + [slice[i].o];
        } else {
          assert !JsonOf(found).elems[i].JObject?;
          return NoArray;
        }
      }
      return Items(objects);
    }

    /** object.SetString. */
    method SetString(path: string, s: string, ghost t: Tree) returns (ghost t': Tree)
      requires Document(t, this)
      modifies Objs(t)
      ensures Document(t', this)
      ensures JsonOf(t') == JsonObjects.Set(JsonOf(t), Text.Split(path, '.'), JLeaf(Str(s)))
      ensures fresh(Objs(t') - Objs(t))
      ensures |Text.Split(path, '.')| == 1 ==> Objs(t') <= Objs(t)
    {
      t' := this.Set(path, Leaf(Str(s)), t, TLeaf(Str(s)));
    }

    /** object.Set: maps are made on the way where there are none. The value must not hold maps of this document. */
    method Set(path: string, v: Value, ghost t: Tree, ghost tv: Tree) returns (ghost t': Tree)
      requires Document(t, this)
      requires Rep(tv) && Tidy(tv) && Top(tv) == v && Objs(tv) !! Objs(t)
      modifies Objs(t)
      ensures Document(t', this)
      ensures JsonOf(t') == JsonObjects.Set(JsonOf(t), Text.Split(path, '.'), JsonOf(tv))
      ensures fresh(Objs(t') - Objs(t) - Objs(tv))
      ensures |Text.Split(path, '.')| == 1 ==> Objs(t') <= Objs(t) + Objs(tv)
    {
      var parts := Text.Split(path, '.');
      ghost var vobjs := Objs(tv);
      ghost var held := Snap(vobjs);
      var m;
      ghost var objs;
      m, t', objs := this.MakeMaps(parts, t, JsonOf(tv), Objs(t));
      SameSnap(vobjs, held);
      assert vobjs !! objs;
      t' := m.SetLast(this, parts, v, t', tv);
    }

    /** The loop of Set: down to the map that holds the last key. */
    method MakeMaps(parts: seq<string>, ghost t: Tree, ghost v: Json, ghost own: set<Object>)
      returns (m: Object, ghost t': Tree, ghost objs: set<Object>)
      requires parts != [] && Document(t, this) && own == Objs(t)
      modifies own
      ensures fresh(objs - own) && (|parts| == 1 ==> objs == own)
      ensures OnTheWay(t', this, parts, |parts| - 1, m, objs)
      ensures JsonObjects.Set(JsonOf(t'), parts, v) == JsonObjects.Set(JsonOf(t), parts, v)
    {
      m, t', objs := this, t, own;
      ReachedRoot(t, parts, this);
      ghost var goal := JsonObjects.Set(JsonOf(t), parts, v);
      for i := 0 to |parts| - 1
        invariant fresh(objs - own) && (objs == own || i > 0)
        invariant OnTheWay(t', this, parts, i, m, objs)
        invariant JsonObjects.Set(JsonOf(t'), parts, v) == goal
      {
        ghost var prev := objs;
        m, t', objs := m.MapAtKey(this, parts, i, t', v, objs);
        FreshStep(objs, prev, own);
      }
    }

    /** One step of that loop: the map at the key, made if there is none. */
    method MapAtKey(ghost root: Object, parts: seq<string>, i: nat, ghost t: Tree, ghost v: Json,
        ghost objs: set<Object>)
      returns (next: Object, ghost t': Tree, ghost objs': set<Object>)
      requires i < |parts| - 1 && OnTheWay(t, root, parts, i, this, objs)
      modifies this
      ensures fresh(objs' - objs) && OnTheWay(t', root, parts, i + 1, next, objs')
      ensures JsonObjects.Set(JsonOf(t'), parts, v) == JsonObjects.Set(JsonOf(t), parts, v)
    {
      var part := parts[i];
      ghost var steps := KeySteps(parts[..i]);
      RepHas(t, steps);
      if part !in m || !m[part].Ref? {
        next := new Object();
        ghost var sub := TObject(next, map[]);
        EmptyRep(next);
        assert next !in objs;
        CreateOnTheWay(t, parts, i, next, v);
        this.Assign(part, Ref(next), t, steps, sub);
        t' := Put(t, steps, part, sub);
      } else {
        AtStep(t, parts, i);
        t' := t;
        next := m[part].o;
      }
      RepHas(t', KeySteps(parts[..i + 1]));
      objs' := Objs(t');
    }

    /** The assignment behind Set's loop. */
    method SetLast(ghost root: Object, parts: seq<string>, v: Value, ghost t: Tree, ghost tv: Tree)
      returns (ghost t': Tree)
      requires parts != [] && Document(t, root) && Reached(t, parts, |parts| - 1, this)
      requires Rep(tv) && Tidy(tv) && Top(tv) == v && Objs(tv) !! Objs(t)
      modifies this
      ensures Document(t', root) && Objs(t') <= Objs(t) + Objs(tv)
      ensures JsonOf(t') == JsonObjects.Set(JsonOf(t), parts, JsonOf(tv))
    {
      var key := parts[|parts| - 1];
      ghost var steps := KeySteps(parts[..|parts| - 1]);
      PutIsSet(t, parts, |parts| - 1, tv);
      assert parts[..|parts| - 1 + 1] == parts;
      this.Assign(key, v, t, steps, tv);
      t' := Put(t, steps, key, tv);
    }

    /** object.Merge. It writes only to maps of the receiver; the argument's document stays as it is, and afterwards the
        receiver shares with it the maps it has taken over. So the two may share maps already, at the same places. */
    method Merge(a: Object, ghost t: Tree, ghost ta: Tree)
      requires Document(t, this)
      requires Document(ta, a)
      requires Aligned(t, ta)
      modifies Objs(t)
      ensures Document(MergeT(t, ta), this) && Document(ta, a)
      ensures JsonOf(MergeT(t, ta)) == JsonObjects.Merge(JsonOf(t), JsonOf(ta))
      decreases ta
    {
      var todo := a.m.Keys;
      ghost var done: set<string> := {};
      NothingMerged(t, ta);
      while todo != {}
        invariant todo !! done && todo + done == ta.kids.Keys
        invariant Rep(MergedSoFar(t, ta, done)) && Rep(ta)
      {
        var k :| k in todo;
        todo := todo - {k};
        MergeKey(a, k, t, ta, done);
        done := done + {k};
      }
      AllMerged(t, ta, done);
    }

    /** The body of Merge's loop. */
    method MergeKey(a: Object, k: string, ghost t: Tree, ghost ta: Tree, ghost done: set<string>)
      requires t.TObject? && t.o == this && Tidy(t)
      requires Document(ta, a)
      requires Aligned(t, ta)
      requires done <= ta.kids.Keys && k in ta.kids && k !in done && Rep(MergedSoFar(t, ta, done))
      modifies Objs(t)
      ensures Rep(MergedSoFar(t, ta, done + {k})) && Rep(ta)
      decreases ta, 0, 1
    {
      MergedStep(t, ta, done, k);
      RepKid(ta, k);
      var v := a.m[k];
      if k in m && m[k].Ref? && v.Ref? {
        m[k].o.MergeKid(v.o, k, t, ta, done);
      } else {
        TakeOver(k, v, t, ta, done);
      }
    }

    /** One of them has no map at the key: the argument's value is taken over. */
    method TakeOver(k: string, v: Value, ghost t: Tree, ghost ta: Tree, ghost done: set<string>)
      requires t.TObject? && ta.TObject? && t.o == this && Tidy(t) && Tidy(ta) && Rep(ta) && Aligned(t, ta)
      requires done <= ta.kids.Keys && k in ta.kids && k !in done && Rep(MergedSoFar(t, ta, done))
      requires v == Top(ta.kids[k]) && !(k in t.kids && t.kids[k].TObject? && ta.kids[k].TObject?)
      modifies this
      ensures Rep(MergedSoFar(t, ta, done + {k})) && Rep(ta)
    {
      ghost var cur := MergedSoFar(t, ta, done);
      ghost var before, beforeA := Snap(Objs(cur)), Snap(Objs(ta));
      m := m[k := v];
      TakenOver(t, ta, done, k, before, beforeA);
    }

    /** Both have a map at the key: the call that merges them. */
    method MergeKid(a: Object, k: string, ghost t: Tree, ghost ta: Tree, ghost done: set<string>)
      requires t.TObject? && ta.TObject? && Tidy(t) && Tidy(ta) && Rep(ta) && Aligned(t, ta)
      requires done <= ta.kids.Keys && k in ta.kids && k !in done && k in t.kids && Rep(MergedSoFar(t, ta, done))
      requires Top(t.kids[k]) == Ref(this) && Document(ta.kids[k], a)
      modifies Objs(t)
      ensures Rep(MergedSoFar(t, ta, done + {k})) && Rep(ta)
      decreases ta, 0, 0
    {
      ghost var cur := MergedSoFar(t, ta, done);
      MergedStep(t, ta, done, k);
      AlignedKids(t, ta, k);
      RepKid(cur, k);
      ghost var before, others := Snap(Objs(cur)), Objs(cur) - Objs(t.kids[k]);
      ghost var beforeA, othersA := Snap(Objs(ta)), Objs(ta) - Objs(ta.kids[k]);
      SnapIsSame(Objs(cur), others);
      SnapIsSame(Objs(ta), othersA);
      OthersApart(t, ta, k);
      this.Merge(a, t.kids[k], ta.kids[k]);
      KidMerged(t, ta, done, k, before);
      KidRestored(ta, k, beforeA);
    }
  }

  datatype Tree = TLeaf(a: Atom) | TArray(elems: seq<Tree>) | TObject(o: Object, kids: map<string, Tree>)

  /** The value that stands for a tree inside its parent. */
  ghost function Top(t: Tree): Value {
    match t
    case TLeaf(a) => Leaf(a)
    case TArray(ts) => Array(seq(|ts|, i requires 0 <= i < |ts| => Top(ts[i])))
    case TObject(o, _) => Ref(o)
  }

  ghost function Tops(kids: map<string, Tree>): map<string, Value> {
    map k | k in kids :: Top(kids[k])
  }

  ghost function Objs(t: Tree): set<Object> {
    match t
    case TLeaf(_) => {}
    case TArray(ts) => set i, x | 0 <= i < |ts| && x in Objs(ts[i]) :: x
    case TObject(o, kids) => {o} + set k, x | k in kids && x in Objs(kids[k]) :: x
  }

  ghost function JsonOf(t: Tree): Json {
    match t
    case TLeaf(a) => JLeaf(a)
    case TArray(ts) => JArray(seq(|ts|, i requires 0 <= i < |ts| => JsonOf(ts[i])))
    case TObject(_, kids) => JObject(map k | k in kids :: JsonOf(kids[k]))
  }

  /** The contents of some maps at one moment. */
  type Store = map<Object, map<string, Value>>

  ghost function Snap(objs: set<Object>): Store
    reads objs
  {
    map x | x in objs :: x.m
  }

  /** The store holds the tree. */
  ghost predicate Holds(t: Tree, h: Store) {
    match t
    case TLeaf(_) => true
    case TArray(ts) => forall i :: 0 <= i < |ts| ==> Holds(ts[i], h)
    case TObject(o, kids) => o in h && h[o] == Tops(kids) && forall k :: k in kids ==> Holds(kids[k], h)
  }

  /** The heap holds the tree. */
  ghost predicate Rep(t: Tree)
    reads Objs(t)
  {
    Holds(t, Snap(Objs(t)))
  }

  /** No map occurs twice. */
  ghost predicate Tidy(t: Tree) {
    match t
    case TLeaf(_) => true
    case TArray(ts) =>
      && (forall i :: 0 <= i < |ts| ==> Tidy(ts[i]))
      && (forall i, j :: 0 <= i < j < |ts| ==> Objs(ts[i]) !! Objs(ts[j]))
    case TObject(o, kids) =>
      && (forall k :: k in kids ==> Tidy(kids[k]) && o !in Objs(kids[k]))
      && (forall k, l :: k in kids && l in kids && k != l ==> Objs(kids[k]) !! Objs(kids[l]))
  }

  // ---- Places in a tree ----

  datatype Step = Key(k: string) | Index(i: nat)

  ghost predicate Has(t: Tree, p: seq<Step>)
    decreases |p|
  {
    p == [] ||
    match p[0]
    case Key(k) => t.TObject? && k in t.kids && Has(t.kids[k], p[1..])
    case Index(i) => t.TArray? && i < |t.elems| && Has(t.elems[i], p[1..])
  }

  ghost function At(t: Tree, p: seq<Step>): Tree
    requires Has(t, p)
    decreases |p|
  {
    if p == [] then t
    else
      match p[0]
      case Key(k) => At(t.kids[k], p[1..])
      case Index(i) => At(t.elems[i], p[1..])
  }

  ghost function Replace(t: Tree, p: seq<Step>, sub: Tree): Tree
    requires Has(t, p)
    decreases |p|
  {
    if p == [] then sub
    else
      match p[0]
      case Key(k) => t.(kids := t.kids[k := Replace(t.kids[k], p[1..], sub)])
      case Index(i) => t.(elems := t.elems[i := Replace(t.elems[i], p[1..], sub)])
  }

  lemma {:induction false} AtWithin(t: Tree, p: seq<Step>)
    requires Has(t, p)
    ensures Objs(At(t, p)) <= Objs(t)
    ensures Tidy(t) ==> Tidy(At(t, p))
    decreases |p|
  {
    if p != [] {
      match p[0]
      case Key(k) => AtWithin(t.kids[k], p[1..]);
      case Index(i) => AtWithin(t.elems[i], p[1..]);
    }
  }

  lemma {:induction false} HoldsAt(t: Tree, p: seq<Step>, h: Store)
    requires Has(t, p) && Holds(t, h)
    ensures Holds(At(t, p), h)
    decreases |p|
  {
    if p != [] {
      match p[0]
      case Key(k) => HoldsAt(t.kids[k], p[1..], h);
      case Index(i) => HoldsAt(t.elems[i], p[1..], h);
    }
  }

  /** Two stores agree on some maps. */
  ghost predicate Agree(h: Store, h': Store, objs: set<Object>) {
    forall x :: x in objs ==> x in h && x in h' && h[x] == h'[x]
  }

  lemma {:induction false} HoldsFrame(t: Tree, h: Store, h': Store)
    requires Holds(t, h) && forall x :: x in Objs(t) && x in h ==> x in h' && h'[x] == h[x]
    ensures Holds(t, h')
  {
    match t
    case TLeaf(_) =>
    case TArray(ts) =>
      forall i | 0 <= i < |ts| ensures Holds(ts[i], h') {
        assert forall x :: x in Objs(ts[i]) ==> x in Objs(t);
        HoldsFrame(ts[i], h, h');
      }
    case TObject(o, kids) =>
      forall k | k in kids ensures Holds(kids[k], h') {
        assert forall x :: x in Objs(kids[k]) ==> x in Objs(t);
        HoldsFrame(kids[k], h, h');
      }
  }

  /** A store that has changed only below `p` holds the tree with the new part there. */
  lemma {:induction false} HoldsReplace(t: Tree, p: seq<Step>, sub: Tree, h: Store, h': Store)
    requires Has(t, p) && Tidy(t) && Holds(t, h)
    requires Agree(h, h', Objs(t) - Objs(At(t, p)))
    requires Holds(sub, h') && Top(sub) == Top(At(t, p))
    ensures Holds(Replace(t, p, sub), h') && Top(Replace(t, p, sub)) == Top(t)
    decreases |p|, 1
  {
    if p != [] {
      match p[0]
      case Key(k) => HoldsReplaceKid(t, k, p, sub, h, h');
      case Index(i) => HoldsReplaceElem(t, i, p, sub, h, h');
    }
  }

  lemma {:induction false} HoldsReplaceKid(t: Tree, k: string, p: seq<Step>, sub: Tree, h: Store, h': Store)
    requires Has(t, p) && Tidy(t) && Holds(t, h)
    requires Agree(h, h', Objs(t) - Objs(At(t, p)))
    requires Holds(sub, h') && Top(sub) == Top(At(t, p))
    requires p != [] && p[0] == Key(k)
    ensures Holds(Replace(t, p, sub), h') && Top(Replace(t, p, sub)) == Top(t)
    decreases |p|, 0
  {
    var kid := t.kids[k];
    AtWithin(kid, p[1..]);
    HoldsReplace(kid, p[1..], sub, h, h');
    assert t.o in Objs(t) - Objs(At(t, p));
    assert Tops(t.kids[k := Replace(kid, p[1..], sub)]) == Tops(t.kids);
    forall l | l in t.kids && l != k ensures Holds(t.kids[l], h') {
      assert forall x :: x in Objs(t.kids[l]) ==> x in Objs(t) - Objs(At(t, p));
      HoldsFrame(t.kids[l], h, h');
    }
  }

  lemma {:induction false} HoldsReplaceElem(t: Tree, i: nat, p: seq<Step>, sub: Tree, h: Store, h': Store)
    requires Has(t, p) && Tidy(t) && Holds(t, h)
    requires Agree(h, h', Objs(t) - Objs(At(t, p)))
    requires Holds(sub, h') && Top(sub) == Top(At(t, p))
    requires p != [] && p[0] == Index(i)
    ensures Holds(Replace(t, p, sub), h') && Top(Replace(t, p, sub)) == Top(t)
    decreases |p|, 0
  {
    var elem := t.elems[i];
    AtWithin(elem, p[1..]);
    HoldsReplace(elem, p[1..], sub, h, h');
    forall j | 0 <= j < |t.elems| && j != i ensures Holds(t.elems[j], h') {
      assert forall x :: x in Objs(t.elems[j]) ==> x in Objs(t) - Objs(At(t, p));
      HoldsFrame(t.elems[j], h, h');
    }
  }

  lemma {:induction false} TidyReplace(t: Tree, p: seq<Step>, sub: Tree)
    requires Has(t, p) && Tidy(t) && Tidy(sub)
    requires Objs(sub) !! (Objs(t) - Objs(At(t, p)))
    ensures Tidy(Replace(t, p, sub))
    ensures Objs(Replace(t, p, sub)) <= Objs(t) + Objs(sub)
    decreases |p|, 1
  {
    if p != [] {
      match p[0]
      case Key(k) => TidyReplaceKid(t, k, p, sub);
      case Index(i) => TidyReplaceElem(t, i, p, sub);
    }
  }

  lemma {:induction false} TidyReplaceKid(t: Tree, k: string, p: seq<Step>, sub: Tree)
    requires Has(t, p) && Tidy(t) && Tidy(sub)
    requires Objs(sub) !! (Objs(t) - Objs(At(t, p)))
    requires p != [] && p[0] == Key(k)
    ensures Tidy(Replace(t, p, sub))
    ensures Objs(Replace(t, p, sub)) <= Objs(t) + Objs(sub)
    decreases |p|, 0
  {
    var kid := t.kids[k];
    AtWithin(kid, p[1..]);
    TidyReplace(kid, p[1..], sub);
    var kid' := Replace(kid, p[1..], sub);
    forall l | l in t.kids && l != k ensures Objs(t.kids[l]) !! Objs(kid') {
      assert Objs(t.kids[l]) <= Objs(t) && Objs(t.kids[l]) !! Objs(kid);
    }
  }

  lemma {:induction false} TidyReplaceElem(t: Tree, i: nat, p: seq<Step>, sub: Tree)
    requires Has(t, p) && Tidy(t) && Tidy(sub)
    requires Objs(sub) !! (Objs(t) - Objs(At(t, p)))
    requires p != [] && p[0] == Index(i)
    ensures Tidy(Replace(t, p, sub))
    ensures Objs(Replace(t, p, sub)) <= Objs(t) + Objs(sub)
    decreases |p|, 0
  {
    var elem := t.elems[i];
    AtWithin(elem, p[1..]);
    TidyReplace(elem, p[1..], sub);
    var elem' := Replace(elem, p[1..], sub);
    forall j | 0 <= j < |t.elems| && j != i ensures Objs(t.elems[j]) !! Objs(elem') {
      assert Objs(t.elems[j]) <= Objs(t) && Objs(t.elems[j]) !! Objs(elem);
    }
  }

  // ---- Writing one key of one map ----

  ghost function KeySteps(path: seq<string>): seq<Step> {
    seq(|path|, i requires 0 <= i < |path| => Key(path[i]))
  }

  /** The tree once key `k` of the map at `p` holds `sub`. */
  ghost function Put(t: Tree, p: seq<Step>, k: string, sub: Tree): Tree
    requires Has(t, p) && At(t, p).TObject?
  {
    Replace(t, p, At(t, p).(kids := At(t, p).kids[k := sub]))
  }

  lemma PutOutermost(t: Tree, k: string, sub: Tree)
    requires t.TObject?
    ensures Put(t, [], k, sub) == t.(kids := t.kids[k := sub])
    ensures JsonOf(Put(t, [], k, sub)) == JObject(JsonOf(t).members[k := JsonOf(sub)])
  {
    assert JsonOf(t.(kids := t.kids[k := sub])).members == JsonOf(t).members[k := JsonOf(sub)];
  }

  lemma PutHolds(t: Tree, p: seq<Step>, k: string, sub: Tree, h: Store, h': Store)
    requires Has(t, p) && At(t, p).TObject? && Tidy(t) && Holds(t, h)
    requires Agree(h, h', Objs(t) - {At(t, p).o})
    requires At(t, p).o in h && At(t, p).o in h' && h'[At(t, p).o] == h[At(t, p).o][k := Top(sub)]
    requires Holds(sub, h') && Tidy(sub) && Objs(sub) !! Objs(t)
    ensures Holds(Put(t, p, k, sub), h') && Tidy(Put(t, p, k, sub)) && Top(Put(t, p, k, sub)) == Top(t)
    ensures Objs(Put(t, p, k, sub)) <= Objs(t) + Objs(sub)
  {
    var node := At(t, p);
    var node' := node.(kids := node.kids[k := sub]);
    AtWithin(t, p);
    HoldsAt(t, p, h);
    PutNodeHolds(node, k, sub, h, h');
    HoldsReplace(t, p, node', h, h');
    TidyReplace(t, p, node');
  }

  lemma PutNodeHolds(node: Tree, k: string, sub: Tree, h: Store, h': Store)
    requires node.TObject? && Tidy(node) && Holds(node, h)
    requires Agree(h, h', Objs(node) - {node.o})
    requires node.o in h' && h'[node.o] == h[node.o][k := Top(sub)]
    requires Holds(sub, h') && Tidy(sub) && Objs(sub) !! Objs(node)
    ensures var node' := node.(kids := node.kids[k := sub]);
      Holds(node', h') && Tidy(node') && Objs(node') <= Objs(node) + Objs(sub)
  {
    var kids' := node.kids[k := sub];
    assert Tops(kids') == Tops(node.kids)[k := Top(sub)];
    forall l | l in kids' && l != k ensures Holds(kids'[l], h') && Objs(kids'[l]) <= Objs(node) - {node.o} {
      assert forall x :: x in Objs(node.kids[l]) ==> x in Objs(node) - {node.o};
      HoldsFrame(node.kids[l], h, h');
    }
  }

  /** Putting `sub` behind existing maps is Set on the document. */
  lemma {:induction false} PutIsSet(t: Tree, path: seq<string>, n: nat, sub: Tree)
    requires n < |path| && t.TObject?
    requires Has(t, KeySteps(path[..n])) && At(t, KeySteps(path[..n])).TObject?
    ensures Put(t, KeySteps(path[..n]), path[n], sub).TObject?
    ensures JsonOf(Put(t, KeySteps(path[..n]), path[n], sub)) == Set(JsonOf(t), path[..n + 1], JsonOf(sub))
    decreases n
  {
    var p := KeySteps(path[..n]);
    var k := path[0];
    assert path[..n + 1][0] == k;
    if n == 0 {
      assert JsonOf(Put(t, p, k, sub)).members == JsonOf(t).members[k := JsonOf(sub)];
    } else {
      KeyStepsTail(path, n);
      var kid := t.kids[k];
      PutIsSet(kid, path[1..], n - 1, sub);
      assert path[..n + 1][1..] == path[1..][..n];
      assert Put(t, p, path[n], sub) == t.(kids := t.kids[k := Put(kid, p[1..], path[n], sub)]);
      assert JsonOf(Put(t, p, path[n], sub)).members
          == JsonOf(t).members[k := JsonOf(Put(kid, p[1..], path[n], sub))];
    }
  }

  lemma KeyStepsTail(path: seq<string>, n: nat)
    requires 0 < n <= |path|
    ensures KeySteps(path[..n]) != [] && KeySteps(path[..n])[0] == Key(path[0])
    ensures KeySteps(path[..n])[1..] == KeySteps(path[1..][..n - 1])
  {
    assert path[..n][1..] == path[1..][..n - 1];
  }

  lemma {:induction false} AtStep(t: Tree, path: seq<string>, n: nat)
    requires n < |path| && Has(t, KeySteps(path[..n])) && At(t, KeySteps(path[..n])).TObject?
    requires path[n] in At(t, KeySteps(path[..n])).kids
    ensures Has(t, KeySteps(path[..n + 1]))
    ensures At(t, KeySteps(path[..n + 1])) == At(t, KeySteps(path[..n])).kids[path[n]]
    decreases n
  {
    KeyStepsTail(path, n + 1);
    if n == 0 {
      assert KeySteps(path[..1])[1..] == [] && KeySteps(path[..0]) == [];
    } else {
      KeyStepsTail(path, n);
      AtStep(t.kids[path[0]], path[1..], n - 1);
    }
  }

  /** Getting along a path on the tree and on the document. */
  lemma {:induction false} GetAlong(t: Tree, path: seq<string>, n: nat)
    requires n < |path| && t.TObject?
    requires Has(t, KeySteps(path[..n])) && At(t, KeySteps(path[..n])).TObject?
    ensures Get(JsonOf(t), path) == Deeper(Get(JsonOf(At(t, KeySteps(path[..n]))), path[n..]), n)
    ensures MapsAlong(JsonOf(t), path, n)
    decreases n
  {
    if n == 0 {
      assert path[0..] == path && KeySteps(path[..0]) == [];
    } else {
      KeyStepsTail(path, n);
      GetAlong(t.kids[path[0]], path[1..], n - 1);
      assert path[1..][n - 1..] == path[n..];
      DeeperTwice(Get(JsonOf(At(t, KeySteps(path[..n]))), path[n..]), n - 1, 1);
    }
  }

  lemma DeeperTwice(r: Result<Json, GetError>, a: nat, b: nat)
    ensures Deeper(Deeper(r, a), b) == Deeper(r, a + b)
  {
  }

  // ---- What the operations need ----

  /** The heap holds the document with this outermost map, and no map occurs twice in it. */
  ghost predicate Document(t: Tree, root: Object)
    reads Objs(t)
  {
    t.TObject? && t.o == root && Rep(t) && Tidy(t)
  }

  /** The first `n` keys of the path lead to the map `m`. */
  ghost predicate Reached(t: Tree, path: seq<string>, n: nat, m: Object)
    requires n <= |path|
  {
    var p := KeySteps(path[..n]);
    Has(t, p) && At(t, p).TObject? && At(t, p).o == m
  }

  /** The same within a document that consists of these maps. */
  ghost predicate OnTheWay(t: Tree, root: Object, path: seq<string>, n: nat, m: Object, objs: set<Object>)
    requires n <= |path|
    reads Objs(t)
  {
    objs == Objs(t) && m in objs && Document(t, root) && Reached(t, path, n, m)
  }

  lemma ReachedRoot(t: Tree, path: seq<string>, root: Object)
    requires Document(t, root)
    ensures OnTheWay(t, root, path, 0, root, Objs(t))
  {
    assert KeySteps(path[..0]) == [];
  }

  /** The outcome of Get on the tree is that of Get on the document. */
  ghost predicate Got(t: Tree, path: seq<string>, r: Result<Value, GetError>)
    requires t.TObject? && path != []
  {
    match Get(JsonOf(t), path)
    case Ok(j) => Has(t, KeySteps(path)) && JsonOf(At(t, KeySteps(path))) == j && r == Ok(Top(At(t, KeySteps(path))))
    case Err(e) => r == Err(e)
  }

  lemma ArrayOfTree(t: Tree)
    requires t.TArray?
    ensures Top(t).Array? && |Top(t).elems| == |t.elems| && JsonOf(t).JArray? && |JsonOf(t).elems| == |t.elems|
    ensures forall i :: 0 <= i < |t.elems| ==>
              Top(t).elems[i] == Top(t.elems[i]) && JsonOf(t).elems[i] == JsonOf(t.elems[i])
    ensures forall i :: 0 <= i < |t.elems| ==> (JsonOf(t).elems[i].JObject? <==> t.elems[i].TObject?)
  {
  }

  /** The array at `p` consists of these maps. */
  ghost predicate HoldsObjects(t: Tree, p: seq<Step>, objects: seq<Object>) {
    && Has(t, p) && At(t, p).TArray? && |objects| == |At(t, p).elems|
    && forall i :: 0 <= i < |objects| ==> At(t, p).elems[i].TObject? && At(t, p).elems[i].o == objects[i]
  }

  lemma RepKid(t: Tree, k: string)
    requires t.TObject? && Rep(t) && k in t.kids
    ensures Rep(t.kids[k]) && t.o.m[k] == Top(t.kids[k])
  {
    HoldsFrame(t.kids[k], Snap(Objs(t)), Snap(Objs(t.kids[k])));
  }

  lemma FreshStep(objs: set<Object>, prev: set<Object>, own: set<Object>)
    ensures objs - own <= (objs - prev) + (prev - own)
  {
  }

  lemma SameSnap(objs: set<Object>, h: Store)
    requires h.Keys == objs && forall x :: x in objs ==> h[x] == x.m
    ensures Snap(objs) == h
  {
  }

  /** These maps have the contents of the store. */
  ghost predicate Same(h: Store, objs: set<Object>)
    reads objs
  {
    forall x :: x in objs ==> x in h && h[x] == x.m
  }

  lemma SnapIsSame(objs: set<Object>, some: set<Object>)
    requires some <= objs
    ensures Same(Snap(objs), some) && Snap(objs).Keys == objs
  {
  }

  lemma RepInSnap(t: Tree, objs: set<Object>)
    requires Rep(t) && Objs(t) <= objs
    ensures Holds(t, Snap(objs))
  {
    HoldsFrame(t, Snap(Objs(t)), Snap(objs));
  }

  lemma SnapGivesRep(t: Tree, objs: set<Object>)
    requires Holds(t, Snap(objs)) && Objs(t) <= objs
    ensures Rep(t)
  {
    HoldsFrame(t, Snap(objs), Snap(Objs(t)));
  }

  /** The heap behind an assignment to the map at `p`. */
  lemma Assigned(t: Tree, p: seq<Step>, k: string, sub: Tree, before: Store)
    requires Tidy(t) && Has(t, p) && At(t, p).TObject? && Holds(t, before) && before.Keys == Objs(t)
    requires forall x :: x in Objs(t) && x != At(t, p).o ==> before[x] == x.m
    requires At(t, p).o in Objs(t) && At(t, p).o.m == before[At(t, p).o][k := Top(sub)]
    requires Rep(sub) && Tidy(sub) && Objs(sub) !! Objs(t)
    ensures Rep(Put(t, p, k, sub)) && Tidy(Put(t, p, k, sub)) && Top(Put(t, p, k, sub)) == Top(t)
    ensures Objs(Put(t, p, k, sub)) <= Objs(t) + Objs(sub)
  {
    var objs := Objs(t) + Objs(sub);
    RepInSnap(sub, objs);
    PutHolds(t, p, k, sub, before, Snap(objs));
    SnapGivesRep(Put(t, p, k, sub), objs);
  }

  /** The heap when only maps of the part at `p` have changed, and it holds another part there now. */
  lemma PartChanged(t: Tree, p: seq<Step>, sub: Tree, before: Store)
    requires Has(t, p) && Tidy(t) && Holds(t, before) && before.Keys == Objs(t)
    requires forall x :: x in Objs(t) - Objs(At(t, p)) ==> before[x] == x.m
    requires Rep(sub) && Tidy(sub) && Top(sub) == Top(At(t, p)) && Objs(sub) !! (Objs(t) - Objs(At(t, p)))
    ensures Rep(Replace(t, p, sub)) && Tidy(Replace(t, p, sub)) && Top(Replace(t, p, sub)) == Top(t)
    ensures Objs(Replace(t, p, sub)) <= Objs(t) + Objs(sub)
  {
    TidyReplace(t, p, sub);
    var objs := Objs(t) + Objs(sub);
    RepInSnap(sub, objs);
    HoldsReplace(t, p, sub, before, Snap(objs));
    SnapGivesRep(Replace(t, p, sub), objs);
  }

  lemma EmptyRep(p: Object)
    requires p.m == map[]
    ensures Rep(TObject(p, map[])) && Tidy(TObject(p, map[])) && Objs(TObject(p, map[])) == {p}
  {
    assert Tops(map[]) == map[];
  }

  lemma RepHas(t: Tree, p: seq<Step>)
    requires Rep(t) && Has(t, p) && At(t, p).TObject?
    ensures At(t, p).o in Objs(t) && At(t, p).o.m == Tops(At(t, p).kids)
  {
    HoldsAt(t, p, Snap(Objs(t)));
    AtWithin(t, p);
  }

  /** Making an empty map on the way keeps what Set arrives at. */
  lemma CreateOnTheWay(t: Tree, path: seq<string>, n: nat, p: Object, v: Json)
    requires n < |path| - 1 && t.TObject?
    requires Has(t, KeySteps(path[..n])) && At(t, KeySteps(path[..n])).TObject?
    requires var kids := At(t, KeySteps(path[..n])).kids; path[n] in kids ==> !kids[path[n]].TObject?
    ensures var t' := Put(t, KeySteps(path[..n]), path[n], TObject(p, map[]));
      && Has(t', KeySteps(path[..n + 1])) && At(t', KeySteps(path[..n + 1])) == TObject(p, map[])
      && t'.TObject? && Set(JsonOf(t'), path, v) == Set(JsonOf(t), path, v)
  {
    var sub := TObject(p, map[]);
    assert JsonOf(sub) == EMPTY;
    PutIsSet(t, path, n, sub);
    GetAlong(t, path, n);
    NoMapThere(t, path, n);
    SetThroughEmpty(JsonOf(t), path, n + 1, v);
    PutThenAt(t, path, n, sub);
  }

  lemma {:induction false} NoMapThere(t: Tree, path: seq<string>, n: nat)
    requires n < |path| && t.TObject?
    requires Has(t, KeySteps(path[..n])) && At(t, KeySteps(path[..n])).TObject?
    requires var kids := At(t, KeySteps(path[..n])).kids; path[n] in kids ==> !kids[path[n]].TObject?
    ensures !MapsAlong(JsonOf(t), path, n + 1)
    decreases n
  {
    if n == 0 {
      assert KeySteps(path[..0]) == [];
    } else {
      KeyStepsTail(path, n);
      NoMapThere(t.kids[path[0]], path[1..], n - 1);
    }
  }

  lemma {:induction false} PutThenAt(t: Tree, path: seq<string>, n: nat, sub: Tree)
    requires n < |path|
    requires Has(t, KeySteps(path[..n])) && At(t, KeySteps(path[..n])).TObject?
    ensures var t' := Put(t, KeySteps(path[..n]), path[n], sub);
      Has(t', KeySteps(path[..n + 1])) && At(t', KeySteps(path[..n + 1])) == sub
    decreases n
  {
    KeyStepsTail(path, n + 1);
    if n == 0 {
      assert KeySteps(path[..0]) == [] && KeySteps(path[..1])[1..] == [];
    } else {
      KeyStepsTail(path, n);
      PutThenAt(t.kids[path[0]], path[1..], n - 1, sub);
    }
  }

  // ---- Merging trees ----

  /** The merged document with the identities of its maps: the receiver's, and below them the argument's. */
  ghost function MergeT(a: Tree, b: Tree): Tree
    decreases b, 2
  {
    if a.TObject? && b.TObject? then MergedSoFar(a, b, b.kids.Keys) else b
  }

  ghost function MergedSoFar(a: Tree, b: Tree, done: set<string>): Tree
    requires a.TObject? && b.TObject? && done <= b.kids.Keys
    decreases b, 1
  {
    a.(kids := map k | k in a.kids.Keys + done :: if k in done then MergedKid(a, b, k) else a.kids[k])
  }

  ghost function MergedKid(a: Tree, b: Tree, k: string): Tree
    requires a.TObject? && b.TObject? && k in b.kids
    decreases b, 0
  {
    if k in a.kids then MergeT(a.kids[k], b.kids[k]) else b.kids[k]
  }

  lemma {:induction false} MergeTJson(a: Tree, b: Tree)
    ensures JsonOf(MergeT(a, b)) == Merge(JsonOf(a), JsonOf(b))
    decreases b
  {
    if a.TObject? && b.TObject? {
      var merged := MergedSoFar(a, b, b.kids.Keys);
      var x, y := JsonOf(merged).members, Merge(JsonOf(a), JsonOf(b)).members;
      assert x.Keys == y.Keys;
      forall k | k in x ensures x[k] == y[k] {
        assert merged.kids[k] == if k in b.kids then MergedKid(a, b, k) else a.kids[k];
        if k in a.kids && k in b.kids {
          MergeTJson(a.kids[k], b.kids[k]);
        }
      }
      assert x == y;
    }
  }

  /** Two documents may share maps, and arrays that hold maps, but only at the same keys. */
  ghost predicate Aligned(a: Tree, b: Tree)
    decreases a, 1
  {
    || Objs(a) !! Objs(b)
    || a == b
    || (a.TObject? && b.TObject? && a.o !in Objs(b) && b.o !in Objs(a) && KidsAligned(a, b))
  }

  ghost predicate KidsAligned(a: Tree, b: Tree)
    requires a.TObject? && b.TObject?
    decreases a, 0
  {
    && (forall k :: k in a.kids && k in b.kids ==> Aligned(a.kids[k], b.kids[k]))
    && (forall k, l :: k in a.kids && l in b.kids && k != l ==> Objs(a.kids[k]) !! Objs(b.kids[l]))
  }

  lemma AlignedKids(a: Tree, b: Tree, k: string)
    requires a.TObject? && b.TObject? && Tidy(a) && Tidy(b) && Aligned(a, b)
    ensures KidsAligned(a, b) && (a.o in Objs(b) ==> a == b)
    ensures a.o !in KidObjs(a, k) + KidObjs(b, k) && b.o !in KidObjs(a, k) + KidObjs(b, k)
  {
    forall k, l | k in a.kids && l in b.kids && k != l ensures Objs(a.kids[k]) !! Objs(b.kids[l]) {
      assert Objs(a.kids[k]) <= Objs(a) && Objs(b.kids[l]) <= Objs(b);
    }
    forall k | k in a.kids && k in b.kids ensures Aligned(a.kids[k], b.kids[k]) {
      assert Objs(a.kids[k]) <= Objs(a) && Objs(b.kids[k]) <= Objs(b);
    }
  }

  /** What is not under a key of the argument is not under that key of the receiver either. */
  lemma OthersApart(a: Tree, b: Tree, k: string)
    requires a.TObject? && b.TObject? && Tidy(a) && Tidy(b) && Aligned(a, b) && k in a.kids && k in b.kids
    ensures Objs(a.kids[k]) !! Objs(b) - Objs(b.kids[k])
  {
    AlignedKids(a, b, k);
  }

  lemma {:induction false} MergeTTidy(a: Tree, b: Tree)
    requires Tidy(a) && Tidy(b) && Aligned(a, b)
    ensures Tidy(MergeT(a, b)) && Objs(MergeT(a, b)) <= Objs(a) + Objs(b)
    ensures a.TObject? && b.TObject? ==> MergeT(a, b).TObject? && MergeT(a, b).o == a.o
    decreases b, 2
  {
    if a.TObject? && b.TObject? {
      MergedTidy(a, b, b.kids.Keys);
    }
  }

  ghost function KidObjs(a: Tree, k: string): set<Object>
    requires a.TObject?
  {
    if k in a.kids then Objs(a.kids[k]) else {}
  }

  lemma {:induction false} MergedKidTidy(a: Tree, b: Tree, k: string)
    requires a.TObject? && b.TObject? && k in b.kids
    requires Tidy(a) && Tidy(b) && Aligned(a, b)
    ensures Tidy(MergedKid(a, b, k)) && Objs(MergedKid(a, b, k)) <= KidObjs(a, k) + KidObjs(b, k)
    decreases b, 0
  {
    if k in a.kids {
      AlignedKids(a, b, k);
      MergeTTidy(a.kids[k], b.kids[k]);
    }
  }

  lemma KidsApart(a: Tree, b: Tree, k: string, l: string)
    requires a.TObject? && b.TObject? && k != l
    requires Tidy(a) && Tidy(b) && Aligned(a, b)
    ensures KidObjs(a, k) + KidObjs(b, k) !! KidObjs(a, l) + KidObjs(b, l)
    ensures a.o !in KidObjs(a, k) + KidObjs(b, k)
    ensures KidObjs(a, k) <= Objs(a) && KidObjs(b, k) <= Objs(b)
  {
    AlignedKids(a, b, k);
  }

  lemma {:induction false} MergedTidy(a: Tree, b: Tree, done: set<string>)
    requires a.TObject? && b.TObject? && done <= b.kids.Keys
    requires Tidy(a) && Tidy(b) && Aligned(a, b)
    ensures Tidy(MergedSoFar(a, b, done))
    ensures forall k :: k in MergedSoFar(a, b, done).kids ==>
              Objs(MergedSoFar(a, b, done).kids[k]) <= KidObjs(a, k) + (if k in done then KidObjs(b, k) else {})
    ensures Objs(MergedSoFar(a, b, done)) <= Objs(a) + Objs(b)
    decreases b, 1
  {
    var t := MergedSoFar(a, b, done);
    forall k | k in t.kids
      ensures Tidy(t.kids[k]) && Objs(t.kids[k]) <= KidObjs(a, k) + (if k in done then KidObjs(b, k) else {})
    {
      if k in done { MergedKidTidy(a, b, k); }
    }
    forall k, l | k in t.kids && l in t.kids && k != l
      ensures Objs(t.kids[k]) !! Objs(t.kids[l]) && a.o !in Objs(t.kids[k])
    {
      KidsApart(a, b, k, l);
    }
    forall k | k in t.kids ensures a.o !in Objs(t.kids[k]) && Objs(t.kids[k]) <= Objs(a) + Objs(b) {
      KidsApart(a, b, k, k + "'");
    }
  }

  lemma MergedSoFarTidy(a: Tree, b: Tree, done: set<string>, k: string)
    requires a.TObject? && b.TObject? && done <= b.kids.Keys && k in b.kids && k !in done
    requires Tidy(a) && Tidy(b) && Aligned(a, b)
    ensures Tidy(MergedSoFar(a, b, done)) && Tidy(MergedSoFar(a, b, done + {k}))
    ensures Objs(MergedSoFar(a, b, done)) <= Objs(a) + Objs(b)
  {
    MergedTidy(a, b, done);
    MergedTidy(a, b, done + {k});
  }

  /** While key `k` is still to come, its maps in the argument are apart from what has been merged, but for those that
      the receiver has there already. */
  lemma StillToCome(a: Tree, b: Tree, done: set<string>, k: string)
    requires a.TObject? && b.TObject? && done <= b.kids.Keys && k in b.kids && k !in done
    requires Tidy(a) && Tidy(b) && Aligned(a, b)
    ensures Objs(b.kids[k]) !! Objs(MergedSoFar(a, b, done)) - KidObjs(a, k)
  {
    MergedTidy(a, b, done);
    AlignedKids(a, b, k);
    var t := MergedSoFar(a, b, done);
    forall l | l in t.kids ensures Objs(t.kids[l]) !! Objs(b.kids[k]) - KidObjs(a, k) {
      if l != k {
        KidsApart(a, b, k, l);
      }
    }
  }

  lemma MergedStep(a: Tree, b: Tree, done: set<string>, k: string)
    requires a.TObject? && b.TObject? && done <= b.kids.Keys && k in b.kids && k !in done
    ensures MergedSoFar(a, b, done).TObject? && MergedSoFar(a, b, done).o == a.o
    ensures k in MergedSoFar(a, b, done).kids <==> k in a.kids
    ensures k in a.kids ==> MergedSoFar(a, b, done).kids[k] == a.kids[k]
    ensures k in a.kids ==> Has(MergedSoFar(a, b, done), [Key(k)])
    ensures k in a.kids ==>
              Replace(MergedSoFar(a, b, done), [Key(k)], MergedKid(a, b, k)) == MergedSoFar(a, b, done + {k})
    ensures !(k in a.kids && a.kids[k].TObject? && b.kids[k].TObject?) ==>
              Put(MergedSoFar(a, b, done), [], k, b.kids[k]) == MergedSoFar(a, b, done + {k})
  {
    var t, t' := MergedSoFar(a, b, done), MergedSoFar(a, b, done + {k});
    assert [Key(k)][1..] == [];
    assert t'.kids == t.kids[k := MergedKid(a, b, k)];
  }

  lemma NothingMerged(a: Tree, b: Tree)
    requires a.TObject? && b.TObject?
    ensures MergedSoFar(a, b, {}) == a
  {
    assert MergedSoFar(a, b, {}).kids == a.kids;
  }

  lemma AllMerged(a: Tree, b: Tree, done: set<string>)
    requires a.TObject? && b.TObject? && done == b.kids.Keys
    requires Tidy(a) && Tidy(b) && Aligned(a, b)
    ensures MergeT(a, b) == MergedSoFar(a, b, done) && MergeT(a, b).TObject? && MergeT(a, b).o == a.o
    ensures Tidy(MergeT(a, b)) && JsonOf(MergeT(a, b)) == Merge(JsonOf(a), JsonOf(b))
  {
    MergeTJson(a, b);
    MergeTTidy(a, b);
  }

  /** The heap once the maps at key `k` have been merged. */
  lemma KidMerged(a: Tree, b: Tree, done: set<string>, k: string, before: Store)
    requires a.TObject? && b.TObject? && done <= b.kids.Keys && k in b.kids && k !in done && k in a.kids
    requires Tidy(a) && Tidy(b) && Aligned(a, b)
    requires Holds(MergedSoFar(a, b, done), before) && before.Keys == Objs(MergedSoFar(a, b, done))
    requires Same(before, Objs(MergedSoFar(a, b, done)) - Objs(a.kids[k]))
    requires a.kids[k].TObject? && b.kids[k].TObject? && Rep(MergeT(a.kids[k], b.kids[k]))
    ensures Rep(MergedSoFar(a, b, done + {k}))
  {
    var cur, sub := MergedSoFar(a, b, done), MergedKid(a, b, k);
    MergedStep(a, b, done, k);
    MergedSoFarTidy(a, b, done, k);
    StillToCome(a, b, done, k);
    AlignedKids(a, b, k);
    MergeTTidy(a.kids[k], b.kids[k]);
    assert [Key(k)][1..] == [];
    assert At(cur, [Key(k)]) == a.kids[k];
    PartChanged(cur, [Key(k)], sub, before);
  }

  /** The heap still holds a document if it does below one key, and all else is as before. */
  lemma KidRestored(t: Tree, k: string, before: Store)
    requires t.TObject? && Tidy(t) && k in t.kids && Holds(t, before) && before.Keys == Objs(t)
    requires Same(before, Objs(t) - Objs(t.kids[k])) && Rep(t.kids[k])
    ensures Rep(t)
  {
    assert [Key(k)][1..] == [];
    assert At(t, [Key(k)]) == t.kids[k];
    assert t.kids[k := t.kids[k]] == t.kids;
    PartChanged(t, [Key(k)], t.kids[k], before);
  }

  /** Only the receiver's own map has changed, at key `k`, since the heap held what was merged so far and the
      argument. */
  ghost predicate Took(a: Tree, b: Tree, cur: Tree, k: string, before: Store, beforeB: Store)
    requires a.TObject? && b.TObject? && k in b.kids
    reads Objs(cur), Objs(b), a.o
  {
    && Holds(cur, before) && before.Keys == Objs(cur) && Same(before, Objs(cur) - {a.o})
    && Holds(b, beforeB) && beforeB.Keys == Objs(b) && Same(beforeB, Objs(b) - {a.o})
    && a.o in Objs(cur) && a.o.m == before[a.o][k := Top(b.kids[k])]
  }

  /** The receiver had the argument's value there: nothing has changed. */
  lemma TookTheSame(a: Tree, b: Tree, cur: Tree, k: string, before: Store, beforeB: Store)
    requires a.TObject? && b.TObject? && k in b.kids && cur.TObject? && cur.o == a.o
    requires k in cur.kids && cur.kids[k] == b.kids[k] && (a.o in Objs(b) ==> a == b == cur)
    requires Took(a, b, cur, k, before, beforeB)
    ensures Rep(cur) && Rep(b)
  {
    assert a.o.m == before[a.o];
    Untouched(cur, before);
    if a.o !in Objs(b) {
      Untouched(b, beforeB);
    }
  }

  /** Or it had none there, or one that shares no maps with it. */
  lemma TookAnother(a: Tree, b: Tree, cur: Tree, k: string, before: Store, beforeB: Store)
    requires a.TObject? && b.TObject? && k in b.kids && cur.TObject? && cur.o == a.o
    requires Tidy(cur) && Tidy(b) && a.o !in Objs(b) && Objs(b.kids[k]) !! Objs(cur)
    requires Took(a, b, cur, k, before, beforeB)
    ensures Rep(Put(cur, [], k, b.kids[k])) && Rep(b)
  {
    Untouched(b, beforeB);
    RepKid(b, k);
    Assigned(cur, [], k, b.kids[k], before);
  }

  lemma TakenOver(a: Tree, b: Tree, done: set<string>, k: string, before: Store, beforeB: Store)
    requires a.TObject? && b.TObject? && done <= b.kids.Keys && k in b.kids && k !in done
    requires Tidy(a) && Tidy(b) && Aligned(a, b)
    requires !(k in a.kids && a.kids[k].TObject? && b.kids[k].TObject?)
    requires Took(a, b, MergedSoFar(a, b, done), k, before, beforeB)
    ensures Rep(MergedSoFar(a, b, done + {k})) && Rep(b)
  {
    var cur := MergedSoFar(a, b, done);
    AlignedKids(a, b, k);
    MergedStep(a, b, done, k);
    if k in a.kids && a.kids[k] == b.kids[k] {
      assert cur.kids[k := b.kids[k]] == cur.kids;
      SoFarWithItself(a, b, done);
      TookTheSame(a, b, cur, k, before, beforeB);
    } else {
      StillToCome(a, b, done, k);
      MergedSoFarTidy(a, b, done, k);
      TookAnother(a, b, cur, k, before, beforeB);
    }
  }

  lemma SoFarWithItself(a: Tree, b: Tree, done: set<string>)
    requires a.TObject? && b.TObject? && done <= b.kids.Keys
    ensures a == b ==> MergedSoFar(a, b, done) == a
  {
    if a == b {
      forall k | k in done ensures MergedKid(a, b, k) == a.kids[k] {
        MergedWithItself(b.kids[k]);
      }
      assert MergedSoFar(a, b, done).kids == a.kids;
    }
  }

  lemma Untouched(t: Tree, before: Store)
    requires Holds(t, before) && Objs(t) <= before.Keys && Same(before, Objs(t))
    ensures Rep(t)
  {
    HoldsFrame(t, before, Snap(Objs(t)));
  }

  lemma {:induction false} MergedWithItself(b: Tree)
    ensures MergeT(b, b) == b
  {
    if b.TObject? {
      forall k | k in b.kids ensures MergeT(b.kids[k], b.kids[k]) == b.kids[k] {
        MergedWithItself(b.kids[k]);
      }
      assert MergedSoFar(b, b, b.kids.Keys).kids == b.kids;
    }
  }

  /** Behind a merge the two documents are aligned, and merging the same argument once more leaves every map as it
      is. */
  lemma {:induction false} MergeTTwice(a: Tree, b: Tree)
    requires Tidy(a) && Tidy(b) && Aligned(a, b)
    ensures Aligned(MergeT(a, b), b) && MergeT(MergeT(a, b), b) == MergeT(a, b)
    decreases b, 1
  {
    MergedWithItself(b);
    if a.TObject? && b.TObject? && a != b {
      var r := MergedSoFar(a, b, b.kids.Keys);
      forall k | k in b.kids ensures Aligned(r.kids[k], b.kids[k]) && MergedKid(r, b, k) == r.kids[k] {
        MergedKidTwice(a, b, k);
      }
      assert MergedSoFar(r, b, b.kids.Keys).kids == r.kids;
      MergedApart(a, b);
    }
  }

  lemma {:induction false} MergedKidTwice(a: Tree, b: Tree, k: string)
    requires a.TObject? && b.TObject? && k in b.kids && Tidy(a) && Tidy(b) && Aligned(a, b)
    ensures Aligned(MergedKid(a, b, k), b.kids[k])
    ensures MergeT(MergedKid(a, b, k), b.kids[k]) == MergedKid(a, b, k)
    decreases b, 0
  {
    if k in a.kids {
      AlignedKids(a, b, k);
      MergeTTwice(a.kids[k], b.kids[k]);
    } else {
      MergedWithItself(b.kids[k]);
    }
  }

  lemma MergedApart(a: Tree, b: Tree)
    requires a.TObject? && b.TObject? && Tidy(a) && Tidy(b) && Aligned(a, b) && a != b
    ensures
      var r := MergeT(a, b);
      && r.TObject? && r.o == a.o && r.o !in Objs(b) && b.o !in Objs(r)
      && forall k, l :: k in r.kids && l in b.kids && k != l ==> Objs(r.kids[k]) !! Objs(b.kids[l])
  {
    var r := MergeT(a, b);
    MergedTidy(a, b, b.kids.Keys);
    forall k | k in r.kids ensures b.o !in Objs(r.kids[k]) {
      AlignedKids(a, b, k);
    }
    AlignedKids(a, b, "");
    forall k, l | k in r.kids && l in b.kids && k != l ensures Objs(r.kids[k]) !! Objs(b.kids[l]) {
      KidsApart(a, b, k, l);
    }
  }
}
