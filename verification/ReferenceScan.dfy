/** The deterministic splitter for image references: one scan from left to right, no backtracking. It is stated over the
    scans of the five components, of which only `Consistent` is used. */
module ReferenceScan {
  import opened Wrappers
  import opened Regex
  import opened RegexLanguage

  predicate Free(w: string, k: CharClass) {
    forall i :: 0 <= i < |w| ==> !InClass(k, w[i])
  }

  datatype Scanner = Scanner(isDomain: string -> bool, isComponent: string -> bool, isPath: string -> bool,
                             isTag: string -> bool, isDigest: string -> bool) {
    /** No component is empty or holds a character that ends it; a path is cut at its slashes into name components. */
    ghost predicate Consistent() {
      && (forall w :: isDomain(w) ==> w != "" && Free(w, Lit('/')))
      && (forall w :: isComponent(w) ==> w != "" && Free(w, Lit('/')) && Free(w, ColonAt))
      && (forall w :: isPath(w) ==> w != "" && Free(w, ColonAt))
      && (forall w :: isTag(w) ==> w != "" && Free(w, Lit('/')) && Free(w, Lit('@')))
      && (forall w :: isDigest(w) ==> w != "" && Free(w, Lit('/')))
      && (forall w :: PathCutAt(w, Find(w, Lit('/'), 0)))
    }

    ghost predicate PathCutAt(w: string, e: nat)
      requires e <= |w|
    {
      isPath(w) <==> isComponent(w[..e]) && (e < |w| ==> isPath(w[e + 1..]))
    }
  }

  /** Behind "@": the digest is the rest of the text. */
  function ScanDigest(c: Scanner, s: string, st: State): Option<State>
    requires st.pos <= |s|
  {
    if st.pos == |s| then Some(st)
    else if s[st.pos] == '@' && c.isDigest(s[st.pos + 1..]) then
      Some(State(|s|, st.caps[5 := s[st.pos + 1..]]))
    else None
  }

  /** Behind ":": the tag ends at the next "@". */
  function ScanTag(c: Scanner, s: string, st: State): Option<State>
    requires st.pos <= |s|
  {
    if st.pos < |s| && s[st.pos] == ':' then
      var e := Find(s, Lit('@'), st.pos + 1);
      if c.isTag(s[st.pos + 1..e]) then ScanDigest(c, s, State(e, st.caps[4 := s[st.pos + 1..e]])) else None
    else ScanDigest(c, s, st)
  }

  /** The name ends at the first ":" or "@". */
  function ScanName(c: Scanner, s: string, st: State): Option<State>
    requires st.pos <= |s|
  {
    var e := Find(s, ColonAt, st.pos);
    if c.isPath(s[st.pos..e]) then ScanTag(c, s, State(e, st.caps[3 := s[st.pos..e]])) else None
  }

  /** The next segment is the organisation if it is a name component with another segment behind it. */
  function ScanOrganisation(c: Scanner, s: string, st: State): Option<State>
    requires st.pos <= |s|
  {
    var e := Find(s, Lit('/'), st.pos);
    if e < |s| && c.isComponent(s[st.pos..e]) then ScanName(c, s, State(e + 1, st.caps[2 := s[st.pos..e]]))
    else ScanName(c, s, st)
  }

  lemma OrganisationTaken(c: Scanner, s: string, st: State, e: nat)
    requires st.pos <= |s| && e == Find(s, Lit('/'), st.pos)
    requires e < |s| && c.isComponent(s[st.pos..e])
    ensures ScanOrganisation(c, s, st) == ScanName(c, s, State(e + 1, st.caps[2 := s[st.pos..e]]))
  {
  }

  lemma OrganisationLeftOut(c: Scanner, s: string, st: State, e: nat)
    requires st.pos <= |s| && e == Find(s, Lit('/'), st.pos)
    requires !(e < |s| && c.isComponent(s[st.pos..e]))
    ensures ScanOrganisation(c, s, st) == ScanName(c, s, st)
  {
  }

  /** The first segment is the domain if it is in the domain language. */
  function ScanReference(c: Scanner, s: string): Option<State> {
    var e := Find(s, Lit('/'), 0);
    if e < |s| && c.isDomain(s[..e]) then ScanOrganisation(c, s, State(e + 1, map[1 := s[..e]]))
    else ScanOrganisation(c, s, State(0, map[]))
  }

  // ---- Nothing is gained by cutting the text in another way ----

  /** A text that stays clear of `k` ends no later than the first `k`. */
  lemma EndsBefore(s: string, k: CharClass, i: nat, j: nat)
    requires i <= j <= |s| && Free(s[i..j], k)
    ensures j <= Find(s, k, i)
  {
    forall n | i <= n < j ensures !InClass(k, s[n]) {
      assert s[n] == s[i..j][n - i];
    }
  }

  lemma FindLater(s: string, k: CharClass, i: nat, j: nat)
    requires i <= j <= |s| && j <= Find(s, k, i)
    ensures Find(s, k, i) == Find(s, k, j)
  {
  }

  lemma TailAccepts(c: Scanner, s: string, i: nat, caps: map<nat, string>, caps': map<nat, string>)
    requires i <= |s|
    ensures ScanTag(c, s, State(i, caps)).Some? <==> ScanTag(c, s, State(i, caps')).Some?
  {
  }

  lemma NameAccepts(c: Scanner, s: string, i: nat, caps: map<nat, string>, end: nat)
    requires i <= |s| && end == Find(s, ColonAt, i)
    ensures ScanName(c, s, State(i, caps)).Some? <==> c.isPath(s[i..end]) && ScanTag(c, s, State(end, map[])).Some?
  {
    TailAccepts(c, s, end, caps[3 := s[i..end]], map[]);
  }

  lemma FirstSlash(s: string, i: nat, end: nat)
    requires i <= end <= |s|
    requires Find(s, Lit('/'), i) < end
    ensures Find(s[i..end], Lit('/'), 0) == Find(s, Lit('/'), i) - i
  {
    var e, w := Find(s, Lit('/'), i), s[i..end];
    var f := Find(w, Lit('/'), 0);
    assert w[e - i] == '/';
    if f < |w| {
      assert s[i + f] == w[f] == '/';
    }
  }

  lemma PathCut(c: Scanner, s: string, i: nat, e: nat, end: nat)
    requires c.Consistent()
    requires i <= end <= |s| && e == Find(s, Lit('/'), i) < end
    ensures c.isPath(s[i..end]) <==> c.isComponent(s[i..e]) && c.isPath(s[e + 1..end])
  {
    FirstSlash(s, i, end);
    var w := s[i..end];
    assert c.PathCutAt(w, e - i);
    assert w[..e - i] == s[i..e] && w[e - i + 1..] == s[e + 1..end];
  }

  lemma SegmentEndsBefore(c: Scanner, s: string, i: nat, e: nat)
    requires c.Consistent() && i <= e < |s| && s[e] == '/' && c.isComponent(s[i..e])
    ensures e < Find(s, ColonAt, i) && Find(s, ColonAt, i) == Find(s, ColonAt, e + 1)
  {
    EndsBefore(s, ColonAt, i, e);
    FindLater(s, ColonAt, i, e + 1);
  }

  /** What a name with a tail accepts does not depend on whether its first segment is cut off as an organisation. */
  lemma CutSegment(c: Scanner, s: string, i: nat, e: nat, caps: map<nat, string>, caps': map<nat, string>)
    requires c.Consistent() && i <= |s|
    requires e == Find(s, Lit('/'), i) < |s| && c.isComponent(s[i..e])
    ensures ScanName(c, s, State(i, caps)).Some? <==> ScanName(c, s, State(e + 1, caps')).Some?
  {
    var end := Find(s, ColonAt, i);
    SegmentEndsBefore(c, s, i, e);
    PathCut(c, s, i, e, end);
    SamePathSameName(c, s, i, e + 1, end, caps, caps');
  }

  lemma SamePathSameName(c: Scanner, s: string, i: nat, j: nat, end: nat, caps: map<nat, string>,
      caps': map<nat, string>)
    requires i <= j <= |s| && end == Find(s, ColonAt, i) == Find(s, ColonAt, j)
    requires c.isPath(s[i..end]) <==> c.isPath(s[j..end])
    ensures ScanName(c, s, State(i, caps)).Some? <==> ScanName(c, s, State(j, caps')).Some?
  {
    NameAccepts(c, s, i, caps, end);
    NameAccepts(c, s, j, caps', end);
  }

  lemma OrganisationAccepts(c: Scanner, s: string, st: State)
    requires c.Consistent() && st.pos <= |s|
    ensures ScanOrganisation(c, s, st).Some? <==> ScanName(c, s, st).Some?
  {
    var e := Find(s, Lit('/'), st.pos);
    if e < |s| && c.isComponent(s[st.pos..e]) {
      CutSegment(c, s, st.pos, e, st.caps, st.caps[2 := s[st.pos..e]]);
      OrganisationTaken(c, s, st, e);
    } else {
      OrganisationLeftOut(c, s, st, e);
    }
  }

  /** Neither a tag nor a digest holds a slash. */
  lemma TailHasNoSlash(c: Scanner, s: string, st: State)
    requires c.Consistent()
    requires st.pos <= |s| && ScanTag(c, s, st).Some?
    ensures Find(s, Lit('/'), st.pos) == |s|
  {
    if st.pos < |s| && s[st.pos] == ':' {
      var i := st.pos + 1;
      var e := Find(s, Lit('@'), i);
      DigestHasNoSlash(c, s, State(e, st.caps[4 := s[i..e]]));
      EndsBefore(s, Lit('/'), i, e);
      FindLater(s, Lit('/'), i, e);
      assert !InClass(Lit('/'), ':');
    } else {
      DigestHasNoSlash(c, s, st);
    }
  }

  lemma DigestHasNoSlash(c: Scanner, s: string, st: State)
    requires c.Consistent()
    requires st.pos <= |s| && ScanDigest(c, s, st).Some?
    ensures Find(s, Lit('/'), st.pos) == |s|
  {
    if st.pos < |s| {
      assert s[st.pos + 1..|s|] == s[st.pos + 1..];
      EndsBefore(s, Lit('/'), st.pos + 1, |s|);
    }
  }

  /** Nothing is lost by insisting on the domain: without it the rest would not do either. */
  lemma NoSecondChance(c: Scanner, s: string, caps: map<nat, string>)
    requires c.Consistent()
    requires Find(s, Lit('/'), 0) < |s| && ScanName(c, s, State(Find(s, Lit('/'), 0) + 1, caps)) == None
    ensures ScanName(c, s, State(0, map[])) == None
  {
    var e, end := Find(s, Lit('/'), 0), Find(s, ColonAt, 0);
    if c.isComponent(s[0..e]) {
      CutSegment(c, s, 0, e, map[], caps);
    } else if end > e {
      PathCut(c, s, 0, e, end);
    } else if ScanTag(c, s, State(end, map[3 := s[0..end]])).Some? {
      TailHasNoSlash(c, s, State(end, map[3 := s[0..end]]));
    }
  }
}
