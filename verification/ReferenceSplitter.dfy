/** The splitter of ReferenceScan accepts exactly what ReferenceRegexp accepts and yields the captures of its
    leftmost-first match. */
module ReferenceSplitter {
  import opened Wrappers
  import opened Regex
  import opened RegexPreference
  import opened RegexLanguage
  import opened ImageGrammar
  import opened ImageScans
  import opened ReferenceScan

  /** The component grammars, each with a scan for it. */
  datatype Grammar = Grammar(domain: Re, component: Re, path: Re, tag: Re, digest: Re, scans: Scanner) {
    const digestPart := Cat(Chars(Lit('@')), Capture(5, digest))
    const tagPart := Cat(Chars(Lit(':')), Capture(4, tag))
    const tail := Cat(Rep(tagPart, 0, Some(1)), Rep(digestPart, 0, Some(1)))
    const nameAndTail := Cat(Capture(3, path), tail)
    const orgPart := Cat(Capture(2, component), Chars(Lit('/')))
    const orgAndRest := Cat(Rep(orgPart, 0, Some(1)), nameAndTail)
    const domainPart := Cat(Capture(1, domain), Chars(Lit('/')))

    /** The scans accept the languages. */
    ghost predicate Fits() {
      && CaptureFree(domain) && CaptureFree(component) && CaptureFree(path) && CaptureFree(tag) && CaptureFree(digest)
      && (forall w :: scans.isDomain(w) <==> Lang(domain, w))
      && (forall w :: scans.isComponent(w) <==> Lang(component, w))
      && (forall w :: scans.isPath(w) <==> Lang(path, w))
      && (forall w :: scans.isTag(w) <==> Lang(tag, w))
      && (forall w :: scans.isDigest(w) <==> Lang(digest, w))
      && scans.Consistent()
    }
  }

  // ---- The parts of the expression, one after the other ----

  /** The parts begin with a character that they cannot leave out. */
  lemma PartsAreNotEmpty(g: Grammar)
    ensures !Lang(g.digestPart, "") && !Lang(g.tagPart, "")
  {
    CharCat(Lit('@'), Capture(5, g.digest), "");
    CharCat(Lit(':'), Capture(4, g.tag), "");
  }

  lemma BestDigest(g: Grammar, s: string, st: State)
    requires g.Fits()
    requires st.pos <= |s|
    ensures Best(Rep(g.digestPart, 0, Some(1)), s, st) == ScanDigest(g.scans, s, st)
  {
    PartsAreNotEmpty(g);
    OptionalLast(g.digestPart, s, st);
    CharThen(Lit('@'), Capture(5, g.digest), s, st);
    if st.pos < |s| && s[st.pos] == '@' {
      CaptureLast(5, g.digest, s, st.(pos := st.pos + 1));
    }
  }

  lemma BestTag(g: Grammar, s: string, st: State)
    requires g.Fits()
    requires st.pos <= |s|
    ensures Best(g.tail, s, st) == ScanTag(g.scans, s, st)
  {
    var opt := Rep(g.digestPart, 0, Some(1));
    PartsAreNotEmpty(g);
    OptionalThen(g.tagPart, opt, s, st);
    BestDigest(g, s, st);
    CatAssoc(Chars(Lit(':')), Capture(4, g.tag), opt, s, st);
    CharThen(Lit(':'), Cat(Capture(4, g.tag), opt), s, st);
    if st.pos < |s| && s[st.pos] == ':' {
      CapturedTag(g, s, st.(pos := st.pos + 1));
    }
  }

  lemma TagCannotEndBefore(g: Grammar, s: string, i: nat, j: nat, caps: map<nat, string>)
    requires g.Fits()
    requires i <= j <= |s| && j != Find(s, Lit('@'), i) && Lang(g.tag, s[i..j])
    ensures Best(Rep(g.digestPart, 0, Some(1)), s, State(j, caps)) == None
  {
    EndsBefore(s, Lit('@'), i, j);
    BestDigest(g, s, State(j, caps));
  }

  lemma CapturedTag(g: Grammar, s: string, st: State)
    requires g.Fits()
    requires st.pos <= |s|
    ensures var e := Find(s, Lit('@'), st.pos);
      Best(Cat(Capture(4, g.tag), Rep(g.digestPart, 0, Some(1))), s, st)
         == if g.scans.isTag(s[st.pos..e]) then ScanDigest(g.scans, s, State(e, st.caps[4 := s[st.pos..e]])) else None
  {
    var opt := Rep(g.digestPart, 0, Some(1));
    var e := Find(s, Lit('@'), st.pos);
    forall j, caps | st.pos <= j <= |s| && j != e && Lang(g.tag, s[st.pos..j])
      ensures Best(opt, s, State(j, caps)) == None
    {
      TagCannotEndBefore(g, s, st.pos, j, caps);
    }
    CaptureThen(4, g.tag, opt, s, st, e);
    BestDigest(g, s, State(e, st.caps[4 := s[st.pos..e]]));
  }

  lemma NameCannotEndBefore(g: Grammar, s: string, i: nat, j: nat, caps: map<nat, string>)
    requires g.Fits()
    requires i <= j <= |s| && j != Find(s, ColonAt, i) && Lang(g.path, s[i..j])
    ensures Best(g.tail, s, State(j, caps)) == None
  {
    EndsBefore(s, ColonAt, i, j);
    BestTag(g, s, State(j, caps));
  }

  lemma BestName(g: Grammar, s: string, st: State)
    requires g.Fits()
    requires st.pos <= |s|
    ensures Best(g.nameAndTail, s, st) == ScanName(g.scans, s, st)
  {
    var e := Find(s, ColonAt, st.pos);
    forall j, caps | st.pos <= j <= |s| && j != e && Lang(g.path, s[st.pos..j])
      ensures Best(g.tail, s, State(j, caps)) == None
    {
      NameCannotEndBefore(g, s, st.pos, j, caps);
    }
    CaptureThen(3, g.path, g.tail, s, st, e);
    BestTag(g, s, State(e, st.caps[3 := s[st.pos..e]]));
  }

  lemma SegmentCannotEndBefore(rest: Re, s: string, i: nat, j: nat, caps: map<nat, string>)
    requires i <= j <= |s| && j != Find(s, Lit('/'), i) && Free(s[i..j], Lit('/'))
    ensures Best(Cat(Chars(Lit('/')), rest), s, State(j, caps)) == None
  {
    EndsBefore(s, Lit('/'), i, j);
    CharThen(Lit('/'), rest, s, State(j, caps));
  }

  /** A captured segment and its slash, in front of `rest`. */
  lemma BestSegment(n: nat, r: Re, rest: Re, s: string, st: State)
    requires st.pos <= |s| && CaptureFree(r)
    requires forall w :: Lang(r, w) ==> Free(w, Lit('/'))
    ensures var e := Find(s, Lit('/'), st.pos);
      Best(Cat(Cat(Capture(n, r), Chars(Lit('/'))), rest), s, st)
         == if e < |s| && Lang(r, s[st.pos..e]) then Best(rest, s, State(e + 1, st.caps[n := s[st.pos..e]])) else None
  {
    var e := Find(s, Lit('/'), st.pos);
    var slash := Chars(Lit('/'));
    CatAssoc(Capture(n, r), slash, rest, s, st);
    forall j, caps | st.pos <= j <= |s| && j != e && Lang(r, s[st.pos..j])
      ensures Best(Cat(slash, rest), s, State(j, caps)) == None
    {
      SegmentCannotEndBefore(rest, s, st.pos, j, caps);
    }
    CaptureThen(n, r, Cat(slash, rest), s, st, e);
    CharThen(Lit('/'), rest, s, State(e, st.caps[n := s[st.pos..e]]));
  }

  lemma SegmentsAreFree(g: Grammar, w: string)
    requires g.Fits() && (Lang(g.component, w) || Lang(g.domain, w))
    ensures Free(w, Lit('/'))
  {
    assert g.scans.isComponent(w) || g.scans.isDomain(w);
  }

  /** An optional captured segment: taken if the text has one and the rest then works, else left out. */
  lemma OptionalSegment(n: nat, r: Re, rest: Re, s: string, st: State, e: nat)
    requires st.pos <= |s| && CaptureFree(r) && e == Find(s, Lit('/'), st.pos)
    requires forall w :: Lang(r, w) ==> Free(w, Lit('/'))
    ensures Best(Cat(Rep(Cat(Capture(n, r), Chars(Lit('/'))), 0, Some(1)), rest), s, st)
         == OrElse(if e < |s| && Lang(r, s[st.pos..e]) then Best(rest, s, State(e + 1, st.caps[n := s[st.pos..e]]))
                   else None,
                   Best(rest, s, st))
  {
    LastCharCat(Capture(n, r), Lit('/'), "");
    OptionalThen(Cat(Capture(n, r), Chars(Lit('/'))), rest, s, st);
    BestSegment(n, r, rest, s, st);
  }

  lemma BestOrganisation(g: Grammar, s: string, st: State)
    requires g.Fits()
    requires st.pos <= |s|
    ensures Best(g.orgAndRest, s, st) == ScanOrganisation(g.scans, s, st)
  {
    var e := Find(s, Lit('/'), st.pos);
    forall w | Lang(g.component, w) ensures Free(w, Lit('/')) { SegmentsAreFree(g, w); }
    OptionalSegment(2, g.component, g.nameAndTail, s, st, e);
    assert g.scans.isComponent(s[st.pos..e]) <==> Lang(g.component, s[st.pos..e]);
    BestName(g, s, st);
    if e < |s| && g.scans.isComponent(s[st.pos..e]) {
      var next := State(e + 1, st.caps[2 := s[st.pos..e]]);
      BestName(g, s, next);
      CutSegment(g.scans, s, st.pos, e, st.caps, next.caps);
      OrganisationTaken(g.scans, s, st, e);
    } else {
      OrganisationLeftOut(g.scans, s, st, e);
    }
  }

  lemma SplitterIsBest(g: Grammar, s: string)
    requires g.Fits()
    ensures Best(Cat(Rep(g.domainPart, 0, Some(1)), g.orgAndRest), s, State(0, map[])) == ScanReference(g.scans, s)
  {
    var st, e := State(0, map[]), Find(s, Lit('/'), 0);
    forall w | Lang(g.domain, w) ensures Free(w, Lit('/')) { SegmentsAreFree(g, w); }
    OptionalSegment(1, g.domain, g.orgAndRest, s, st, e);
    BestOrganisation(g, s, st);
    OrganisationAccepts(g.scans, s, st);
    assert s[0..e] == s[..e];
    if e < |s| && g.scans.isDomain(s[..e]) {
      var st' := State(e + 1, map[1 := s[..e]]);
      BestOrganisation(g, s, st');
      OrganisationAccepts(g.scans, s, st');
      if ScanOrganisation(g.scans, s, st') == None {
        NoSecondChance(g.scans, s, st'.caps);
      }
    }
  }

  // ---- ReferenceRegexp itself ----

  const COMPONENTS := Grammar(DOMAIN, NAME_COMPONENT, PATH, TAG, DIGEST,
                              Scanner(IsDomain, IsNameComponent, IsPath, IsTag, IsDigest))

  lemma NameComponentIsCaptureFree()
    ensures CaptureFree(NAME_COMPONENT)
  {
    NameComponentForm();
    assert CaptureFree(ALPHA_NUMERIC) && CaptureFree(SEPARATOR);
    var y := Cat(SEPARATOR, ALPHA_NUMERIC);
    assert CaptureFree(y) && CaptureFree(Rep(y, 1, None)) && CaptureFree(Rep(Rep(y, 1, None), 0, Some(1)));
  }

  lemma PathIsCaptureFree()
    ensures CaptureFree(PATH)
  {
    PathForm();
    NameComponentIsCaptureFree();
    var y := Cat(Chars(Lit('/')), NAME_COMPONENT);
    assert CaptureFree(y) && CaptureFree(Rep(y, 1, None)) && CaptureFree(Rep(Rep(y, 1, None), 0, Some(1)));
  }

  lemma DomainIsCaptureFree()
    ensures CaptureFree(DOMAIN)
  {
    DomainForm();
    assert CaptureFree(DOMAIN_COMPONENT);
    var y := Cat(Chars(Lit('.')), DOMAIN_COMPONENT);
    assert CaptureFree(y) && CaptureFree(Rep(y, 1, None)) && CaptureFree(HOST.b);
    assert CaptureFree(PORT) && CaptureFree(Rep(PORT, 0, Some(1)));
  }

  lemma ComponentsAreCaptureFree()
    ensures CaptureFree(DIGEST) && CaptureFree(TAG) && CaptureFree(PATH) && CaptureFree(NAME_COMPONENT)
        && CaptureFree(DOMAIN)
  {
    NameComponentIsCaptureFree();
    PathIsCaptureFree();
    DomainIsCaptureFree();
    assert CaptureFree(ALGORITHM_COMPONENT);
  }

  lemma NameComponentAvoids(k: CharClass)
    requires k == Lit('/') || k == ColonAt
    ensures Avoids(NAME_COMPONENT, k)
  {
    NameComponentForm();
    assert Avoids(ALPHA_NUMERIC, k);
    assert Avoids(Chars(DotUnderscore), k);
    assert Avoids(Literal('_'), k) && Avoids(Literal('-'), k);
    assert Avoids(SEPARATOR, k);
  }

  lemma PathAvoids()
    ensures Avoids(PATH, ColonAt)
  {
    PathForm();
    NameComponentAvoids(ColonAt);
    var y := Cat(Chars(Lit('/')), NAME_COMPONENT);
    assert Avoids(Chars(Lit('/')), ColonAt);
    assert Avoids(y, ColonAt) && Avoids(Rep(y, 1, None), ColonAt) && Avoids(Rep(Rep(y, 1, None), 0, Some(1)), ColonAt);
  }

  lemma DomainAvoids()
    ensures Avoids(DOMAIN, Lit('/'))
  {
    var k := Lit('/');
    DomainForm();
    assert Avoids(Chars(Alnum), k) && Avoids(Chars(AlnumDash), k) && Avoids(Chars(Digit), k);
    assert Avoids(DOMAIN_COMPONENT, k);
    assert Avoids(HOST.b, k);
    assert Avoids(PORT, k);
  }

  lemma TagAvoids(k: CharClass)
    requires k == Lit('/') || k == Lit('@')
    ensures Avoids(TAG, k)
  {
    assert Avoids(Chars(Word), k) && Avoids(Chars(WordDotDash), k);
  }

  lemma DigestAvoids()
    ensures Avoids(DIGEST, Lit('/'))
  {
    var k := Lit('/');
    assert Avoids(Chars(Alpha), k) && Avoids(Chars(Alnum), k) && Avoids(Chars(DigestSeparator), k);
    assert Avoids(Chars(HexDigit), k) && Avoids(Chars(Lit(':')), k);
    assert Avoids(ALGORITHM_COMPONENT, k);
  }

  lemma ComponentScans(w: string)
    ensures IsDomain(w) <==> Lang(DOMAIN, w)
    ensures IsNameComponent(w) <==> Lang(NAME_COMPONENT, w)
    ensures IsPath(w) <==> Lang(PATH, w)
    ensures IsTag(w) <==> Lang(TAG, w)
    ensures IsDigest(w) <==> Lang(DIGEST, w)
  {
    DomainIff(w);
    NameComponentIff(w);
    PathIff(w);
    TagIff(w);
    DigestIff(w);
  }

  lemma DomainScan(w: string)
    requires IsDomain(w)
    ensures w != "" && Free(w, Lit('/'))
  {
    DomainIff(w);
    DomainAvoids();
    LangAvoids(DOMAIN, w, Lit('/'));
  }

  lemma NameComponentScan(w: string, k: CharClass)
    requires IsNameComponent(w) && (k == Lit('/') || k == ColonAt)
    ensures w != "" && Free(w, k)
  {
    NameComponentIff(w);
    NameComponentAvoids(k);
    LangAvoids(NAME_COMPONENT, w, k);
  }

  lemma PathScan(w: string)
    requires IsPath(w)
    ensures w != "" && Free(w, ColonAt)
  {
    PathIff(w);
    PathAvoids();
    LangAvoids(PATH, w, ColonAt);
  }

  lemma TagScan(w: string, k: CharClass)
    requires IsTag(w) && (k == Lit('/') || k == Lit('@'))
    ensures w != "" && Free(w, k)
  {
    TagIff(w);
    TagAvoids(k);
    LangAvoids(TAG, w, k);
  }

  lemma DigestScan(w: string)
    requires IsDigest(w)
    ensures w != "" && Free(w, Lit('/'))
  {
    DigestIff(w);
    DigestAvoids();
    LangAvoids(DIGEST, w, Lit('/'));
  }

  lemma ScansAreConsistent()
    ensures COMPONENTS.scans.Consistent()
  {
    forall w | IsDomain(w) ensures w != "" && Free(w, Lit('/')) { DomainScan(w); }
    forall w | IsNameComponent(w) ensures w != "" && Free(w, Lit('/')) && Free(w, ColonAt) {
      NameComponentScan(w, Lit('/'));
      NameComponentScan(w, ColonAt);
    }
    forall w | IsPath(w) ensures w != "" && Free(w, ColonAt) { PathScan(w); }
    forall w | IsTag(w) ensures w != "" && Free(w, Lit('/')) && Free(w, Lit('@')) {
      TagScan(w, Lit('/'));
      TagScan(w, Lit('@'));
    }
    forall w | IsDigest(w) ensures w != "" && Free(w, Lit('/')) { DigestScan(w); }
  }

  lemma ComponentsFit()
    ensures COMPONENTS.Fits()
  {
    ComponentsAreCaptureFree();
    ScansAreConsistent();
    forall w {
      ComponentScans(w);
    }
  }

  lemma ReferenceForm(g: Grammar)
    requires g == COMPONENTS
    ensures REFERENCE == Cat(Cat(Rep(g.domainPart, 0, Some(1)), Cat(Rep(g.orgPart, 0, Some(1)), Capture(3, g.path))),
        g.tail)
  {
    Expression2(Capture(1, DOMAIN), Literal('/'));
    Expression2(Capture(2, NAME_COMPONENT), Literal('/'));
    Expression3(Rep(g.domainPart, 0, Some(1)), Rep(g.orgPart, 0, Some(1)), Capture(3, PATH));
    Expression2(Literal(':'), Capture(4, TAG));
    Expression2(Literal('@'), Capture(5, DIGEST));
    Expression3(NAME, Rep(g.tagPart, 0, Some(1)), Rep(g.digestPart, 0, Some(1)));
  }

  /** ((a b) c) d and a (b (c d)) match alike. */
  lemma Regroup(a: Re, b: Re, c: Re, d: Re, s: string, st: State)
    requires st.pos <= |s|
    ensures Matches(Cat(Cat(a, Cat(b, c)), d), s, st) == Matches(Cat(a, Cat(b, Cat(c, d))), s, st)
  {
    CatAssoc(a, Cat(b, c), d, s, st);
    RegroupAll(b, c, d, s, st.pos, Matches(a, s, st));
  }

  lemma {:induction false} RegroupAll(b: Re, c: Re, d: Re, s: string, from: nat, sts: seq<State>)
    requires Within(s, from, sts)
    ensures MatchesAll(Cat(Cat(b, c), d), s, from, sts) == MatchesAll(Cat(b, Cat(c, d)), s, from, sts)
    decreases |sts|
  {
    if sts != [] {
      CatAssoc(b, c, d, s, sts[0]);
      RegroupAll(b, c, d, s, from, sts[1..]);
    }
  }

  lemma BestReference(g: Grammar, s: string)
    requires g == COMPONENTS
    ensures Best(REFERENCE, s, State(0, map[])) == ScanReference(COMPONENTS.scans, s)
  {
    ReferenceForm(g);
    ComponentsFit();
    Regroup(Rep(g.domainPart, 0, Some(1)), Rep(g.orgPart, 0, Some(1)), Capture(3, g.path), g.tail, s, State(0, map[]));
    SplitterIsBest(g, s);
  }

  /** The splitter yields what the regular expression captures, and accepts what it accepts. */
  lemma SplitterIsRegexp(s: string)
    ensures FindSubmatch(REFERENCE, s) == match ScanReference(COMPONENTS.scans, s)
                                          case None => None
                                          case Some(st) => Some(st.caps)
    ensures ScanReference(COMPONENTS.scans, s).Some? <==> Lang(REFERENCE, s)
  {
    BestReference(COMPONENTS, s);
    FindIffLang(REFERENCE, s);
  }
}
