/** The other scans of ImageGrammar accept exactly their languages too. */
module ImageScans {
  import opened Wrappers
  import opened Regex
  import opened RegexLanguage
  import opened ImageGrammar

  lemma OptionalLang(x: Re, w: string)
    ensures Lang(Rep(x, 0, Some(1)), w) <==> w == [] || Lang(x, w)
  {
    if w != [] {
      if LangRep(x, 0, Some(1), w) {
        var i :| 0 < i <= |w| && Lang(x, w[..i]) && LangRep(x, Dec(0), DecHi(Some(1)), w[i..]);
        assert w[..|w|] == w;
      }
      if Lang(x, w) {
        assert w[..|w|] == w && w[|w|..] == [];
        assert 0 < |w| <= |w| && Lang(x, w[..|w|]) && LangRep(x, Dec(0), DecHi(Some(1)), w[|w|..]);
      }
    }
  }

  lemma LastCharCat(a: Re, k: CharClass, w: string)
    ensures Lang(Cat(a, Chars(k)), w) <==> w != [] && Lang(a, w[..|w| - 1]) && InClass(k, w[|w| - 1])
  {
    if Lang(Cat(a, Chars(k)), w) {
      var u, v := CatParts(a, Chars(k), w);
      assert w[..|w| - 1] == u && w[|w| - 1] == v[0];
    }
    if w != [] && Lang(a, w[..|w| - 1]) && InClass(k, w[|w| - 1]) {
      LangAppend(a, Chars(k), w[..|w| - 1], [w[|w| - 1]]);
      assert w[..|w| - 1] + [w[|w| - 1]] == w;
    }
  }

  /** Where `a` stays clear of `k` and `b` is empty or begins with `k`, the cut is at the first `k`. */
  lemma CutAtFirst(a: Re, b: Re, k: CharClass, w: string)
    requires Avoids(a, k)
    requires forall v :: Lang(b, v) ==> v == [] || InClass(k, v[0])
    ensures var e := Find(w, k, 0);
            Lang(Cat(a, b), w) <==> Lang(a, w[..e]) && Lang(b, w[e..])
  {
    var e := Find(w, k, 0);
    if Lang(Cat(a, b), w) {
      var u, v := CatParts(a, b, w);
      CutIsThere(a, k, u, v);
      assert w[..|u|] == u && w[|u|..] == v;
    }
    if Lang(a, w[..e]) && Lang(b, w[e..]) {
      LangAppend(a, b, w[..e], w[e..]);
      assert w[..e] + w[e..] == w;
    }
  }

  lemma CutIsThere(a: Re, k: CharClass, u: string, v: string)
    requires Avoids(a, k) && Lang(a, u) && (v == [] || InClass(k, v[0]))
    ensures Find(u + v, k, 0) == |u|
  {
    LangAvoids(a, u, k);
    assert (u + v)[..|u|] == u;
    NoneBefore(u + v, |u|, k);
    assert v != [] ==> (u + v)[|u|] == v[0];
  }

  /** x followed by optional(repeated(separator, x)). */
  lemma OptionalList(x: Re, k: CharClass, w: string)
    requires Avoids(x, k)
    ensures Lang(Cat(x, Rep(Rep(Cat(Chars(k), x), 1, None), 0, Some(1))), w) <==> AllPieces(x, k, w)
  {
    var y := Cat(Chars(k), x);
    var opt, star := Rep(Rep(y, 1, None), 0, Some(1)), Rep(y, 0, None);
    SeparatedList(x, k, w);
    if Lang(Cat(x, opt), w) {
      var u, v := CatParts(x, opt, w);
      OptionalRepeated(y, v);
      LangAppend(x, star, u, v);
    }
    if Lang(Cat(x, star), w) {
      var u, v := CatParts(x, star, w);
      OptionalRepeated(y, v);
      LangAppend(x, opt, u, v);
    }
  }

  // ---- Paths ----

  lemma {:induction false} PathPieces(w: string)
    ensures AllPieces(NAME_COMPONENT, Lit('/'), w) <==> IsPath(w)
    decreases |w|
  {
    var e := Find(w, Lit('/'), 0);
    NameComponentIff(w[..e]);
    if e < |w| {
      PathPieces(w[e + 1..]);
    }
  }

  lemma NameComponentForm()
    ensures NAME_COMPONENT == Cat(ALPHA_NUMERIC, Rep(Rep(Cat(SEPARATOR, ALPHA_NUMERIC), 1, None), 0, Some(1)))
  {
    var y := Cat(SEPARATOR, ALPHA_NUMERIC);
    Expression2(SEPARATOR, ALPHA_NUMERIC);
    assert Expression([Rep(y, 1, None)]) == Rep(y, 1, None);
    Expression2(ALPHA_NUMERIC, Rep(Rep(y, 1, None), 0, Some(1)));
  }

  lemma PathForm()
    ensures PATH == Cat(NAME_COMPONENT, Rep(Rep(Cat(Chars(Lit('/')), NAME_COMPONENT), 1, None), 0, Some(1)))
  {
    var y := Cat(Chars(Lit('/')), NAME_COMPONENT);
    Expression2(Literal('/'), NAME_COMPONENT);
    assert Expression([Rep(y, 1, None)]) == Rep(y, 1, None);
    Expression2(NAME_COMPONENT, Rep(Rep(y, 1, None), 0, Some(1)));
  }

  lemma PathIff(w: string)
    ensures IsPath(w) <==> Lang(PATH, w)
  {
    NameComponentForm();
    PathForm();
    OptionalList(NAME_COMPONENT, Lit('/'), w);
    PathPieces(w);
  }

  // ---- Domains ----

  lemma DomainComponentIff(w: string)
    ensures IsDomainComponent(w) <==> Lang(DOMAIN_COMPONENT, w)
  {
    LongDomainComponent(w);
    if |w| >= 2 {
      EndsAndMiddle(w);
    }
  }

  lemma LongDomainComponent(w: string)
    ensures Lang(Cat(Chars(Alnum), Cat(Rep(Chars(AlnumDash), 0, None), Chars(Alnum))), w)
       <==> |w| >= 2 && InClass(Alnum, w[0]) && AllIn(AlnumDash, w[1..|w| - 1]) && InClass(Alnum, w[|w| - 1])
  {
    var inner := Rep(Chars(AlnumDash), 0, None);
    CharCat(Alnum, Cat(inner, Chars(Alnum)), w);
    if w != [] {
      LastCharCat(inner, Alnum, w[1..]);
    }
    if |w| >= 2 {
      assert w[1..][..|w| - 2] == w[1..|w| - 1];
      ClassRep(AlnumDash, 0, None, w[1..|w| - 1]);
    }
  }

  lemma EndsAndMiddle(w: string)
    requires |w| >= 2
    ensures AllIn(AlnumDash, w)
       <==> InClass(AlnumDash, w[0]) && AllIn(AlnumDash, w[1..|w| - 1]) && InClass(AlnumDash, w[|w| - 1])
  {
    forall i | 0 < i < |w| - 1 ensures w[i] == w[1..|w| - 1][i - 1] {}
  }

  lemma {:induction false} HostPieces(w: string)
    ensures AllPieces(DOMAIN_COMPONENT, Lit('.'), w) <==> IsHost(w)
    decreases |w|
  {
    var e := Find(w, Lit('.'), 0);
    DomainComponentIff(w[..e]);
    if e < |w| {
      HostPieces(w[e + 1..]);
    }
  }

  const HOST := Cat(DOMAIN_COMPONENT, Rep(Rep(Cat(Chars(Lit('.')), DOMAIN_COMPONENT), 1, None), 0, Some(1)))

  const PORT := Cat(Chars(Lit(':')), Rep(Chars(Digit), 1, None))

  lemma DomainForm()
    ensures DOMAIN == Cat(DOMAIN_COMPONENT, Cat(HOST.b, Rep(PORT, 0, Some(1))))
  {
    var y := Cat(Chars(Lit('.')), DOMAIN_COMPONENT);
    Expression2(Literal('.'), DOMAIN_COMPONENT);
    assert Expression([Rep(y, 1, None)]) == Rep(y, 1, None);
    Expression2(Literal(':'), Rep(Chars(Digit), 1, None));
    Expression3(DOMAIN_COMPONENT, HOST.b, Rep(PORT, 0, Some(1)));
  }

  lemma PortLang(v: string)
    ensures Lang(Rep(PORT, 0, Some(1)), v) <==> v == [] || (v[0] == ':' && |v| > 1 && AllIn(Digit, v[1..]))
  {
    OptionalLang(PORT, v);
    CharCat(Lit(':'), Rep(Chars(Digit), 1, None), v);
    if v != [] {
      ClassRep(Digit, 1, None, v[1..]);
    }
  }

  lemma DomainLang(w: string)
    ensures Lang(DOMAIN, w) <==> Lang(Cat(HOST, Rep(PORT, 0, Some(1))), w)
  {
    var port := Rep(PORT, 0, Some(1));
    DomainForm();
    if Lang(DOMAIN, w) { CatLangLeft(DOMAIN_COMPONENT, HOST.b, port, w); }
    if Lang(Cat(HOST, port), w) { CatLangRight(DOMAIN_COMPONENT, HOST.b, port, w); }
  }

  lemma HostAvoids()
    ensures Avoids(DOMAIN_COMPONENT, Lit('.')) && Avoids(HOST, Lit(':'))
  {
    var k, y := Lit(':'), Cat(Chars(Lit('.')), DOMAIN_COMPONENT);
    assert Avoids(Chars(Alnum), k) && Avoids(Chars(AlnumDash), k) && Avoids(DOMAIN_COMPONENT, k);
    assert Avoids(y, k) && Avoids(Rep(y, 1, None), k) && Avoids(HOST.b, k);
  }

  lemma DomainIff(w: string)
    ensures IsDomain(w) <==> Lang(DOMAIN, w)
  {
    var port := Rep(PORT, 0, Some(1));
    var e := Find(w, Lit(':'), 0);
    DomainLang(w);
    HostAvoids();
    forall v | Lang(port, v) ensures v == [] || InClass(Lit(':'), v[0]) {
      PortLang(v);
    }
    CutAtFirst(HOST, port, Lit(':'), w);
    OptionalList(DOMAIN_COMPONENT, Lit('.'), w[..e]);
    HostPieces(w[..e]);
    PortLang(w[e..]);
    if e < |w| {
      assert w[e..][1..] == w[e + 1..];
    }
  }

  // ---- Tags and digests ----

  lemma TagIff(w: string)
    ensures IsTag(w) <==> Lang(TAG, w)
  {
    CharCat(Word, Rep(Chars(WordDotDash), 0, Some(127)), w);
    if w != [] {
      ClassRep(WordDotDash, 0, Some(127), w[1..]);
    }
  }

  lemma {:induction false} AlgorithmPieces(w: string)
    ensures AllPieces(ALGORITHM_COMPONENT, DigestSeparator, w) <==> IsAlgorithm(w)
    decreases |w|
  {
    var e := Find(w, DigestSeparator, 0);
    CharCat(Alpha, Rep(Chars(Alnum), 0, None), w[..e]);
    if e > 0 {
      ClassRep(Alnum, 0, None, w[..e][1..]);
      assert w[..e][1..] == w[1..e];
    }
    if e < |w| {
      AlgorithmPieces(w[e + 1..]);
    }
  }

  const HEX_TAIL := Cat(Chars(Lit(':')), Rep(Chars(HexDigit), 32, None))

  lemma HexTailLang(v: string)
    ensures Lang(HEX_TAIL, v) <==> v != [] && v[0] == ':' && |v| > 32 && AllIn(HexDigit, v[1..])
  {
    CharCat(Lit(':'), HEX_TAIL.b, v);
    if v != [] {
      ClassRep(HexDigit, 32, None, v[1..]);
    }
  }

  lemma DigestIff(w: string)
    ensures IsDigest(w) <==> Lang(DIGEST, w)
  {
    var algorithm := Cat(ALGORITHM_COMPONENT, Rep(Cat(Chars(DigestSeparator), ALGORITHM_COMPONENT), 0, None));
    var e := Find(w, Lit(':'), 0);
    forall v | Lang(HEX_TAIL, v) ensures v == [] || InClass(Lit(':'), v[0]) {
      HexTailLang(v);
    }
    CutAtFirst(algorithm, HEX_TAIL, Lit(':'), w);
    SeparatedList(ALGORITHM_COMPONENT, DigestSeparator, w[..e]);
    AlgorithmPieces(w[..e]);
    HexTailLang(w[e..]);
    if e < |w| {
      assert w[e..][1..] == w[e + 1..];
    }
  }
}
