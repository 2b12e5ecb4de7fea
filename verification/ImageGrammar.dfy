/** The grammars of pkg/addons/image_reference_regexp.go, each with a linear scan that accepts the same texts. */
module ImageGrammar {
  import opened Wrappers
  import opened Regex
  import opened RegexLanguage

  const ALPHA_NUMERIC := Rep(Chars(LowerAlnum), 1, None)

  const SEPARATOR := Alt(Chars(DotUnderscore), Alt(Cat(Literal('_'), Literal('_')), Rep(Literal('-'), 0, None)))

  const NAME_COMPONENT := Expression([ALPHA_NUMERIC, Optional([Repeated([SEPARATOR, ALPHA_NUMERIC])])])

  const DOMAIN_COMPONENT := Alt(Chars(Alnum), Cat(Chars(Alnum), Cat(Rep(Chars(AlnumDash), 0, None), Chars(Alnum))))

  const DOMAIN := Expression([
    DOMAIN_COMPONENT,
    Optional([Repeated([Literal('.'), DOMAIN_COMPONENT])]),
    Optional([Literal(':'), Rep(Chars(Digit), 1, None)])])

  const TAG := Cat(Chars(Word), Rep(Chars(WordDotDash), 0, Some(127)))

  const ALGORITHM_COMPONENT := Cat(Chars(Alpha), Rep(Chars(Alnum), 0, None))

  const DIGEST := Cat(Cat(ALGORITHM_COMPONENT, Rep(Cat(Chars(DigestSeparator), ALGORITHM_COMPONENT), 0, None)),
                      Cat(Literal(':'), Rep(Chars(HexDigit), 32, None)))

  /** The trailing part of NameRegexp: name components separated by slashes. */
  const PATH := Expression([NAME_COMPONENT, Optional([Repeated([Literal('/'), NAME_COMPONENT])])])

  /** NameRegexp: the groups are the domain, the organisation and the rest of the path. */
  const NAME := Expression([
    Optional([Capture(1, DOMAIN), Literal('/')]),
    Optional([Capture(2, NAME_COMPONENT), Literal('/')]),
    Capture(3, PATH)])

  /** ReferenceRegexp, whose anchors are what FindSubmatch stands for. */
  const REFERENCE := Expression([
    NAME,
    Optional([Literal(':'), Capture(4, TAG)]),
    Optional([Literal('@'), Capture(5, DIGEST)])])

  // ---- Scans ----

  predicate IsNameComponent(w: string) {
    IsNameStart(w)
  }

  /** What may follow a letter or digit of a name component. */
  predicate NameRest(w: string)
    decreases |w|, 1
  {
    if w == [] then true
    else if InClass(LowerAlnum, w[0]) then NameRest(w[1..])
    else if w[0] == '.' then IsNameStart(w[1..])
    else if w[0] == '_' then IsNameStart(if |w| > 1 && w[1] == '_' then w[2..] else w[1..])
    else w[0] == '-' && DashRest(w[1..])
  }

  predicate IsNameStart(w: string)
    decreases |w|, 2
  {
    w != [] && InClass(LowerAlnum, w[0]) && NameRest(w[1..])
  }

  predicate DashRest(w: string)
    decreases |w|, 0
  {
    w != [] && (if w[0] == '-' then DashRest(w[1..]) else InClass(LowerAlnum, w[0]) && NameRest(w[1..]))
  }

  predicate IsDomainComponent(w: string) {
    w != [] && AllIn(AlnumDash, w) && w[0] != '-' && w[|w| - 1] != '-'
  }

  predicate IsHost(w: string)
    decreases |w|
  {
    var e := Find(w, Lit('.'), 0);
    IsDomainComponent(w[..e]) && (e < |w| ==> IsHost(w[e + 1..]))
  }

  predicate IsDomain(w: string) {
    var e := Find(w, Lit(':'), 0);
    IsHost(w[..e]) && (e < |w| ==> |w| - e > 1 && AllIn(Digit, w[e + 1..]))
  }

  predicate IsPath(w: string)
    decreases |w|
  {
    var e := Find(w, Lit('/'), 0);
    IsNameComponent(w[..e]) && (e < |w| ==> IsPath(w[e + 1..]))
  }

  predicate IsTag(w: string) {
    1 <= |w| <= 128 && InClass(Word, w[0]) && AllIn(WordDotDash, w[1..])
  }

  predicate IsAlgorithm(w: string)
    decreases |w|
  {
    var e := Find(w, DigestSeparator, 0);
    e > 0 && InClass(Alpha, w[0]) && AllIn(Alnum, w[1..e]) && (e < |w| ==> IsAlgorithm(w[e + 1..]))
  }

  predicate IsDigest(w: string) {
    var e := Find(w, Lit(':'), 0);
    e < |w| && IsAlgorithm(w[..e]) && |w| - e > 32 && AllIn(HexDigit, w[e + 1..])
  }

  // ---- Name components ----

  lemma Expression2(x: Re, y: Re)
    ensures Expression([x, y]) == Cat(x, y)
  {
    assert [x, y][1..] == [y];
  }

  lemma Expression3(x: Re, y: Re, z: Re)
    ensures Expression([x, y, z]) == Cat(x, Cat(y, z))
  {
    assert [x, y, z][1..] == [y, z];
    Expression2(y, z);
  }

  lemma LangAppend(a: Re, b: Re, u: string, v: string)
    requires Lang(a, u) && Lang(b, v)
    ensures Lang(Cat(a, b), u + v)
  {
    var w := u + v;
    assert w[..|u|] == u && w[|u|..] == v;
  }

  lemma RepAppend(re: Re, u: string, v: string)
    requires u != [] && Lang(re, u) && LangRep(re, 0, None, v)
    ensures LangRep(re, 0, None, u + v)
  {
    var w := u + v;
    assert w[..|u|] == u && w[|u|..] == v;
    assert 0 < |u| <= |w| && Lang(re, w[..|u|]) && LangRep(re, Dec(0), DecHi(None), w[|u|..]);
  }

  lemma RepHead(re: Re, w: string) returns (u: string, v: string)
    requires w != [] && LangRep(re, 0, None, w)
    ensures w == u + v && u != [] && Lang(re, u) && LangRep(re, 0, None, v)
  {
    var i :| 0 < i <= |w| && Lang(re, w[..i]) && LangRep(re, Dec(0), DecHi(None), w[i..]);
    u, v := w[..i], w[i..];
  }

  lemma RepCatHead(x: Re, y: Re, w: string) returns (p: string, a: string, v: string)
    requires w != [] && LangRep(Cat(x, y), 0, None, w)
    ensures w == p + (a + v) && Lang(x, p) && Lang(y, a) && LangRep(Cat(x, y), 0, None, v)
  {
    var pa: string;
    pa, v := RepHead(Cat(x, y), w);
    p, a := CatParts(x, y, pa);
    ConcatAssoc(p, a, v);
  }

  lemma ConcatAssoc(p: string, a: string, v: string)
    ensures (p + a) + v == p + (a + v)
  {
  }

  lemma CatParts(a: Re, b: Re, w: string) returns (u: string, v: string)
    requires Lang(Cat(a, b), w)
    ensures w == u + v && Lang(a, u) && Lang(b, v)
  {
    var i :| 0 <= i <= |w| && Lang(a, w[..i]) && Lang(b, w[i..]);
    u, v := w[..i], w[i..];
  }

  /** Letters, then a tail: what NameComponent is made of, without the detour over optional(repeated(...)). */
  ghost predicate NameTail(w: string) {
    LangRep(Cat(SEPARATOR, ALPHA_NUMERIC), 0, None, w)
  }

  lemma Alphas(w: string)
    ensures Lang(ALPHA_NUMERIC, w) <==> w != [] && AllIn(LowerAlnum, w)
  {
    ClassRep(LowerAlnum, 1, None, w);
  }

  lemma SeparatorLang(w: string)
    ensures Lang(SEPARATOR, w) <==> w == "." || w == "_" || w == "__" || AllIn(Lit('-'), w)
  {
    CharCat(Lit('_'), Literal('_'), w);
    ClassRep(Lit('-'), 0, None, w);
    if Lang(Cat(Literal('_'), Literal('_')), w) {
      assert w == "__";
    }
  }

  lemma NameComponentShape(w: string)
    ensures Lang(NAME_COMPONENT, w) <==> exists u, v :: w == u + v && u != [] && AllIn(LowerAlnum, u) && NameTail(v)
  {
    var y := Cat(SEPARATOR, ALPHA_NUMERIC);
    var opt := Rep(Rep(y, 1, None), 0, Some(1));
    Expression2(SEPARATOR, ALPHA_NUMERIC);
    assert Expression([Rep(y, 1, None)]) == Rep(y, 1, None);
    Expression2(ALPHA_NUMERIC, opt);
    assert NAME_COMPONENT == Cat(ALPHA_NUMERIC, opt);
    if Lang(NAME_COMPONENT, w) {
      var u, v := CatParts(ALPHA_NUMERIC, opt, w);
      Alphas(u);
      OptionalRepeated(y, v);
    }
    if exists u, v :: w == u + v && u != [] && AllIn(LowerAlnum, u) && NameTail(v) {
      var u, v :| w == u + v && u != [] && AllIn(LowerAlnum, u) && NameTail(v);
      Alphas(u);
      OptionalRepeated(y, v);
      LangAppend(ALPHA_NUMERIC, opt, u, v);
    }
  }

  lemma TailStep(p: string, a: string, v: string)
    requires p == "." || p == "_" || p == "__" || AllIn(Lit('-'), p)
    requires a != [] && AllIn(LowerAlnum, a) && NameTail(v)
    ensures NameTail(p + a + v)
  {
    SeparatorLang(p);
    Alphas(a);
    LangAppend(SEPARATOR, ALPHA_NUMERIC, p, a);
    RepAppend(Cat(SEPARATOR, ALPHA_NUMERIC), p + a, v);
  }

  // From the language to the scan.

  lemma {:induction false} NameRestOfAlnums(u: string, v: string)
    requires AllIn(LowerAlnum, u)
    ensures NameRest(u + v) == NameRest(v)
    decreases |u|
  {
    if u == [] {
      assert u + v == v;
    } else {
      assert (u + v)[1..] == u[1..] + v && (u + v)[0] == u[0];
      NameRestOfAlnums(u[1..], v);
    }
  }

  lemma {:induction false} DashRestOfDashes(u: string, v: string)
    requires AllIn(Lit('-'), u) && IsNameStart(v)
    ensures DashRest(u + v)
    decreases |u|
  {
    if u == [] {
      assert u + v == v;
    } else {
      assert (u + v)[1..] == u[1..] + v && (u + v)[0] == '-';
      DashRestOfDashes(u[1..], v);
    }
  }

  lemma NameRestOfSeparator(p: string, v: string)
    requires p == "." || p == "_" || p == "__" || AllIn(Lit('-'), p)
    requires IsNameStart(v)
    ensures NameRest(p + v)
  {
    var w := p + v;
    if p == [] {
      assert w == v;
    } else if p == "__" {
      assert w[2..] == v;
    } else if p == "." || p == "_" {
      assert w[1..] == v;
    } else {
      assert w[1..] == p[1..] + v && w[0] == '-';
      DashRestOfDashes(p[1..], v);
    }
  }

  lemma TailParts(w: string) returns (p: string, a: string, v: string)
    requires w != [] && NameTail(w)
    ensures w == p + (a + v) && a != [] && AllIn(LowerAlnum, a) && NameTail(v)
    ensures p == "." || p == "_" || p == "__" || AllIn(Lit('-'), p)
  {
    p, a, v := RepCatHead(SEPARATOR, ALPHA_NUMERIC, w);
    SeparatorLang(p);
    Alphas(a);
  }

  lemma {:induction false} TailIsNameRest(w: string)
    requires NameTail(w)
    ensures NameRest(w)
    decreases |w|
  {
    if w != [] {
      var p, a, v := TailParts(w);
      TailIsNameRest(v);
      LettersStart(a, v);
      NameRestOfSeparator(p, a + v);
    }
  }

  lemma LettersStart(a: string, v: string)
    requires a != [] && AllIn(LowerAlnum, a) && NameRest(v)
    ensures IsNameStart(a + v)
  {
    NameRestOfAlnums(a[1..], v);
    assert (a + v)[1..] == a[1..] + v && (a + v)[0] == a[0];
  }

  // From the scan to the language.

  lemma {:induction false} NameRestIsTail(w: string) returns (u: string, v: string)
    requires NameRest(w)
    ensures w == u + v && AllIn(LowerAlnum, u) && NameTail(v)
    decreases |w|, 1
  {
    if w == [] {
      u, v := [], [];
    } else if InClass(LowerAlnum, w[0]) {
      u, v := NameRestIsTail(w[1..]);
      u := [w[0]] + u;
    } else if w[0] == '-' {
      var p, a, rest := DashRestIsTail(w[1..]);
      TailStep([w[0]] + p, a, rest);
      u, v := [], [w[0]] + p + a + rest;
    } else {
      var p := if w[0] == '_' && |w| > 1 && w[1] == '_' then "__" else [w[0]];
      var a, rest := NameStartIsTail(w[|p|..]);
      assert w == p + w[|p|..];
      TailStep(p, a, rest);
      u, v := [], p + a + rest;
    }
  }

  lemma {:induction false} NameStartIsTail(w: string) returns (a: string, v: string)
    requires IsNameStart(w)
    ensures w == a + v && a != [] && AllIn(LowerAlnum, a) && NameTail(v)
    decreases |w|, 0
  {
    a, v := NameRestIsTail(w[1..]);
    a := [w[0]] + a;
  }

  lemma {:induction false} DashRestIsTail(w: string) returns (p: string, a: string, v: string)
    requires DashRest(w)
    ensures w == p + a + v && AllIn(Lit('-'), p) && a != [] && AllIn(LowerAlnum, a) && NameTail(v)
    decreases |w|, 2
  {
    if w[0] == '-' {
      p, a, v := DashRestIsTail(w[1..]);
      p := [w[0]] + p;
    } else {
      a, v := NameStartIsTail(w);
      p := [];
    }
  }

  /** The scan accepts exactly the name component language. */
  lemma NameComponentIff(w: string)
    ensures IsNameComponent(w) <==> Lang(NAME_COMPONENT, w)
  {
    NameComponentShape(w);
    if IsNameComponent(w) {
      var a, v := NameStartIsTail(w);
    }
    if Lang(NAME_COMPONENT, w) {
      var u, v :| w == u + v && u != [] && AllIn(LowerAlnum, u) && NameTail(v);
      TailIsNameRest(v);
      LettersStart(u, v);
    }
  }
}
