/** The languages of the shapes that image references are made of, as scans over the text. */
module RegexLanguage {
  import opened Wrappers
  import opened Regex

  predicate AllIn(k: CharClass, w: string) {
    forall i :: 0 <= i < |w| ==> InClass(k, w[i])
  }

  /** The first index at or behind `from` with a character of `k`, or the length. */
  function Find(w: string, k: CharClass, from: nat): (i: nat)
    requires from <= |w|
    ensures from <= i <= |w|
    ensures i < |w| ==> InClass(k, w[i])
    ensures forall j :: from <= j < i ==> !InClass(k, w[j])
    decreases |w| - from
  {
    if from == |w| || InClass(k, w[from]) then from else Find(w, k, from + 1)
  }

  /** No character class inside `re` shares a character with `k`. */
  ghost predicate Avoids(re: Re, k: CharClass) {
    match re
    case Chars(l) => forall c :: !(InClass(l, c) && InClass(k, c))
    case Cat(a, b) => Avoids(a, k) && Avoids(b, k)
    case Alt(a, b) => Avoids(a, k) && Avoids(b, k)
    case Rep(r, _, _) => Avoids(r, k)
    case Capture(_, r) => Avoids(r, k)
  }

  lemma {:induction false} LangAvoids(re: Re, w: string, k: CharClass)
    requires Avoids(re, k) && Lang(re, w)
    ensures forall i :: 0 <= i < |w| ==> !InClass(k, w[i])
    decreases re, 0, 0
  {
    match re
    case Chars(_) =>
    case Cat(a, b) =>
      var i :| 0 <= i <= |w| && Lang(a, w[..i]) && Lang(b, w[i..]);
      LangAvoids(a, w[..i], k);
      LangAvoids(b, w[i..], k);
      JoinAvoids(w, i, k);
    case Alt(a, b) =>
      if Lang(a, w) { LangAvoids(a, w, k); } else { LangAvoids(b, w, k); }
    case Rep(r, lo, hi) => RepAvoids(r, lo, hi, w, k);
    case Capture(_, r) => LangAvoids(r, w, k);
  }

  lemma {:induction false} RepAvoids(re: Re, lo: nat, hi: Option<nat>, w: string, k: CharClass)
    requires Avoids(re, k) && LangRep(re, lo, hi, w)
    ensures forall i :: 0 <= i < |w| ==> !InClass(k, w[i])
    decreases re, 1, |w|
  {
    if w != [] {
      var i :| 0 < i <= |w| && Lang(re, w[..i]) && LangRep(re, Dec(lo), DecHi(hi), w[i..]);
      LangAvoids(re, w[..i], k);
      RepAvoids(re, Dec(lo), DecHi(hi), w[i..], k);
      JoinAvoids(w, i, k);
    }
  }

  lemma JoinAvoids(w: string, i: nat, k: CharClass)
    requires i <= |w|
    requires forall j :: 0 <= j < i ==> !InClass(k, w[..i][j])
    requires forall j :: 0 <= j < |w| - i ==> !InClass(k, w[i..][j])
    ensures forall j :: 0 <= j < |w| ==> !InClass(k, w[j])
  {
    forall j | 0 <= j < |w| ensures !InClass(k, w[j]) {
      if j < i { assert w[j] == w[..i][j]; } else { assert w[j] == w[i..][j - i]; }
    }
  }

  lemma CharCat(k: CharClass, b: Re, w: string)
    ensures Lang(Cat(Chars(k), b), w) <==> w != [] && InClass(k, w[0]) && Lang(b, w[1..])
  {
    if w != [] && InClass(k, w[0]) && Lang(b, w[1..]) {
      assert 0 <= 1 <= |w| && Lang(Chars(k), w[..1]) && Lang(b, w[1..]);
    }
  }

  lemma {:induction false} ClassRep(k: CharClass, lo: nat, hi: Option<nat>, w: string)
    requires hi.Some? ==> lo <= hi.value
    ensures LangRep(Chars(k), lo, hi, w) <==> lo <= |w| && (hi.Some? ==> |w| <= hi.value) && AllIn(k, w)
    decreases |w|
  {
    if w != [] && hi != Some(0) {
      ClassRep(k, Dec(lo), DecHi(hi), w[1..]);
      assert AllIn(k, w) <==> InClass(k, w[0]) && AllIn(k, w[1..]) by {
        forall i | 0 < i < |w| ensures w[i] == w[1..][i - 1] {}
      }
      if InClass(k, w[0]) && LangRep(Chars(k), Dec(lo), DecHi(hi), w[1..]) {
        assert 0 < 1 <= |w| && Lang(Chars(k), w[..1]) && LangRep(Chars(k), Dec(lo), DecHi(hi), w[1..]);
      }
    }
  }

  lemma CatLangRight(a: Re, b: Re, c: Re, w: string)
    requires Lang(Cat(Cat(a, b), c), w)
    ensures Lang(Cat(a, Cat(b, c)), w)
  {
    assert w[0..|w|] == w;
    var j := CatElim(Cat(a, b), c, w, 0, |w|);
    var i := CatElim(a, b, w, 0, j);
    CatIntro(b, c, w, i, j, |w|);
    CatIntro(a, Cat(b, c), w, 0, i, |w|);
  }

  lemma CatLangLeft(a: Re, b: Re, c: Re, w: string)
    requires Lang(Cat(a, Cat(b, c)), w)
    ensures Lang(Cat(Cat(a, b), c), w)
  {
    assert w[0..|w|] == w;
    var i := CatElim(a, Cat(b, c), w, 0, |w|);
    var j := CatElim(b, c, w, i, |w|);
    CatIntro(a, b, w, 0, i, j);
    CatIntro(Cat(a, b), c, w, 0, j, |w|);
  }

  /** optional(repeated(y)) is y any number of times. */
  lemma OptionalRepeated(y: Re, w: string)
    ensures Lang(Rep(Rep(y, 1, None), 0, Some(1)), w) <==> LangRep(y, 0, None, w)
  {
    var r := Rep(y, 1, None);
    if w != [] {
      assert LangRep(y, 0, None, w) <==> LangRep(y, 1, None, w);
      if LangRep(r, 0, Some(1), w) {
        var i :| 0 < i <= |w| && Lang(r, w[..i]) && LangRep(r, Dec(0), DecHi(Some(1)), w[i..]);
        assert w[..|w|] == w;
      }
      if LangRep(y, 1, None, w) {
        assert w[..|w|] == w && w[|w|..] == [];
        assert 0 < |w| <= |w| && Lang(r, w[..|w|]) && LangRep(r, Dec(0), DecHi(Some(1)), w[|w|..]);
      }
    }
  }

  /** Cut at the characters of `k`, every piece of the text is in the language of `x`. */
  ghost predicate AllPieces(x: Re, k: CharClass, w: string)
    decreases |w|
  {
    var e := Find(w, k, 0);
    Lang(x, w[..e]) && (e < |w| ==> AllPieces(x, k, w[e + 1..]))
  }

  lemma NoneBefore(w: string, i: nat, k: CharClass)
    requires i <= |w|
    requires forall j :: 0 <= j < i ==> !InClass(k, w[..i][j])
    ensures i <= Find(w, k, 0)
  {
    forall j | 0 <= j < i ensures !InClass(k, w[j]) {
      assert w[j] == w[..i][j];
    }
  }

  /** x, then any number of times a separator and x. */
  lemma {:induction false} SeparatedList(x: Re, k: CharClass, w: string)
    requires Avoids(x, k)
    ensures Lang(Cat(x, Rep(Cat(Chars(k), x), 0, None)), w) <==> AllPieces(x, k, w)
    decreases |w|, 1
  {
    var y := Cat(Chars(k), x);
    var e := Find(w, k, 0);
    SeparatedTail(x, k, w[e..]);
    if e < |w| {
      assert w[e..][1..] == w[e + 1..];
    }
    if Lang(Cat(x, Rep(y, 0, None)), w) {
      var i :| 0 <= i <= |w| && Lang(x, w[..i]) && Lang(Rep(y, 0, None), w[i..]);
      LangAvoids(x, w[..i], k);
      NoneBefore(w, i, k);
      if i < |w| {
        TailHead(x, k, w[i..]);
        assert w[i..][0] == w[i];
      }
      assert i == e;
    }
    if AllPieces(x, k, w) {
      assert 0 <= e <= |w| && Lang(x, w[..e]) && Lang(Rep(y, 0, None), w[e..]);
    }
  }

  lemma {:induction false} SeparatedTail(x: Re, k: CharClass, w: string)
    requires Avoids(x, k)
    ensures LangRep(Cat(Chars(k), x), 0, None, w) <==> w == [] || (InClass(k, w[0]) && AllPieces(x, k, w[1..]))
    decreases |w|, 0
  {
    var y := Cat(Chars(k), x);
    if w != [] {
      var t := w[1..];
      SeparatedList(x, k, t);
      if LangRep(y, 0, None, w) { TailHead(x, k, w); }
      if InClass(k, w[0]) && AllPieces(x, k, t) { TailIntro(x, k, w); }
    }
  }

  lemma TailHead(x: Re, k: CharClass, w: string)
    requires w != [] && LangRep(Cat(Chars(k), x), 0, None, w)
    ensures InClass(k, w[0]) && Lang(Cat(x, Rep(Cat(Chars(k), x), 0, None)), w[1..])
  {
    var y, t := Cat(Chars(k), x), w[1..];
    var i :| 0 < i <= |w| && Lang(y, w[..i]) && LangRep(y, Dec(0), DecHi(None), w[i..]);
    CharCat(k, x, w[..i]);
    assert w[..i][1..] == t[..i - 1] && w[i..] == t[i - 1..];
    assert 0 <= i - 1 <= |t| && Lang(x, t[..i - 1]) && Lang(Rep(y, 0, None), t[i - 1..]);
  }

  lemma TailIntro(x: Re, k: CharClass, w: string)
    requires w != [] && InClass(k, w[0]) && Lang(Cat(x, Rep(Cat(Chars(k), x), 0, None)), w[1..])
    ensures LangRep(Cat(Chars(k), x), 0, None, w)
  {
    var y, t := Cat(Chars(k), x), w[1..];
    var j :| 0 <= j <= |t| && Lang(x, t[..j]) && Lang(Rep(y, 0, None), t[j..]);
    assert w[..j + 1][1..] == t[..j] && w[j + 1..] == t[j..];
    CharCat(k, x, w[..j + 1]);
    assert 0 < j + 1 <= |w| && Lang(y, w[..j + 1]) && LangRep(y, Dec(0), DecHi(None), w[j + 1..]);
  }
}
