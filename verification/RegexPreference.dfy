/** How the preferred match of a sequence is found when the text leaves a part only one end that can work. */
module RegexPreference {
  import opened Wrappers
  import opened Regex

  /** The preferred match that reaches the end of the text. */
  function Best(re: Re, s: string, st: State): Option<State>
    requires st.pos <= |s|
  {
    First(s, Matches(re, s, st))
  }

  function OrElse(a: Option<State>, b: Option<State>): Option<State> {
    if a.Some? then a else b
  }

  predicate CaptureFree(re: Re) {
    match re
    case Chars(_) => true
    case Cat(a, b) => CaptureFree(a) && CaptureFree(b)
    case Alt(a, b) => CaptureFree(a) && CaptureFree(b)
    case Rep(r, _, _) => CaptureFree(r)
    case Capture(_, _) => false
  }

  lemma {:induction false} FirstConcat(s: string, a: seq<State>, b: seq<State>)
    ensures First(s, a + b) == OrElse(First(s, a), First(s, b))
    decreases |a|
  {
    if a == [] {
      assert a + b == b;
    } else {
      assert (a + b)[1..] == a[1..] + b;
      FirstConcat(s, a[1..], b);
    }
  }

  lemma {:induction false} FromIrrelevant(re: Re, s: string, i: nat, j: nat, sts: seq<State>)
    requires Within(s, i, sts) && Within(s, j, sts)
    ensures MatchesAll(re, s, i, sts) == MatchesAll(re, s, j, sts)
    decreases |sts|
  {
    if sts != [] {
      FromIrrelevant(re, s, i, j, sts[1..]);
    }
  }

  lemma {:induction false} MatchesAllConcat(re: Re, s: string, from: nat, a: seq<State>, b: seq<State>)
    requires Within(s, from, a + b) && Within(s, from, a) && Within(s, from, b)
    ensures MatchesAll(re, s, from, a + b) == MatchesAll(re, s, from, a) + MatchesAll(re, s, from, b)
    decreases |a|
  {
    if a == [] {
      assert a + b == b;
    } else {
      assert (a + b)[1..] == a[1..] + b && (a + b)[0] == a[0];
      MatchesAllConcat(re, s, from, a[1..], b);
      var m, x, y := Matches(re, s, a[0]), MatchesAll(re, s, from, a[1..]), MatchesAll(re, s, from, b);
      assert m + (x + y) == (m + x) + y;
    }
  }

  lemma {:induction false} MatchesAllCat(b: Re, c: Re, s: string, from: nat, sts: seq<State>)
    requires Within(s, from, sts)
    ensures MatchesAll(c, s, from, MatchesAll(b, s, from, sts)) == MatchesAll(Cat(b, c), s, from, sts)
    decreases |sts|
  {
    if sts != [] {
      var m, rest := Matches(b, s, sts[0]), sts[1..];
      MatchesAllCat(b, c, s, from, rest);
      MatchesAllConcat(c, s, from, m, MatchesAll(b, s, from, rest));
      FromIrrelevant(c, s, from, sts[0].pos, m);
    }
  }

  lemma CatAssoc(a: Re, b: Re, c: Re, s: string, st: State)
    requires st.pos <= |s|
    ensures Matches(Cat(Cat(a, b), c), s, st) == Matches(Cat(a, Cat(b, c)), s, st)
  {
    MatchesAllCat(b, c, s, st.pos, Matches(a, s, st));
  }

  /** When only the state `t` can be continued, it is the one that counts. */
  lemma {:induction false} BestOfAll(b: Re, s: string, from: nat, sts: seq<State>, t: State)
    requires Within(s, from, sts)
    requires forall x :: x in sts && x != t ==> Best(b, s, x) == None
    ensures First(s, MatchesAll(b, s, from, sts)) == if t in sts then Best(b, s, t) else None
    decreases |sts|
  {
    if sts != [] {
      var x, rest := sts[0], sts[1..];
      assert x in sts && forall y :: y in rest ==> y in sts;
      assert t in sts <==> t == x || t in rest;
      BestOfAll(b, s, from, rest, t);
      FirstConcat(s, Matches(b, s, x), MatchesAll(b, s, from, rest));
    }
  }

  lemma {:induction false} KeepsCaptures(re: Re, s: string, st: State, x: State)
    requires CaptureFree(re) && st.pos <= |s|
    requires x in Matches(re, s, st)
    ensures x.caps == st.caps
    decreases re, 0, 0
  {
    match re
    case Chars(_) =>
    case Cat(a, b) =>
      InMatchesAll(b, s, st.pos, Matches(a, s, st), x);
      var y :| y in Matches(a, s, st) && x in Matches(b, s, y);
      KeepsCaptures(a, s, st, y);
      KeepsCaptures(b, s, y, x);
    case Alt(a, b) =>
      if x in Matches(a, s, st) { KeepsCaptures(a, s, st, x); } else { KeepsCaptures(b, s, st, x); }
    case Rep(r, lo, hi) => RepKeepsCaptures(r, lo, hi, s, st, x);
  }

  lemma {:induction false} RepKeepsCaptures(re: Re, lo: nat, hi: Option<nat>, s: string, st: State, x: State)
    requires CaptureFree(re) && st.pos <= |s|
    requires x in MatchesRep(re, lo, hi, s, st)
    ensures x.caps == st.caps
    decreases re, 1, |s| - st.pos
  {
    InMatchesRep(re, lo, hi, s, st, x);
    if !(lo == 0 && x == st) {
      InMatchesMore(re, Dec(lo), DecHi(hi), s, st.pos, Matches(re, s, st), x);
      var y :| y in Matches(re, s, st) && y.pos > st.pos && x in MatchesRep(re, Dec(lo), DecHi(hi), s, y);
      KeepsCaptures(re, s, st, y);
      RepKeepsCaptures(re, Dec(lo), DecHi(hi), s, y, x);
    }
  }

  predicate IsCapture(n: nat, s: string, st: State, x: State)
    requires st.pos <= |s|
  {
    st.pos <= x.pos <= |s| && x.caps == st.caps[n := s[st.pos..x.pos]]
  }

  lemma CaptureSound(n: nat, r: Re, s: string, st: State, x: State)
    requires CaptureFree(r) && st.pos <= |s|
    requires x in Matches(Capture(n, r), s, st)
    ensures IsCapture(n, s, st, x) && Lang(r, s[st.pos..x.pos])
  {
    var sts := Matches(r, s, st);
    InCaptured(n, s, st.pos, sts, x);
    var y :| y in sts && x == y.(caps := y.caps[n := s[st.pos..y.pos]]);
    KeepsCaptures(r, s, st, y);
    Sound(r, s, st, y);
  }

  lemma CaptureComplete(n: nat, r: Re, s: string, st: State, x: State)
    requires CaptureFree(r) && st.pos <= |s|
    requires IsCapture(n, s, st, x) && Lang(r, s[st.pos..x.pos])
    ensures x in Matches(Capture(n, r), s, st)
  {
    var y := Complete(r, s, st, x.pos);
    KeepsCaptures(r, s, st, y);
    InCaptured(n, s, st.pos, Matches(r, s, st), y.(caps := y.caps[n := s[st.pos..y.pos]]));
  }

  /** A capture followed by something that only one end `e` of the capture allows. */
  lemma CaptureThen(n: nat, r: Re, b: Re, s: string, st: State, e: nat)
    requires CaptureFree(r) && st.pos <= e <= |s|
    requires forall j, caps :: st.pos <= j <= |s| && j != e && Lang(r, s[st.pos..j]) ==>
               Best(b, s, State(j, caps)) == None
    ensures Best(Cat(Capture(n, r), b), s, st)
         == if Lang(r, s[st.pos..e]) then Best(b, s, State(e, st.caps[n := s[st.pos..e]])) else None
  {
    var sts := Matches(Capture(n, r), s, st);
    var t := State(e, st.caps[n := s[st.pos..e]]);
    forall x | x in sts && x != t ensures Best(b, s, x) == None {
      CaptureSound(n, r, s, st, x);
      assert x == State(x.pos, x.caps);
    }
    if Lang(r, s[st.pos..e]) {
      CaptureComplete(n, r, s, st, t);
    } else if t in sts {
      CaptureSound(n, r, s, st, t);
    }
    BestOfAll(b, s, st.pos, sts, t);
  }

  lemma CaptureLast(n: nat, r: Re, s: string, st: State)
    requires CaptureFree(r) && st.pos <= |s|
    ensures Best(Capture(n, r), s, st)
         == if Lang(r, s[st.pos..]) then Some(State(|s|, st.caps[n := s[st.pos..]])) else None
  {
    var sts := Matches(Capture(n, r), s, st);
    var t := State(|s|, st.caps[n := s[st.pos..]]);
    assert s[st.pos..|s|] == s[st.pos..];
    FirstIff(s, sts);
    if Lang(r, s[st.pos..]) {
      CaptureComplete(n, r, s, st, t);
    }
    if First(s, sts).Some? {
      CaptureSound(n, r, s, st, First(s, sts).value);
    }
  }

  lemma MatchesAllOne(re: Re, s: string, from: nat, st: State)
    requires from <= st.pos <= |s|
    ensures MatchesAll(re, s, from, [st]) == Matches(re, s, st)
  {
    assert MatchesAll(re, s, from, [st][1..]) == [];
  }

  lemma CharThen(k: CharClass, b: Re, s: string, st: State)
    requires st.pos <= |s|
    ensures Best(Cat(Chars(k), b), s, st)
         == if st.pos < |s| && InClass(k, s[st.pos]) then Best(b, s, st.(pos := st.pos + 1)) else None
  {
    var sts := Matches(Chars(k), s, st);
    assert Matches(Cat(Chars(k), b), s, st) == MatchesAll(b, s, st.pos, sts);
    if st.pos < |s| && InClass(k, s[st.pos]) {
      MatchesAllOne(b, s, st.pos, st.(pos := st.pos + 1));
    }
  }

  lemma NoIteration(x: Re, s: string, st: State)
    requires st.pos <= |s|
    ensures MatchesRep(x, 0, Some(0), s, st) == [st]
  {
  }

  lemma {:induction false} MoreOfNone(x: Re, s: string, from: nat, sts: seq<State>)
    requires from <= |s| && Within(s, from, sts)
    requires forall y :: y in sts ==> y.pos > from
    ensures MatchesMore(x, 0, Some(0), s, from, sts) == sts
    decreases |sts|
  {
    if sts != [] {
      assert sts[0] in sts && forall y :: y in sts[1..] ==> y in sts;
      MoreOfNone(x, s, from, sts[1..]);
      NoIteration(x, s, sts[0]);
    }
  }

  lemma NonEmpty(x: Re, s: string, st: State)
    requires st.pos <= |s| && !Lang(x, "")
    ensures forall y :: y in Matches(x, s, st) ==> y.pos > st.pos
  {
    assert s[st.pos..st.pos] == "";
    forall y | y in Matches(x, s, st) ensures y.pos > st.pos {
      Sound(x, s, st, y);
    }
  }

  lemma RepOnce(x: Re, lo: nat, hi: Option<nat>, s: string, st: State)
    requires st.pos <= |s|
    requires lo == 0 && hi != Some(0)
    ensures MatchesRep(x, lo, hi, s, st) == MatchesMore(x, Dec(lo), DecHi(hi), s, st.pos, Matches(x, s, st)) + [st]
  {
    var more := MatchesMore(x, Dec(lo), DecHi(hi), s, st.pos, Matches(x, s, st));
    assert MatchesRep(x, lo, hi, s, st) == (if hi == Some(0) then [] else more) + (if lo == 0 then [st] else []);
  }

  lemma RepMatches(x: Re, lo: nat, hi: Option<nat>, s: string, st: State)
    requires st.pos <= |s|
    ensures Matches(Rep(x, lo, hi), s, st) == MatchesRep(x, lo, hi, s, st)
  {
  }

  lemma OptionalMatches(x: Re, s: string, st: State)
    requires st.pos <= |s| && !Lang(x, "")
    ensures Matches(Rep(x, 0, Some(1)), s, st) == Matches(x, s, st) + [st]
  {
    assert MatchesMore(x, 0, Some(0), s, st.pos, Matches(x, s, st)) == Matches(x, s, st) by {
      NonEmpty(x, s, st);
      MoreOfNone(x, s, st.pos, Matches(x, s, st));
    }
    RepMatches(x, 0, Some(1), s, st);
    RepOnce(x, 0, Some(1), s, st);
  }

  /** An optional part is preferred to be there. */
  lemma OptionalThen(x: Re, b: Re, s: string, st: State)
    requires st.pos <= |s| && !Lang(x, "")
    ensures Best(Cat(Rep(x, 0, Some(1)), b), s, st) == OrElse(Best(Cat(x, b), s, st), Best(b, s, st))
  {
    OptionalMatches(x, s, st);
    var sts := Matches(x, s, st);
    MatchesAllConcat(b, s, st.pos, sts, [st]);
    MatchesAllOne(b, s, st.pos, st);
    FirstConcat(s, MatchesAll(b, s, st.pos, sts), Matches(b, s, st));
  }

  lemma OptionalLast(x: Re, s: string, st: State)
    requires st.pos <= |s| && !Lang(x, "")
    ensures Best(Rep(x, 0, Some(1)), s, st)
         == OrElse(Best(x, s, st), if st.pos == |s| then Some(st) else None)
  {
    OptionalMatches(x, s, st);
    FirstConcat(s, Matches(x, s, st), [st]);
    assert [st][1..] == [];
  }
}
