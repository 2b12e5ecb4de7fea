/** Regular expressions as package regexp matches them: leftmost-first, that is, in the order of preference of a
    backtracking matcher. `Matches` lists every way an expression can match, the preferred one first; `Lang` is the
    plain language. The combinators are those of pkg/addons/image_reference_regexp.go. */
module Regex {
  import opened Wrappers

  datatype CharClass =
    | Lit(c: char)
    | LowerAlnum      // [a-z0-9]
    | Alnum           // [a-zA-Z0-9]
    | AlnumDash       // [a-zA-Z0-9-]
    | DotUnderscore   // [._]
    | Digit           // [0-9]
    | Word            // [\w]
    | WordDotDash     // [\w.-]
    | Alpha           // [A-Za-z]
    | DigestSeparator // [-_+.]
    | HexDigit        // [[:xdigit:]]
    | ColonAt         // [:@]

  predicate IsAlnum(c: char) {
    'a' <= c <= 'z' || 'A' <= c <= 'Z' || '0' <= c <= '9'
  }

  predicate InClass(k: CharClass, c: char) {
    match k
    case Lit(d) => c == d
    case LowerAlnum => 'a' <= c <= 'z' || '0' <= c <= '9'
    case Alnum => IsAlnum(c)
    case AlnumDash => IsAlnum(c) || c == '-'
    case DotUnderscore => c == '.' || c == '_'
    case Digit => '0' <= c <= '9'
    case Word => IsAlnum(c) || c == '_'
    case WordDotDash => IsAlnum(c) || c == '_' || c == '.' || c == '-'
    case Alpha => 'a' <= c <= 'z' || 'A' <= c <= 'Z'
    case DigestSeparator => c == '-' || c == '_' || c == '+' || c == '.'
    case HexDigit => '0' <= c <= '9' || 'a' <= c <= 'f' || 'A' <= c <= 'F'
    case ColonAt => c == ':' || c == '@'
  }

  /** Rep(r, lo, hi) is greedy repetition, unbounded when hi is None. An iteration consumes something: none of the
      repeated expressions here can match the empty text, so nothing is lost. */
  datatype Re =
    | Chars(k: CharClass)
    | Cat(a: Re, b: Re)
    | Alt(a: Re, b: Re)
    | Rep(r: Re, lo: nat, hi: Option<nat>)
    | Capture(n: nat, r: Re)

  function Literal(c: char): Re { Chars(Lit(c)) }

  function Expression(rs: seq<Re>): Re
    requires |rs| >= 1
  {
    if |rs| == 1 then rs[0] else Cat(rs[0], Expression(rs[1..]))
  }

  function Optional(rs: seq<Re>): Re
    requires |rs| >= 1
  {
    Rep(Expression(rs), 0, Some(1))
  }

  function Repeated(rs: seq<Re>): Re
    requires |rs| >= 1
  {
    Rep(Expression(rs), 1, None)
  }

  function Dec(n: nat): nat { if n == 0 then 0 else n - 1 }

  function DecHi(hi: Option<nat>): Option<nat> {
    match hi
    case None => None
    case Some(n) => Some(Dec(n))
  }

  datatype State = State(pos: nat, caps: map<nat, string>)

  ghost predicate Within(s: string, from: nat, sts: seq<State>) {
    forall x :: x in sts ==> from <= x.pos <= |s|
  }

  /** All ways to match `re` at a state, in order of preference. */
  function Matches(re: Re, s: string, st: State): (r: seq<State>)
    requires st.pos <= |s|
    ensures Within(s, st.pos, r)
    decreases re, 0, 0, 0, 0
  {
    match re
    case Chars(k) => if st.pos < |s| && InClass(k, s[st.pos]) then [st.(pos := st.pos + 1)] else []
    case Cat(a, b) => MatchesAll(b, s, st.pos, Matches(a, s, st))
    case Alt(a, b) => Matches(a, s, st) + Matches(b, s, st)
    case Rep(r, lo, hi) => MatchesRep(r, lo, hi, s, st)
    case Capture(n, r) => Captured(n, s, st.pos, Matches(r, s, st))
  }

  function MatchesAll(re: Re, s: string, ghost from: nat, sts: seq<State>): (r: seq<State>)
    requires Within(s, from, sts)
    ensures Within(s, from, r)
    decreases re, 1, 0, 0, |sts|
  {
    if sts == [] then [] else Matches(re, s, sts[0]) + MatchesAll(re, s, from, sts[1..])
  }

  function MatchesRep(re: Re, lo: nat, hi: Option<nat>, s: string, st: State): (r: seq<State>)
    requires st.pos <= |s|
    ensures Within(s, st.pos, r)
    decreases re, 2, |s| - st.pos, 1, 0
  {
    (if hi == Some(0) then [] else MatchesMore(re, Dec(lo), DecHi(hi), s, st.pos, Matches(re, s, st)))
    + (if lo == 0 then [st] else [])
  }

  /** Go on repeating behind each way to match one iteration. */
  function MatchesMore(re: Re, lo: nat, hi: Option<nat>, s: string, from: nat, sts: seq<State>): (r: seq<State>)
    requires from <= |s| && Within(s, from, sts)
    ensures Within(s, from, r)
    decreases re, 2, |s| - from, 0, |sts|
  {
    if sts == [] then []
    else
      (if sts[0].pos > from then MatchesRep(re, lo, hi, s, sts[0]) else [])
      + MatchesMore(re, lo, hi, s, from, sts[1..])
  }

  function Captured(n: nat, s: string, from: nat, sts: seq<State>): (r: seq<State>)
    requires from <= |s| && Within(s, from, sts)
    ensures Within(s, from, r)
    decreases |sts|
  {
    if sts == [] then []
    else [sts[0].(caps := sts[0].caps[n := s[from..sts[0].pos]])] + Captured(n, s, from, sts[1..])
  }

  /** The first of the states that stand at the end of the text. */
  function First(s: string, sts: seq<State>): Option<State>
    decreases |sts|
  {
    if sts == [] then None
    else if sts[0].pos == |s| then Some(sts[0])
    else First(s, sts[1..])
  }

  /** FindStringSubmatch of ^re$: the captures of the preferred match of the whole text. */
  function FindSubmatch(re: Re, s: string): Option<map<nat, string>> {
    match First(s, Matches(re, s, State(0, map[])))
    case None => None
    case Some(st) => Some(st.caps)
  }

  /** The language of an expression. */
  ghost predicate Lang(re: Re, w: string)
    decreases re, 0, 0
  {
    match re
    case Chars(k) => |w| == 1 && InClass(k, w[0])
    case Cat(a, b) => exists i :: 0 <= i <= |w| && Lang(a, w[..i]) && Lang(b, w[i..])
    case Alt(a, b) => Lang(a, w) || Lang(b, w)
    case Rep(r, lo, hi) => LangRep(r, lo, hi, w)
    case Capture(_, r) => Lang(r, w)
  }

  ghost predicate LangRep(re: Re, lo: nat, hi: Option<nat>, w: string)
    decreases re, 1, |w|
  {
    || (lo == 0 && w == [])
    || (hi != Some(0) && exists i :: 0 < i <= |w| && Lang(re, w[..i]) && LangRep(re, Dec(lo), DecHi(hi), w[i..]))
  }

  lemma {:induction false} InMatchesAll(re: Re, s: string, from: nat, sts: seq<State>, x: State)
    requires Within(s, from, sts)
    ensures x in MatchesAll(re, s, from, sts) <==> exists y :: y in sts && x in Matches(re, s, y)
    decreases |sts|
  {
    if sts != [] {
      var rest := sts[1..];
      InMatchesAll(re, s, from, rest, x);
      assert forall y :: y in sts <==> y == sts[0] || y in rest;
      if x in Matches(re, s, sts[0]) {
        assert sts[0] in sts;
      } else if x in MatchesAll(re, s, from, rest) {
        var y :| y in rest && x in Matches(re, s, y);
        assert y in sts;
      }
    }
  }

  lemma {:induction false} InMatchesMore(re: Re, lo: nat, hi: Option<nat>, s: string, from: nat, sts: seq<State>,
      x: State)
    requires from <= |s| && Within(s, from, sts)
    ensures x in MatchesMore(re, lo, hi, s, from, sts)
       <==> exists y :: y in sts && y.pos > from && x in MatchesRep(re, lo, hi, s, y)
    decreases |sts|
  {
    if sts != [] {
      InMatchesMore(re, lo, hi, s, from, sts[1..], x);
      assert sts == [sts[0]] + sts[1..];
    }
  }

  lemma {:induction false} InCaptured(n: nat, s: string, from: nat, sts: seq<State>, x: State)
    requires from <= |s| && Within(s, from, sts)
    ensures x in Captured(n, s, from, sts)
       <==> exists y :: y in sts && x == y.(caps := y.caps[n := s[from..y.pos]])
    decreases |sts|
  {
    if sts != [] {
      InCaptured(n, s, from, sts[1..], x);
      assert sts == [sts[0]] + sts[1..];
    }
  }

  /** What a match consumes is in the language. */
  lemma {:induction false} Sound(re: Re, s: string, st: State, x: State)
    requires st.pos <= |s|
    requires x in Matches(re, s, st)
    ensures st.pos <= x.pos <= |s|
    ensures Lang(re, s[st.pos..x.pos])
    decreases re, 0, 0
  {
    match re
    case Chars(k) =>
    case Cat(a, b) =>
      InMatchesAll(b, s, st.pos, Matches(a, s, st), x);
      var y :| y in Matches(a, s, st) && x in Matches(b, s, y);
      Sound(a, s, st, y);
      Sound(b, s, y, x);
      CatIntro(a, b, s, st.pos, y.pos, x.pos);
    case Alt(a, b) =>
      if x in Matches(a, s, st) { Sound(a, s, st, x); } else { Sound(b, s, st, x); }
    case Rep(r, lo, hi) => SoundRep(r, lo, hi, s, st, x);
    case Capture(n, r) =>
      InCaptured(n, s, st.pos, Matches(r, s, st), x);
      var y :| y in Matches(r, s, st) && x == y.(caps := y.caps[n := s[st.pos..y.pos]]);
      Sound(r, s, st, y);
  }

  lemma Split(s: string, i: nat, j: nat, k: nat)
    requires i <= j <= k <= |s|
    ensures s[i..k][..j - i] == s[i..j] && s[i..k][j - i..] == s[j..k]
  {
  }

  lemma CatIntro(a: Re, b: Re, s: string, i: nat, j: nat, k: nat)
    requires i <= j <= k <= |s|
    requires Lang(a, s[i..j]) && Lang(b, s[j..k])
    ensures Lang(Cat(a, b), s[i..k])
  {
    Split(s, i, j, k);
    var w, n := s[i..k], j - i;
    assert 0 <= n <= |w| && Lang(a, w[..n]) && Lang(b, w[n..]);
  }

  lemma CatElim(a: Re, b: Re, s: string, i: nat, k: nat) returns (j: nat)
    requires i <= k <= |s| && Lang(Cat(a, b), s[i..k])
    ensures i <= j <= k && Lang(a, s[i..j]) && Lang(b, s[j..k])
  {
    var w := s[i..k];
    var n :| 0 <= n <= |w| && Lang(a, w[..n]) && Lang(b, w[n..]);
    j := i + n;
    Split(s, i, j, k);
  }

  lemma RepElim(re: Re, lo: nat, hi: Option<nat>, s: string, i: nat, k: nat) returns (j: nat)
    requires i <= k <= |s| && LangRep(re, lo, hi, s[i..k])
    requires lo > 0 || i < k
    ensures i < j <= k && hi != Some(0) && Lang(re, s[i..j]) && LangRep(re, Dec(lo), DecHi(hi), s[j..k])
  {
    var w := s[i..k];
    var n :| 0 < n <= |w| && Lang(re, w[..n]) && LangRep(re, Dec(lo), DecHi(hi), w[n..]);
    j := i + n;
    Split(s, i, j, k);
  }

  lemma RepIntro(re: Re, lo: nat, hi: Option<nat>, s: string, i: nat, j: nat, k: nat)
    requires i < j <= k <= |s| && hi != Some(0)
    requires Lang(re, s[i..j]) && LangRep(re, Dec(lo), DecHi(hi), s[j..k])
    ensures LangRep(re, lo, hi, s[i..k])
  {
    Split(s, i, j, k);
    var w, n := s[i..k], j - i;
    assert 0 < n <= |w| && Lang(re, w[..n]) && LangRep(re, Dec(lo), DecHi(hi), w[n..]);
  }

  lemma InMatchesRep(re: Re, lo: nat, hi: Option<nat>, s: string, st: State, x: State)
    requires st.pos <= |s|
    ensures x in MatchesRep(re, lo, hi, s, st)
       <==> ((lo == 0 && x == st)
             || (hi != Some(0) && x in MatchesMore(re, Dec(lo), DecHi(hi), s, st.pos, Matches(re, s, st))))
  {
  }

  lemma {:induction false} SoundRep(re: Re, lo: nat, hi: Option<nat>, s: string, st: State, x: State)
    requires st.pos <= |s|
    requires x in MatchesRep(re, lo, hi, s, st)
    ensures st.pos <= x.pos <= |s|
    ensures LangRep(re, lo, hi, s[st.pos..x.pos])
    decreases re, 1, |s| - st.pos
  {
    InMatchesRep(re, lo, hi, s, st, x);
    if lo == 0 && x == st {
      assert s[st.pos..st.pos] == [];
    } else {
      InMatchesMore(re, Dec(lo), DecHi(hi), s, st.pos, Matches(re, s, st), x);
      var y :| y in Matches(re, s, st) && y.pos > st.pos && x in MatchesRep(re, Dec(lo), DecHi(hi), s, y);
      Sound(re, s, st, y);
      SoundRep(re, Dec(lo), DecHi(hi), s, y, x);
      RepIntro(re, lo, hi, s, st.pos, y.pos, x.pos);
    }
  }

  /** Whatever is in the language is found. */
  lemma {:induction false} Complete(re: Re, s: string, st: State, j: nat) returns (x: State)
    requires st.pos <= j <= |s|
    requires Lang(re, s[st.pos..j])
    ensures x in Matches(re, s, st) && x.pos == j
    decreases re, 0, 0
  {
    var w := s[st.pos..j];
    match re
    case Chars(k) =>
      x := st.(pos := st.pos + 1);
    case Cat(a, b) =>
      var i := CatElim(a, b, s, st.pos, j);
      var y := Complete(a, s, st, i);
      x := Complete(b, s, y, j);
      InMatchesAll(b, s, st.pos, Matches(a, s, st), x);
    case Alt(a, b) =>
      if Lang(a, w) { x := Complete(a, s, st, j); } else { x := Complete(b, s, st, j); }
    case Rep(r, lo, hi) =>
      x := CompleteRep(r, lo, hi, s, st, j);
    case Capture(n, r) =>
      var y := Complete(r, s, st, j);
      x := y.(caps := y.caps[n := s[st.pos..y.pos]]);
      InCaptured(n, s, st.pos, Matches(r, s, st), x);
  }

  lemma {:induction false} CompleteRep(re: Re, lo: nat, hi: Option<nat>, s: string, st: State, j: nat)
      returns (x: State)
    requires st.pos <= j <= |s|
    requires LangRep(re, lo, hi, s[st.pos..j])
    ensures x in MatchesRep(re, lo, hi, s, st) && x.pos == j
    decreases re, 1, |s| - st.pos
  {
    var w := s[st.pos..j];
    if lo == 0 && w == [] {
      x := st;
    } else {
      var i := RepElim(re, lo, hi, s, st.pos, j);
      var y := Complete(re, s, st, i);
      x := CompleteRep(re, Dec(lo), DecHi(hi), s, y, j);
      InMatchesMore(re, Dec(lo), DecHi(hi), s, st.pos, Matches(re, s, st), x);
      InMatchesRep(re, lo, hi, s, st, x);
    }
  }

  /** The whole text is matched just when it is in the language. */
  lemma FindIffLang(re: Re, s: string)
    ensures FindSubmatch(re, s).Some? <==> Lang(re, s)
  {
    var sts := Matches(re, s, State(0, map[]));
    FirstIff(s, sts);
    assert s[0..|s|] == s;
    if Lang(re, s) {
      var x := Complete(re, s, State(0, map[]), |s|);
    }
    if First(s, sts).Some? {
      Sound(re, s, State(0, map[]), First(s, sts).value);
    }
  }

  lemma {:induction false} FirstIff(s: string, sts: seq<State>)
    ensures First(s, sts).Some? <==> exists x :: x in sts && x.pos == |s|
    ensures First(s, sts).Some? ==> First(s, sts).value in sts && First(s, sts).value.pos == |s|
    decreases |sts|
  {
    if sts != [] {
      FirstIff(s, sts[1..]);
      assert sts == [sts[0]] + sts[1..];
    }
  }
}
