/** The pieces of an image reference, said outright: which texts are name components, domains, tags and digests. */
module ImagePieces {
  import opened Regex
  import opened RegexLanguage
  import opened ImageGrammar
  import opened ImageAlphabets
  import Text

  predicate LowerOrDigit(c: char) {
    c in LOWER || c in DIGITS
  }

  /** Next to each other stand a letter or digit and anything, two dashes, or two underscores. */
  predicate Neighbours(a: char, b: char) {
    LowerOrDigit(a) || LowerOrDigit(b) || a == b == '-' || a == b == '_'
  }

  predicate Spaced(w: string) {
    && (forall i :: 0 <= i < |w| ==> LowerOrDigit(w[i]) || w[i] in "._-")
    && (forall i :: 0 <= i < |w| - 1 ==> Neighbours(w[i], w[i + 1]))
    && (forall i :: 0 <= i < |w| - 2 ==> !(w[i] == w[i + 1] == w[i + 2] == '_'))
  }

  predicate EndsPlain(w: string) {
    w != "" && LowerOrDigit(w[|w| - 1])
  }

  lemma SpacedTail(w: string)
    requires w != ""
    ensures Spaced(w) <==>
            && (LowerOrDigit(w[0]) || w[0] in "._-") && Spaced(w[1..])
            && (|w| > 1 ==> Neighbours(w[0], w[1])) && (|w| > 2 ==> !(w[0] == w[1] == w[2] == '_'))
  {
    var t := w[1..];
    if Spaced(t) {
      forall i | 0 < i < |w| ensures LowerOrDigit(w[i]) || w[i] in "._-" {
        assert w[i] == t[i - 1];
      }
      forall i | 0 < i < |w| - 1 ensures Neighbours(w[i], w[i + 1]) {
        assert w[i] == t[i - 1] && w[i + 1] == t[i];
      }
      forall i | 0 < i < |w| - 2 ensures !(w[i] == w[i + 1] == w[i + 2] == '_') {
        assert w[i] == t[i - 1] && w[i + 1] == t[i] && w[i + 2] == t[i + 1];
      }
    }
  }

  /** Name components: small letters and digits at both ends, and between them also single dots, one or two underscores,
      or dashes. */
  lemma ComponentIff(w: string)
    ensures IsNameComponent(w) <==> w != "" && LowerOrDigit(w[0]) && LowerOrDigit(w[|w| - 1]) && Spaced(w)
  {
    StartIff(w);
  }

  lemma {:induction false} RestIff(w: string)
    ensures NameRest(w) <==> Spaced(w) && (w == "" || EndsPlain(w))
    decreases |w|, 1
  {
    if w != "" {
      ClassesAreAlphabets(w[0]);
      SpacedTail(w);
      RestIff(w[1..]);
      StartIff(w[1..]);
      DashIff(w[1..]);
      if |w| > 1 {
        SpacedTail(w[1..]);
        StartIff(w[2..]);
        assert w[1..][1..] == w[2..];
      }
    }
  }

  lemma {:induction false} StartIff(w: string)
    ensures IsNameStart(w) <==> w != "" && LowerOrDigit(w[0]) && Spaced(w) && EndsPlain(w)
    decreases |w|, 2
  {
    if w != "" {
      ClassesAreAlphabets(w[0]);
      SpacedTail(w);
      RestIff(w[1..]);
    }
  }

  lemma {:induction false} DashIff(w: string)
    ensures DashRest(w) <==> w != "" && (LowerOrDigit(w[0]) || w[0] == '-') && Spaced(w) && EndsPlain(w)
    decreases |w|, 0
  {
    if w != "" {
      ClassesAreAlphabets(w[0]);
      SpacedTail(w);
      DashIff(w[1..]);
      RestIff(w[1..]);
    }
  }

  // ---- Domains ----

  predicate LetterOrDigit(c: char) {
    c in LOWER || c in UPPER || c in DIGITS
  }

  /** Letters, digits and dashes, no dash at either end. */
  predicate Label(w: string) {
    && w != "" && w[0] != '-' && w[|w| - 1] != '-'
    && forall i :: 0 <= i < |w| ==> LetterOrDigit(w[i]) || w[i] == '-'
  }

  lemma LabelIff(w: string)
    ensures IsDomainComponent(w) <==> Label(w)
  {
    forall i | 0 <= i < |w| ensures InClass(AlnumDash, w[i]) <==> LetterOrDigit(w[i]) || w[i] == '-' {
      ClassesAreAlphabets(w[i]);
    }
  }

  predicate AllLabels(labels: seq<string>) {
    forall i :: 0 <= i < |labels| ==> Label(labels[i])
  }

  function Behind(w: string, c: char, e: nat): seq<string>
    requires e <= |w|
  {
    if e < |w| then Text.Split(w[e + 1..], c) else []
  }

  /** What Find cuts off is the first piece of Split. */
  lemma CutSplits(w: string, c: char, e: nat)
    requires e <= |w| && c !in w[..e] && (e < |w| ==> w[e] == c)
    ensures Text.Split(w, c) == [w[..e]] + Behind(w, c, e)
  {
    if e < |w| {
      assert w == w[..e] + [c] + w[e + 1..];
      Text.SplitCons(w[..e], c, w[e + 1..]);
    } else {
      assert w[..e] == w;
      Text.SplitNone(w, c);
    }
  }

  lemma NotBefore(w: string, c: char)
    ensures c !in w[..Find(w, Lit(c), 0)]
  {
    var e := Find(w, Lit(c), 0);
    assert forall i :: 0 <= i < e ==> !InClass(Lit(c), w[i]);
  }

  lemma {:induction false} HostIff(w: string)
    ensures IsHost(w) <==> AllLabels(Text.Split(w, '.'))
    decreases |w|
  {
    var e := Find(w, Lit('.'), 0);
    NotBefore(w, '.');
    CutSplits(w, '.', e);
    LabelIff(w[..e]);
    FirstAndRest(w[..e], Behind(w, '.', e));
    if e < |w| {
      HostIff(w[e + 1..]);
    }
  }

  lemma FirstAndRest(first: string, rest: seq<string>)
    ensures AllLabels([first] + rest) <==> Label(first) && AllLabels(rest)
  {
    if AllLabels([first] + rest) {
      assert ([first] + rest)[0] == first;
      forall i | 0 <= i < |rest| ensures Label(rest[i]) {
        assert ([first] + rest)[i + 1] == rest[i];
      }
    }
  }

  predicate Number(w: string) {
    w != "" && forall i :: 0 <= i < |w| ==> w[i] in DIGITS
  }

  lemma DigitsIff(w: string)
    ensures AllIn(Digit, w) <==> forall i :: 0 <= i < |w| ==> w[i] in DIGITS
  {
    forall i | 0 <= i < |w| ensures InClass(Digit, w[i]) <==> w[i] in DIGITS {
      ClassesAreAlphabets(w[i]);
    }
  }

  /** Domains: labels with dots between them, and a colon and a number behind them, or not. */
  lemma DomainIff(w: string)
    ensures var parts := Text.Split(w, ':');
      IsDomain(w) <==> AllLabels(Text.Split(parts[0], '.')) && (|parts| == 1 || (|parts| == 2 && Number(parts[1])))
  {
    var e := Find(w, Lit(':'), 0);
    NotBefore(w, ':');
    CutSplits(w, ':', e);
    HostIff(w[..e]);
    if e < |w| {
      var port := w[e + 1..];
      DigitsIff(port);
      PortIff(port);
    }
  }

  lemma PortIff(port: string)
    ensures Number(port) <==> |Text.Split(port, ':')| == 1 && Number(Text.Split(port, ':')[0])
  {
    if ':' in port {
      Text.SplitCount(port, ':');
    } else {
      Text.SplitNone(port, ':');
    }
  }

  // ---- Tags ----

  /** Tags: 1 to 128 letters, digits, underscores, dots and dashes, the first no dot and no dash. */
  lemma TagTextIff(w: string)
    ensures IsTag(w) <==>
            && 1 <= |w| <= 128 && w[0] != '.' && w[0] != '-'
            && forall i :: 0 <= i < |w| ==> LetterOrDigit(w[i]) || w[i] in "_.-"
  {
    forall i | 0 <= i < |w| ensures InClass(WordDotDash, w[i]) <==> LetterOrDigit(w[i]) || w[i] in "_.-" {
      ClassesAreAlphabets(w[i]);
    }
    if w != "" {
      ClassesAreAlphabets(w[0]);
      WordIff(w);
    }
  }

  lemma WordIff(w: string)
    requires w != ""
    ensures AllIn(WordDotDash, w) <==> InClass(WordDotDash, w[0]) && AllIn(WordDotDash, w[1..])
  {
    forall i | 0 < i < |w| ensures w[i] == w[1..][i - 1] {}
  }

  // ---- Digests ----

  predicate Letter(c: char) {
    c in LOWER || c in UPPER
  }

  predicate Separator(c: char) {
    c in "-_+."
  }

  /** At this place is a letter, or a digit that does not come first or behind a separator, or a separator with
      something in front of it and behind it. */
  predicate AlgorithmAt(w: string, i: nat)
    requires i < |w|
  {
    if i == 0 || Separator(w[i - 1]) then Letter(w[i])
    else LetterOrDigit(w[i]) || (Separator(w[i]) && i < |w| - 1)
  }

  predicate Algorithm(w: string) {
    w != "" && forall i :: 0 <= i < |w| ==> AlgorithmAt(w, i)
  }

  /** In front of the first separator, and behind it. */
  lemma AlgorithmCut(w: string, e: nat)
    requires e <= |w| && (e < |w| ==> Separator(w[e])) && forall i :: 0 <= i < e ==> !Separator(w[i])
    ensures Algorithm(w) <==>
            && e > 0 && Letter(w[0]) && (forall i :: 0 < i < e ==> LetterOrDigit(w[i]))
            && (e < |w| ==> Algorithm(w[e + 1..]))
  {
    forall i | 0 <= i < e
      ensures AlgorithmAt(w, i) <==> if i == 0 then Letter(w[i]) else LetterOrDigit(w[i])
    {
    }
    if e < |w| {
      NoLetter(w[e]);
      assert AlgorithmAt(w, e) <==> e > 0 && e < |w| - 1;
      AlgorithmBehind(w, e, w[e + 1..]);
    }
  }

  lemma AlgorithmBehind(w: string, e: nat, rest: string)
    requires e < |w| && Separator(w[e]) && rest == w[e + 1..]
    ensures (forall i :: e < i < |w| ==> AlgorithmAt(w, i)) <==> forall i :: 0 <= i < |rest| ==> AlgorithmAt(rest, i)
  {
    forall i | 0 <= i < |rest| ensures AlgorithmAt(rest, i) <==> AlgorithmAt(w, e + 1 + i) {
      assert rest[i] == w[e + 1 + i] && (i > 0 ==> rest[i - 1] == w[e + i]);
    }
    if forall i :: 0 <= i < |rest| ==> AlgorithmAt(rest, i) {
      forall i | e < i < |w| ensures AlgorithmAt(w, i) {
        assert AlgorithmAt(rest, i - e - 1);
      }
    }
  }

  lemma NoLetter(c: char)
    requires Separator(c)
    ensures !LetterOrDigit(c)
  {
    IsLower(c);
    IsUpper(c);
    IsDigit(c);
  }

  lemma SeparatorsFound(w: string)
    ensures var e := Find(w, DigestSeparator, 0);
      (e < |w| ==> Separator(w[e])) && forall i :: 0 <= i < e ==> !Separator(w[i])
  {
    forall i | 0 <= i < |w| ensures InClass(DigestSeparator, w[i]) <==> Separator(w[i]) {
      ClassesAreAlphabets(w[i]);
    }
  }

  lemma {:induction false} AlgorithmIff(w: string)
    ensures IsAlgorithm(w) <==> Algorithm(w)
    decreases |w|
  {
    var e := Find(w, DigestSeparator, 0);
    SeparatorsFound(w);
    AlgorithmCut(w, e);
    HeadIff(w, e);
    if e < |w| {
      AlgorithmIff(w[e + 1..]);
    }
  }

  lemma HeadIff(w: string, e: nat)
    requires 0 <= e <= |w|
    ensures e > 0 ==> (InClass(Alpha, w[0]) <==> Letter(w[0]))
    ensures e > 0 ==> (AllIn(Alnum, w[1..e]) <==> forall i :: 0 < i < e ==> LetterOrDigit(w[i]))
  {
    if e > 0 {
      ClassesAreAlphabets(w[0]);
      var t := w[1..e];
      forall i | 0 <= i < |t| ensures InClass(Alnum, t[i]) <==> LetterOrDigit(w[i + 1]) {
        ClassesAreAlphabets(t[i]);
      }
      forall i | 0 < i < e ensures w[i] == t[i - 1] {}
    }
  }

  predicate HexText(w: string) {
    |w| >= 32 && forall i :: 0 <= i < |w| ==> w[i] in HEX
  }

  lemma HexIff(w: string)
    ensures AllIn(HexDigit, w) <==> forall i :: 0 <= i < |w| ==> w[i] in HEX
  {
    forall i | 0 <= i < |w| ensures InClass(HexDigit, w[i]) <==> w[i] in HEX {
      ClassesAreAlphabets(w[i]);
    }
  }

  /** Digests: an algorithm, a colon, and at least 32 hexadecimal digits. */
  lemma DigestIff(w: string)
    ensures var parts := Text.Split(w, ':');
      IsDigest(w) <==> |parts| == 2 && Algorithm(parts[0]) && HexText(parts[1])
  {
    var e := Find(w, Lit(':'), 0);
    NotBefore(w, ':');
    CutSplits(w, ':', e);
    if e < |w| {
      AlgorithmIff(w[..e]);
      HexIff(w[e + 1..]);
      HexHasNoColon(w[e + 1..]);
    }
  }

  lemma HexHasNoColon(w: string)
    ensures HexText(w) <==> |Text.Split(w, ':')| == 1 && HexText(Text.Split(w, ':')[0])
  {
    if ':' in w {
      Text.SplitCount(w, ':');
    } else {
      Text.SplitNone(w, ':');
    }
  }
}
