/** How the addons' manifests are called in the plan that installs them (pkg/plan/recipe/install_plans.go). */
module AddonNames {

  function Digit(d: nat): char
    requires d < 10
  {
    ['0', '1', '2', '3', '4', '5', '6', '7', '8', '9'][d]
  }

  function Decimal(n: nat): (s: string)
    ensures s != "" && '-' !in s
  {
    if n < 10 then [Digit(n)] else Decimal(n / 10) + [Digit(n % 10)]
  }

  /** "%02d" */
  function TwoDigits(n: nat): (s: string)
    ensures s != "" && '-' !in s
  {
    if n < 10 then ['0'] + Decimal(n) else Decimal(n)
  }

  /** "%s-%02d" */
  function FileName(addon: string, i: nat): string {
    addon + "-" + TwoDigits(i)
  }

  const PREFIX := "install:addon:"

  function ResourceName(addon: string, i: nat): string {
    PREFIX + FileName(addon, i)
  }

  lemma DigitInjective(d: nat, e: nat)
    requires d < 10 && e < 10 && Digit(d) == Digit(e)
    ensures d == e
  {
  }

  lemma SameSnoc(s: string, c: char, t: string, e: char)
    requires s + [c] == t + [e]
    ensures s == t && c == e
  {
    assert (s + [c])[..|s|] == s && (t + [e])[..|t|] == t;
    assert (s + [c])[|s|] == c && (t + [e])[|t|] == e;
  }

  lemma OneDigitIff(n: nat)
    ensures |Decimal(n)| == 1 <==> n < 10
  {
  }

  lemma {:induction false} DecimalInjective(m: nat, n: nat)
    requires Decimal(m) == Decimal(n)
    ensures m == n
  {
    OneDigitIff(m);
    OneDigitIff(n);
    if m < 10 && n < 10 {
      assert [Digit(m)][0] == [Digit(n)][0];
      DigitInjective(m, n);
    } else if m >= 10 && n >= 10 {
      SameSnoc(Decimal(m / 10), Digit(m % 10), Decimal(n / 10), Digit(n % 10));
      DigitInjective(m % 10, n % 10);
      DecimalInjective(m / 10, n / 10);
    }
  }

  /** No number of ten or more starts with a zero. */
  lemma {:induction false} NoLeadingZero(n: nat)
    ensures n > 0 ==> Decimal(n)[0] != '0'
  {
    if n >= 10 {
      NoLeadingZero(n / 10);
    }
  }

  lemma TwoDigitsInjective(m: nat, n: nat)
    requires TwoDigits(m) == TwoDigits(n)
    ensures m == n
  {
    NoLeadingZero(m);
    NoLeadingZero(n);
    if m < 10 && n < 10 {
      assert TwoDigits(m)[1..] == Decimal(m) && TwoDigits(n)[1..] == Decimal(n);
      DecimalInjective(m, n);
    } else if m >= 10 && n >= 10 {
      DecimalInjective(m, n);
    }
  }

  /** What a text of digits denotes. */
  function Value(s: string): int {
    if s == "" then 0 else 10 * Value(s[..|s| - 1]) + (s[|s| - 1] as int - '0' as int)
  }

  lemma {:induction false} DecimalDenotes(n: nat)
    ensures Value(Decimal(n)) == n && forall k :: 0 <= k < |Decimal(n)| ==> '0' <= Decimal(n)[k] <= '9'
    decreases n
  {
    DigitDenotes(n % 10);
    if n >= 10 {
      DecimalDenotes(n / 10);
      ValueSnoc(Decimal(n / 10), Digit(n % 10));
    } else {
      ValueSnoc("", Digit(n));
      assert "" + [Digit(n)] == [Digit(n)];
    }
  }

  lemma DigitDenotes(d: nat)
    requires d < 10
    ensures '0' <= Digit(d) <= '9' && Digit(d) as int - '0' as int == d
  {
  }

  lemma ValueSnoc(s: string, c: char)
    ensures Value(s + [c]) == 10 * Value(s) + (c as int - '0' as int)
  {
    assert (s + [c])[..|s|] == s;
  }

  /** The name and the file of a manifest: the addon, a dash and at least two digits that denote the index. */
  lemma NamesDenote(addon: string, i: nat) returns (digits: string)
    ensures ResourceName(addon, i) == "install:addon:" + addon + "-" + digits
    ensures FileName(addon, i) == addon + "-" + digits
    ensures |digits| >= 2 && (i < 100 ==> |digits| == 2) && Value(digits) == i
    ensures forall k :: 0 <= k < |digits| ==> '0' <= digits[k] <= '9'
  {
    digits := TwoDigits(i);
    DecimalDenotes(i);
    OneDigitIff(i);
    if i < 10 {
      ZeroInFront(Decimal(i));
    } else {
      OneDigitIff(i / 10);
    }
    assert PREFIX + FileName(addon, i) == "install:addon:" + addon + "-" + digits;
  }

  lemma ZeroInFront(s: string)
    requires |s| == 1
    ensures Value(['0'] + s) == Value(s)
  {
    var t := ['0'] + s;
    assert t[..1] == ['0'] && ['0'][..0] == "" && s[..0] == "";
    assert Value(['0']) == 10 * Value("") + 0;
  }

  /** What stands behind the last dash, and in front of it. */
  lemma LastDash(a: string, s: string, b: string, t: string)
    requires '-' !in s && '-' !in t && a + "-" + s == b + "-" + t
    ensures a == b && s == t
  {
    var x := a + "-" + s;
    NoDashBehind(a, s);
    NoDashBehind(b, t);
    assert x[|a|] == '-' && x[|b|] == '-';
    assert x[..|a|] == a && x[..|b|] == b;
    assert x[|a| + 1..] == s && x[|b| + 1..] == t;
  }

  lemma NoDashBehind(a: string, s: string)
    requires '-' !in s
    ensures forall k :: |a| < k < |a + "-" + s| ==> (a + "-" + s)[k] != '-'
  {
  }

  /** Whatever the addons are called, even "x" and "x-00": no two manifests share a resource name. */
  lemma ResourceNameInjective(a: string, i: nat, b: string, j: nat)
    requires ResourceName(a, i) == ResourceName(b, j)
    ensures a == b && i == j
  {
    assert ResourceName(a, i)[|PREFIX|..] == FileName(a, i) && ResourceName(b, j)[|PREFIX|..] == FileName(b, j);
    LastDash(a, TwoDigits(i), b, TwoDigits(j));
    TwoDigitsInjective(i, j);
  }
}
