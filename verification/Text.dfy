/** String helpers shared by the components: what Go's strings.Split and strings.Join do for a one-character
    separator. */
module Text {

  /** strings.Split(s, c): never empty; one more piece than there are separators. */
  function Split(s: string, c: char): (parts: seq<string>)
    ensures |parts| >= 1
    ensures forall i :: 0 <= i < |parts| ==> c !in parts[i]
  {
    if s == [] then [""]
    else
      var rest := Split(s[1..], c);
      if s[0] == c then [""] + rest
      else [[s[0]] + rest[0]] + rest[1..]
  }

  /** strings.Join(parts, c). */
  function Join(parts: seq<string>, c: char): string
    requires |parts| >= 1
  {
    if |parts| == 1 then parts[0] else parts[0] + [c] + Join(parts[1..], c)
  }

  lemma {:induction false} JoinSplit(s: string, c: char)
    ensures Join(Split(s, c), c) == s
  {
    if s != [] {
      var rest := Split(s[1..], c);
      JoinSplit(s[1..], c);
      if s[0] == c {
        assert ([""] + rest)[1..] == rest;
      } else {
        var parts := [[s[0]] + rest[0]] + rest[1..];
        if |rest| > 1 {
          assert parts[1..] == rest[1..];
        }
      }
    }
  }

  lemma {:induction false} SplitNone(s: string, c: char)
    requires c !in s
    ensures Split(s, c) == [s]
  {
    if s != [] {
      SplitNone(s[1..], c);
      assert [s[0]] + s[1..] == s;
    }
  }

  lemma {:induction false} SplitCons(s: string, c: char, rest: string)
    requires c !in s
    ensures Split(s + [c] + rest, c) == [s] + Split(rest, c)
  {
    var t := s + [c] + rest;
    if s == [] {
      assert t[1..] == rest;
    } else {
      SplitCons(s[1..], c, rest);
      assert t[1..] == s[1..] + [c] + rest;
      assert Split(t, c) == [[s[0]] + s[1..]] + Split(rest, c);
      assert [s[0]] + s[1..] == s;
    }
  }

  lemma {:induction false} SplitJoin(parts: seq<string>, c: char)
    requires |parts| >= 1
    requires forall i :: 0 <= i < |parts| ==> c !in parts[i]
    ensures Split(Join(parts, c), c) == parts
  {
    if |parts| == 1 {
      SplitNone(parts[0], c);
    } else {
      SplitJoin(parts[1..], c);
      SplitCons(parts[0], c, Join(parts[1..], c));
    }
  }

  /** One more piece than there are separators. */
  lemma {:induction false} SplitCount(s: string, c: char)
    ensures |Split(s, c)| == multiset(s)[c] + 1
  {
    if s != [] {
      SplitCount(s[1..], c);
      assert s == [s[0]] + s[1..];
      assert multiset(s) == multiset([s[0]]) + multiset(s[1..]);
    }
  }

  /** The last piece is what stands behind the last separator. */
  lemma {:induction false} SplitLast(lead: string, c: char, last: string)
    requires c !in last && (lead != "" ==> lead[|lead| - 1] == c)
    ensures var parts := Split(lead + last, c); parts[|parts| - 1] == last
    decreases |lead|
  {
    var s := lead + last;
    if lead == "" {
      assert s == last;
      SplitNone(last, c);
    } else {
      assert s[1..] == lead[1..] + last;
      SplitLast(lead[1..], c, last);
      if |lead| > 1 {
        SplitCount(s[1..], c);
        assert s[1..][|lead| - 2] == c;
      }
    }
  }
}
