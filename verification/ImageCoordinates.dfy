/** Image coordinates (pkg/registry/image.go). */
module ImageCoordinates {
  import opened Wrappers
  import opened Text

  datatype Image = Image(registry: string, user: string, name: string, tag: string)

  /** unicode.IsSpace. */
  predicate IsSpace(c: char) {
    || '\t' <= c <= '\r' || c == ' ' || c == '\U{85}' || c == '\U{A0}'
    || c == '\U{1680}' || '\U{2000}' <= c <= '\U{200A}'
    || c == '\U{2028}' || c == '\U{2029}' || c == '\U{202F}' || c == '\U{205F}' || c == '\U{3000}'
  }

  const SPACES := "\t\n\U{0B}\U{0C}\r \U{85}\U{A0}\U{1680}\U{2000}\U{2001}\U{2002}\U{2003}\U{2004}\U{2005}\U{2006}"
    + "\U{2007}\U{2008}\U{2009}\U{200A}\U{2028}\U{2029}\U{202F}\U{205F}\U{3000}"

  /** These 25 characters. */
  lemma SpacesAre(c: char)
    ensures IsSpace(c) <==> c in SPACES
  {
    if '\t' <= c <= '\r' {
      assert SPACES[c as int - '\t' as int] == c;
    } else if '\U{2000}' <= c <= '\U{200A}' {
      assert SPACES[9 + c as int - '\U{2000}' as int] == c;
    } else if IsSpace(c) {
      assert SPACES[5] == ' ' && SPACES[6] == '\U{85}' && SPACES[7] == '\U{A0}' && SPACES[8] == '\U{1680}';
      assert SPACES[20] == '\U{2028}' && SPACES[21] == '\U{2029}' && SPACES[22] == '\U{202F}';
      assert SPACES[23] == '\U{205F}' && SPACES[24] == '\U{3000}';
    }
  }

  /** Nothing is left after strings.TrimSpace. */
  predicate Blank(s: string) {
    forall i :: 0 <= i < |s| ==> IsSpace(s[i])
  }

  /** The image that a text stands for, None where it is refused. */
  function Parsed(text: string): Option<Image> {
    var parts := Split(text, '/');
    var nameAndTag := Split(parts[|parts| - 1], ':');
    if Blank(text) || |parts| > 3 || |nameAndTag| > 2 then None
    else
      Some(Image(if |parts| == 3 then parts[0] else "",
                 if |parts| == 3 then parts[1] else if |parts| == 2 then parts[0] else "",
                 nameAndTag[0],
                 if |nameAndTag| == 2 then nameAndTag[1] else ""))
  }

  function Tagged(name: string, tag: string): string {
    if tag == "" then name else name + ":" + tag
  }

  function Slashed(s: string): string {
    if s == "" then "" else s + "/"
  }

  function Printed(i: Image): string {
    Slashed(i.registry) + Slashed(i.user) + Tagged(i.name, i.tag)
  }

  /** Refused are blank texts, those with more than two slashes, and those with more than one colon behind the last
      slash. */
  lemma RefusedIff(lead: string, last: string)
    requires '/' !in last && (lead != "" ==> lead[|lead| - 1] == '/')
    ensures Parsed(lead + last).None? <==>
            Blank(lead + last) || multiset(lead + last)['/'] > 2 || multiset(last)[':'] > 1
  {
    SplitCount(lead + last, '/');
    SplitLast(lead, '/', last);
    SplitCount(last, ':');
  }

  // ---- Printing undoes parsing ----

  predicate NoEmptyLead(parts: seq<string>) {
    forall k :: 0 <= k < |parts| - 1 ==> parts[k] != ""
  }

  lemma TagPrintsBack(last: string)
    requires |Split(last, ':')| <= 2
    ensures
      var nt := Split(last, ':');
      var t := Tagged(nt[0], if |nt| == 2 then nt[1] else "");
      if |nt| == 2 && nt[1] == "" then last == t + ":" else t == last
  {
    JoinSplit(last, ':');
  }

  lemma JoinThree(parts: seq<string>)
    requires 1 <= |parts| <= 3
    ensures Join(parts, '/') ==
            if |parts| == 1 then parts[0]
            else if |parts| == 2 then parts[0] + "/" + parts[1]
            else parts[0] + "/" + (parts[1] + "/" + parts[2])
  {
    if |parts| == 3 {
      assert parts[1..][1..][0] == parts[2];
      assert Join(parts[1..], '/') == parts[1] + "/" + parts[2];
    }
  }

  function Leading(parts: seq<string>): string
    requires |parts| <= 3
  {
    (if |parts| > 1 then parts[0] + "/" else "") + (if |parts| > 2 then parts[1] + "/" else "")
  }

  function PrintedLead(parts: seq<string>): string
    requires |parts| <= 3
  {
    (if |parts| > 1 then Slashed(parts[0]) else "") + (if |parts| > 2 then Slashed(parts[1]) else "")
  }

  lemma LeadIsKeptIff(parts: seq<string>)
    requires 1 <= |parts| <= 3
    ensures Join(parts, '/') == Leading(parts) + parts[|parts| - 1]
    ensures if NoEmptyLead(parts) then PrintedLead(parts) == Leading(parts) else |PrintedLead(parts)| < |Leading(parts)|
  {
    JoinThree(parts);
  }

  lemma PrintedIsLead(text: string)
    requires Parsed(text).Some?
    ensures
      var parts, i := Split(text, '/'), Parsed(text).value;
      |parts| <= 3 && Printed(i) == PrintedLead(parts) + Tagged(i.name, i.tag)
  {
    LeadFields(Split(text, '/'), Parsed(text).value);
  }

  lemma LeadFields(parts: seq<string>, i: Image)
    requires 1 <= |parts| <= 3
    requires i.registry == if |parts| == 3 then parts[0] else ""
    requires i.user == if |parts| == 3 then parts[1] else if |parts| == 2 then parts[0] else ""
    ensures Slashed(i.registry) + Slashed(i.user) == PrintedLead(parts)
  {
  }

  /** A text that parses is printed back exactly when no segment before the name is empty and no colon ends it. */
  lemma PrintsBackIff(text: string)
    requires Parsed(text).Some?
    ensures Printed(Parsed(text).value) == text <==> NoEmptyLead(Split(text, '/')) && text[|text| - 1] != ':'
  {
    var parts := Split(text, '/');
    var last := parts[|parts| - 1];
    var i := Parsed(text).value;
    var t := Tagged(i.name, i.tag);
    JoinSplit(text, '/');
    LeadIsKeptIff(parts);
    PrintedIsLead(text);
    TagPrintsBack(last);
    EndsWithColon(last);
    assert |parts| > 1 ==> Leading(parts)[|Leading(parts)| - 1] == '/';
    SameEnds(Leading(parts), last, PrintedLead(parts), t);
  }

  /** "/x" comes back as "x" ... */
  lemma LeadingSlashIsLost()
    ensures Parsed("/x").Some? && Printed(Parsed("/x").value) == "x"
  {
    SplitCons("", '/', "x");
    SplitNone("x", '/');
    SplitNone("x", ':');
    assert "" + ['/'] + "x" == "/x";
    assert !IsSpace("/x"[1]);
  }

  /** ... and so does "x:". */
  lemma LastColonIsLost()
    ensures Parsed("x:").Some? && Printed(Parsed("x:").value) == "x"
  {
    SplitNone("x:", '/');
    SplitCons("x", ':', "");
    assert "x" + [':'] + "" == "x:";
    assert !IsSpace("x:"[0]);
  }

  /** A shorter or equal lead and a shorter or equal end give the same text only if both are equal. */
  lemma SameEnds(a: string, b: string, c: string, d: string)
    requires a == c || |c| < |a|
    requires b == d || |d| < |b|
    ensures a + b == c + d <==> a == c && b == d
  {
    if a + b == c + d {
      assert |a| + |b| == |c| + |d|;
    }
  }

  lemma EndsWithColon(last: string)
    requires |Split(last, ':')| <= 2
    ensures last != "" && last[|last| - 1] == ':' <==> |Split(last, ':')| == 2 && Split(last, ':')[1] == ""
  {
    var nt := Split(last, ':');
    JoinSplit(last, ':');
    if |nt| == 2 {
      assert last == nt[0] + ":" + nt[1];
    }
  }

  // ---- Parsing undoes printing ----

  predicate Proper(i: Image) {
    && '/' !in i.registry && '/' !in i.user && '/' !in i.name && '/' !in i.tag && ':' !in i.name && ':' !in i.tag
    && (i.registry != "" ==> i.user != "")
    && !Blank(Printed(i))
  }

  /** Where parsing comes from, whatever the text. */
  lemma ParsedShape(text: string)
    requires Parsed(text).Some?
    ensures
      var i := Parsed(text).value;
      '/' !in i.registry && '/' !in i.user && '/' !in i.name && '/' !in i.tag && ':' !in i.name && ':' !in i.tag
  {
    var parts := Split(text, '/');
    var last := parts[|parts| - 1];
    var nt := Split(last, ':');
    JoinSplit(last, ':');
    if |nt| == 2 {
      assert last == nt[0] + ":" + nt[1];
      assert forall c :: c in nt[0] || c in nt[1] ==> c in last;
    }
  }

  function PrintedParts(i: Image): seq<string> {
    (if i.registry == "" then [] else [i.registry]) + (if i.user == "" then [] else [i.user]) + [Tagged(i.name, i.tag)]
  }

  lemma PrintedSplits(i: Image)
    requires '/' !in i.registry && '/' !in i.user && '/' !in i.name && '/' !in i.tag
    ensures Split(Printed(i), '/') == PrintedParts(i)
  {
    var parts := PrintedParts(i);
    JoinThree(parts);
    assert Printed(i) == Join(parts, '/');
    assert '/' !in Tagged(i.name, i.tag);
    SplitJoin(parts, '/');
  }

  lemma TaggedSplits(name: string, tag: string)
    requires ':' !in name && ':' !in tag
    ensures Split(Tagged(name, tag), ':') == if tag == "" then [name] else [name, tag]
  {
    if tag == "" {
      SplitNone(name, ':');
    } else {
      SplitNone(tag, ':');
      SplitCons(name, ':', tag);
      assert name + [':'] + tag == Tagged(name, tag);
    }
  }

  /** The images that come back from their text. */
  lemma ParsesBackIff(i: Image)
    ensures Parsed(Printed(i)) == Some(i) <==> Proper(i)
  {
    if Proper(i) {
      PrintedSplits(i);
      TaggedSplits(i.name, i.tag);
    } else if Parsed(Printed(i)) == Some(i) {
      ParsedShape(Printed(i));
      PrintedSplits(i);
      TaggedSplits(i.name, i.tag);
    }
  }

  /** Under one registry and user, two images have the same text exactly if name and tag agree; or if the colon of one
      is in the name. */
  lemma SameDestinationIff(a: Image, b: Image, registry: string, user: string)
    ensures Printed(a.(registry := registry, user := user)) == Printed(b.(registry := registry, user := user)) <==>
            Tagged(a.name, a.tag) == Tagged(b.name, b.tag)
    ensures ':' !in a.name && ':' !in b.name ==>
              (Tagged(a.name, a.tag) == Tagged(b.name, b.tag) <==> a.name == b.name && a.tag == b.tag)
  {
    var lead := Slashed(registry) + Slashed(user);
    var x, y := Tagged(a.name, a.tag), Tagged(b.name, b.tag);
    assert Printed(a.(registry := registry, user := user)) == lead + x;
    assert Printed(b.(registry := registry, user := user)) == lead + y;
    if lead + x == lead + y {
      assert x == (lead + x)[|lead|..] && y == (lead + y)[|lead|..];
    }
    if ':' !in a.name && ':' !in b.name && x == y {
      SameTagged(a.name, a.tag, b.name, b.tag);
    }
  }

  lemma SameTagged(n1: string, t1: string, n2: string, t2: string)
    requires ':' !in n1 && ':' !in n2 && Tagged(n1, t1) == Tagged(n2, t2)
    ensures n1 == n2 && t1 == t2
  {
    NameOfTagged(n1, t1);
    NameOfTagged(n2, t2);
    assert t1 != "" ==> Tagged(n1, t1)[|n1| + 1..] == t1;
    assert t2 != "" ==> Tagged(n2, t2)[|n2| + 1..] == t2;
  }

  lemma NameOfTagged(name: string, tag: string)
    requires ':' !in name
    ensures Split(Tagged(name, tag), ':')[0] == name
  {
    if tag == "" {
      SplitNone(name, ':');
    } else {
      SplitCons(name, ':', tag);
      assert name + [':'] + tag == Tagged(name, tag);
    }
  }

  // ---- The code ----

  method NewImage(image: string) returns (r: Option<Image>)
    ensures r == Parsed(image)
  {
    if Blank(image) {
      return None;
    }
    var parts := Split(image, '/');
    var registry, user, name, tag := "", "", "", "";
    if |parts| == 1 {
      name := parts[0];
    } else if |parts| == 2 {
      user, name := parts[0], parts[1];
    } else if |parts| == 3 {
      registry, user, name := parts[0], parts[1], parts[2];
    } else {
      return None;
    }
    var nameAndTag := Split(name, ':');
    if |nameAndTag| == 1 {
      SplitOne(name, ':');
    } else if |nameAndTag| == 2 {
      name, tag := nameAndTag[0], nameAndTag[1];
    } else {
      return None;
    }
    return Some(Image(registry, user, name, tag));
  }

  lemma SplitOne(s: string, c: char)
    requires |Split(s, c)| == 1
    ensures Split(s, c)[0] == s
  {
    JoinSplit(s, c);
  }

  method String(image: Image) returns (builder: string)
    ensures builder == Printed(image)
  {
    builder := "";
    if image.registry != "" {
      builder := builder + image.registry;
      builder := builder + "/";
    }
    if image.user != "" {
      builder := builder + image.user;
      builder := builder + "/";
    }
    builder := builder + image.name;
    if image.tag != "" {
      builder := builder + ":";
      builder := builder + image.tag;
    }
  }
}
