/** The operations of pkg/addons/image_reference.go and UpdateImage of pkg/addons/transform.go as the code runs them,
    with ReferenceRegexp itself, and the theorems of ImageReference and ImageUpdates for its grammar. */
module Images {
  import opened Wrappers
  import opened Regex
  import opened ImageGrammar
  import opened ImageReference
  import opened ImageUpdates
  import opened RegexLanguage
  import ReferenceSplitter

  const SCANS := ReferenceSplitter.COMPONENTS.scans

  /** parseImageReference; `lower` is strings.ToLower. */
  method ParseImageReference(lower: string -> string, s: string) returns (r: Result<ImageReference, ParseError>)
    ensures r == Parse(SCANS, lower, s)
    ensures r.Ok? ==> Print(r.value) == s && (r.value.organisation == "" ==> '/' !in r.value.name)
    ensures r.Ok? ==> Lang(REFERENCE, s)
  {
    ReferenceSplitter.ScansAreConsistent();
    ReferenceSplitter.SplitterIsRegexp(s);
    if Parse(SCANS, lower, s).Ok? {
      ParsePrint(SCANS, lower, s);
    }
    var matches := FindSubmatch(REFERENCE, s);
    if matches == None {
      if s == "" {
        return Err(NameEmpty);
      }
      ReferenceSplitter.SplitterIsRegexp(lower(s));
      var again := FindSubmatch(REFERENCE, lower(s));
      if again != None {
        return Err(NameContainsUppercase);
      }
      return Err(InvalidFormat);
    }
    var caps := matches.value;
    if |Group(caps, 1)| > NAME_TOTAL_LENGTH_MAX {
      return Err(NameTooLong);
    }
    var ref := ImageReference(Group(caps, 1), Group(caps, 2), Group(caps, 3), Group(caps, 4), Group(caps, 5));
    if ref.organisation == "" && '.' !in ref.domain && ':' !in ref.domain {
      ref := ref.(organisation := ref.domain);
      ref := ref.(domain := "");
    }
    return Ok(ref);
  }

  /** imageReference.String, with its string builder. */
  method String(r: ImageReference) returns (s: string)
    ensures s == Print(r)
  {
    s := "";
    if r.domain != "" {
      s := s + r.domain;
      s := s + "/";
    }
    ghost var a := Segment(r.domain);
    assert s == a;
    if r.organisation != "" {
      s := s + r.organisation;
      s := s + "/";
      Assoc(a, r.organisation, "/");
    }
    ghost var ab := a + Segment(r.organisation);
    assert s == ab;
    s := s + r.name;
    if r.tag != "" {
      s := s + ":";
      s := s + r.tag;
      Assoc(ab + r.name, ":", r.tag);
    }
    ghost var abnt := (ab + r.name) + TagText(r.tag);
    assert s == abnt;
    if r.digest != "" {
      s := s + "@";
      s := s + r.digest;
      Assoc(abnt, "@", r.digest);
    }
    assert s == abnt + DigestText(r.digest);
    BuilderText(r);
  }

  /** The builder's left-to-right text is the printed reference. */
  lemma BuilderText(r: ImageReference)
    ensures ((((Segment(r.domain) + Segment(r.organisation)) + r.name) + TagText(r.tag)) + DigestText(r.digest))
        == Print(r)
  {
    var a, b, t, d := Segment(r.domain), Segment(r.organisation), TagText(r.tag), DigestText(r.digest);
    Assoc((a + b) + r.name, t, d);
    Assoc(a + b, r.name, t + d);
    Assoc(a, b, Tail(r));
  }

  method UpdateImage(lower: string -> string, image: string, repository: string)
    returns (r: Result<string, UpdateError>)
    ensures r == Update(SCANS, lower, image, repository)
    ensures repository == "" ==> r == Ok(image)
    ensures repository != "" && r.Ok? && Stable(SCANS, Rewrite(Parse(SCANS, lower, image).value, repository).value,
                                                NamesOrganisation(repository)) ==>
              Update(SCANS, lower, r.value, repository) == r
  {
    ReferenceSplitter.ScansAreConsistent();
    if repository == "" {
      return Ok(image);
    }
    if Update(SCANS, lower, image, repository).Ok? {
      IdempotentIff(SCANS, lower, image, repository);
    }
    var parsed := ParseImageReference(lower, image);
    if parsed.Err? {
      return Err(InvalidImage(parsed.error));
    }
    var ref := parsed.value;
    var repositoryParts := Text.Split(repository, '/');
    if |repositoryParts| > 2 {
      return Err(InvalidRepository);
    }
    ref := ref.(domain := repositoryParts[0]);
    if |repositoryParts| == 2 {
      ref := ref.(organisation := repositoryParts[1]);
    }
    var text := String(ref);
    return Ok(text);
  }

  /** The theorems for the grammar of the repository: printing a parsed text gives it back ... */
  lemma ParsedTextPrintsBack(lower: string -> string, s: string)
    ensures match Parse(SCANS, lower, s)
            case Ok(r) => Print(r) == s && Canonical(SCANS, r)
            case Err(e) => e != NameTooLong ==> !Lang(REFERENCE, s)
  {
    ReferenceSplitter.ScansAreConsistent();
    ReferenceSplitter.SplitterIsRegexp(s);
    if Parse(SCANS, lower, s).Ok? {
      ParsePrint(SCANS, lower, s);
    }
  }

  /** ... parsing a printed record gives back exactly the canonical records ... */
  lemma PrintedRecordParsesBackIff(lower: string -> string, r: ImageReference)
    ensures Parse(SCANS, lower, Print(r)) == Ok(r) <==> Canonical(SCANS, r)
  {
    ReferenceSplitter.ScansAreConsistent();
    PrintParseIff(SCANS, lower, r);
  }

  /** ... rewriting twice is rewriting once exactly when the rewritten record is stable ... */
  lemma RewriteIsIdempotentIff(lower: string -> string, image: string, repository: string)
    requires repository != "" && Update(SCANS, lower, image, repository).Ok?
    ensures var x := Update(SCANS, lower, image, repository).value;
      var r := Rewrite(Parse(SCANS, lower, image).value, repository).value;
      Update(SCANS, lower, x, repository) == Ok(x) <==> Stable(SCANS, r, NamesOrganisation(repository))
  {
    ReferenceSplitter.ScansAreConsistent();
    IdempotentIff(SCANS, lower, image, repository);
  }

  /** ... and the last of two rewrites wins exactly when the text in between is read as it was meant. */
  lemma LastRewriteWinsIff(lower: string -> string, image: string, first: string, last: string)
    requires first != "" && last != "" && Update(SCANS, lower, image, first).Ok? && |Text.Split(last, '/')| <= 2
    ensures var x := Update(SCANS, lower, image, first).value;
      var ref := Parse(SCANS, lower, image).value;
      var r := Rewrite(ref, first).value;
      Update(SCANS, lower, x, last) == Update(SCANS, lower, image, last)
      <==> Stable(SCANS, r, true) && (NamesOrganisation(last) || RereadOrganisation(SCANS, r) == ref.organisation)
  {
    ReferenceSplitter.ScansAreConsistent();
    LastWinsIff(SCANS, lower, image, first, last);
  }

  /** A repository as it should be, for an image: the host is a domain within the length limit, the resulting
      organisation is a name component, and without any organisation the host looks like one. */
  predicate WellChosen(ref: ImageReference, repository: string) {
    var parts := Text.Split(repository, '/');
    var organisation := if |parts| == 2 then parts[1] else ref.organisation;
    && |parts| <= 2 && SCANS.isDomain(parts[0]) && |parts[0]| <= NAME_TOTAL_LENGTH_MAX
    && (if organisation == "" then |parts| == 1 && LooksLikeHost(parts[0]) else SCANS.isComponent(organisation))
  }

  /** With a well-chosen repository, rewriting works, parses back to the rewritten record and is idempotent; and of two
      rewrites the last one wins if it names an organisation or the first one does not. */
  lemma WellChosenRewrites(lower: string -> string, image: string, repository: string, last: string)
    requires repository != "" && last != "" && |Text.Split(last, '/')| <= 2
    requires Parse(SCANS, lower, image).Ok? && WellChosen(Parse(SCANS, lower, image).value, repository)
    ensures var once := Update(SCANS, lower, image, repository);
      && once.Ok? && Update(SCANS, lower, once.value, repository) == once
      && Parse(SCANS, lower, once.value) == Ok(Rewrite(Parse(SCANS, lower, image).value, repository).value)
      && (NamesOrganisation(last) || !NamesOrganisation(repository) ==>
            Update(SCANS, lower, once.value, last) == Update(SCANS, lower, image, last))
  {
    ReferenceSplitter.ScansAreConsistent();
    ParsePrint(SCANS, lower, image);
    var r := Rewrite(Parse(SCANS, lower, image).value, repository).value;
    assert SCANS.isDomain(r.domain) && r.domain != "";
    assert Canonical(SCANS, r);
    PrintParseIff(SCANS, lower, r);
    IdempotentIff(SCANS, lower, image, repository);
    LastWinsIff(SCANS, lower, image, repository, last);
  }

  lemma {:induction false} LettersGoOn(w: string)
    requires AllIn(LowerAlnum, w)
    ensures NameRest(w)
    decreases |w|
  {
    if w != [] {
      LettersGoOn(w[1..]);
    }
  }

  lemma NotThere(w: string, k: CharClass)
    requires forall i :: 0 <= i < |w| ==> !InClass(k, w[i])
    ensures Find(w, k, 0) == |w| && w[..|w|] == w
  {
  }

  /** A word of lower-case letters and digits. */
  predicate Plain(w: string) {
    w != [] && forall i :: 0 <= i < |w| ==> 'a' <= w[i] <= 'z' || '0' <= w[i] <= '9'
  }

  /** Such a word is a name component, a path and a domain, and does not look like a host. */
  lemma PlainWord(w: string)
    requires Plain(w)
    ensures SCANS.isComponent(w) && SCANS.isPath(w) && SCANS.isDomain(w) && !LooksLikeHost(w) && '/' !in w
  {
    LettersGoOn(w[1..]);
    NotThere(w, Lit('/'));
    NotThere(w, Lit('.'));
    NotThere(w, Lit(':'));
    assert IsDomainComponent(w);
  }

  /** For plain words: rewriting twice by one repeats it, and rewriting by another host afterwards does not win. */
  lemma PlainHostIsForgotten(lower: string -> string, image: string, host: string, last: string)
    requires Plain(image) && Plain(host)
    requires |host| <= NAME_TOTAL_LENGTH_MAX && last != "" && '/' !in last
    ensures var once := Update(SCANS, lower, image, host);
      && once == Ok(host + "/" + image)
      && Update(SCANS, lower, once.value, host) != once
      && Update(SCANS, lower, once.value, last) == Ok(last + "/" + host + "/" + image)
      && Update(SCANS, lower, once.value, last) != Update(SCANS, lower, image, last)
  {
    var r := ImageReference("", "", image, "", "");
    PlainWord(image);
    PlainWord(host);
    ReferenceSplitter.ScansAreConsistent();
    PrintParseCanonical(SCANS, lower, r);
    assert Print(r) == image;
    PlainHostStays(SCANS, lower, image, host, last);
  }

  /** For instance alpine, registry and x.io. */
  lemma AlpineAtRegistry(lower: string -> string)
    ensures Update(SCANS, lower, "alpine", "registry") == Ok("registry" + "/" + "alpine")
    ensures Update(SCANS, lower, "registry" + "/" + "alpine", "registry") != Ok("registry" + "/" + "alpine")
    ensures Update(SCANS, lower, "registry" + "/" + "alpine", "x.io") != Update(SCANS, lower, "alpine", "x.io")
  {
    PlainHostIsForgotten(lower, "alpine", "registry", "x.io");
  }

  /** Name, tag and digest are read from the updated text exactly when the rewritten record is stable. */
  lemma UpdateConservesNameIff(lower: string -> string, image: string, repository: string)
    requires repository != "" && Update(SCANS, lower, image, repository).Ok?
    ensures var ref := Parse(SCANS, lower, image).value;
      var x := Update(SCANS, lower, image, repository).value;
      (Parse(SCANS, lower, x).Ok? && SameNameTagDigest(Parse(SCANS, lower, x).value, ref)) <==>
      Stable(SCANS, Rewrite(ref, repository).value, true)
  {
    ReferenceSplitter.ScansAreConsistent();
    UpdateConservesIff(SCANS, lower, image, repository);
  }

  /** The text of a domain, an organisation and a name. */
  lemma ThreePartsParse(lower: string -> string, d: string, a: string, name: string)
    requires SCANS.isDomain(d) && |d| <= NAME_TOTAL_LENGTH_MAX && SCANS.isComponent(a) && SCANS.isPath(name)
    ensures Parse(SCANS, lower, d + "/" + a + "/" + name) == Ok(ImageReference(d, a, name, "", ""))
  {
    var r := ImageReference(d, a, name, "", "");
    ReferenceSplitter.ScansAreConsistent();
    PrintParseCanonical(SCANS, lower, r);
    assert Tail(r) == name;
    TwoLeads(d, a, name);
  }

  /** For plain words: d/a/b/c by x/ becomes x/b/c, which has the name c. */
  lemma TrailingSlashDropsName(lower: string -> string, d: string, a: string, b: string, c: string, x: string)
    requires Plain(d) && Plain(a) && Plain(b) && Plain(c) && Plain(x)
    requires |d| <= NAME_TOTAL_LENGTH_MAX && |x| <= NAME_TOTAL_LENGTH_MAX
    ensures var image := d + "/" + a + "/" + (b + "/" + c);
      && Parse(SCANS, lower, image) == Ok(ImageReference(d, a, b + "/" + c, "", ""))
      && Update(SCANS, lower, image, x + "/") == Ok(x + "/" + (b + "/" + c))
      && Parse(SCANS, lower, x + "/" + (b + "/" + c)) == Ok(ImageReference(x, b, c, "", ""))
  {
    PlainWord(d);
    PlainWord(a);
    PlainWord(b);
    PlainWord(c);
    PlainWord(x);
    TwoSegmentsArePath(b, c);
    ThreePartsParse(lower, d, a, b + "/" + c);
    DropsName(lower, d + "/" + a + "/" + (b + "/" + c), x, b, c);
  }

  lemma DropsName(lower: string -> string, image: string, host: string, first: string, rest: string)
    requires SCANS.isDomain(host) && |host| <= NAME_TOTAL_LENGTH_MAX && '/' !in first && Parse(SCANS, lower, image).Ok?
    requires Parse(SCANS, lower, image).value.name == first + "/" + rest
    requires Parse(SCANS, lower, image).value.tag == "" && Parse(SCANS, lower, image).value.digest == ""
    ensures Update(SCANS, lower, image, host + "/") == Ok(host + "/" + (first + "/" + rest))
    ensures Parse(SCANS, lower, host + "/" + (first + "/" + rest)) == Ok(ImageReference(host, first, rest, "", ""))
  {
    ReferenceSplitter.ScansAreConsistent();
    TrailingSlashLosesName(SCANS, lower, image, host, first, rest);
    assert Tail(Parse(SCANS, lower, image).value) == first + "/" + rest;
  }

  lemma TwoSegmentsArePath(b: string, c: string)
    requires Plain(b) && SCANS.isComponent(b) && SCANS.isPath(c)
    ensures SCANS.isPath(b + "/" + c)
  {
    var w := b + "/" + c;
    assert w == b + ("/" + c);
    FirstOf(Lit('/'), b, "/" + c);
    assert w[|b| + 1..] == c;
  }
}
