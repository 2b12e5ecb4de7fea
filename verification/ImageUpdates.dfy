/** UpdateImage of pkg/addons/transform.go on texts: which repository rewrites are stable, and which one wins. */
module ImageUpdates {
  import opened Wrappers
  import opened Regex
  import opened RegexLanguage
  import opened ReferenceScan
  import opened ImageReference
  import Text

  datatype UpdateError = InvalidImage(error: ParseError) | InvalidRepository

  /** "host:port/org" overrides domain and organisation, "host:port" the domain only. */
  function Rewrite(r: ImageReference, repository: string): Option<ImageReference> {
    var parts := Text.Split(repository, '/');
    if |parts| > 2 then None
    else Some(r.(domain := parts[0], organisation := if |parts| == 2 then parts[1] else r.organisation))
  }

  predicate NamesOrganisation(repository: string) {
    |Text.Split(repository, '/')| == 2
  }

  function Update(c: Scanner, lower: string -> string, image: string, repository: string): Result<string, UpdateError> {
    if repository == "" then Ok(image)
    else
      match Parse(c, lower, image)
      case Err(e) => Err(InvalidImage(e))
      case Ok(r) =>
        match Rewrite(r, repository)
        case None => Err(InvalidRepository)
        case Some(r') => Ok(Print(r'))
  }

  // ---- Texts determine their parts ----

  lemma SegmentInjective(a: string, b: string)
    requires Segment(a) == Segment(b)
    ensures a == b
  {
    if a != "" && b != "" {
      assert Segment(a)[..|a|] == a && Segment(b)[..|b|] == b;
    }
  }

  /** Equal texts in front of equal ends. */
  lemma CancelEnd(a: string, b: string, end: string)
    requires a + end == b + end
    ensures a == b
  {
    assert |a| == |b|;
    assert (a + end)[..|a|] == a && (b + end)[..|b|] == b;
  }

  lemma CancelFront(front: string, a: string, b: string)
    requires front + a == front + b
    ensures a == b
  {
    assert (front + a)[|front|..] == a && (front + b)[|front|..] == b;
  }

  lemma DigestTextInjective(a: string, b: string)
    requires DigestText(a) == DigestText(b)
    ensures a == b
  {
    if a != "" && b != "" {
      assert DigestText(a)[1..] == a && DigestText(b)[1..] == b;
    }
  }

  lemma FirstOf(k: CharClass, u: string, v: string)
    requires Free(u, k) && (v == "" || InClass(k, v[0]))
    ensures Find(u + v, k, 0) == |u| && (u + v)[..|u|] == u && (u + v)[|u|..] == v
  {
    var s := u + v;
    assert s[0..] == s && s[..|u|] == s[0..|u|];
    FindAt(s, k, 0, u, v);
  }

  lemma TailInjective(c: Scanner, r: ImageReference, q: ImageReference)
    requires c.Consistent() && TailOk(c, r) && TailOk(c, q) && Tail(r) == Tail(q)
    ensures r.name == q.name && r.tag == q.tag && r.digest == q.digest
  {
    var u, v := TagText(r.tag) + DigestText(r.digest), TagText(q.tag) + DigestText(q.digest);
    FirstOf(ColonAt, r.name, u);
    FirstOf(ColonAt, q.name, v);
    assert u == v;
    EndInjective(c, r, q);
  }

  lemma EndInjective(c: Scanner, r: ImageReference, q: ImageReference)
    requires c.Consistent() && TailOk(c, r) && TailOk(c, q)
    requires TagText(r.tag) + DigestText(r.digest) == TagText(q.tag) + DigestText(q.digest)
    ensures r.tag == q.tag && r.digest == q.digest
  {
    TagTextFree(c, r);
    TagTextFree(c, q);
    FirstOf(Lit('@'), TagText(r.tag), DigestText(r.digest));
    FirstOf(Lit('@'), TagText(q.tag), DigestText(q.digest));
    TagTextInjective(r.tag, q.tag);
    DigestTextInjective(r.digest, q.digest);
  }

  lemma TagTextFree(c: Scanner, r: ImageReference)
    requires c.Consistent() && TailOk(c, r)
    ensures Free(TagText(r.tag), Lit('@'))
  {
    if r.tag != "" {
      assert Free(r.tag, Lit('@'));
    }
  }

  lemma TagTextInjective(a: string, b: string)
    requires TagText(a) == TagText(b)
    ensures a == b
  {
    if a != "" && b != "" {
      assert TagText(a)[1..] == a && TagText(b)[1..] == b;
    }
  }

  /** The segments that are there. */
  function Present(a: string, b: string): seq<string> {
    (if a == "" then [] else [a]) + (if b == "" then [] else [b])
  }

  lemma FirstSegmentOf(a: string, rest: string)
    requires a != "" && Free(a, Lit('/'))
    ensures var s := Segment(a) + rest;
      Find(s, Lit('/'), 0) == |a| < |s| && s[..|a|] == a && s[|a| + 1..] == rest
  {
    var s := Segment(a) + rest;
    assert s[0..] == s && s[..|a|] == s[0..|a|];
    SegmentScanned(s, 0, a, rest);
  }

  lemma SegmentsInjective(a: string, b: string, d: string, e: string)
    requires Free(a, Lit('/')) && Free(b, Lit('/')) && Free(d, Lit('/')) && Free(e, Lit('/'))
    requires Segment(a) + Segment(b) == Segment(d) + Segment(e)
    ensures Present(a, b) == Present(d, e)
  {
    var u, v := if a != "" then (a, b) else (b, a), if d != "" then (d, e) else (e, d);
    assert Segment(a) + Segment(b) == Segment(u.0) + Segment(u.1);
    assert Segment(d) + Segment(e) == Segment(v.0) + Segment(v.1);
    if u.0 != "" && v.0 != "" {
      FirstSegmentOf(u.0, Segment(u.1));
      FirstSegmentOf(v.0, Segment(v.1));
      SegmentInjective(u.1, v.1);
    }
  }

  lemma SplitFree(s: string)
    ensures forall i :: 0 <= i < |Text.Split(s, '/')| ==> Free(Text.Split(s, '/')[i], Lit('/'))
  {
  }

  // ---- Parsing the printed capture records ----

  lemma PrintParseRaw(c: Scanner, lower: string -> string, raw: ImageReference)
    requires c.Consistent() && RawOk(c, raw) && |raw.domain| <= NAME_TOTAL_LENGTH_MAX
    ensures Parse(c, lower, Print(raw)) == Ok(Shift(raw))
  {
    ReferenceScanned(c, raw);
    CapturedCaptures(raw);
    assert Group(Captures(raw), 1) == FromCaptures(Captures(raw)).domain;
  }

  lemma ParseRaw(c: Scanner, lower: string -> string, s: string) returns (raw: ImageReference)
    requires c.Consistent() && Parse(c, lower, s).Ok?
    ensures RawOk(c, raw) && |raw.domain| <= NAME_TOTAL_LENGTH_MAX
    ensures s == Print(raw) && Parse(c, lower, s) == Ok(Shift(raw))
  {
    raw := ReferenceRead(c, s);
    CapturedCaptures(raw);
    assert Group(Captures(raw), 1) == FromCaptures(Captures(raw)).domain;
  }

  // ---- Updating twice ----

  /** A single segment in front of the name is read as such. */
  predicate OneSegment(c: Scanner, segment: string, name: string) {
    if c.isDomain(segment) then |segment| <= NAME_TOTAL_LENGTH_MAX && '/' !in name else c.isComponent(segment)
  }

  /** The rewritten record stays what it is when it is printed, parsed and rewritten by the same repository. */
  predicate Stable(c: Scanner, r: ImageReference, namesOrganisation: bool) {
    if !namesOrganisation || (r.domain != "" && r.organisation != "") then Canonical(c, r)
    else if r.domain != "" then OneSegment(c, r.domain, r.name)
    else if r.organisation != "" then OneSegment(c, r.organisation, r.name)
    else '/' !in r.name
  }

  /** The organisation that is read when such a record has been printed: a single segment is one unless it looks like a
      host. */
  function RereadOrganisation(c: Scanner, r: ImageReference): string {
    if r.domain != "" && r.organisation != "" then r.organisation
    else
      var segment := if r.domain != "" then r.domain else r.organisation;
      if c.isDomain(segment) && LooksLikeHost(segment) then "" else segment
  }

  /** The record is read back with the same name, tag and digest. */
  predicate RereadSameTail(c: Scanner, lower: string -> string, r: ImageReference) {
    var y := Parse(c, lower, Print(r));
    y.Ok? && Tail(y.value) == Tail(r)
  }

  lemma StableIsReread(c: Scanner, lower: string -> string, r: ImageReference)
    requires c.Consistent() && TailOk(c, r) && Stable(c, r, true)
    ensures RereadSameTail(c, lower, r)
    ensures Parse(c, lower, Print(r)).value.organisation == RereadOrganisation(c, r)
    ensures Canonical(c, r) ==> Parse(c, lower, Print(r)).value == r
  {
    if Canonical(c, r) {
      PrintParseCanonical(c, lower, r);
    } else {
      var segment := if r.domain != "" then r.domain else r.organisation;
      var raw := if segment == "" then r
                 else if c.isDomain(segment) then r.(domain := segment, organisation := "")
                 else r.(domain := "", organisation := segment);
      assert RawOk(c, raw);
      PrintParseRaw(c, lower, raw);
      PrintOneSegment(r, raw, segment);
    }
  }

  lemma StableUpdate(c: Scanner, lower: string -> string, r: ImageReference, repository: string)
    requires c.Consistent() && repository != "" && TailOk(c, r)
    requires Rewrite(r, repository) == Some(r)
    requires Stable(c, r, NamesOrganisation(repository))
    ensures Update(c, lower, Print(r), repository) == Ok(Print(r))
  {
    StableIsReread(c, lower, r);
  }

  lemma PrintOneSegment(r: ImageReference, raw: ImageReference, segment: string)
    requires Tail(r) == Tail(raw)
    requires (r.domain == segment && r.organisation == "") || (r.domain == "" && r.organisation == segment)
    requires (raw.domain == segment && raw.organisation == "") || (raw.domain == "" && raw.organisation == segment)
    ensures Print(r) == Print(raw)
  {
    assert Segment(segment) + (Segment("") + Tail(r)) == Segment("") + (Segment(segment) + Tail(r));
  }

  /** A record with the segments of a capture record, in whatever fields, is stable when the repository sets both. */
  lemma PresentStable(c: Scanner, raw: ImageReference, r: ImageReference)
    requires c.Consistent() && RawOk(c, raw) && |raw.domain| <= NAME_TOTAL_LENGTH_MAX && TailOk(c, r)
    requires Present(raw.domain, raw.organisation) == Present(r.domain, r.organisation) && raw.name == r.name
    ensures Stable(c, r, true)
  {
    var u, v := Present(raw.domain, raw.organisation), Present(r.domain, r.organisation);
    if r.domain != "" && r.organisation != "" {
      assert v[0] == r.domain && v[1] == r.organisation && |u| == 2;
      assert u[0] == raw.domain && u[1] == raw.organisation;
    } else if r.domain != "" || r.organisation != "" {
      var segment := v[0];
      assert |u| == 1 && segment == if raw.domain != "" then raw.domain else raw.organisation;
      assert OneSegment(c, segment, r.name);
    } else {
      assert |u| == 0;
    }
  }

  lemma RereadIsStable(c: Scanner, lower: string -> string, r: ImageReference)
    requires c.Consistent() && TailOk(c, r) && Free(r.domain, Lit('/')) && Free(r.organisation, Lit('/'))
    requires RereadSameTail(c, lower, r)
    ensures Stable(c, r, true)
  {
    var raw := ParseRaw(c, lower, Print(r));
    assert Tail(raw) == Tail(r);
    TailInjective(c, raw, r);
    SameFront(raw, r);
    RawSegments(c, raw);
    SegmentsInjective(raw.domain, raw.organisation, r.domain, r.organisation);
    PresentStable(c, raw, r);
  }

  lemma StableWhenKept(c: Scanner, q: ImageReference, r: ImageReference)
    requires c.Consistent() && Canonical(c, q) && TailOk(c, r) && KeptOrganisation(c, r)
    requires Print(q) == Print(r) && Print(q.(domain := r.domain)) == Print(r)
    ensures q == r
  {
    CanonicalIsKept(c, q);
    assert Tail(q.(domain := r.domain)) == Tail(q);
    CancelFront(Segment(r.domain), Segment(q.organisation) + Tail(q), Segment(r.organisation) + Tail(r));
    SameRest(c, q, r);
    CancelEnd(Segment(q.domain), Segment(r.domain), Segment(r.organisation) + Tail(r));
    SegmentInjective(q.domain, r.domain);
  }

  lemma StableConversely(c: Scanner, lower: string -> string, r: ImageReference, repository: string)
    requires c.Consistent() && repository != "" && TailOk(c, r)
    requires Rewrite(r, repository) == Some(r)
    requires !NamesOrganisation(repository) ==> KeptOrganisation(c, r)
    requires Update(c, lower, Print(r), repository) == Ok(Print(r))
    ensures Stable(c, r, NamesOrganisation(repository))
  {
    ParsePrint(c, lower, Print(r));
    var y := Parse(c, lower, Print(r)).value;
    if NamesOrganisation(repository) {
      SplitFree(repository);
      SameLead(r, Rewrite(y, repository).value);
      RereadIsStable(c, lower, r);
    } else {
      StableWhenKept(c, y, r);
    }
  }

  /** Behind the same domain and organisation, equal texts have equal ends. */
  lemma SameLead(r: ImageReference, q: ImageReference)
    requires r.domain == q.domain && r.organisation == q.organisation
    ensures Print(r) == Print(q) <==> Tail(r) == Tail(q)
  {
    if Print(r) == Print(q) {
      CancelFront(Segment(r.domain), Segment(r.organisation) + Tail(q), Segment(r.organisation) + Tail(r));
      CancelFront(Segment(r.organisation), Tail(q), Tail(r));
    }
  }

  lemma SameFront(q: ImageReference, r: ImageReference)
    requires Print(q) == Print(r) && Tail(q) == Tail(r)
    ensures Segment(q.domain) + Segment(q.organisation) == Segment(r.domain) + Segment(r.organisation)
  {
    var a, b := Segment(q.domain), Segment(q.organisation);
    var d, e := Segment(r.domain), Segment(r.organisation);
    Assoc(a, b, Tail(q));
    Assoc(d, e, Tail(r));
    CancelEnd(a + b, d + e, Tail(r));
  }

  lemma Assoc(a: string, b: string, c: string)
    ensures a + (b + c) == (a + b) + c
  {
  }

  lemma RawSegments(c: Scanner, raw: ImageReference)
    requires c.Consistent() && RawOk(c, raw)
    ensures Free(raw.domain, Lit('/')) && Free(raw.organisation, Lit('/'))
  {
  }

  /** What an update that keeps the organisation knows of it: it comes from a parse. */
  ghost predicate KeptOrganisation(c: Scanner, r: ImageReference) {
    Free(r.organisation, Lit('/')) && (r.organisation == "" ==> '/' !in r.name)
  }

  lemma CanonicalIsKept(c: Scanner, r: ImageReference)
    requires c.Consistent() && Canonical(c, r)
    ensures KeptOrganisation(c, r)
  {
  }

  lemma SameRest(c: Scanner, q: ImageReference, r: ImageReference)
    requires c.Consistent() && TailOk(c, q) && TailOk(c, r) && KeptOrganisation(c, q) && KeptOrganisation(c, r)
    requires Segment(q.organisation) + Tail(q) == Segment(r.organisation) + Tail(r)
    ensures q.organisation == r.organisation && q.name == r.name && q.tag == r.tag && q.digest == r.digest
  {
    SameOrganisation(c, q, r);
    CancelFront(Segment(q.organisation), Tail(q), Tail(r));
    TailInjective(c, q, r);
  }

  lemma SameOrganisation(c: Scanner, q: ImageReference, r: ImageReference)
    requires c.Consistent() && TailOk(c, q) && TailOk(c, r) && KeptOrganisation(c, q) && KeptOrganisation(c, r)
    requires Segment(q.organisation) + Tail(q) == Segment(r.organisation) + Tail(r)
    ensures q.organisation == r.organisation
  {
    FirstSegmentOrNone(c, q);
    FirstSegmentOrNone(c, r);
  }

  lemma FirstSegmentOrNone(c: Scanner, r: ImageReference)
    requires c.Consistent() && TailOk(c, r) && KeptOrganisation(c, r)
    ensures var s := Segment(r.organisation) + Tail(r);
      if r.organisation == "" then Find(s, Lit('/'), 0) == |s|
      else Find(s, Lit('/'), 0) == |r.organisation| < |s| && s[..|r.organisation|] == r.organisation
  {
    if r.organisation == "" {
      TailFree(c, r);
      NoSegment(Tail(r));
    } else {
      FirstSegmentOf(r.organisation, Tail(r));
    }
  }

  lemma NoSegment(rest: string)
    requires Free(rest, Lit('/'))
    ensures var s := Segment("") + rest;
      Find(s, Lit('/'), 0) == |s|
  {
    FirstOf(Lit('/'), rest, "");
    assert Segment("") + rest == rest + "";
  }

  /** Updating twice with the same repository is updating once: exactly for the stable records. */
  lemma IdempotentIff(c: Scanner, lower: string -> string, image: string, repository: string)
    requires c.Consistent() && repository != "" && Update(c, lower, image, repository).Ok?
    ensures var x := Update(c, lower, image, repository).value;
      var r := Rewrite(Parse(c, lower, image).value, repository).value;
      Update(c, lower, x, repository) == Ok(x) <==> Stable(c, r, NamesOrganisation(repository))
  {
    var ref := Parse(c, lower, image).value;
    var r := Rewrite(ref, repository).value;
    ParsePrint(c, lower, image);
    CanonicalIsKept(c, ref);
    if Stable(c, r, NamesOrganisation(repository)) {
      StableUpdate(c, lower, r, repository);
    }
    if Update(c, lower, Print(r), repository) == Ok(Print(r)) {
      StableConversely(c, lower, r, repository);
    }
  }

  /** Of two rewrites the last one wins exactly when the text in between is read with the same name, tag and digest, and
      either the last one names the organisation or the one that is read in between is the first one. */
  lemma LastWinsIff(c: Scanner, lower: string -> string, image: string, first: string, last: string)
    requires c.Consistent() && first != "" && last != ""
    requires Update(c, lower, image, first).Ok? && |Text.Split(last, '/')| <= 2
    ensures var x := Update(c, lower, image, first).value;
      var ref := Parse(c, lower, image).value;
      var r := Rewrite(ref, first).value;
      Update(c, lower, x, last) == Update(c, lower, image, last)
      <==> Stable(c, r, true) && (NamesOrganisation(last) || RereadOrganisation(c, r) == ref.organisation)
  {
    var ref := Parse(c, lower, image).value;
    var r := Rewrite(ref, first).value;
    ParsePrint(c, lower, image);
    CanonicalIsKept(c, ref);
    SplitFree(first);
    if Stable(c, r, true) {
      StableIsReread(c, lower, r);
    }
    if RereadSameTail(c, lower, r) {
      RereadIsStable(c, lower, r);
    }
    if Parse(c, lower, Print(r)).Ok? {
      ParsePrint(c, lower, Print(r));
      RewritesAlikeIff(c, Parse(c, lower, Print(r)).value, ref, last);
    }
  }

  /** When two parsed records are rewritten to the same text. */
  lemma RewritesAlikeIff(c: Scanner, y: ImageReference, ref: ImageReference, last: string)
    requires c.Consistent() && Canonical(c, y) && Canonical(c, ref) && |Text.Split(last, '/')| <= 2
    ensures Print(Rewrite(y, last).value) == Print(Rewrite(ref, last).value) <==>
            Tail(y) == Tail(ref) && (NamesOrganisation(last) || y.organisation == ref.organisation)
  {
    var p, q := Rewrite(y, last).value, Rewrite(ref, last).value;
    assert Tail(p) == Tail(y) && Tail(q) == Tail(ref);
    if NamesOrganisation(last) {
      SameLead(p, q);
    } else if Print(p) == Print(q) {
      CancelFront(Segment(p.domain), Segment(y.organisation) + Tail(y), Segment(ref.organisation) + Tail(ref));
      CanonicalIsKept(c, y);
      CanonicalIsKept(c, ref);
      SameRest(c, y, ref);
    }
  }

  /** A single name, and a host that does not look like one: the host is read as the organisation. Rewriting by it twice
      repeats it, and rewriting by another host afterwards keeps it. */
  lemma PlainHostStays(c: Scanner, lower: string -> string, image: string, host: string, last: string)
    requires c.Consistent() && Parse(c, lower, image).Ok?
    requires Parse(c, lower, image).value.domain == "" && Parse(c, lower, image).value.organisation == ""
    requires c.isDomain(host) && |host| <= NAME_TOTAL_LENGTH_MAX && !LooksLikeHost(host)
    requires last != "" && Free(last, Lit('/'))
    ensures var once := Update(c, lower, image, host);
      && once == Ok(host + "/" + image)
      && Update(c, lower, once.value, last) == Ok(last + "/" + host + "/" + image)
      && Update(c, lower, once.value, last) != Update(c, lower, image, last)
      && Update(c, lower, once.value, host) != once
  {
    var ref := Parse(c, lower, image).value;
    ParsePrint(c, lower, image);
    NoSplit(host);
    NoSplit(last);
    PlainTexts(ref, host, last);
    PrintOneSegment(ref.(domain := host), ref.(organisation := host), host);
    PrintParseCanonical(c, lower, ref.(organisation := host));
    PlainTexts(ref, host, host);
  }

  lemma PlainTexts(ref: ImageReference, host: string, last: string)
    requires ref.domain == "" && ref.organisation == "" && host != "" && last != ""
    ensures Print(ref.(domain := host)) == host + "/" + Print(ref)
    ensures Print(ref.(domain := last)) == last + "/" + Print(ref)
    ensures Print(ref.(domain := last, organisation := host)) == last + "/" + host + "/" + Print(ref)
    ensures |last + "/" + host + "/" + Print(ref)| > |last + "/" + Print(ref)|
    ensures |last + "/" + host + "/" + Print(ref)| > |host + "/" + Print(ref)|
  {
    assert Print(ref) == Tail(ref);
    OneLead(host, Tail(ref));
    OneLead(last, Tail(ref));
    TwoLeads(last, host, Tail(ref));
  }

  lemma OneLead(a: string, t: string)
    requires a != ""
    ensures Segment(a) + (Segment("") + t) == a + "/" + t
  {
  }

  lemma TwoLeads(a: string, b: string, t: string)
    requires a != "" && b != ""
    ensures Segment(a) + (Segment(b) + t) == a + "/" + b + "/" + t
  {
    Assoc(a + "/", b + "/", t);
    Assoc(a + "/", b, "/");
  }

  lemma NoSplit(s: string)
    requires Free(s, Lit('/'))
    ensures Text.Split(s, '/') == [s]
  {
    assert forall i :: 0 <= i < |s| ==> !InClass(Lit('/'), s[i]);
    Text.SplitNone(s, '/');
  }

  predicate EndsWith(s: string, end: string) {
    |end| <= |s| && s[|s| - |end|..] == end
  }

  /** The same name, tag and digest. */
  predicate SameNameTagDigest(r: ImageReference, q: ImageReference) {
    r.name == q.name && r.tag == q.tag && r.digest == q.digest
  }

  /** Name, tag and digest end the text before and after. They are read from the updated text exactly when the rewritten
      record is stable under a repository that names both parts. */
  lemma UpdateConservesIff(c: Scanner, lower: string -> string, image: string, repository: string)
    requires c.Consistent() && repository != "" && Update(c, lower, image, repository).Ok?
    ensures var ref := Parse(c, lower, image).value;
      var x := Update(c, lower, image, repository).value;
      && EndsWith(image, Tail(ref)) && EndsWith(x, Tail(ref))
      && ((Parse(c, lower, x).Ok? && SameNameTagDigest(Parse(c, lower, x).value, ref)) <==>
          Stable(c, Rewrite(ref, repository).value, true))
  {
    var ref := Parse(c, lower, image).value;
    var r := Rewrite(ref, repository).value;
    ParsePrint(c, lower, image);
    CanonicalIsKept(c, ref);
    SplitFree(repository);
    EndsWithTail(ref);
    EndsWithTail(r);
    assert Tail(r) == Tail(ref);
    if Stable(c, r, true) {
      StableIsReread(c, lower, r);
    }
    if Parse(c, lower, Print(r)).Ok? {
      ParsePrint(c, lower, Print(r));
      var y := Parse(c, lower, Print(r)).value;
      if Tail(y) == Tail(r) {
        TailInjective(c, y, r);
        RereadIsStable(c, lower, r);
      }
    }
  }

  /** A repository that ends in a slash names an empty organisation. Then the first segment of a longer name is read as
      the organisation, and the name has lost it. */
  lemma TrailingSlashLosesName(c: Scanner, lower: string -> string, image: string, host: string, first: string,
      rest: string)
    requires c.Consistent() && Parse(c, lower, image).Ok? && c.isDomain(host) && |host| <= NAME_TOTAL_LENGTH_MAX
    requires Parse(c, lower, image).value.name == first + "/" + rest && '/' !in first
    ensures var ref := Parse(c, lower, image).value;
      var x := Update(c, lower, image, host + "/");
      && x == Ok(host + "/" + Tail(ref))
      && Parse(c, lower, x.value) == Ok(ref.(domain := host, organisation := first, name := rest))
      && rest != ref.name
  {
    var ref := Parse(c, lower, image).value;
    ParsePrint(c, lower, image);
    Text.SplitCons(host, '/', "");
    assert host + ['/'] + "" == host + "/" && Text.Split("", '/') == [""];
    FirstOfPath(c, first, rest);
    var q := ref.(domain := host, organisation := first, name := rest);
    assert Canonical(c, q);
    PrintParseCanonical(c, lower, q);
    OneLead(host, Tail(ref));
    MovedSegment(ref, first, rest);
  }

  lemma FirstOfPath(c: Scanner, first: string, rest: string)
    requires c.Consistent() && c.isPath(first + "/" + rest) && '/' !in first
    ensures c.isComponent(first) && c.isPath(rest)
  {
    var w := first + "/" + rest;
    assert w == first + ("/" + rest) && Free(first, Lit('/'));
    FirstOf(Lit('/'), first, "/" + rest);
    assert c.PathCutAt(w, Find(w, Lit('/'), 0));
    assert w[|first| + 1..] == rest;
  }

  /** The organisation and the name print like the longer name. */
  lemma MovedSegment(ref: ImageReference, first: string, rest: string)
    requires ref.name == first + "/" + rest && first != ""
    ensures Segment(first) + Tail(ref.(organisation := first, name := rest)) == Tail(ref)
  {
    Assoc(first + "/", rest, TagText(ref.tag) + DigestText(ref.digest));
  }

  /** Behind a domain, what is neither a name component nor a path in front of a slash is not accepted. */
  lemma StrangeOrganisation(c: Scanner, lower: string -> string, r: ImageReference)
    requires c.Consistent() && TailOk(c, r) && c.isDomain(r.domain)
    requires r.organisation != "" && Free(r.organisation, Lit('/')) && !c.isComponent(r.organisation)
    ensures Parse(c, lower, Print(r)).Err?
  {
    if Parse(c, lower, Print(r)).Ok? {
      var raw := ParseRaw(c, lower, Print(r));
      RawSegments(c, raw);
      FirstSegmentOf(r.domain, Segment(r.organisation) + Tail(r));
      FirstSegmentOf(r.organisation, Tail(r));
      LeadingSegments(c, raw, r.domain, r.organisation);
    }
  }

  /** A text with two segments in front: the first is the domain if it is one, and then the second is the
      organisation. */
  lemma LeadingSegments(c: Scanner, raw: ImageReference, domain: string, organisation: string)
    requires c.Consistent() && RawOk(c, raw) && c.isDomain(domain)
    requires var s := Print(raw);
      && Find(s, Lit('/'), 0) == |domain| < |s| && s[..|domain|] == domain
      && var rest := s[|domain| + 1..];
      Find(rest, Lit('/'), 0) == |organisation| < |rest| && rest[..|organisation|] == organisation
    ensures c.isComponent(organisation)
  {
    RawSegments(c, raw);
    if raw.domain != "" {
      FirstSegmentOf(raw.domain, Segment(raw.organisation) + Tail(raw));
      FirstSegmentOrNone(c, raw);
    } else {
      assert Print(raw) == Segment(raw.organisation) + Tail(raw);
      FirstSegmentOrNone(c, raw);
    }
  }

  /** A repository whose host is a domain within the limit, and that either names an organisation, by a name component,
      or looks like a host. */
  predicate GoodRepository(c: Scanner, repository: string) {
    var parts := Text.Split(repository, '/');
    && |parts| <= 2 && c.isDomain(parts[0]) && |parts[0]| <= NAME_TOTAL_LENGTH_MAX
    && (if |parts| == 2 then c.isComponent(parts[1]) else LooksLikeHost(parts[0]))
  }

  /** Then updating settles, for every image: the result stays as it is, or is not accepted any more. */
  lemma GoodRepositorySettles(c: Scanner, lower: string -> string, image: string, repository: string)
    requires c.Consistent() && GoodRepository(c, repository) && Update(c, lower, image, repository).Ok?
    ensures var x := Update(c, lower, image, repository);
      Update(c, lower, x.value, repository) == x || Update(c, lower, x.value, repository).Err?
  {
    assert repository != "";
    var ref := Parse(c, lower, image).value;
    var r := Rewrite(ref, repository).value;
    ParsePrint(c, lower, image);
    CanonicalIsKept(c, ref);
    if r.organisation != "" && !c.isComponent(r.organisation) {
      StrangeOrganisation(c, lower, r);
    } else {
      assert Canonical(c, r);
      StableUpdate(c, lower, r, repository);
    }
  }

  lemma EndsWithTail(r: ImageReference)
    ensures EndsWith(Print(r), Tail(r))
  {
    Assoc(Segment(r.domain), Segment(r.organisation), Tail(r));
  }
}
