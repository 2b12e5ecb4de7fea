/** pkg/addons/image_reference.go: image references, their text, and parsing one by its captures. Everything is stated
    over the scans `c` of the components; those of the repository are ReferenceSplitter.COMPONENTS.scans. */
module ImageReference {
  import opened Wrappers
  import opened Regex
  import opened RegexLanguage
  import opened ReferenceScan

  datatype ImageReference = ImageReference(domain: string, organisation: string, name: string, tag: string,
      digest: string)

  datatype ParseError = InvalidFormat | NameContainsUppercase | NameEmpty | NameTooLong

  const NAME_TOTAL_LENGTH_MAX := 255

  // ---- Printing ----

  function Segment(s: string): string {
    if s == "" then "" else s + "/"
  }

  function DigestText(digest: string): string {
    if digest == "" then "" else "@" + digest
  }

  function TagText(tag: string): string {
    if tag == "" then "" else ":" + tag
  }

  function Tail(r: ImageReference): string {
    r.name + (TagText(r.tag) + DigestText(r.digest))
  }

  function Print(r: ImageReference): string {
    Segment(r.domain) + (Segment(r.organisation) + Tail(r))
  }

  // ---- Parsing ----

  function Group(caps: map<nat, string>, n: nat): string {
    if n in caps then caps[n] else ""
  }

  predicate LooksLikeHost(domain: string) {
    '.' in domain || ':' in domain
  }

  /** A captured domain that does not look like a host is taken for the organisation. */
  function Shift(r: ImageReference): ImageReference {
    if r.organisation == "" && !LooksLikeHost(r.domain) then r.(organisation := r.domain, domain := "") else r
  }

  function FromCaptures(caps: map<nat, string>): ImageReference {
    ImageReference(Group(caps, 1), Group(caps, 2), Group(caps, 3), Group(caps, 4), Group(caps, 5))
  }

  /** `lower` is strings.ToLower. */
  function Parse(c: Scanner, lower: string -> string, s: string): Result<ImageReference, ParseError> {
    match ScanReference(c, s)
    case None =>
      if s == "" then Err(NameEmpty)
      else if ScanReference(c, lower(s)).Some? then Err(NameContainsUppercase)
      else Err(InvalidFormat)
    case Some(st) =>
      if |Group(st.caps, 1)| > NAME_TOTAL_LENGTH_MAX then Err(NameTooLong) else Ok(Shift(FromCaptures(st.caps)))
  }

  // ---- Which records a parse can yield ----

  predicate TailOk(c: Scanner, r: ImageReference) {
    && c.isPath(r.name)
    && (r.tag == "" || c.isTag(r.tag))
    && (r.digest == "" || c.isDigest(r.digest))
  }

  /** What the five captures of a match look like. */
  predicate RawOk(c: Scanner, r: ImageReference) {
    && TailOk(c, r)
    && (r.domain != "" ==> c.isDomain(r.domain))
    && (r.organisation != "" ==> c.isComponent(r.organisation))
    && (r.organisation == "" ==> '/' !in r.name)
    && (r.domain == "" && r.organisation != "" ==> !c.isDomain(r.organisation))
  }

  /** The records that print and parse back to themselves. */
  predicate Canonical(c: Scanner, r: ImageReference) {
    && TailOk(c, r)
    && (if r.domain != "" then
          && c.isDomain(r.domain) && |r.domain| <= NAME_TOTAL_LENGTH_MAX
          && (if r.organisation != "" then c.isComponent(r.organisation)
              else '/' !in r.name && LooksLikeHost(r.domain))
        else if r.organisation == "" then '/' !in r.name
        else if c.isDomain(r.organisation) then
          '/' !in r.name && !LooksLikeHost(r.organisation) && |r.organisation| <= NAME_TOTAL_LENGTH_MAX
        else c.isComponent(r.organisation))
  }

  // ---- From the text to the captures ----

  function Add(caps: map<nat, string>, n: nat, w: string): map<nat, string> {
    if w == "" then caps else caps[n := w]
  }

  lemma DigestRead(c: Scanner, s: string, st: State) returns (digest: string)
    requires c.Consistent() && st.pos <= |s| && ScanDigest(c, s, st).Some?
    ensures digest == "" || c.isDigest(digest)
    ensures s[st.pos..] == DigestText(digest)
    ensures ScanDigest(c, s, st).value.caps == Add(st.caps, 5, digest)
  {
    digest := if st.pos == |s| then "" else s[st.pos + 1..];
    if st.pos < |s| {
      assert s[st.pos..] == [s[st.pos]] + s[st.pos + 1..];
    }
  }

  lemma TagRead(c: Scanner, s: string, st: State) returns (tag: string, digest: string)
    requires c.Consistent() && st.pos <= |s| && ScanTag(c, s, st).Some?
    ensures tag == "" || c.isTag(tag)
    ensures digest == "" || c.isDigest(digest)
    ensures s[st.pos..] == TagText(tag) + DigestText(digest)
    ensures ScanTag(c, s, st).value.caps == Add(Add(st.caps, 4, tag), 5, digest)
  {
    if st.pos < |s| && s[st.pos] == ':' {
      var e := Find(s, Lit('@'), st.pos + 1);
      tag := s[st.pos + 1..e];
      digest := DigestRead(c, s, State(e, st.caps[4 := tag]));
      assert s[st.pos..] == [s[st.pos]] + tag + s[e..];
    } else {
      tag := "";
      digest := DigestRead(c, s, st);
    }
  }

  lemma NameRead(c: Scanner, s: string, st: State) returns (r: ImageReference)
    requires c.Consistent() && st.pos <= |s| && ScanName(c, s, st).Some?
    ensures r.domain == "" && r.organisation == "" && TailOk(c, r)
    ensures s[st.pos..] == Tail(r)
    ensures ScanName(c, s, st).value.caps == Add(Add(st.caps[3 := r.name], 4, r.tag), 5, r.digest)
  {
    var e := Find(s, ColonAt, st.pos);
    var name := s[st.pos..e];
    var tag, digest := TagRead(c, s, State(e, st.caps[3 := name]));
    r := ImageReference("", "", name, tag, digest);
    assert s[st.pos..] == name + s[e..];
  }

  lemma SegmentCut(s: string, i: nat, e: nat)
    requires i < e < |s| && s[e] == '/'
    ensures s[i..] == Segment(s[i..e]) + s[e + 1..]
  {
  }

  /** What the organisation, the name and their tail look like, read from `i` on. */
  ghost predicate RestRead(c: Scanner, r: ImageReference, text: string) {
    && r.domain == "" && TailOk(c, r)
    && (r.organisation != "" ==> c.isComponent(r.organisation))
    && (r.organisation == "" ==> '/' !in r.name)
    && text == Segment(r.organisation) + Tail(r)
  }

  lemma OrganisationRead(c: Scanner, s: string, st: State) returns (r: ImageReference)
    requires c.Consistent() && st.pos <= |s| && ScanOrganisation(c, s, st).Some?
    ensures RestRead(c, r, s[st.pos..])
    ensures ScanOrganisation(c, s, st).value.caps
         == Add(Add(Add(st.caps, 2, r.organisation)[3 := r.name], 4, r.tag), 5, r.digest)
  {
    var e := Find(s, Lit('/'), st.pos);
    if e < |s| && c.isComponent(s[st.pos..e]) {
      r := OrganisationThere(c, s, st, e);
      OrganisationTaken(c, s, st, e);
    } else {
      r := NameRead(c, s, st);
      NoOrganisation(c, s, st.pos, r.name);
    }
  }

  lemma OrganisationThere(c: Scanner, s: string, st: State, e: nat) returns (r: ImageReference)
    requires c.Consistent() && st.pos <= e < |s| && s[e] == '/' && c.isComponent(s[st.pos..e])
    requires ScanName(c, s, State(e + 1, st.caps[2 := s[st.pos..e]])).Some?
    ensures RestRead(c, r, s[st.pos..])
    ensures ScanName(c, s, State(e + 1, st.caps[2 := s[st.pos..e]])).value.caps
         == Add(Add(Add(st.caps, 2, r.organisation)[3 := r.name], 4, r.tag), 5, r.digest)
  {
    var org := s[st.pos..e];
    assert org != "";
    SegmentCut(s, st.pos, e);
    var n := NameRead(c, s, State(e + 1, st.caps[2 := org]));
    r := n.(organisation := org);
  }

  /** A name from which no organisation was cut is one segment. */
  lemma NoOrganisation(c: Scanner, s: string, i: nat, name: string)
    requires c.Consistent() && i <= |s| && name <= s[i..] && c.isPath(name)
    requires var e := Find(s, Lit('/'), i); e < |s| ==> !c.isComponent(s[i..e])
    ensures '/' !in name
  {
    var e, end := Find(s, Lit('/'), i), i + |name|;
    assert s[i..end] == name;
    if '/' in name {
      SlashInside(s, i, end);
      PathCut(c, s, i, e, end);
      assert false;
    }
  }

  lemma SlashInside(s: string, i: nat, end: nat)
    requires i <= end <= |s| && '/' in s[i..end]
    ensures Find(s, Lit('/'), i) < end
  {
    var n :| 0 <= n < end - i && s[i..end][n] == '/';
    assert s[i + n] == '/';
  }

  function Captures(r: ImageReference): map<nat, string> {
    Add(Add(Add(Add(map[], 1, r.domain), 2, r.organisation)[3 := r.name], 4, r.tag), 5, r.digest)
  }

  lemma CapturedCaptures(r: ImageReference)
    ensures FromCaptures(Captures(r)) == r
  {
  }

  lemma ReferenceRead(c: Scanner, s: string) returns (r: ImageReference)
    requires c.Consistent() && ScanReference(c, s).Some?
    ensures RawOk(c, r) && s == Print(r) && ScanReference(c, s).value.caps == Captures(r)
  {
    var e := Find(s, Lit('/'), 0);
    if e < |s| && c.isDomain(s[..e]) {
      var domain := s[..e];
      assert domain != "" && s[0..e] == domain && s[0..] == s;
      SegmentCut(s, 0, e);
      r := OrganisationRead(c, s, State(e + 1, map[1 := domain]));
      assert Add(map[], 1, domain) == map[1 := domain];
      r := r.(domain := domain);
    } else {
      r := OrganisationRead(c, s, State(0, map[]));
      assert s[0..] == s && Segment("") + s == s;
      if r.organisation != "" {
        FirstSegment(c, s, r);
      }
    }
  }

  /** An organisation in front of the text is its first segment. */
  lemma FirstSegment(c: Scanner, s: string, r: ImageReference)
    requires c.Consistent() && c.isComponent(r.organisation) && r.organisation != ""
    requires s == Segment(r.organisation) + Tail(r)
    ensures Find(s, Lit('/'), 0) == |r.organisation| < |s| && s[..|r.organisation|] == r.organisation
  {
    var o := r.organisation;
    assert s[..|o|] == o && s[|o|] == '/';
    NoneBefore(s, |o|, Lit('/'));
  }

  // ---- From the captures to the text ----

  lemma FindAt(s: string, k: CharClass, i: nat, u: string, v: string)
    requires i <= |s| && s[i..] == u + v
    requires Free(u, k) && (v == "" || InClass(k, v[0]))
    ensures i + |u| <= |s| && Find(s, k, i) == i + |u| && s[i..i + |u|] == u && s[i + |u|..] == v
  {
    assert s[i..][..|u|] == u && s[i..][|u|..] == v;
    assert s[i..i + |u|] == u;
    EndsBefore(s, k, i, i + |u|);
    assert v != "" ==> s[i + |u|] == v[0];
  }

  lemma DigestScanned(c: Scanner, s: string, st: State, digest: string)
    requires st.pos <= |s| && s[st.pos..] == DigestText(digest)
    requires digest == "" || c.isDigest(digest)
    ensures ScanDigest(c, s, st) == Some(State(|s|, Add(st.caps, 5, digest)))
  {
    if digest != "" {
      assert s[st.pos] == s[st.pos..][0] && s[st.pos + 1..] == s[st.pos..][1..];
    }
  }

  lemma TagTaken(c: Scanner, s: string, st: State, e: nat, tag: string)
    requires st.pos < |s| && s[st.pos] == ':' && e == Find(s, Lit('@'), st.pos + 1)
    requires tag == s[st.pos + 1..e] && c.isTag(tag)
    ensures ScanTag(c, s, st) == ScanDigest(c, s, State(e, st.caps[4 := tag]))
  {
  }

  lemma TagThere(c: Scanner, s: string, st: State, tag: string, rest: string)
    requires st.pos <= |s| && s[st.pos..] == [':'] + (tag + rest)
    requires c.isTag(tag) && Free(tag, Lit('@')) && (rest == "" || rest[0] == '@')
    ensures st.pos + 1 + |tag| <= |s| && s[st.pos + 1 + |tag|..] == rest
    ensures ScanTag(c, s, st) == ScanDigest(c, s, State(st.pos + 1 + |tag|, st.caps[4 := tag]))
  {
    var i := st.pos + 1;
    assert s[st.pos] == s[st.pos..][0];
    assert s[i..] == s[st.pos..][1..];
    FindAt(s, Lit('@'), i, tag, rest);
    TagTaken(c, s, st, i + |tag|, tag);
  }

  lemma TagNotThere(c: Scanner, s: string, st: State)
    requires st.pos <= |s| && (st.pos < |s| ==> s[st.pos] != ':')
    ensures ScanTag(c, s, st) == ScanDigest(c, s, st)
  {
  }

  lemma TagTextFirst(tag: string, rest: string)
    requires tag != ""
    ensures TagText(tag) + rest == [':'] + (tag + rest)
  {
  }

  lemma TagPresent(c: Scanner, s: string, st: State, tag: string, digest: string)
    requires st.pos <= |s| && s[st.pos..] == TagText(tag) + DigestText(digest)
    requires tag != "" && c.isTag(tag) && Free(tag, Lit('@'))
    requires digest == "" || c.isDigest(digest)
    ensures ScanTag(c, s, st) == Some(State(|s|, Add(st.caps[4 := tag], 5, digest)))
  {
    var rest := DigestText(digest);
    TagTextFirst(tag, rest);
    TagThere(c, s, st, tag, rest);
    DigestScanned(c, s, State(st.pos + 1 + |tag|, st.caps[4 := tag]), digest);
  }

  lemma TagAbsent(c: Scanner, s: string, st: State, digest: string)
    requires st.pos <= |s| && s[st.pos..] == TagText("") + DigestText(digest)
    requires digest == "" || c.isDigest(digest)
    ensures ScanTag(c, s, st) == Some(State(|s|, Add(st.caps, 5, digest)))
  {
    assert s[st.pos..] == DigestText(digest);
    assert st.pos < |s| ==> s[st.pos] == s[st.pos..][0];
    TagNotThere(c, s, st);
    DigestScanned(c, s, st, digest);
  }

  lemma TagScanned(c: Scanner, s: string, st: State, tag: string, digest: string)
    requires c.Consistent()
    requires st.pos <= |s| && s[st.pos..] == TagText(tag) + DigestText(digest)
    requires tag == "" || c.isTag(tag)
    requires digest == "" || c.isDigest(digest)
    ensures ScanTag(c, s, st) == Some(State(|s|, Add(Add(st.caps, 4, tag), 5, digest)))
  {
    if tag == "" {
      TagAbsent(c, s, st, digest);
    } else {
      TagPresent(c, s, st, tag, digest);
    }
  }

  lemma NameTaken(c: Scanner, s: string, st: State, e: nat)
    requires st.pos <= |s| && e == Find(s, ColonAt, st.pos) && c.isPath(s[st.pos..e])
    ensures ScanName(c, s, st) == ScanTag(c, s, State(e, st.caps[3 := s[st.pos..e]]))
  {
  }

  lemma NameEnds(c: Scanner, s: string, i: nat, r: ImageReference)
    requires c.Consistent() && TailOk(c, r) && i <= |s| && s[i..] == Tail(r)
    ensures i + |r.name| <= |s| && Find(s, ColonAt, i) == i + |r.name| && s[i..i + |r.name|] == r.name
    ensures s[i + |r.name|..] == TagText(r.tag) + DigestText(r.digest)
  {
    var rest := TagText(r.tag) + DigestText(r.digest);
    assert rest != "" ==> InClass(ColonAt, rest[0]);
    FindAt(s, ColonAt, i, r.name, rest);
  }

  lemma TagFollows(c: Scanner, s: string, st: State, r: ImageReference)
    requires c.Consistent() && TailOk(c, r)
    requires st.pos <= |s| && s[st.pos..] == Tail(r)
    ensures st.pos + |r.name| <= |s|
    ensures ScanName(c, s, st) == ScanTag(c, s, State(st.pos + |r.name|, st.caps[3 := r.name]))
  {
    NameEnds(c, s, st.pos, r);
    NameTaken(c, s, st, st.pos + |r.name|);
  }

  lemma NameScanned(c: Scanner, s: string, st: State, r: ImageReference)
    requires c.Consistent() && TailOk(c, r)
    requires st.pos <= |s| && s[st.pos..] == Tail(r)
    ensures ScanName(c, s, st) == Some(State(|s|, Add(Add(st.caps[3 := r.name], 4, r.tag), 5, r.digest)))
  {
    TagFollows(c, s, st, r);
    NameEnds(c, s, st.pos, r);
    TagScanned(c, s, State(st.pos + |r.name|, st.caps[3 := r.name]), r.tag, r.digest);
  }

  /** No slash in the name: none behind the organisation at all. */
  lemma TailFree(c: Scanner, r: ImageReference)
    requires c.Consistent() && TailOk(c, r) && '/' !in r.name
    ensures Free(Tail(r), Lit('/'))
  {
    assert Free(r.name, Lit('/'));
    assert Free(TagText(r.tag), Lit('/')) by {
      if r.tag != "" { assert Free(r.tag, Lit('/')); }
    }
    assert Free(DigestText(r.digest), Lit('/')) by {
      if r.digest != "" { assert Free(r.digest, Lit('/')); }
    }
  }

  lemma NoOrganisationScanned(c: Scanner, s: string, st: State, r: ImageReference)
    requires c.Consistent() && TailOk(c, r) && '/' !in r.name
    requires st.pos <= |s| && s[st.pos..] == Tail(r)
    ensures ScanOrganisation(c, s, st) == ScanName(c, s, st)
  {
    assert Tail(r) == Tail(r) + "";
    NoSlashAhead(c, s, st.pos, r);
    OrganisationLeftOut(c, s, st, |s|);
  }

  lemma OneOrganisationScanned(c: Scanner, s: string, st: State, o: string, rest: string) returns (after: State)
    requires c.isComponent(o) && o != "" && Free(o, Lit('/'))
    requires st.pos <= |s| && s[st.pos..] == Segment(o) + rest
    ensures after.caps == Add(st.caps, 2, o) && after.pos <= |s| && s[after.pos..] == rest
    ensures ScanOrganisation(c, s, st) == ScanName(c, s, after)
  {
    SegmentScanned(s, st.pos, o, rest);
    var e := st.pos + |o|;
    assert s[st.pos..e] == o && s[e + 1..] == rest;
    after := State(e + 1, st.caps[2 := s[st.pos..e]]);
    OrganisationTaken(c, s, st, e);
  }

  lemma OrganisationScanned(c: Scanner, s: string, st: State, r: ImageReference)
    requires c.Consistent() && TailOk(c, r)
    requires r.organisation != "" ==> c.isComponent(r.organisation)
    requires r.organisation == "" ==> '/' !in r.name
    requires st.pos <= |s| && s[st.pos..] == Segment(r.organisation) + Tail(r)
    ensures ScanOrganisation(c, s, st)
         == Some(State(|s|, Add(Add(Add(st.caps, 2, r.organisation)[3 := r.name], 4, r.tag), 5, r.digest)))
  {
    var o, rest := r.organisation, Tail(r);
    if o == "" {
      assert Segment("") + rest == rest;
      NoOrganisationScanned(c, s, st, r);
      NameScanned(c, s, st, r);
    } else {
      var after := OneOrganisationScanned(c, s, st, o, rest);
      NameScanned(c, s, after, r);
    }
  }

  lemma NoSlashAhead(c: Scanner, s: string, i: nat, r: ImageReference)
    requires c.Consistent() && TailOk(c, r) && '/' !in r.name && i <= |s| && s[i..] == Tail(r) + ""
    ensures Find(s, Lit('/'), i) == |s|
  {
    TailFree(c, r);
    FindAt(s, Lit('/'), i, Tail(r), "");
  }

  lemma SegmentScanned(s: string, i: nat, o: string, rest: string)
    requires o != "" && Free(o, Lit('/'))
    requires i <= |s| && s[i..] == Segment(o) + rest
    ensures Find(s, Lit('/'), i) == i + |o| < |s| && s[i..i + |o|] == o && s[i + |o| + 1..] == rest
  {
    var v := "/" + rest;
    assert Segment(o) + rest == o + v;
    FindAt(s, Lit('/'), i, o, v);
    assert s[i + |o| + 1..] == s[i + |o|..][1..] == rest;
  }

  /** The scan of a text made of five captures finds these captures again. */
  lemma ReferenceScanned(c: Scanner, r: ImageReference)
    requires c.Consistent() && RawOk(c, r)
    ensures ScanReference(c, Print(r)) == Some(State(|Print(r)|, Captures(r)))
  {
    var s := Print(r);
    var d, rest := r.domain, Segment(r.organisation) + Tail(r);
    assert s[0..] == s;
    if d != "" {
      SegmentScanned(s, 0, d, rest);
      assert s[0..|d|] == s[..|d|];
      OrganisationScanned(c, s, State(|d| + 1, map[1 := d]), r);
    } else {
      assert s == rest;
      OrganisationScanned(c, s, State(0, map[]), r);
      NotADomain(c, s, r);
    }
  }

  lemma NotADomain(c: Scanner, s: string, r: ImageReference)
    requires c.Consistent() && RawOk(c, r) && r.domain == "" && s == Segment(r.organisation) + Tail(r)
    ensures var e := Find(s, Lit('/'), 0); !(e < |s| && c.isDomain(s[..e]))
  {
    assert s[0..] == s;
    if r.organisation != "" {
      SegmentScanned(s, 0, r.organisation, Tail(r));
      assert s[0..|r.organisation|] == s[..|r.organisation|];
    } else {
      TailFree(c, r);
      assert s == Tail(r) + "";
      FindAt(s, Lit('/'), 0, Tail(r), "");
    }
  }

  // ---- Parsing and printing undo each other ----

  lemma PrintShift(r: ImageReference)
    ensures Print(Shift(r)) == Print(r)
  {
    if Shift(r) != r {
      assert Segment("") + Tail(r) == Tail(r);
    }
  }

  /** Printing a successfully parsed reference gives back the text, despite the shift of the domain; the record is one
      of the canonical ones, so with an empty organisation the name is a single segment. */
  lemma ParsePrint(c: Scanner, lower: string -> string, s: string)
    requires c.Consistent() && Parse(c, lower, s).Ok?
    ensures var r := Parse(c, lower, s).value;
      Print(r) == s && Canonical(c, r) && (r.organisation == "" ==> '/' !in r.name)
  {
    var raw := ReferenceRead(c, s);
    CapturedCaptures(raw);
    PrintShift(raw);
  }

  /** The captures that a canonical record comes from. */
  function Unshift(c: Scanner, r: ImageReference): ImageReference {
    if r.domain == "" && r.organisation != "" && c.isDomain(r.organisation)
    then r.(domain := r.organisation, organisation := "") else r
  }

  lemma PrintParseCanonical(c: Scanner, lower: string -> string, r: ImageReference)
    requires c.Consistent() && Canonical(c, r)
    ensures Parse(c, lower, Print(r)) == Ok(r)
  {
    var raw := Unshift(c, r);
    assert RawOk(c, raw) && Shift(raw) == r && |raw.domain| <= NAME_TOTAL_LENGTH_MAX;
    PrintShift(raw);
    ReferenceScanned(c, raw);
    CapturedCaptures(raw);
    assert Group(Captures(raw), 1) == FromCaptures(Captures(raw)).domain;
  }

  /** Exactly the canonical records survive printing and parsing. */
  lemma PrintParseIff(c: Scanner, lower: string -> string, r: ImageReference)
    requires c.Consistent()
    ensures Parse(c, lower, Print(r)) == Ok(r) <==> Canonical(c, r)
  {
    if Canonical(c, r) {
      PrintParseCanonical(c, lower, r);
    }
    if Parse(c, lower, Print(r)) == Ok(r) {
      ParsePrint(c, lower, Print(r));
    }
  }
}
