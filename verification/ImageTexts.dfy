/** What a reference is, said on its text: the segments between the slashes, the tag and the digest. Which segment is
    the domain, which the organisation and which the name, and what rewriting makes of them. */
module ImageTexts {
  import opened Wrappers
  import opened Regex
  import opened RegexLanguage
  import opened ReferenceScan
  import opened ImageReference
  import opened ImageUpdates

  /** The segments with slashes between them, then the tag and the digest, if any. */
  function TextOf(parts: seq<string>, tag: string, digest: string): string
    requires parts != []
  {
    Text.Join(parts, '/') + ((if tag == "" then "" else ":" + tag) + (if digest == "" then "" else "@" + digest))
  }

  /** Segments, tag and digest of a reference: the first of several segments may be a domain. */
  predicate Segments(c: Scanner, parts: seq<string>, tag: string, digest: string) {
    && parts != []
    && (c.isComponent(parts[0]) || (|parts| > 1 && c.isDomain(parts[0])))
    && (forall i :: 0 < i < |parts| ==> c.isComponent(parts[i]))
    && (tag == "" || c.isTag(tag)) && (digest == "" || c.isDigest(digest))
  }

  /** The first segment is the domain: one of several, and if it is one of two it holds a dot or a colon. */
  predicate HasHost(c: Scanner, parts: seq<string>) {
    |parts| > 1 && c.isDomain(parts[0]) && (|parts| > 2 || '.' in parts[0] || ':' in parts[0])
  }

  /** What stands behind the domain: the organisation, if anything follows it, and the name. */
  function BehindHost(c: Scanner, parts: seq<string>): seq<string> {
    if HasHost(c, parts) then parts[1..] else parts
  }

  function OrganisationOf(c: Scanner, parts: seq<string>): string {
    var rest := BehindHost(c, parts);
    if |rest| > 1 then rest[0] else ""
  }

  function NameOf(c: Scanner, parts: seq<string>): seq<string>
    requires parts != []
    ensures NameOf(c, parts) != []
  {
    var rest := BehindHost(c, parts);
    if |rest| > 1 then rest[1..] else rest
  }

  function RecordOf(c: Scanner, parts: seq<string>, tag: string, digest: string): ImageReference
    requires parts != []
  {
    ImageReference(if HasHost(c, parts) then parts[0] else "", OrganisationOf(c, parts),
                   Text.Join(NameOf(c, parts), '/'), tag, digest)
  }

  /** The host part of the text has at most 255 characters; no other part has a limit. */
  predicate ShortHost(c: Scanner, parts: seq<string>) {
    |parts| > 1 && c.isDomain(parts[0]) ==> |parts[0]| <= 255
  }

  // ---- Parsing ----

  lemma {:induction false} ComponentsArePath(c: Scanner, parts: seq<string>)
    requires c.Consistent() && parts != [] && forall i :: 0 <= i < |parts| ==> c.isComponent(parts[i])
    ensures c.isPath(Text.Join(parts, '/'))
    ensures |parts| == 1 ==> '/' !in Text.Join(parts, '/')
    decreases |parts|
  {
    var w := Text.Join(parts, '/');
    assert c.PathCutAt(w, Find(w, Lit('/'), 0));
    if |parts| == 1 {
      assert Free(w, Lit('/'));
      FirstOf(Lit('/'), w, "");
      assert w + "" == w;
    } else {
      ComponentsArePath(c, parts[1..]);
      FirstSegmentOf(parts[0], Text.Join(parts[1..], '/'));
      assert w == Segment(parts[0]) + Text.Join(parts[1..], '/');
    }
  }

  /** The five captures. */
  function RawOf(c: Scanner, parts: seq<string>, tag: string, digest: string): ImageReference
    requires parts != []
  {
    var behind := if |parts| > 1 && c.isDomain(parts[0]) then parts[1..] else parts;
    ImageReference(if |parts| > 1 && c.isDomain(parts[0]) then parts[0] else "",
                   if |behind| > 1 then behind[0] else "",
                   Text.Join(if |behind| > 1 then behind[1..] else behind, '/'), tag, digest)
  }

  lemma RawIsOk(c: Scanner, parts: seq<string>, tag: string, digest: string)
    requires c.Consistent() && Segments(c, parts, tag, digest)
    ensures RawOk(c, RawOf(c, parts, tag, digest)) && Print(RawOf(c, parts, tag, digest)) == TextOf(parts, tag, digest)
    ensures Shift(RawOf(c, parts, tag, digest)) == RecordOf(c, parts, tag, digest)
  {
    var behind := if |parts| > 1 && c.isDomain(parts[0]) then parts[1..] else parts;
    ComponentsArePath(c, if |behind| > 1 then behind[1..] else behind);
    RawPrints(c, parts, tag, digest);
  }

  lemma RawPrints(c: Scanner, parts: seq<string>, tag: string, digest: string)
    requires c.Consistent() && Segments(c, parts, tag, digest)
    ensures Print(RawOf(c, parts, tag, digest)) == TextOf(parts, tag, digest)
  {
    var behind := if |parts| > 1 && c.isDomain(parts[0]) then parts[1..] else parts;
    JoinFirst(behind);
    JoinFirst(parts);
    PrintedSegments(RawOf(c, parts, tag, digest), parts, behind);
  }

  lemma JoinFirst(parts: seq<string>)
    requires parts != []
    ensures |parts| > 1 ==> Text.Join(parts, '/') == (parts[0] + "/") + Text.Join(parts[1..], '/')
  {
  }

  lemma PrintedSegments(r: ImageReference, parts: seq<string>, behind: seq<string>)
    requires parts != [] && behind != []
    requires Text.Join(behind, '/') == Segment(r.organisation) + r.name
    requires Text.Join(parts, '/') == Segment(r.domain) + Text.Join(behind, '/')
    ensures Print(r) == TextOf(parts, r.tag, r.digest)
  {
    var rest := TagText(r.tag) + DigestText(r.digest);
    Assoc(Segment(r.organisation), r.name, rest);
    Assoc(Segment(r.domain), Text.Join(behind, '/'), rest);
  }

  /** Every text of segments, tag and digest is read just so; only a domain over 255 characters is refused. */
  lemma ReadsSegments(c: Scanner, lower: string -> string, parts: seq<string>, tag: string, digest: string)
    requires c.Consistent() && Segments(c, parts, tag, digest)
    ensures Parse(c, lower, TextOf(parts, tag, digest))
         == if ShortHost(c, parts) then Ok(RecordOf(c, parts, tag, digest)) else Err(NameTooLong)
  {
    var raw := RawOf(c, parts, tag, digest);
    RawIsOk(c, parts, tag, digest);
    ReferenceScanned(c, raw);
    CapturedCaptures(raw);
    assert Group(Captures(raw), 1) == FromCaptures(Captures(raw)).domain;
  }

  lemma {:induction false} PathSegments(c: Scanner, w: string)
    requires c.Consistent() && c.isPath(w)
    ensures forall i :: 0 <= i < |Text.Split(w, '/')| ==> c.isComponent(Text.Split(w, '/')[i])
    decreases |w|
  {
    var e := Find(w, Lit('/'), 0);
    assert c.PathCutAt(w, e);
    assert forall i :: 0 <= i < e ==> !InClass(Lit('/'), w[i]);
    if e < |w| {
      PathSegments(c, w[e + 1..]);
      Text.SplitCons(w[..e], '/', w[e + 1..]);
      assert w == w[..e] + ['/'] + w[e + 1..];
    } else {
      assert w[..e] == w;
      Text.SplitNone(w, '/');
    }
  }

  /** Every text of the grammar is one of segments, tag and digest. */
  lemma HasSegments(c: Scanner, s: string) returns (parts: seq<string>, tag: string, digest: string)
    requires c.Consistent() && ScanReference(c, s).Some?
    ensures Segments(c, parts, tag, digest) && TextOf(parts, tag, digest) == s
  {
    var raw := ReferenceRead(c, s);
    PathSegments(c, raw.name);
    Text.JoinSplit(raw.name, '/');
    var name := Text.Split(raw.name, '/');
    var behind := (if raw.organisation == "" then [] else [raw.organisation]) + name;
    parts, tag, digest := (if raw.domain == "" then [] else [raw.domain]) + behind, raw.tag, raw.digest;
    LedBy(raw.organisation, name, behind);
    LedBy(raw.domain, behind, parts);
    PrintedSegments(raw, parts, behind);
  }

  lemma LedBy(first: string, rest: seq<string>, parts: seq<string>)
    requires rest != [] && parts == (if first == "" then [] else [first]) + rest
    ensures Text.Join(parts, '/') == Segment(first) + Text.Join(rest, '/')
  {
    if first != "" {
      assert parts[1..] == rest;
    } else {
      assert parts == rest;
    }
  }

  lemma NoColonInOrganisation(c: Scanner, parts: seq<string>, tag: string, digest: string)
    requires c.Consistent() && Segments(c, parts, tag, digest)
    ensures ':' !in OrganisationOf(c, parts)
  {
    var o := OrganisationOf(c, parts);
    if c.isComponent(o) {
      assert Free(o, ColonAt);
      assert forall i :: 0 <= i < |o| ==> !InClass(ColonAt, o[i]);
    }
  }

  /** No organisation that is read holds a colon. */
  lemma OrganisationsHaveNoColon(c: Scanner, lower: string -> string, s: string)
    requires c.Consistent() && Parse(c, lower, s).Ok?
    ensures ':' !in Parse(c, lower, s).value.organisation
  {
    var parts, tag, digest := HasSegments(c, s);
    ReadsSegments(c, lower, parts, tag, digest);
    NoColonInOrganisation(c, parts, tag, digest);
  }

  // ---- Rewriting ----

  /** A repository without a slash takes the place of the host, or comes in front where there is none. */
  lemma RewritesHost(c: Scanner, lower: string -> string, parts: seq<string>, tag: string, digest: string, host: string)
    requires c.Consistent() && Segments(c, parts, tag, digest) && ShortHost(c, parts) && host != "" && '/' !in host
    ensures Update(c, lower, TextOf(parts, tag, digest), host) == Ok(TextOf([host] + BehindHost(c, parts), tag, digest))
  {
    var r, behind := RecordOf(c, parts, tag, digest), BehindHost(c, parts);
    ReadsSegments(c, lower, parts, tag, digest);
    NotEmpty(c, parts);
    Text.SplitNone(host, '/');
    JoinFirst(behind);
    LedBy(host, behind, [host] + behind);
    PrintedSegments(r.(domain := host), [host] + behind, behind);
  }

  lemma NotEmpty(c: Scanner, parts: seq<string>)
    requires c.Consistent() && parts != [] && forall i :: 0 < i < |parts| ==> c.isComponent(parts[i])
    requires c.isComponent(parts[0]) || c.isDomain(parts[0])
    ensures forall i :: 0 <= i < |parts| ==> parts[i] != ""
  {
  }

  /** One with a slash takes the place of host and organisation. */
  lemma RewritesBoth(c: Scanner, lower: string -> string, parts: seq<string>, tag: string, digest: string, host: string,
                     organisation: string)
    requires c.Consistent() && Segments(c, parts, tag, digest) && ShortHost(c, parts)
    requires host != "" && '/' !in host && organisation != "" && '/' !in organisation
    ensures Update(c, lower, TextOf(parts, tag, digest), host + "/" + organisation)
         == Ok(TextOf([host, organisation] + NameOf(c, parts), tag, digest))
  {
    var r, name := RecordOf(c, parts, tag, digest), NameOf(c, parts);
    ReadsSegments(c, lower, parts, tag, digest);
    Text.SplitNone(organisation, '/');
    Text.SplitCons(host, '/', organisation);
    assert host + ['/'] + organisation == host + "/" + organisation;
    LedBy(organisation, name, [organisation] + name);
    LedBy(host, [organisation] + name, [host] + ([organisation] + name));
    assert [host] + ([organisation] + name) == [host, organisation] + name;
    PrintedSegments(r.(domain := host, organisation := organisation), [host, organisation] + name,
                    [organisation] + name);
  }

  /** One with more slashes is refused. */
  lemma RefusesDeep(c: Scanner, lower: string -> string, parts: seq<string>, tag: string, digest: string, a: string,
                    b: string, rest: string)
    requires c.Consistent() && Segments(c, parts, tag, digest) && ShortHost(c, parts) && '/' !in a && '/' !in b
    ensures Update(c, lower, TextOf(parts, tag, digest), a + "/" + b + "/" + rest) == Err(InvalidRepository)
  {
    ReadsSegments(c, lower, parts, tag, digest);
    SplitsDeep(a, b, rest);
  }

  lemma SplitsDeep(a: string, b: string, rest: string)
    requires '/' !in a && '/' !in b
    ensures |Text.Split(a + "/" + b + "/" + rest, '/')| > 2
  {
    Text.SplitCons(b, '/', rest);
    Text.SplitCons(a, '/', b + ['/'] + rest);
    assert a + ['/'] + (b + ['/'] + rest) == a + "/" + b + "/" + rest;
  }

  lemma TwoSegments(a: string, b: string)
    ensures TextOf([a, b], "", "") == a + "/" + b
  {
    assert [a, b][1..] == [b] && "" + "" == "";
    assert Text.Join([a, b], '/') == a + ['/'] + b;
  }

  lemma ThreeSegments(a: string, b: string, n: string)
    ensures TextOf([a, b, n], "", "") == a + "/" + b + "/" + n
  {
    assert [a, b, n][1..] == [b, n] && [b, n][1..] == [n] && "" + "" == "";
    assert Text.Join([b, n], '/') == b + ['/'] + n;
    assert a + ['/'] + (b + ['/'] + n) == a + "/" + b + "/" + n;
  }

  lemma InFront(c: Scanner, lower: string -> string, h: string, n: string, repository: string)
    requires c.Consistent()
    requires c.isDomain(h) && |h| <= 255 && c.isComponent(n) && repository != "" && '/' !in repository
    ensures
      if '.' in h || ':' in h then
        && Parse(c, lower, h + "/" + n) == Ok(ImageReference(h, "", n, "", ""))
        && Update(c, lower, h + "/" + n, repository) == Ok(repository + "/" + n)
      else
        && Parse(c, lower, h + "/" + n) == Ok(ImageReference("", h, n, "", ""))
        && Update(c, lower, h + "/" + n, repository) == Ok(repository + "/" + h + "/" + n)
  {
    var parts := [h, n];
    TwoSegments(h, n);
    assert Segments(c, parts, "", "") && parts[1..] == [n] && Text.Join([n], '/') == n;
    ReadsSegments(c, lower, parts, "", "");
    RewritesHost(c, lower, parts, "", "", repository);
    assert [repository] + [n] == [repository, n] && [repository] + parts == [repository, h, n];
    TwoSegments(repository, n);
    ThreeSegments(repository, h, n);
  }
}
