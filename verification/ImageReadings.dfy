/** The same for the repository's grammar, and for texts of plain words. */
module ImageReadings {
  import opened Wrappers
  import opened Regex
  import opened RegexLanguage
  import opened ImageGrammar
  import opened ImageReference
  import opened ImageUpdates
  import opened ImageTexts
  import Images
  import ReferenceSplitter

  const SCANS := Images.SCANS

  /** Exactly the texts of segments, tag and digest are in the grammar's language, and each is read just so. */
  lemma ParsesSegmentsIff(lower: string -> string, s: string)
    ensures Lang(REFERENCE, s) <==>
            exists parts, tag, digest :: Segments(SCANS, parts, tag, digest) && TextOf(parts, tag, digest) == s
    ensures forall parts, tag, digest :: Segments(SCANS, parts, tag, digest) && TextOf(parts, tag, digest) == s ==>
              Parse(SCANS, lower, s)
              == if ShortHost(SCANS, parts) then Ok(RecordOf(SCANS, parts, tag, digest)) else Err(NameTooLong)
  {
    ReferenceSplitter.ScansAreConsistent();
    ReferenceSplitter.SplitterIsRegexp(s);
    if Lang(REFERENCE, s) {
      var parts, tag, digest := HasSegments(SCANS, s);
    }
    forall parts, tag, digest | Segments(SCANS, parts, tag, digest) && TextOf(parts, tag, digest) == s
      ensures Lang(REFERENCE, s)
      ensures Parse(SCANS, lower, s)
           == if ShortHost(SCANS, parts) then Ok(RecordOf(SCANS, parts, tag, digest)) else Err(NameTooLong)
    {
      ReadsSegments(SCANS, lower, parts, tag, digest);
      RawIsOk(SCANS, parts, tag, digest);
      ReferenceScanned(SCANS, RawOf(SCANS, parts, tag, digest));
    }
  }

  /** Which error a text outside the language gets. */
  lemma ErrorsOutside(lower: string -> string, s: string)
    requires !Lang(REFERENCE, s)
    ensures Parse(SCANS, lower, s) == Err(if s == "" then NameEmpty
                                          else if Lang(REFERENCE, lower(s)) then NameContainsUppercase
                                          else InvalidFormat)
    ensures forall repository :: repository != "" ==>
              Update(SCANS, lower, s, repository) == Err(InvalidImage(Parse(SCANS, lower, s).error))
  {
    ReferenceSplitter.SplitterIsRegexp(s);
    ReferenceSplitter.SplitterIsRegexp(lower(s));
  }

  /** One segment in front of a name is the domain if it holds a dot or a colon, and then a repository replaces it; else
      it is the organisation, and stays. */
  lemma OneSegmentInFront(lower: string -> string, h: string, n: string, repository: string)
    requires SCANS.isDomain(h) && |h| <= 255 && SCANS.isComponent(n) && repository != "" && '/' !in repository
    ensures
      if '.' in h || ':' in h then
        && Parse(SCANS, lower, h + "/" + n) == Ok(ImageReference(h, "", n, "", ""))
        && Update(SCANS, lower, h + "/" + n, repository) == Ok(repository + "/" + n)
      else
        && Parse(SCANS, lower, h + "/" + n) == Ok(ImageReference("", h, n, "", ""))
        && Update(SCANS, lower, h + "/" + n, repository) == Ok(repository + "/" + h + "/" + n)
  {
    ReferenceSplitter.ScansAreConsistent();
    InFront(SCANS, lower, h, n, repository);
  }

  lemma HostWithPort(h: string, port: string)
    requires IsHost(h) && AllIn(AlnumDash, h) && port != "" && AllIn(Digit, port)
    ensures IsDomain(h + ":" + port)
  {
    var w := h + ":" + port;
    assert w == h + (":" + port);
    FirstOf(Lit(':'), h, ":" + port);
    assert w[|h| + 1..] == port;
  }

  lemma PlainHost(h: string)
    requires Images.Plain(h)
    ensures IsHost(h) && AllIn(AlnumDash, h)
  {
    Images.NotThere(h, Lit('.'));
    assert IsDomainComponent(h);
  }

  /** A plain word with a port is a domain. */
  lemma WithPort(h: string, port: string)
    requires Images.Plain(h) && port != "" && forall i :: 0 <= i < |port| ==> '0' <= port[i] <= '9'
    ensures SCANS.isDomain(h + ":" + port)
  {
    PlainHost(h);
    HostWithPort(h, port);
  }

  /** So for any plain words and port h:p/n is n at the registry h:p, and a repository replaces h:p. */
  lemma LocalRegistry(lower: string -> string, h: string, port: string, n: string, repository: string)
    requires Images.Plain(h) && Images.Plain(n) && |h| + 1 + |port| <= 255 && repository != "" && '/' !in repository
    requires port != "" && forall i :: 0 <= i < |port| ==> '0' <= port[i] <= '9'
    ensures Parse(SCANS, lower, h + ":" + port + "/" + n) == Ok(ImageReference(h + ":" + port, "", n, "", ""))
    ensures Update(SCANS, lower, h + ":" + port + "/" + n, repository) == Ok(repository + "/" + n)
  {
    var host := h + ":" + port;
    WithPort(h, port);
    Images.PlainWord(n);
    assert host[|h|] == ':';
    OneSegmentInFront(lower, host, n, repository);
  }
}
