/** Opened directories of the generated file systems (pkg/apis/wksprovider/machine/scripts/scripts_vfsdata.go): listings
    in pages. */
module DirectoryPages {
  datatype Page<+T> = Entries(entries: seq<T>) | Eof

  /** The page that Readdir(count) yields at a position, and the position behind it. */
  function PageAt<T>(entries: seq<T>, pos: nat, count: int): (Page<T>, nat)
    requires pos <= |entries|
  {
    if pos >= |entries| && count > 0 then (Eof, pos)
    else
      var n := if count <= 0 || count > |entries| - pos then |entries| - pos else count;
      (Entries(entries[pos..pos + n]), pos + n)
  }

  function PagesFrom<T>(entries: seq<T>, pos: nat, counts: seq<int>): seq<Page<T>>
    requires pos <= |entries|
    decreases |counts|
  {
    if counts == [] then []
    else
      var (page, next) := PageAt(entries, pos, counts[0]);
      [page] + PagesFrom(entries, next, counts[1..])
  }

  function Listed<T>(pages: seq<Page<T>>): seq<T> {
    if pages == [] then [] else (if pages[0].Entries? then pages[0].entries else []) + Listed(pages[1..])
  }

  function Total(counts: seq<int>): nat {
    if counts == [] then 0 else (if counts[0] > 0 then counts[0] else 0) + Total(counts[1..])
  }

  /** Whatever the page sizes: the pages put together are the entries from the position on, in order, none lost and none
      repeated. They are all of the rest exactly when one page asked for all or the sizes add up to enough. */
  lemma {:induction false} PagesConcatenate<T>(entries: seq<T>, pos: nat, counts: seq<int>)
    requires pos <= |entries|
    ensures var out := Listed(PagesFrom(entries, pos, counts));
      && out <= entries[pos..]
      && (out == entries[pos..] <==>
            pos == |entries| || (exists i :: 0 <= i < |counts| && counts[i] <= 0) || Total(counts) >= |entries| - pos)
      && ((forall i :: 0 <= i < |counts| ==> counts[i] > 0) && Total(counts) <= |entries| - pos ==>
            |out| == Total(counts))
    decreases |counts|
  {
    if counts != [] {
      var (page, next) := PageAt(entries, pos, counts[0]);
      var rest := counts[1..];
      PagesConcatenate(entries, next, rest);
      var pages := PagesFrom(entries, next, rest);
      assert ([page] + pages)[1..] == pages;
      var first := if page.Entries? then page.entries else [];
      assert first == entries[pos..next] && entries[pos..] == first + entries[next..];
      assert forall i :: 0 < i < |counts| ==> counts[i] == rest[i - 1];
      assert forall i :: 0 <= i < |rest| ==> rest[i] == counts[i + 1];
      SamePrefix(first, Listed(pages), entries[next..]);
    }
  }

  lemma SamePrefix<T>(first: seq<T>, a: seq<T>, b: seq<T>)
    requires a <= b
    ensures first + a <= first + b
    ensures first + a == first + b <==> a == b
  {
    if first + a == first + b {
      assert (first + a)[|first|..] == a && (first + b)[|first|..] == b;
    }
  }

  /** Where the pages leave off. */
  function PositionBehind<T>(entries: seq<T>, pos: nat, counts: seq<int>): (end: nat)
    requires pos <= |entries|
    ensures pos <= end <= |entries|
    decreases |counts|
  {
    if counts == [] then pos else PositionBehind(entries, PageAt(entries, pos, counts[0]).1, counts[1..])
  }

  lemma {:induction false} PagesReach<T>(entries: seq<T>, pos: nat, counts: seq<int>)
    requires pos <= |entries|
    ensures Listed(PagesFrom(entries, pos, counts)) == entries[pos..PositionBehind(entries, pos, counts)]
    decreases |counts|
  {
    if counts != [] {
      var (page, next) := PageAt(entries, pos, counts[0]);
      PagesReach(entries, next, counts[1..]);
      var pages, end := PagesFrom(entries, next, counts[1..]), PositionBehind(entries, pos, counts);
      assert ([page] + pages)[1..] == pages;
      assert entries[pos..end] == entries[pos..next] + entries[next..end];
    }
  }

  /** Behind any pages from the start: the next request is answered by the end exactly when it asks for entries and all
      of them have been listed. */
  lemma EofMeansAll<T>(entries: seq<T>, counts: seq<int>, count: int)
    ensures PageAt(entries, PositionBehind(entries, 0, counts), count).0.Eof? <==>
            count > 0 && Listed(PagesFrom(entries, 0, counts)) == entries
  {
    var end := PositionBehind(entries, 0, counts);
    PagesReach(entries, 0, counts);
    assert entries[0..|entries|] == entries;
    assert |entries[0..end]| == end;
  }

  class Dir<T> {
    const entries: seq<T>
    var pos: nat

    constructor (entries: seq<T>)
      ensures this.entries == entries && pos == 0
    {
      this.entries := entries;
      pos := 0;
    }

    method Seek(offset: int, fromStart: bool) returns (ok: bool)
      modifies this
      ensures ok <==> offset == 0 && fromStart
      ensures pos == if ok then 0 else old(pos)
    {
      if offset == 0 && fromStart {
        pos := 0;
        return true;
      }
      return false;
    }

    method Readdir(count: int) returns (page: Page<T>)
      requires pos <= |entries|
      modifies this
      ensures (page, pos) == PageAt(entries, old(pos), count) && pos <= |entries|
    {
      if pos >= |entries| && count > 0 {
        return Eof;
      }
      var n := count;
      if n <= 0 || n > |entries| - pos {
        n := |entries| - pos;
      }
      page := Entries(entries[pos..pos + n]);
      pos := pos + n;
    }
  }
}
