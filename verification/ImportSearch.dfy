/** What the caching Jsonnet importer (pkg/addons/vfs_importer.go) does: a search along several directories that
    remembers, for every path it has looked at, what it found there. */
module ImportSearch {
  import opened Wrappers

  datatype ReadError = NotExist | Unreadable

  /** ReadAll gives what it has read, also next to an error. */
  datatype ReadResult = ReadResult(data: string, error: Option<ReadError>)

  /** An immutable file system, and the joining of paths. */
  datatype FileSystem = FileSystem(readAll: string -> ReadResult, join: (string, string) -> string)

  datatype Entry = Entry(present: bool, contents: string)

  type Cache = map<string, Entry>

  datatype Found = Found(contents: string, at: string)

  /** A file that exists but cannot be read counts as found, with what could be read of it. */
  function Look(fs: FileSystem, absPath: string): Entry {
    var r := fs.readAll(absPath);
    if r.error == Some(NotExist) then Entry(false, "") else Entry(true, r.data)
  }

  predicate IsAbs(path: string) {
    path != "" && path[0] == '/'
  }

  /** An absolute path stands for itself. */
  function AbsPath(fs: FileSystem, dir: string, path: string): string {
    if IsAbs(path) then path else fs.join(dir, path)
  }

  /** Everything up to the last slash, as path.Split has it. */
  function DirOf(path: string): (dir: string)
    ensures dir <= path && '/' !in path[|dir|..] && (dir == "" || dir[|dir| - 1] == '/')
  {
    if path == "" || path[|path| - 1] == '/' then path else DirOf(path[..|path| - 1])
  }

  // ---- The search without a cache ----

  function Backwards(dirs: seq<string>): (r: seq<string>)
    ensures |r| == |dirs| && forall k :: 0 <= k < |dirs| ==> r[k] == dirs[|dirs| - 1 - k]
  {
    if dirs == [] then [] else [dirs[|dirs| - 1]] + Backwards(dirs[..|dirs| - 1])
  }

  /** The importing file's directory, then the search paths from the last to the first. */
  function Places(searchPaths: seq<string>, importedFrom: string): seq<string> {
    [DirOf(importedFrom)] + Backwards(searchPaths)
  }

  function FirstFound(fs: FileSystem, places: seq<string>, path: string): Option<Found> {
    if places == [] then None
    else
      var at := AbsPath(fs, places[0], path);
      if Look(fs, at).present then Some(Found(Look(fs, at).contents, at)) else FirstFound(fs, places[1..], path)
  }

  function Search(fs: FileSystem, searchPaths: seq<string>, importedFrom: string, path: string): Option<Found> {
    FirstFound(fs, Places(searchPaths, importedFrom), path)
  }

  predicate FoundAt(fs: FileSystem, places: seq<string>, path: string, i: nat) {
    i < |places| && Look(fs, AbsPath(fs, places[i], path)).present
  }

  /** What is found lies at the first place that has it. */
  lemma {:induction false} FirstFoundIff(fs: FileSystem, places: seq<string>, path: string, i: nat)
    requires i < |places|
    ensures FoundAt(fs, places, path, i) && (forall j :: 0 <= j < i ==> !FoundAt(fs, places, path, j)) ==>
              FirstFound(fs, places, path) ==
              Some(Found(Look(fs, AbsPath(fs, places[i], path)).contents, AbsPath(fs, places[i], path)))
    ensures FirstFound(fs, places, path).None? <==> forall j :: 0 <= j < |places| ==> !FoundAt(fs, places, path, j)
    decreases |places|
  {
    var rest := places[1..];
    assert forall j :: 0 <= j < |rest| ==> (FoundAt(fs, rest, path, j) <==> FoundAt(fs, places, path, j + 1));
    assert forall j :: 0 < j < |places| ==> (FoundAt(fs, places, path, j) <==> FoundAt(fs, rest, path, j - 1));
    if i > 0 {
      FirstFoundIff(fs, rest, path, i - 1);
    } else if rest != [] {
      FirstFoundIff(fs, rest, path, 0);
    }
    assert !FoundAt(fs, places, path, 0) ==> FirstFound(fs, places, path) == FirstFound(fs, rest, path);
  }

  // ---- What a search is for, in terms of what can be read where ----

  /** There is no such file. */
  predicate Missing(fs: FileSystem, at: string) {
    fs.readAll(at).error == Some(NotExist)
  }

  /** The path of a file: its directory, with the slash behind it, and its name. */
  predicate IsFileIn(path: string, dir: string, file: string) {
    path == dir + file && '/' !in file && (dir != "" ==> dir[|dir| - 1] == '/')
  }

  /** The search path i is the last one that has the file. */
  predicate LastToHave(fs: FileSystem, searchPaths: seq<string>, path: string, i: nat) {
    && i < |searchPaths| && !Missing(fs, AbsPath(fs, searchPaths[i], path))
    && forall j :: i < j < |searchPaths| ==> Missing(fs, AbsPath(fs, searchPaths[j], path))
  }

  /** Read at the last search path that has the file; nothing if none has. */
  predicate FromSearchPaths(fs: FileSystem, searchPaths: seq<string>, path: string, r: Option<Found>) {
    match r
    case None => forall i :: 0 <= i < |searchPaths| ==> Missing(fs, AbsPath(fs, searchPaths[i], path))
    case Some(f) =>
      && f.contents == fs.readAll(f.at).data
      && exists i :: 0 <= i < |searchPaths| && LastToHave(fs, searchPaths, path, i)
                     && f.at == AbsPath(fs, searchPaths[i], path)
  }

  /** What is imported has been read at the importing file's directory, or, if there is no such file there, at a search
      path. */
  predicate Imports(fs: FileSystem, searchPaths: seq<string>, dir: string, path: string, r: Option<Found>) {
    var here := AbsPath(fs, dir, path);
    if !Missing(fs, here) then r == Some(Found(fs.readAll(here).data, here))
    else FromSearchPaths(fs, searchPaths, path, r)
  }

  lemma NotInTheLast(fs: FileSystem, searchPaths: seq<string>, path: string, r: Option<Found>)
    requires searchPaths != [] && Missing(fs, AbsPath(fs, searchPaths[|searchPaths| - 1], path))
    requires FromSearchPaths(fs, searchPaths[..|searchPaths| - 1], path, r)
    ensures FromSearchPaths(fs, searchPaths, path, r)
  {
    var front := searchPaths[..|searchPaths| - 1];
    if r.Some? {
      var i :| 0 <= i < |front| && LastToHave(fs, front, path, i) && r.value.at == AbsPath(fs, front[i], path);
      assert LastToHave(fs, searchPaths, path, i);
    } else {
      forall i | 0 <= i < |searchPaths| ensures Missing(fs, AbsPath(fs, searchPaths[i], path)) {
        assert i < |front| ==> front[i] == searchPaths[i];
      }
    }
  }

  lemma {:induction false} FirstOfSearchPaths(fs: FileSystem, searchPaths: seq<string>, path: string)
    ensures FromSearchPaths(fs, searchPaths, path, FirstFound(fs, Backwards(searchPaths), path))
    decreases |searchPaths|
  {
    if searchPaths != [] {
      var n := |searchPaths| - 1;
      assert Backwards(searchPaths)[1..] == Backwards(searchPaths[..n]);
      if Missing(fs, AbsPath(fs, searchPaths[n], path)) {
        FirstOfSearchPaths(fs, searchPaths[..n], path);
        NotInTheLast(fs, searchPaths, path, FirstFound(fs, Backwards(searchPaths[..n]), path));
      } else {
        assert LastToHave(fs, searchPaths, path, n);
      }
    }
  }

  lemma {:induction false} DirOfFile(path: string, dir: string, file: string)
    requires IsFileIn(path, dir, file)
    ensures DirOf(path) == dir
    decreases |file|
  {
    if file == "" {
      assert path == dir;
    } else {
      var shorter := file[..|file| - 1];
      assert path[..|path| - 1] == dir + shorter;
      DirOfFile(dir + shorter, dir, shorter);
    }
  }

  /** The search does just this. */
  lemma SearchImports(fs: FileSystem, searchPaths: seq<string>, importedFrom: string, dir: string, file: string,
                      path: string)
    requires IsFileIn(importedFrom, dir, file)
    ensures Imports(fs, searchPaths, dir, path, Search(fs, searchPaths, importedFrom, path))
  {
    DirOfFile(importedFrom, dir, file);
    assert Places(searchPaths, importedFrom)[1..] == Backwards(searchPaths);
    FirstOfSearchPaths(fs, searchPaths, path);
  }

  // ---- The search with a cache ----

  /** The cache says of every path in it what the file system says. */
  predicate Sound(fs: FileSystem, cache: Cache) {
    forall p :: p in cache ==> cache[p] == Look(fs, p)
  }

  function Remember(fs: FileSystem, cache: Cache, at: string): Cache {
    if at in cache then cache else cache[at := Look(fs, at)]
  }

  function CachedFirst(fs: FileSystem, cache: Cache, places: seq<string>, path: string): (Option<Found>, Cache)
    decreases |places|
  {
    if places == [] then (None, cache)
    else
      var at := AbsPath(fs, places[0], path);
      var known := Remember(fs, cache, at);
      if known[at].present then (Some(Found(known[at].contents, at)), known)
      else CachedFirst(fs, known, places[1..], path)
  }

  datatype Call = Call(searchPaths: seq<string>, importedFrom: string, path: string)

  /** A run of Import calls, search paths and all. */
  function Calls(fs: FileSystem, cache: Cache, calls: seq<Call>): (seq<Option<Found>>, Cache)
    decreases |calls|
  {
    if calls == [] then ([], cache)
    else
      var (r, known) := CachedFirst(fs, cache, Places(calls[0].searchPaths, calls[0].importedFrom), calls[0].path);
      var (rs, end) := Calls(fs, known, calls[1..]);
      ([r] + rs, end)
  }

  /** The paths one search looks at. */
  function Visited(fs: FileSystem, places: seq<string>, path: string): set<string> {
    if places == [] then {}
    else
      var at := AbsPath(fs, places[0], path);
      {at} + if Look(fs, at).present then {} else Visited(fs, places[1..], path)
  }

  /** One cached search: the uncached result, and a cache that has gained just the visited paths and changed no
      entry. */
  lemma {:induction false} CachedIsUncached(fs: FileSystem, cache: Cache, places: seq<string>, path: string)
    requires Sound(fs, cache)
    ensures
      var (r, known) := CachedFirst(fs, cache, places, path);
      && r == FirstFound(fs, places, path) && Sound(fs, known)
      && known.Keys == cache.Keys + Visited(fs, places, path)
      && forall p :: p in cache ==> p in known && known[p] == cache[p]
    decreases |places|
  {
    if places != [] {
      var known := Remember(fs, cache, AbsPath(fs, places[0], path));
      CachedIsUncached(fs, known, places[1..], path);
    }
  }

  /** Any sequence of calls, whatever has been cached before: every result is that of the uncached search, and no cache
      entry, positive or negative, ever changes. */
  lemma {:induction false} CallsAreUncached(fs: FileSystem, cache: Cache, calls: seq<Call>)
    requires Sound(fs, cache)
    ensures
      var (rs, end) := Calls(fs, cache, calls);
      && |rs| == |calls|
      && (forall i :: 0 <= i < |calls| ==>
            rs[i] == Search(fs, calls[i].searchPaths, calls[i].importedFrom, calls[i].path))
      && Sound(fs, end) && (forall p :: p in cache ==> p in end && end[p] == cache[p])
    decreases |calls|
  {
    if calls != [] {
      var places := Places(calls[0].searchPaths, calls[0].importedFrom);
      CachedIsUncached(fs, cache, places, calls[0].path);
      CallsAreUncached(fs, CachedFirst(fs, cache, places, calls[0].path).1, calls[1..]);
    }
  }
}
