/** The importer's code (pkg/addons/vfs_importer.go). */
module Importer {
  import opened Wrappers
  import opened ImportSearch

  class VFSImporter {
    var searchPaths: seq<string>
    const assets: FileSystem
    var cache: Cache

    constructor (assets: FileSystem)
      ensures this.assets == assets && searchPaths == [] && cache == map[] && Sound(assets, cache)
    {
      this.assets := assets;
      searchPaths := [];
      cache := map[];
    }

    method TryPath(dir: string, importedPath: string) returns (found: bool, contents: string, foundHere: string)
      modifies this`cache
      ensures foundHere == AbsPath(assets, dir, importedPath)
      ensures cache == Remember(assets, old(cache), foundHere)
      ensures Entry(found, contents) == cache[foundHere]
      ensures foundHere == if "/" <= importedPath then importedPath else assets.join(dir, importedPath)
      ensures foundHere !in old(cache) || old(Sound(assets, cache)) ==>
                (found <==> !Missing(assets, foundHere)) && (found ==> contents == assets.readAll(foundHere).data)
    {
      var absPath: string;
      if IsAbs(importedPath) {
        absPath := importedPath;
      } else {
        absPath := assets.join(dir, importedPath);
      }
      if absPath !in cache {
        var r := assets.readAll(absPath);
        if r.error == Some(NotExist) {
          cache := cache[absPath := Entry(false, "")];
        } else {
          cache := cache[absPath := Entry(true, r.data)];
        }
      }
      return cache[absPath].present, cache[absPath].contents, absPath;
    }

    lemma SearchMeets(importedFrom: string, importedPath: string)
      ensures forall dir, file :: IsFileIn(importedFrom, dir, file) ==>
                Imports(assets, searchPaths, dir, importedPath, Search(assets, searchPaths, importedFrom, importedPath))
    {
      forall dir, file | IsFileIn(importedFrom, dir, file)
        ensures Imports(assets, searchPaths, dir, importedPath,
                        Search(assets, searchPaths, importedFrom, importedPath))
      {
        SearchImports(assets, searchPaths, importedFrom, dir, file, importedPath);
      }
    }

    /** None where nothing was found and the code returns an error. */
    method Import(importedFrom: string, importedPath: string) returns (r: Option<Found>)
      requires Sound(assets, cache)
      modifies this`cache
      ensures (r, cache) == CachedFirst(assets, old(cache), Places(searchPaths, importedFrom), importedPath)
      ensures r == Search(assets, searchPaths, importedFrom, importedPath)
      ensures forall dir, file :: IsFileIn(importedFrom, dir, file) ==>
                Imports(assets, searchPaths, dir, importedPath, r)
      ensures Sound(assets, cache) && forall p :: p in old(cache) ==> p in cache && cache[p] == old(cache)[p]
    {
      ghost var places := Places(searchPaths, importedFrom);
      CachedIsUncached(assets, cache, places, importedPath);
      SearchMeets(importedFrom, importedPath);
      var found, contents, foundHere := TryPath(DirOf(importedFrom), importedPath);
      var i := |searchPaths| - 1;
      assert searchPaths[..i + 1] == searchPaths;
      assert places[1..] == Backwards(searchPaths);
      while !found && i >= 0
        invariant -1 <= i < |searchPaths|
        invariant foundHere in cache && Entry(found, contents) == cache[foundHere]
        invariant CachedFirst(assets, old(cache), places, importedPath) ==
                  if found then (Some(Found(contents, foundHere)), cache)
                  else CachedFirst(assets, cache, Backwards(searchPaths[..i + 1]), importedPath)
      {
        assert searchPaths[..i + 1][..i] == searchPaths[..i];
        assert Backwards(searchPaths[..i + 1])[1..] == Backwards(searchPaths[..i]);
        found, contents, foundHere := TryPath(searchPaths[i], importedPath);
        i := i - 1;
      }
      if !found {
        return None;
      }
      return Some(Found(contents, foundHere));
    }
  }
}
