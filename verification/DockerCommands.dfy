/** What docker's commands do, to images kept locally and to those in registries. A command is a line of words. */
module DockerCommands {
  import opened Wrappers
  import Text

  /** The content of each image, by the text that names it. */
  datatype World = World(local: map<string, string>, remote: map<string, string>)

  /** None where the command fails: it is none of the three, or the image is not there. */
  function Exec(w: World, command: string): Option<World> {
    var words := Text.Split(command, ' ');
    if |words| == 3 && words[0] == "docker" && words[1] == "pull" && words[2] in w.remote then
      Some(w.(local := w.local[words[2] := w.remote[words[2]]]))
    else if |words| == 4 && words[0] == "docker" && words[1] == "tag" && words[2] in w.local then
      Some(w.(local := w.local[words[3] := w.local[words[2]]]))
    else if |words| == 3 && words[0] == "docker" && words[1] == "push" && words[2] in w.local then
      Some(w.(remote := w.remote[words[2] := w.local[words[2]]]))
    else None
  }

  function Run(w: World, commands: seq<string>): Option<World>
    decreases |commands|
  {
    if commands == [] then Some(w)
    else
      match Exec(w, commands[0])
      case None => None
      case Some(next) => Run(next, commands[1..])
  }

  lemma {:induction false} RunConcat(w: World, a: seq<string>, b: seq<string>)
    ensures Run(w, a + b) == if Run(w, a).Some? then Run(Run(w, a).value, b) else None
    decreases |a|
  {
    if a == [] {
      assert a + b == b;
    } else {
      assert (a + b)[1..] == a[1..] + b;
      if Exec(w, a[0]).Some? {
        RunConcat(Exec(w, a[0]).value, a[1..], b);
      }
    }
  }

  lemma WordFirst(word: string, line: string)
    requires ' ' !in word
    ensures Text.Split(word + " " + line, ' ') == [word] + Text.Split(line, ' ')
  {
    Text.SplitCons(word, ' ', line);
  }

  lemma ThreeWords(verb: string, x: string)
    requires ' ' !in verb && ' ' !in x
    ensures Text.Split("docker " + (verb + " " + x), ' ') == ["docker", verb, x]
  {
    Text.SplitNone(x, ' ');
    WordFirst(verb, x);
    WordFirst("docker", verb + " " + x);
    assert "docker" + " " == "docker ";
  }

  lemma Pulls(w: World, x: string)
    requires ' ' !in x && x in w.remote
    ensures Exec(w, "docker pull " + x) == Some(w.(local := w.local[x := w.remote[x]]))
  {
    ThreeWords("pull", x);
    assert "docker " + ("pull" + " " + x) == "docker pull " + x;
  }

  lemma Pushes(w: World, x: string)
    requires ' ' !in x && x in w.local
    ensures Exec(w, "docker push " + x) == Some(w.(remote := w.remote[x := w.local[x]]))
  {
    ThreeWords("push", x);
    assert "docker " + ("push" + " " + x) == "docker push " + x;
  }

  lemma TagWords(x: string, y: string)
    requires ' ' !in x && ' ' !in y
    ensures Text.Split("docker tag " + x + " " + y, ' ') == ["docker", "tag", x, y]
  {
    var line := x + " " + y;
    Text.SplitNone(y, ' ');
    WordFirst(x, y);
    WordFirst("tag", line);
    WordFirst("docker", "tag" + " " + line);
    assert "docker" + " " + ("tag" + " " + line) == "docker tag " + x + " " + y;
  }

  lemma Tags(w: World, x: string, y: string)
    requires ' ' !in x && ' ' !in y && x in w.local
    ensures Exec(w, "docker tag " + x + " " + y) == Some(w.(local := w.local[y := w.local[x]]))
  {
    TagWords(x, y);
  }

  // ---- Copying one image after the other ----

  predicate OneWord(texts: seq<string>) {
    forall i :: 0 <= i < |texts| ==> ' ' !in texts[i]
  }

  /** Copying the k-th of `from` to the k-th of `to`, one after the other: where the content that `x` names behind the
      first n copies has been at the start. */
  function Origin(from: seq<string>, to: seq<string>, n: nat, x: string): string
    requires n <= |from| == |to|
    decreases n
  {
    if n == 0 then x else Origin(from, to, n - 1, if x == to[n - 1] then from[n - 1] else x)
  }

  lemma {:induction false} OriginPrefix(from: seq<string>, to: seq<string>, m: nat, n: nat, x: string)
    requires n <= m <= |from| == |to|
    ensures Origin(from[..m], to[..m], n, x) == Origin(from, to, n, x)
    decreases n
  {
    if n > 0 {
      OriginPrefix(from, to, m, n - 1, if x == to[n - 1] then from[n - 1] else x);
    }
  }

  /** In the end every goal is there, nothing else has come or gone, and everything has the content of its origin. */
  ghost predicate Synced(from: seq<string>, to: seq<string>, before: map<string, string>, after: map<string, string>)
    requires |from| == |to|
  {
    && (forall x :: x in after <==> x in before || x in to)
    && (forall x :: x in after ==>
          Origin(from, to, |from|, x) in before && after[x] == before[Origin(from, to, |from|, x)])
  }

  lemma SyncedMore(from: seq<string>, to: seq<string>, before: map<string, string>, middle: map<string, string>)
    requires |from| == |to| > 0 && from[|from| - 1] in before
    requires Synced(from[..|from| - 1], to[..|from| - 1], before, middle)
    ensures from[|from| - 1] in middle && Synced(from, to, before, middle[to[|from| - 1] := middle[from[|from| - 1]]])
  {
    var n := |from| - 1;
    var after := middle[to[n] := middle[from[n]]];
    assert to == to[..n] + [to[n]];
    forall x | x in after
      ensures Origin(from, to, n + 1, x) in before && after[x] == before[Origin(from, to, n + 1, x)]
    {
      OriginPrefix(from, to, n, n, if x == to[n] then from[n] else x);
    }
  }

  lemma {:induction false} OriginUntouched(from: seq<string>, to: seq<string>, n: nat, x: string)
    requires n <= |from| == |to| && x !in to[..n]
    ensures Origin(from, to, n, x) == x
    decreases n
  {
    if n > 0 {
      assert to[..n - 1] <= to[..n] && to[..n][n - 1] == to[n - 1];
      OriginUntouched(from, to, n - 1, x);
    }
  }

  /** A goal has in the end just the content of its source, if it is no goal again later, and the source was no goal
      before. */
  lemma {:induction false} Mirrored(from: seq<string>, to: seq<string>, k: nat, n: nat)
    requires k < n <= |from| == |to| && to[k] !in to[k + 1..n] && from[k] !in to[..k]
    ensures Origin(from, to, n, to[k]) == from[k]
    decreases n
  {
    if n - 1 == k {
      OriginUntouched(from, to, k, from[k]);
    } else {
      assert to[k + 1..n][n - 1 - (k + 1)] == to[n - 1] && to[k + 1..n - 1] <= to[k + 1..n];
      Mirrored(from, to, k, n - 1);
    }
  }
}
