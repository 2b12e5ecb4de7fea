/** The process at the other end of the pipes: it writes bytes to its two streams, one after the other. */
module ProcessScript {
  datatype Stream = Stdout | Stderr

  function Other(k: Stream): Stream {
    if k.Stdout? then Stderr else Stdout
  }

  datatype Write = Write(k: Stream, b: char)

  /** What goes to one of the streams. */
  function Sent(script: seq<Write>, k: Stream): string {
    if script == [] then ""
    else
      var last := script[|script| - 1];
      Sent(script[..|script| - 1], k) + (if last.k == k then [last.b] else "")
  }

  lemma SentNext(script: seq<Write>, i: nat, k: Stream)
    requires i < |script|
    ensures Sent(script[..i + 1], k) == Sent(script[..i], k) + (if script[i].k == k then [script[i].b] else "")
  {
    assert script[..i + 1][..i] == script[..i];
  }

  lemma {:induction false} SentGrows(script: seq<Write>, i: nat, j: nat, k: Stream)
    requires i <= j <= |script|
    ensures Sent(script[..i], k) <= Sent(script[..j], k)
    ensures |Sent(script[..j], k)| <= |Sent(script[..i], k)| + (j - i)
    decreases j
  {
    if i < j {
      SentGrows(script, i, j - 1, k);
      SentNext(script, j - 1, k);
    }
  }

  lemma SentWithin(script: seq<Write>, i: nat, k: Stream)
    requires i <= |script|
    ensures Sent(script[..i], k) <= Sent(script, k)
  {
    SentGrows(script, i, |script|, k);
    assert script[..|script|] == script;
  }
}
