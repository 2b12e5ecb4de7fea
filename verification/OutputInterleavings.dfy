/** What one command can leave: with room in the pipes, every interleaving of its two streams' lines, whatever the order
    in which the process writes them. So of the order of the output nothing is promised but the order within each
    stream. */
module OutputInterleavings {
  import opened Wrappers
  import opened LineScanner
  import opened ProcessScript
  import opened OutputCollector

  function AppendMoves(show: bool, k: Stream): seq<Move> {
    [Read(k)] + ([Read(k)] + ([Read(k)] + ([Read(k)] + if show then [Read(k)] else [])))
  }

  /** The first three of them: the line is in the list. */
  lemma StoreRuns(c: Command, show: bool, s: State, k: Stream, rest: seq<Move>)
    requires s.owner.None? && s.At(k).place.Acquiring?
    ensures
      var l := s.At(k).place.l;
      Run(c, show, s, [Read(k)] + ([Read(k)] + ([Read(k)] + rest)))
      == Run(c, show, s.Put(k, s.At(k).(place := Unlocking(l))).(owner := Some(k), output := s.output + [Line(k, l)]),
          rest)
  {
    var s2 := ReadStep(c, show, s, k).value;
    var s3 := ReadStep(c, show, s2, k).value;
    RunStep(c, show, s3, Read(k), rest);
    RunStep(c, show, s2, Read(k), [Read(k)] + rest);
    RunStep(c, show, s, Read(k), [Read(k)] + ([Read(k)] + rest));
  }

  lemma ReleaseRuns(c: Command, show: bool, s: State, k: Stream)
    requires s.At(k).place.Unlocking?
    ensures
      var r := s.At(k);
      Run(c, show, s, [Read(k)] + if show then [Read(k)] else [])
      == Some(s.Put(k, Reader(Scanning(""), r.taken, if show then r.shown + [r.place.l] else r.shown)).(owner := None))
  {
    var t := ReadStep(c, show, s, k).value;
    RunStep(c, show, s, Read(k), if show then [Read(k)] else []);
    assert show ==> [Read(k)][1..] == [];
  }

  /** From the read line to the next Scan, alone. */
  lemma AppendRuns(c: Command, show: bool, s: State, k: Stream)
    requires s.owner.None? && s.At(k).place.Acquiring?
    ensures
      var r, l := s.At(k), s.At(k).place.l;
      Run(c, show, s, AppendMoves(show, k))
      == Some(s.Put(k, Reader(Scanning(""), r.taken, if show then r.shown + [l] else r.shown))
              .(output := s.output + [Line(k, l)]))
  {
    var l := s.At(k).place.l;
    StoreRuns(c, show, s, k, [Read(k)] + if show then [Read(k)] else []);
    var t := s.Put(k, s.At(k).(place := Unlocking(l))).(owner := Some(k), output := s.output + [Line(k, l)]);
    ReleaseRuns(c, show, t, k);
  }

  /** Nothing fails, and the pipes hold all that the process writes. */
  predicate Roomy(c: Command) {
    && c.startError.None? && c.ScanError(Stdout).None? && c.ScanError(Stderr).None?
    && |Sent(c.script, Stdout)| <= c.pipeSize && |Sent(c.script, Stderr)| <= c.pipeSize
  }

  lemma RoomySource(c: Command, k: Stream)
    requires Roomy(c)
    ensures c.Source(k) == Input(Sent(c.script, k), None) && Scan("", Sent(c.script, k)).tooLong.None?
    ensures |Sent(c.script, k)| <= c.pipeSize
  {
    assert c.Source(k).Error().None?;
  }

  // First the process writes everything and exits.

  predicate OnlyWritten(s: State, n: nat) {
    s == State(FRESH, FRESH, Receiving([]), None, [], n, false)
  }

  lemma OneWrite(c: Command, s: State)
    requires Roomy(c) && s.written < |c.script| && OnlyWritten(s, s.written)
    ensures ProcessStep(c, s) == Some(s.(written := s.written + 1))
  {
    var k := c.script[s.written].k;
    RoomySource(c, k);
    SentNext(c.script, s.written, k);
    SentWithin(c.script, s.written + 1, k);
  }

  lemma {:induction false} AllWrites(c: Command, show: bool, s: State) returns (moves: seq<Move>, t: State)
    requires Roomy(c) && s.written <= |c.script| && OnlyWritten(s, s.written)
    ensures Run(c, show, s, moves) == Some(t) && t == s.(written := |c.script|, exited := true)
    decreases |c.script| - s.written
  {
    if s.written == |c.script| {
      moves, t := [Process] + [], s.(exited := true);
      RunStep(c, show, s, Process, []);
    } else {
      OneWrite(c, s);
      var rest;
      rest, t := AllWrites(c, show, s.(written := s.written + 1));
      moves := [Process] + rest;
      RunStep(c, show, s, Process, rest);
    }
  }

  // Then the readers go on in any order.

  /** What the scanner of a stream has still to yield. */
  function ToCome(c: Command, s: State, k: Stream, buf: string): Scanned
    requires s.At(k).taken <= |Sent(c.script, k)|
  {
    Scan(buf, Sent(c.script, k)[s.At(k).taken..])
  }

  predicate AllWritten(c: Command, s: State) {
    s.main.Receiving? && s.written == |c.script| && s.exited
  }

  lemma AllDelivered(c: Command, s: State, k: Stream)
    requires AllWritten(c, s)
    ensures Delivered(c, s, k) == Sent(c.script, k)
  {
    assert c.script[..|c.script|] == c.script;
  }

  function Reads(k: Stream, n: nat): seq<Move> {
    if n == 0 then [] else [Read(k)] + Reads(k, n - 1)
  }

  /** The state behind some reads of one reader: it has a line. */
  predicate HasLine(s: State, k: Stream, l: string, t: State) {
    t == s.Put(k, Reader(Acquiring(l), t.At(k).taken, s.At(k).shown))
  }

  /** One read in the middle of a line: a byte, or the end of file. */
  lemma ReadsOn(c: Command, show: bool, s: State, k: Stream, buf: string)
    requires Roomy(c) && AllWritten(c, s) && s.At(k).place == Scanning(buf) && s.At(k).taken <= |Sent(c.script, k)|
    requires ToCome(c, s, k, buf).tooLong.None? && ToCome(c, s, k, buf).lines != []
    ensures
      var bytes, r := Sent(c.script, k), s.At(k);
      Step(c, show, s, Read(k))
      == Some(s.Put(k, if r.taken == |bytes| then r.(place := Acquiring(DropCR(buf)))
                       else Reader(if bytes[r.taken] == '\n' then Acquiring(DropCR(buf))
                                   else Scanning(buf + [bytes[r.taken]]), r.taken + 1, r.shown)))
  {
    RoomySource(c, k);
    AllDelivered(c, s, k);
    if s.At(k).taken < |Sent(c.script, k)| {
      ScanByte(buf, Sent(c.script, k), s.At(k).taken);
    }
  }

  /** The next line of a stream is read, byte by byte, or at the end of file. */
  lemma {:induction false} LineRuns(c: Command, show: bool, s: State, k: Stream, buf: string)
    returns (moves: seq<Move>, t: State)
    requires Roomy(c) && AllWritten(c, s) && s.At(k).place == Scanning(buf) && s.At(k).taken <= |Sent(c.script, k)|
    requires ToCome(c, s, k, buf).tooLong.None? && ToCome(c, s, k, buf).lines != []
    ensures Run(c, show, s, moves) == Some(t) && HasLine(s, k, ToCome(c, s, k, buf).lines[0], t)
    ensures t.At(k).taken <= |Sent(c.script, k)| && ToCome(c, t, k, "").tooLong.None?
    ensures ToCome(c, s, k, buf).lines[1..] == ToCome(c, t, k, "").lines
    decreases |Sent(c.script, k)| - s.At(k).taken
  {
    var bytes, n := Sent(c.script, k), s.At(k).taken;
    ReadsOn(c, show, s, k, buf);
    var u := Step(c, show, s, Read(k)).value;
    if n == |bytes| {
      moves, t := [Read(k)] + [], u;
      RunStep(c, show, s, Read(k), []);
    } else {
      ScanByte(buf, bytes, n);
      if bytes[n] == '\n' {
        moves, t := [Read(k)] + [], u;
        RunStep(c, show, s, Read(k), []);
      } else {
        var rest;
        rest, t := LineRuns(c, show, u, k, buf + [bytes[n]]);
        moves := [Read(k)] + rest;
        RunStep(c, show, s, Read(k), rest);
      }
    }
  }

  /** Nothing under way; these lines are in the list, and those are to come. */
  predicate Quiet(c: Command, s: State, done: seq<Line>) {
    && AllWritten(c, s) && s.main == Receiving([]) && s.owner.None? && s.output == done
    && QuietStream(c, s, Stdout) && QuietStream(c, s, Stderr)
  }

  predicate QuietStream(c: Command, s: State, k: Stream) {
    && s.At(k).place == Scanning("") && s.At(k).taken <= |Sent(c.script, k)|
    && ToCome(c, s, k, "").tooLong.None?
  }

  ghost predicate Mixes(c: Command, s: State, mixed: seq<Line>)
    requires s.stdout.taken <= |Sent(c.script, Stdout)| && s.stderr.taken <= |Sent(c.script, Stderr)|
  {
    Of(mixed, Stdout) == ToCome(c, s, Stdout, "").lines && Of(mixed, Stderr) == ToCome(c, s, Stderr, "").lines
  }

  lemma {:induction false} OfFirst(mixed: seq<Line>, k: Stream)
    requires mixed != []
    ensures Of(mixed, k) == (if mixed[0].kind == k then [mixed[0].data] else []) + Of(mixed[1..], k)
    decreases |mixed|
  {
    var init, last := mixed[..|mixed| - 1], mixed[|mixed| - 1];
    if init == [] {
      assert mixed[1..] == [];
    } else {
      OfFirst(init, k);
      assert mixed[1..][..|mixed| - 2] == init[1..];
    }
  }

  /** The next line of the mixed list gets into the list. */
  lemma NextLine(c: Command, show: bool, s: State, done: seq<Line>, mixed: seq<Line>)
    returns (moves: seq<Move>, t: State)
    requires Roomy(c) && Quiet(c, s, done) && Mixes(c, s, mixed) && mixed != []
    ensures Run(c, show, s, moves) == Some(t) && Quiet(c, t, done + [mixed[0]]) && Mixes(c, t, mixed[1..])
  {
    var k, l := mixed[0].kind, mixed[0].data;
    OfFirst(mixed, k);
    OfFirst(mixed, Other(k));
    assert QuietStream(c, s, k) && QuietStream(c, s, Other(k));
    assert ToCome(c, s, k, "").lines == [l] + Of(mixed[1..], k);
    var reading, u := LineRuns(c, show, s, k, "");
    AppendRuns(c, show, u, k);
    RunConcat(c, show, s, reading, AppendMoves(show, k));
    moves := reading + AppendMoves(show, k);
    t := Run(c, show, u, AppendMoves(show, k)).value;
    assert t.At(k).taken == u.At(k).taken && t.At(Other(k)) == s.At(Other(k));
    assert mixed[0] == Line(k, l);
    assert QuietStream(c, t, k) && QuietStream(c, t, Other(k));
    assert ToCome(c, t, k, "").lines == Of(mixed[1..], k);
    assert ToCome(c, t, Other(k), "").lines == [] + Of(mixed[1..], Other(k)) == Of(mixed[1..], Other(k));
  }

  lemma JoinLines(done: seq<Line>, mixed: seq<Line>)
    requires mixed != []
    ensures done + [mixed[0]] + mixed[1..] == done + mixed
  {
    assert [mixed[0]] + mixed[1..] == mixed;
  }

  lemma {:induction false} MixedRuns(c: Command, show: bool, s: State, done: seq<Line>, mixed: seq<Line>,
      all: seq<Line>)
    returns (moves: seq<Move>, t: State)
    requires Roomy(c) && Quiet(c, s, done) && Mixes(c, s, mixed) && done + mixed == all
    ensures Run(c, show, s, moves) == Some(t) && Quiet(c, t, all) && Mixes(c, t, [])
    decreases |mixed|
  {
    if mixed == [] {
      moves, t := [], s;
      assert done + [] == done;
    } else {
      var first, u := NextLine(c, show, s, done, mixed);
      JoinLines(done, mixed);
      var others;
      others, t := MixedRuns(c, show, u, done + [mixed[0]], mixed[1..], all);
      RunConcat(c, show, s, first, others);
      moves := first + others;
    }
  }

  const CLOSING := [Read(Stdout)] + ([Read(Stderr)] + ([Deliver(Stdout)] + ([Deliver(Stderr)] + ([Proceed] + []))))

  lemma {:induction false} NoLinesLeft(buf: string, rest: string)
    requires Scan(buf, rest) == Scanned([], None)
    ensures buf == "" && rest == ""
    decreases |rest|
  {
    if rest != "" && rest[0] != '\n' && |buf| + 1 < MAX_TOKEN {
      NoLinesLeft(buf + [rest[0]], rest[1..]);
    }
  }

  /** A reader that has yielded all lines meets the end of file. */
  lemma MeetsEnd(c: Command, show: bool, s: State, k: Stream)
    requires Roomy(c) && AllWritten(c, s) && QuietStream(c, s, k) && ToCome(c, s, k, "").lines == []
    ensures Step(c, show, s, Read(k)) == Some(s.Put(k, s.At(k).(place := Sending(None))))
  {
    RoomySource(c, k);
    NoLinesLeft("", Sent(c.script, k)[s.At(k).taken..]);
  }

  lemma BothDeliver(c: Command, show: bool, s: State, done: seq<Line>)
    requires s.main == Receiving([]) && s.exited && s.output == done
    requires s.stdout.place == Sending(None) == s.stderr.place
    ensures
      var last := Run(c, show, s, [Deliver(Stdout)] + ([Deliver(Stderr)] + ([Proceed] + [])));
      last.Some? && last.value.main == Returned(Ran(done, c.exit))
  {
    var s2 := Step(c, show, s, Deliver(Stdout)).value;
    var s3 := Step(c, show, s2, Deliver(Stderr)).value;
    FirstOfTwo(None, None);
    RunStep(c, show, s3, Proceed, []);
    RunStep(c, show, s2, Deliver(Stderr), [Proceed] + []);
    RunStep(c, show, s, Deliver(Stdout), [Deliver(Stderr)] + ([Proceed] + []));
  }

  lemma Closes(c: Command, show: bool, s: State, done: seq<Line>)
    requires Roomy(c) && Quiet(c, s, done) && Mixes(c, s, [])
    ensures Run(c, show, s, CLOSING).Some? && Run(c, show, s, CLOSING).value.main == Returned(Ran(done, c.exit))
  {
    MeetsEnd(c, show, s, Stdout);
    var s2 := s.Put(Stdout, s.At(Stdout).(place := Sending(None)));
    MeetsEnd(c, show, s2, Stderr);
    var s3 := s2.Put(Stderr, s2.At(Stderr).(place := Sending(None)));
    BothDeliver(c, show, s3, done);
    RunStep(c, show, s2, Read(Stderr), [Deliver(Stdout)] + ([Deliver(Stderr)] + ([Proceed] + [])));
    RunStep(c, show, s, Read(Stdout), [Read(Stderr)] + ([Deliver(Stdout)] + ([Deliver(Stderr)] + ([Proceed] + []))));
  }

  /** A run that leaves the mixed list. */
  lemma Leaves(c: Command, show: bool, mixed: seq<Line>) returns (moves: seq<Move>, s: State)
    requires Roomy(c) && forall k :: Of(mixed, k) == c.Lines(k)
    ensures Reaches(c, show, moves, s) && s.main == Returned(Ran(mixed, c.exit))
  {
    RoomySource(c, Stdout);
    RoomySource(c, Stderr);
    var started := Step(c, show, INITIAL, Proceed).value;
    var writes, written := AllWrites(c, show, started);
    assert Sent(c.script, Stdout)[0..] == Sent(c.script, Stdout)
        && Sent(c.script, Stderr)[0..] == Sent(c.script, Stderr);
    assert Of(mixed, Stdout) == c.Lines(Stdout) && Of(mixed, Stderr) == c.Lines(Stderr);
    assert [] + mixed == mixed;
    var reading, all := MixedRuns(c, show, written, [], mixed, mixed);
    Closes(c, show, all, mixed);
    RunConcat(c, show, written, reading, CLOSING);
    RunConcat(c, show, started, writes, reading + CLOSING);
    RunStep(c, show, INITIAL, Proceed, writes + (reading + CLOSING));
    moves := [Proceed] + (writes + (reading + CLOSING));
    s := Run(c, show, all, CLOSING).value;
  }

  /** What one command without failures can leave, if its output fits the pipes: exactly the interleavings of the lines
      of its two streams, in whatever order the process writes them. */
  lemma OutputsAreTheInterleavings(c: Command, show: bool, mixed: seq<Line>)
    requires Roomy(c)
    ensures (exists moves, s :: Reaches(c, show, moves, s) && s.main == Returned(Ran(mixed, c.exit))) <==>
            forall k :: Of(mixed, k) == c.Lines(k)
  {
    if forall k :: Of(mixed, k) == c.Lines(k) {
      var moves, s := Leaves(c, show, mixed);
    }
    forall moves, s | Reaches(c, show, moves, s) && s.main == Returned(Ran(mixed, c.exit))
      ensures forall k :: Of(mixed, k) == c.Lines(k)
    {
      ReturnsAllLines(c, show, moves, s);
    }
  }

  const A_THEN_B := [Write(Stdout, 'a'), Write(Stdout, '\n'), Write(Stderr, 'b'), Write(Stderr, '\n')]

  lemma ScansOne(b: char)
    requires b != '\n' && b != '\r'
    ensures Scan("", [b, '\n']) == Scanned([[b]], None)
  {
    assert [b, '\n'][1..] == ['\n'] && ['\n'][1..] == "" && "" + [b] == [b];
    assert Scan([b], ['\n']) == Scanned([[b]], None);
  }

  lemma SentByAThenB(k: Stream)
    ensures Sent(A_THEN_B, k) == if k.Stdout? then "a\n" else "b\n"
  {
    var w := A_THEN_B;
    assert w[..4] == w && w[..0] == [];
    SentNext(w, 0, k);
    SentNext(w, 1, k);
    SentNext(w, 2, k);
    SentNext(w, 3, k);
  }

  /** For instance: a process writes a to stdout, and after that b to stderr; it can be recorded as b, a. */
  lemma WrittenOrderIsLost(show: bool, pipeSize: nat, exit: Exit)
    requires pipeSize >= 2
    ensures
      var c := Command(A_THEN_B, pipeSize, None, None, None, exit);
      exists moves, s :: Reaches(c, show, moves, s)
          && s.main == Returned(Ran([Line(Stderr, "b"), Line(Stdout, "a")], exit))
  {
    var c := Command(A_THEN_B, pipeSize, None, None, None, exit);
    SentByAThenB(Stdout);
    SentByAThenB(Stderr);
    ScansOne('a');
    ScansOne('b');
    var b, a := Line(Stderr, "b"), Line(Stdout, "a");
    assert Of([], Stdout) == Of([], Stderr) == [];
    OfFirst([b, a], Stdout);
    OfFirst([b, a], Stderr);
    assert [b, a][1..] == [a] && [a][1..] == [];
    OfFirst([a], Stdout);
    OfFirst([a], Stderr);
    OutputsAreTheInterleavings(c, show, [b, a]);
  }
}
