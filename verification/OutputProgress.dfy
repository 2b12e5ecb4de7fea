/** When the protocol comes to rest, and where: the return of RunCmd, or a wait of the process, a reader and RunCmd for
    each other. */
module OutputProgress {
  import opened Wrappers
  import opened LineScanner
  import opened ProcessScript
  import opened OutputCollector

  predicate Enabled(c: Command, show: bool, s: State, m: Move) {
    Step(c, show, s, m).Some?
  }

  predicate Stuck(c: Command, show: bool, s: State) {
    forall m :: m in MOVES ==> !Enabled(c, show, s, m)
  }

  /** A reader in front of an empty pipe that may still get more. */
  predicate Waits(c: Command, s: State, k: Stream) {
    var r := s.At(k);
    && r.place.Scanning? && !s.exited && r.taken == |Delivered(c, s, k)|
    && (c.Source(k).fault.Some? ==> r.taken < |c.Source(k).bytes|)
  }

  /** The process in front of a full pipe. */
  predicate Blocked(c: Command, s: State) {
    s.written < |c.script|
    && var k := c.script[s.written].k; |Delivered(c, s, k)| >= s.At(k).taken + c.pipeSize
  }

  lemma SourceOfScript(c: Command, k: Stream)
    requires c.startError.None?
    ensures c.Source(k).bytes <= Sent(c.script, k)
    ensures c.Source(k).fault.None? ==> c.Source(k).bytes == Sent(c.script, k)
  {
  }

  /** What is delivered is all there is to come, once the process is over. */
  lemma DeliveredIsPart(c: Command, s: State, k: Stream)
    requires c.startError.None? && s.written <= |c.script|
    ensures |Delivered(c, s, k)| <= |Sent(c.script, k)|
    ensures s.written == |c.script| ==> |Delivered(c, s, k)| >= |c.Source(k).bytes|
    ensures c.Source(k).fault.None? ==> |Delivered(c, s, k)| <= |c.Source(k).bytes|
  {
    SentWithin(c.script, s.written, k);
    SourceOfScript(c, k);
    assert c.script[..|c.script|] == c.script;
  }

  lemma ScanMovesOrWaits(c: Command, s: State, k: Stream, buf: string)
    requires s.At(k).taken <= |c.Source(k).bytes| && s.At(k).taken <= |Delivered(c, s, k)|
    requires s.written <= |c.script| && (s.exited ==> s.written == |c.script|)
    requires !s.main.Starting? && s.At(k).place == Scanning(buf)
    ensures ScanStep(c, s, k, buf).None? <==> Waits(c, s, k)
  {
    if c.startError.None? {
      DeliveredIsPart(c, s, k);
    }
  }

  lemma OthersMove(c: Command, show: bool, s: State, k: Stream)
    requires !Ended(s.At(k).place) && !s.At(k).place.Scanning?
    ensures (s.At(k).place.Acquiring? && s.owner.Some?) || Enabled(c, show, s, Read(k))
  {
  }

  /** Whoever is not done can move, or waits for the lock, whose holder can move, or for the process. */
  lemma SomeReaderMoves(c: Command, show: bool, s: State, k: Stream)
    requires Keeps(c, show, s) && !s.main.Starting? && !Ended(s.At(k).place) && !Waits(c, s, k)
    ensures Enabled(c, show, s, Read(k)) || Enabled(c, show, s, Read(Other(k)))
  {
    assert StreamKeeps(c, s, k) && PipeKeeps(c, s, k);
    if s.At(k).place.Scanning? {
      ScanMovesOrWaits(c, s, k, s.At(k).place.buf);
    } else {
      OthersMove(c, show, s, k);
      if s.owner.Some? {
        assert LockKeeps(show, s, s.owner.value);
        OthersMove(c, show, s, s.owner.value);
      }
    }
  }

  lemma AllMoves(m: Move)
    ensures m in MOVES
  {
    match m
    case Read(k) => match k { case Stdout => case Stderr => }
    case Deliver(k) => match k { case Stdout => case Stderr => }
    case Proceed =>
    case Process =>
  }

  lemma StuckReader(c: Command, show: bool, s: State, k: Stream)
    requires Keeps(c, show, s) && Stuck(c, show, s)
    ensures !s.main.Starting? && (Ended(s.At(k).place) || Waits(c, s, k))
  {
    AllMoves(Proceed);
    AllMoves(Read(k));
    AllMoves(Read(Other(k)));
    assert !Enabled(c, show, s, Proceed) && !Enabled(c, show, s, Read(k)) && !Enabled(c, show, s, Read(Other(k)));
    if !Ended(s.At(k).place) && !Waits(c, s, k) && !s.main.Starting? {
      SomeReaderMoves(c, show, s, k);
    }
  }

  /** One reader has ended by an error, the process waits for room in its pipe, and the other reader for the process. */
  predicate Hung(c: Command, s: State) {
    s.main.Receiving? && Blocked(c, s)
    && var k := c.script[s.written].k; s.At(k).place.Finished? && Waits(c, s, Other(k))
  }

  /** RunCmd has returned, and nothing else will happen. */
  predicate Over(c: Command, s: State) {
    s.main.Returned?
    && if c.startError.Some? then s.stdout.place.Sending? && s.stderr.place.Sending?
       else s.stdout.place.Finished? && s.stderr.place.Finished? && (s.exited || Blocked(c, s))
  }

  lemma OverIsStuck(c: Command, show: bool, s: State)
    requires Over(c, s) && ProcessKeeps(c, s)
    ensures Stuck(c, show, s)
  {
    assert !Enabled(c, show, s, Read(Stdout)) && !Enabled(c, show, s, Read(Stderr));
    assert !Enabled(c, show, s, Process);
  }

  lemma HungReaders(c: Command, show: bool, s: State)
    requires Hung(c, s) && Keeps(c, show, s)
    ensures
      var k := c.script[s.written].k;
      && !Enabled(c, show, s, Read(k)) && !Enabled(c, show, s, Read(Other(k)))
      && !s.At(k).place.Sending? && !s.At(Other(k)).place.Sending?
  {
    var k := c.script[s.written].k;
    assert PipeKeeps(c, s, Other(k)) && StreamKeeps(c, s, Other(k));
    ScanMovesOrWaits(c, s, Other(k), s.At(Other(k)).place.buf);
  }

  lemma HungIsStuck(c: Command, show: bool, s: State)
    requires Hung(c, s) && Keeps(c, show, s)
    ensures Stuck(c, show, s)
  {
    HungReaders(c, show, s);
    assert Count(s) <= 1;
    forall m | m in MOVES
      ensures !Enabled(c, show, s, m)
    {
      var k := c.script[s.written].k;
      assert (m.Read? || m.Deliver?) && m.k != k ==> m.k == Other(k);
    }
  }

  lemma StuckProcess(c: Command, show: bool, s: State)
    requires Keeps(c, show, s) && Stuck(c, show, s) && c.startError.None?
    ensures s.exited || Blocked(c, s)
  {
    StuckReader(c, show, s, Stdout);
    AllMoves(Process);
    assert !Enabled(c, show, s, Process);
  }

  lemma StuckReturned(c: Command, show: bool, s: State)
    requires Keeps(c, show, s) && Stuck(c, show, s) && s.main.Returned?
    ensures Over(c, s)
  {
    if c.startError.Some? {
      StuckReader(c, show, s, Stdout);
      StuckReader(c, show, s, Stderr);
    } else {
      StuckProcess(c, show, s);
    }
  }

  /** With both results in, the main goroutine goes on. */
  lemma BothResultsFinish(c: Command, show: bool, s: State)
    requires Keeps(c, show, s) && s.main.Receiving? && |s.main.results| == 2
    ensures Enabled(c, show, s, Proceed)
  {
    FirstOfTwo(c.ScanError(Stdout), c.ScanError(Stderr));
    FirstOfTwo(c.ScanError(Stderr), c.ScanError(Stdout));
    assert StreamKeeps(c, s, Stdout) && s.stdout.place.Finished?;
  }

  lemma StuckWaiting(c: Command, show: bool, s: State)
    requires Keeps(c, show, s) && Stuck(c, show, s) && !s.main.Returned? && c.pipeSize > 0
    ensures Hung(c, s)
  {
    StuckReader(c, show, s, Stdout);
    StuckReader(c, show, s, Stderr);
    AllMoves(Proceed);
    AllMoves(Deliver(Stdout));
    AllMoves(Deliver(Stderr));
    assert !Enabled(c, show, s, Deliver(Stdout)) && !Enabled(c, show, s, Deliver(Stderr));
    if |s.main.results| >= 2 {
      BothResultsFinish(c, show, s);
    }
    StuckProcess(c, show, s);
  }

  /** The only states without a next step: RunCmd has returned, both readers have ended, and the process has exited or
      is left blocked; or the start failed, and both readers wait for ever to deliver; or one reader has ended by an
      error, and the process, the other reader and RunCmd wait for each other for ever. */
  lemma StuckIff(c: Command, show: bool, moves: seq<Move>, s: State)
    requires Reaches(c, show, moves, s) && c.pipeSize > 0
    ensures Stuck(c, show, s) <==> Over(c, s) || Hung(c, s)
  {
    ReachedKeeps(c, show, moves, s);
    if Stuck(c, show, s) {
      if s.main.Returned? {
        StuckReturned(c, show, s);
      } else {
        StuckWaiting(c, show, s);
      }
    }
    if Over(c, s) {
      OverIsStuck(c, show, s);
    }
    if Hung(c, s) {
      HungIsStuck(c, show, s);
    }
  }

  /** A reader gets no further than where it stops, and not even there while it goes on. */
  lemma TakenBeforeStop(source: Input, r: Reader, appended: seq<string>, exited: bool)
    requires ReaderKeeps(source, r, appended, exited) && source.Stop().Some?
    ensures r.taken <= source.Stop().value
    ensures r.place.Scanning? && (source.fault.Some? ==> r.taken < |source.bytes|) ==> r.taken < source.Stop().value
  {
    TooLongWithin("", source.bytes);
    if !Ended(r.place) {
      TooLongWithin(if r.place.Scanning? then r.place.buf else "", source.bytes[r.taken..]);
    }
  }

  lemma HungHangs(c: Command, show: bool, s: State)
    requires Keeps(c, show, s) && Hung(c, s)
    ensures c.Hangs()
  {
    var k := c.script[s.written].k;
    assert StreamKeeps(c, s, k) && StreamKeeps(c, s, Other(k));
    if c.Source(Other(k)).Stop().Some? {
      TakenBeforeStop(c.Source(Other(k)), s.At(Other(k)), Of(s.output, Other(k)), s.exited);
    }
    assert c.HangsAt(s.written);
  }

  /** The process does not get past a write for which there will never be room. */
  lemma OverflowHolds(c: Command, s: State, i: nat)
    requires StreamsKeep(c, s) && ProcessKeeps(c, s) && i < |c.script| && c.OverflowsAt(i)
    ensures s.written <= i
  {
    var k := c.script[i].k;
    assert StreamKeeps(c, s, k) && PipeKeeps(c, s, k);
    TakenBeforeStop(c.Source(k), s.At(k), Of(s.output, k), s.exited);
    if i < s.written {
      SentNext(c.script, i, k);
      SentGrows(c.script, i + 1, s.written, k);
    }
  }

  lemma HangingNeverReturns(c: Command, show: bool, s: State)
    requires Keeps(c, show, s) && c.Hangs()
    ensures !s.main.Returned?
  {
    var i: nat :| i < |c.script| && c.HangsAt(i);
    var k := Other(c.script[i].k);
    OverflowHolds(c, s, i);
    SentGrows(c.script, s.written, i, k);
    assert StreamKeeps(c, s, k) && PipeKeeps(c, s, k);
    assert !s.At(k).place.Finished?;
  }

  /** Whether RunCmd returns is settled by the command: a run of one that hangs never gets there, and a run of any
      other, once nothing is left to do, has. */
  lemma ReturnsUnlessItHangs(c: Command, show: bool, moves: seq<Move>, s: State)
    requires Reaches(c, show, moves, s) && c.pipeSize > 0
    ensures c.Hangs() ==> !s.main.Returned?
    ensures Stuck(c, show, s) ==> (s.main.Returned? <==> !c.Hangs())
  {
    ReachedKeeps(c, show, moves, s);
    if c.Hangs() {
      HangingNeverReturns(c, show, s);
    }
    if Stuck(c, show, s) {
      StuckIff(c, show, moves, s);
      if Hung(c, s) {
        HungHangs(c, show, s);
      }
    }
  }

  /** Without an error RunCmd gets through: a run that has come to rest has returned all lines. */
  lemma CleanRunsReturn(c: Command, show: bool, moves: seq<Move>, s: State)
    requires Reaches(c, show, moves, s) && c.pipeSize > 0 && Stuck(c, show, s)
    requires c.startError.None? && c.ScanError(Stdout).None? && c.ScanError(Stderr).None?
    ensures s.main.Returned? && s.main.outcome.Ran? && forall k :: Of(s.main.outcome.output, k) == c.Lines(k)
  {
    ReturnsUnlessItHangs(c, show, moves, s);
    assert forall k :: c.Source(k).Stop().None?;
    ReturnsAllLines(c, show, moves, s);
  }

  lemma {:induction false} SentSame(b: char, n: nat, k: Stream)
    ensures Sent(seq(n, _ => Write(Stdout, b)), k) == if k.Stdout? then seq(n, _ => b) else ""
  {
    if n > 0 {
      SentSame(b, n - 1, k);
      assert seq(n, _ => Write(Stdout, b))[..n - 1] == seq(n - 1, _ => Write(Stdout, b));
      assert seq(n, _ => b) == seq(n - 1, _ => b) + [b];
    }
  }

  lemma LongScript(n: nat, pipeSize: nat, exit: Exit) returns (c: Command)
    requires n >= MAX_TOKEN
    ensures c == Command(seq(n, _ => Write(Stdout, 'x')), pipeSize, None, None, None, exit)
    ensures c.Source(Stdout).Stop() == Some(MAX_TOKEN) && c.Source(Stderr).Stop() == None
  {
    c := Command(seq(n, _ => Write(Stdout, 'x')), pipeSize, None, None, None, exit);
    SentSame('x', n, Stdout);
    SentSame('x', n, Stderr);
    LongLine("", c.Source(Stdout).bytes);
  }

  /** A line over the limit, and then more than the pipe holds: the command hangs, whatever the pipe size. */
  lemma LongLineHangs(pipeSize: nat, n: nat, exit: Exit)
    requires n > MAX_TOKEN + pipeSize
    ensures Command(seq(n, _ => Write(Stdout, 'x')), pipeSize, None, None, None, exit).Hangs()
  {
    var c := LongScript(n, pipeSize, exit);
    var i := MAX_TOKEN + pipeSize;
    SentSame('x', i, Stdout);
    assert c.script[..i] == seq(i, _ => Write(Stdout, 'x'));
    assert c.HangsAt(i);
  }

  function PlaceRank(p: Place): nat {
    match p
    case Scanning(buf) => if buf == "" then 2 else 9
    case Acquiring(_) => 7
    case Locked(_) => 6
    case Loaded(_, _) => 5
    case Unlocking(_) => 4
    case Showing(_) => 3
    case Sending(_) => 1
    case Finished => 0
  }

  function Remaining(n: nat, done: nat): nat {
    if done <= n then n - done else 0
  }

  function ReaderRank(c: Command, s: State, k: Stream): nat {
    8 * Remaining(|c.Source(k).bytes|, s.At(k).taken) + PlaceRank(s.At(k).place)
  }

  function MainRank(m: Main): nat {
    match m
    case Starting => 2
    case Receiving(_) => 1
    case Returned(_) => 0
  }

  /** How many steps are left, at most. */
  function Rank(c: Command, s: State): nat {
    ReaderRank(c, s, Stdout) + ReaderRank(c, s, Stderr) + MainRank(s.main)
    + Remaining(|c.script|, s.written) + (if s.exited then 0 else 1)
  }

  lemma ReadSinks(c: Command, show: bool, s: State, k: Stream)
    requires ReadStep(c, show, s, k).Some?
    ensures ReaderRank(c, ReadStep(c, show, s, k).value, k) < ReaderRank(c, s, k)
  {
    if s.At(k).place.Scanning? {
      ScanSinks(c, s, k, s.At(k).place.buf);
    }
  }

  lemma ScanSinks(c: Command, s: State, k: Stream, buf: string)
    requires s.At(k).place == Scanning(buf) && ScanStep(c, s, k, buf).Some?
    ensures
      var next := ScanStep(c, s, k, buf).value;
      8 * Remaining(|c.Source(k).bytes|, next.taken) + PlaceRank(next.place) < ReaderRank(c, s, k)
  {
  }

  lemma ReadStepFields(c: Command, show: bool, s: State, k: Stream)
    requires ReadStep(c, show, s, k).Some?
    ensures
      var t := ReadStep(c, show, s, k).value;
      t.At(Other(k)) == s.At(Other(k)) && t.main == s.main && t.written == s.written && t.exited == s.exited
  {
  }

  lemma StepSinks(c: Command, show: bool, s: State, m: Move)
    requires Step(c, show, s, m).Some?
    ensures Rank(c, Step(c, show, s, m).value) < Rank(c, s)
  {
    match m
    case Read(k) =>
      ReadSinks(c, show, s, k);
      ReadStepFields(c, show, s, k);
    case Deliver(k) =>
      assert Step(c, show, s, m).value.At(Other(k)) == s.At(Other(k));
    case _ =>
  }

  lemma {:induction false} SentSum(script: seq<Write>)
    ensures |Sent(script, Stdout)| + |Sent(script, Stderr)| == |script|
  {
    if script != [] {
      SentSum(script[..|script| - 1]);
    }
  }

  lemma {:induction false} RunSinks(c: Command, show: bool, s: State, moves: seq<Move>)
    requires Run(c, show, s, moves).Some?
    ensures |moves| + Rank(c, Run(c, show, s, moves).value) <= Rank(c, s)
    decreases |moves|
  {
    if moves != [] {
      StepSinks(c, show, s, moves[0]);
      RunSinks(c, show, Step(c, show, s, moves[0]).value, moves[1..]);
    }
  }

  /** No run is longer than nine steps a byte and seven more. */
  lemma RunsAreBounded(c: Command, show: bool, moves: seq<Move>)
    requires Run(c, show, INITIAL, moves).Some?
    ensures |moves| <= 9 * |c.script| + 7
  {
    RunSinks(c, show, INITIAL, moves);
    SentSum(c.script);
    assert |c.Source(Stdout).bytes| <= |Sent(c.script, Stdout)|;
    assert |c.Source(Stderr).bytes| <= |Sent(c.script, Stderr)|;
  }
}
