/** Running a command: the state machine under an arbitrary scheduler. */
module CommandExecutor {
  import opened Wrappers
  import opened LineScanner
  import opened ProcessScript
  import opened OutputCollector
  import opened OutputProgress

  datatype Entry = Entry(output: seq<Line>, exitCode: int)

  /** The command starts, reading does not fail, and these lines are what it writes to a stream, the last one without
      its line feed. */
  predicate Writes(c: Command, k: Stream, ws: seq<Written>, last: Written) {
    && c.startError.None? && c.Fault(k).None? && AllFit(ws) && Fits(last)
    && Sent(c.script, k) == TextOf(ws) + WithCR(last)
  }

  /** An output that has just what is written to each stream. */
  ghost predicate Records(c: Command, output: seq<Line>) {
    forall k, ws, last :: Writes(c, k, ws, last) ==> Of(output, k) == Says(ws) + SaysLast(last)
  }

  lemma RecordsWhatIsWritten(c: Command, output: seq<Line>)
    requires forall k :: Of(output, k) == c.Lines(k)
    ensures Records(c, output)
  {
    forall k, ws, last | Writes(c, k, ws, last) ensures Of(output, k) == Says(ws) + SaysLast(last) {
      TextIsRead(ws, last);
    }
  }

  /** And one that writes a line too long to a stream: that reader ends with the scanner's error. */
  lemma TooLongFails(c: Command, k: Stream, ws: seq<Written>, line: string)
    requires c.startError.None? && c.Fault(k).None? && AllFit(ws) && TooLong(line)
    requires Sent(c.script, k) == TextOf(ws) + line
    ensures c.ScanError(k) == Some("bufio.Scanner: token too long") && c.Lines(k) == Says(ws)
  {
    TooLongIsNotRead(line);
    LongLineIsNotRead(ws, line);
  }

  class Executor {
    const showOutput: bool
    var history: seq<Entry>

    constructor (showOutput: bool)
      ensures history == [] && this.showOutput == showOutput
    {
      this.showOutput := showOutput;
      history := [];
    }

    /** The nth entry, the most recent at 0; None where the index is out of range and the code panics. */
    function History(n: int): Option<Entry>
      reads this
    {
      var i := |history| - 1 - n;
      if 0 <= i < |history| then Some(history[i]) else None
    }

    /** Whatever the scheduler picks: RunCmd hangs if the command does, and else ends, and gives back and records all
        lines, each stream in order. */
    method RunCmd(c: Command) returns (hung: bool, entry: Option<Entry>, err: Option<string>)
      requires c.pipeSize > 0
      modifies this
      ensures hung <==> c.Hangs()
      ensures hung ==> entry.None? && history == old(history)
      ensures entry.Some? <==> c.startError.None? && c.ScanError(Stdout).None? && c.ScanError(Stderr).None?
      ensures entry.Some? ==>
                && (forall k :: Of(entry.value.output, k) == c.Lines(k)) && Records(c, entry.value.output)
                && entry.value.exitCode == (if c.exit.Exited? then c.exit.code else -1)
                && err == (if c.exit.Exited? then None else Some(c.exit.error))
                && history == old(history) + [entry.value]
                && History(0) == entry && forall n: nat :: History(n + 1) == old(History(n))
      ensures !hung && entry.None? ==>
                && history == old(history) && err.Some?
                && if c.startError.Some? then err == c.startError
                   else err in {c.ScanError(Stdout), c.ScanError(Stderr)}
    {
      var s := INITIAL;
      ghost var moves := [];
      while !s.main.Returned? && !Stuck(c, showOutput, s)
        invariant Reaches(c, showOutput, moves, s) && history == old(history)
        decreases Rank(c, s)
      {
        var m :| m in MOVES && Enabled(c, showOutput, s, m);
        StepSinks(c, showOutput, s, m);
        RunConcat(c, showOutput, INITIAL, moves, [m]);
        RunStep(c, showOutput, s, m, []);
        assert [m] + [] == [m];
        s := Step(c, showOutput, s, m).value;
        moves := moves + [m];
      }
      ReturnsUnlessItHangs(c, showOutput, moves, s);
      if !s.main.Returned? {
        HangsByAnError(c);
        return true, None, None;
      }
      ReturnsAllLines(c, showOutput, moves, s);
      match s.main.outcome
      case Broken(e) => return false, None, Some(e);
      case Ran(output, exit) =>
        RecordsWhatIsWritten(c, output);
        var e := Entry(output, if exit.Exited? then exit.code else -1);
        history := history + [e];
        return false, Some(e), if exit.Exited? then None else Some(exit.error);
    }

    /** The receiver is a copy: the caller gets what RunCmd gives, but its own history, and so what History answers,
        stays as it was. */
    method RunV(c: Command) returns (hung: bool, entry: Option<Entry>, err: Option<string>)
      requires c.pipeSize > 0
      ensures hung <==> c.Hangs()
      ensures hung ==> entry.None?
      ensures entry.Some? <==> c.startError.None? && c.ScanError(Stdout).None? && c.ScanError(Stderr).None?
      ensures entry.Some? ==>
                && (forall k :: Of(entry.value.output, k) == c.Lines(k)) && Records(c, entry.value.output)
                && entry.value.exitCode == (if c.exit.Exited? then c.exit.code else -1)
                && err == (if c.exit.Exited? then None else Some(c.exit.error))
      ensures !hung && entry.None? ==>
                && err.Some?
                && if c.startError.Some? then err == c.startError
                   else err in {c.ScanError(Stdout), c.ScanError(Stderr)}
      ensures history == old(history) && forall n :: History(n) == old(History(n))
    {
      var e := new Executor(showOutput);
      e.history := history;
      hung, entry, err := e.RunCmd(c);
    }
  }

  lemma HangsByAnError(c: Command)
    requires c.Hangs()
    ensures c.ScanError(Stdout).Some? || c.ScanError(Stderr).Some?
  {
    var i: nat :| i < |c.script| && c.HangsAt(i);
    assert c.Source(c.script[i].k).Error().Some?;
  }
}
