/** The protocol of RunCmd and its readers (test/integration/spawn/executor.go): two reader goroutines that append to
    one list under a lock, a main goroutine that waits for both on an unbuffered channel, and the process that fills the
    two pipes. */
module OutputCollector {
  import opened Wrappers
  import opened LineScanner
  import opened ProcessScript

  datatype Line = Line(kind: Stream, data: string)

  datatype Exit = Exited(code: int) | WaitFailed(error: string)

  /** Reading fails with this error behind so many bytes. */
  datatype Fault = Fault(at: nat, error: string)

  /** What the command and the operating system will do: what the process writes, in its own order, into pipes of this
      size; where reading fails, if it does; whether the process starts, and how it ends. */
  datatype Command = Command(script: seq<Write>, pipeSize: nat, outFault: Option<Fault>, errFault: Option<Fault>,
                             startError: Option<string>, exit: Exit)
  {
    function Fault(k: Stream): Option<Fault> {
      if k.Stdout? then outFault else errFault
    }

    /** Without a process the pipes are closed at once. */
    function Source(k: Stream): Input {
      var all := Sent(script, k);
      if startError.Some? then Input("", Some("file already closed"))
      else if Fault(k).Some? && Fault(k).value.at <= |all| then
        Input(all[..Fault(k).value.at], Some(Fault(k).value.error))
      else Input(all, None)
    }

    function Lines(k: Stream): seq<string> {
      Source(k).Lines()
    }

    function ScanError(k: Stream): Option<string> {
      Source(k).Error()
    }

    /** No byte beyond what fits the pipe once its reader has stopped: the process cannot get past this write. */
    predicate OverflowsAt(i: nat)
      requires i < |script|
    {
      var k := script[i].k;
      Source(k).Stop().Some? && |Sent(script[..i], k)| >= Source(k).Stop().value + pipeSize
    }

    /** There the other reader has not stopped yet, and it will get nothing more, not even the end of file. */
    predicate HangsAt(i: nat)
      requires i < |script|
    {
      var k := Other(script[i].k);
      OverflowsAt(i) && (Source(k).Stop().Some? ==> |Sent(script[..i], k)| < Source(k).Stop().value)
    }

    predicate Hangs() {
      startError.None? && exists i: nat :: i < |script| && HangsAt(i)
    }
  }

  // The append under the lock is not one step: the list is loaded, then the longer list is stored.
  datatype Place =
    | Scanning(buf: string)
    | Acquiring(l: string)
    | Locked(l: string)
    | Loaded(l: string, seen: seq<Line>)
    | Unlocking(l: string)
    | Showing(l: string)
    | Sending(error: Option<string>)
    | Finished

  datatype Reader = Reader(place: Place, taken: nat, shown: seq<string>)

  datatype Outcome = Ran(output: seq<Line>, exit: Exit) | Broken(error: string)

  datatype Main = Starting | Receiving(results: seq<Option<string>>) | Returned(outcome: Outcome)

  datatype State = State(stdout: Reader, stderr: Reader, main: Main, owner: Option<Stream>, output: seq<Line>,
                         written: nat, exited: bool)
  {
    function At(k: Stream): Reader {
      if k.Stdout? then stdout else stderr
    }

    function Put(k: Stream, r: Reader): State {
      if k.Stdout? then this.(stdout := r) else this.(stderr := r)
    }
  }

  /** One step of a reader, one delivery over the channel, one step of the main goroutine, or one of the process. */
  datatype Move = Read(k: Stream) | Deliver(k: Stream) | Proceed | Process

  const MOVES := {Read(Stdout), Read(Stderr), Deliver(Stdout), Deliver(Stderr), Proceed, Process}

  const FRESH := Reader(Scanning(""), 0, [])

  const INITIAL := State(FRESH, FRESH, Starting, None, [], 0, false)

  /** The bytes that the process has written to a stream so far. */
  function Delivered(c: Command, s: State, k: Stream): string {
    if s.written <= |c.script| then Sent(c.script[..s.written], k) else ""
  }

  /** One read by the scanner: a byte, if there is one; or the end, if it has come. */
  function ScanStep(c: Command, s: State, k: Stream, buf: string): Option<Reader> {
    var r, source := s.At(k), c.Source(k);
    if s.main.Starting? then None
    else if r.taken < |source.bytes| then
      if r.taken >= |Delivered(c, s, k)| then None
      else
        var b := source.bytes[r.taken];
        Some(r.(taken := r.taken + 1,
                place := if b == '\n' then Acquiring(DropCR(buf))
                         else if |buf| + 1 >= MAX_TOKEN then Sending(source.Error())
                         else Scanning(buf + [b])))
    else if source.fault.None? && !s.exited then None
    else Some(r.(place := if buf == "" then Sending(source.fault) else Acquiring(DropCR(buf))))
  }

  /** What one step of a reader changes. */
  datatype Effect = Effect(reader: Reader, owner: Option<Stream>, output: seq<Line>)

  function ReadEffect(c: Command, show: bool, s: State, k: Stream): Option<Effect> {
    var r := s.At(k);
    match r.place
    case Scanning(buf) =>
      var next := ScanStep(c, s, k, buf);
      if next.None? then None else Some(Effect(next.value, s.owner, s.output))
    case Acquiring(l) =>
      if s.owner.Some? then None else Some(Effect(r.(place := Locked(l)), Some(k), s.output))
    case Locked(l) => Some(Effect(r.(place := Loaded(l, s.output)), s.owner, s.output))
    case Loaded(l, seen) => Some(Effect(r.(place := Unlocking(l)), s.owner, seen + [Line(k, l)]))
    case Unlocking(l) => Some(Effect(r.(place := if show then Showing(l) else Scanning("")), None, s.output))
    case Showing(l) => Some(Effect(r.(place := Scanning(""), shown := r.shown + [l]), s.owner, s.output))
    case Sending(_) => None
    case Finished => None
  }

  function ReadStep(c: Command, show: bool, s: State, k: Stream): Option<State> {
    match ReadEffect(c, show, s, k)
    case None => None
    case Some(e) => Some(s.Put(k, e.reader).(owner := e.owner, output := e.output))
  }

  /** The process writes its next byte if the pipe has room, and exits when it has written all. */
  function ProcessStep(c: Command, s: State): Option<State> {
    if s.main.Starting? || c.startError.Some? then None
    else if s.written < |c.script| then
      var k := c.script[s.written].k;
      if |Delivered(c, s, k)| < s.At(k).taken + c.pipeSize then Some(s.(written := s.written + 1)) else None
    else if s.exited then None else Some(s.(exited := true))
  }

  function FirstError(results: seq<Option<string>>): Option<string> {
    if results == [] then None else if results[0].Some? then results[0] else FirstError(results[1..])
  }

  /** Behind both results: the first error, or the end of the process. */
  function FinishStep(c: Command, s: State, results: seq<Option<string>>): Option<State> {
    var e := FirstError(results);
    if e.Some? then Some(s.(main := Returned(Broken(e.value))))
    else if s.exited then Some(s.(main := Returned(Ran(s.output, c.exit)))) else None
  }

  function Step(c: Command, show: bool, s: State, m: Move): Option<State> {
    match m
    case Read(k) => ReadStep(c, show, s, k)
    case Deliver(k) =>
      var r := s.At(k);
      if s.main.Receiving? && |s.main.results| < 2 && r.place.Sending?
      then Some(s.Put(k, r.(place := Finished)).(main := Receiving(s.main.results + [r.place.error])))
      else None
    case Proceed =>
      (match s.main
       case Starting =>
         Some(s.(main := if c.startError.Some? then Returned(Broken(c.startError.value)) else Receiving([])))
       case Receiving(results) => if |results| < 2 then None else FinishStep(c, s, results)
       case Returned(_) => None)
    case Process => ProcessStep(c, s)
  }

  function Run(c: Command, show: bool, s: State, moves: seq<Move>): Option<State>
    decreases |moves|
  {
    if moves == [] then Some(s)
    else
      var t := Step(c, show, s, moves[0]);
      if t.None? then None else Run(c, show, t.value, moves[1..])
  }

  /** The lines of one stream, in order. */
  function Of(output: seq<Line>, k: Stream): seq<string> {
    if output == [] then []
    else
      var last := output[|output| - 1];
      Of(output[..|output| - 1], k) + (if last.kind == k then [last.data] else [])
  }

  // ---- What every reachable state satisfies ----

  predicate Critical(p: Place) {
    p.Locked? || p.Loaded? || p.Unlocking?
  }

  predicate Ended(p: Place) {
    p.Sending? || p.Finished?
  }

  /** In the list but not yet shown. */
  function Unshown(p: Place): seq<string> {
    if p.Unlocking? || p.Showing? then [p.l] else []
  }

  /** The lock, the load under it, and what has been shown. */
  predicate LockKeeps(show: bool, s: State, k: Stream) {
    var r := s.At(k);
    && (Critical(r.place) <==> s.owner == Some(k))
    && (r.place.Loaded? ==> r.place.seen == s.output)
    && (if show then r.shown + Unshown(r.place) == Of(s.output, k) else r.shown == [] && !r.place.Showing?)
    && (s.main.Starting? ==> r == FRESH)
  }

  /** What a reader will still append, and where it will find a line too long. */
  function Future(p: Place, rest: string): Scanned {
    match p
    case Scanning(buf) => Scan(buf, rest)
    case Acquiring(l) => Scan("", rest).(lines := [l] + Scan("", rest).lines)
    case Locked(l) => Scan("", rest).(lines := [l] + Scan("", rest).lines)
    case Loaded(l, _) => Scan("", rest).(lines := [l] + Scan("", rest).lines)
    case Unlocking(_) => Scan("", rest)
    case Showing(_) => Scan("", rest)
    case Sending(_) => Scanned([], None)
    case Finished => Scanned([], None)
  }

  /** Of one source: what has been appended and what will be is all of its lines; and a reader that has ended has done
      so where it had to, with the right error. */
  predicate ReaderKeeps(source: Input, r: Reader, appended: seq<string>, exited: bool) {
    && r.taken <= |source.bytes|
    && appended + Future(r.place, source.bytes[r.taken..]).lines == source.Lines()
    && (!Ended(r.place) ==>
          Scan("", source.bytes).tooLong == Later(Future(r.place, source.bytes[r.taken..]).tooLong, r.taken))
    && (Ended(r.place) ==>
          source.Stop() == Some(r.taken) || (source.Stop().None? && exited && r.taken == |source.bytes|))
    && (r.place.Sending? ==> r.place.error == source.Error())
  }

  predicate StreamKeeps(c: Command, s: State, k: Stream) {
    ReaderKeeps(c.Source(k), s.At(k), Of(s.output, k), s.exited)
  }

  /** Between what is written and what is taken there is never more than the pipe holds. */
  predicate PipeKeeps(c: Command, s: State, k: Stream) {
    s.At(k).taken <= |Delivered(c, s, k)| <= s.At(k).taken + c.pipeSize
  }

  predicate ProcessKeeps(c: Command, s: State) {
    && s.written <= |c.script|
    && (s.exited ==> s.written == |c.script|)
    && (s.main.Starting? || c.startError.Some? ==> s.written == 0 && !s.exited)
    && PipeKeeps(c, s, Stdout) && PipeKeeps(c, s, Stderr)
  }

  function Count(s: State): nat {
    (if s.stdout.place.Finished? then 1 else 0) + (if s.stderr.place.Finished? then 1 else 0)
  }

  /** What the main goroutine has been told, and what it has made of it. */
  predicate MainKeeps(c: Command, s: State) {
    var (out, err) := (c.ScanError(Stdout), c.ScanError(Stderr));
    match s.main
    case Starting => true
    case Receiving(results) =>
      && c.startError.None? && |results| == Count(s)
      && (|results| == 1 ==> results == [if s.stdout.place.Finished? then out else err])
      && (|results| == 2 ==> results == [out, err] || results == [err, out])
    case Returned(outcome) =>
      if c.startError.Some? then outcome == Broken(c.startError.value) && Count(s) == 0
      else
        && Count(s) == 2
        && (if out.None? && err.None? then outcome == Ran(s.output, c.exit)
            else outcome.Broken? && (out == Some(outcome.error) || err == Some(outcome.error)))
  }

  predicate LocksKeep(show: bool, s: State) {
    LockKeeps(show, s, Stdout) && LockKeeps(show, s, Stderr)
  }

  predicate StreamsKeep(c: Command, s: State) {
    StreamKeeps(c, s, Stdout) && StreamKeeps(c, s, Stderr)
  }

  predicate Keeps(c: Command, show: bool, s: State) {
    LocksKeep(show, s) && StreamsKeep(c, s) && ProcessKeeps(c, s) && MainKeeps(c, s)
  }

  lemma AppendKeeps(output: seq<Line>, k: Stream, l: string)
    ensures Of(output + [Line(k, l)], k) == Of(output, k) + [l]
    ensures Of(output + [Line(k, l)], Other(k)) == Of(output, Other(k))
  {
    assert (output + [Line(k, l)])[..|output|] == output;
  }

  lemma Regroup(done: seq<string>, l: string, rest: seq<string>)
    ensures done + ([l] + rest) == done + [l] + rest
    ensures done + [] == done
  {
  }

  // The readers' own part.

  lemma ByteKeeps(source: Input, r: Reader, appended: seq<string>, exited: bool, next: Reader)
    requires ReaderKeeps(source, r, appended, exited) && r.place.Scanning? && r.taken < |source.bytes|
    requires next.taken == r.taken + 1
    requires
      var b, buf := source.bytes[r.taken], r.place.buf;
      next.place == if b == '\n' then Acquiring(DropCR(buf))
                    else if |buf| + 1 >= MAX_TOKEN then Sending(source.Error())
                    else Scanning(buf + [b])
    ensures ReaderKeeps(source, next, appended, exited)
  {
    var now, later := Future(r.place, source.bytes[r.taken..]), Future(next.place, source.bytes[next.taken..]);
    ByteFuture(r.place.buf, source.bytes, r.taken, next.place, source.Error());
    if Ended(next.place) {
      assert source.Stop() == Some(next.taken);
    } else {
      LaterSum(later.tooLong, 1, r.taken);
    }
  }

  lemma LaterSum(at: Option<nat>, a: nat, b: nat)
    ensures Later(Later(at, a), b) == Later(at, a + b)
  {
  }

  /** What is to come, before and after one byte. */
  lemma ByteFuture(buf: string, bytes: string, n: nat, next: Place, error: Option<string>)
    requires n < |bytes|
    requires next == if bytes[n] == '\n' then Acquiring(DropCR(buf))
                     else if |buf| + 1 >= MAX_TOKEN then Sending(error)
                     else Scanning(buf + [bytes[n]])
    ensures Scan(buf, bytes[n..]).lines == Future(next, bytes[n + 1..]).lines
    ensures Scan(buf, bytes[n..]).tooLong
        == if next.Sending? then Some(1) else Later(Future(next, bytes[n + 1..]).tooLong, 1)
  {
    ScanByte(buf, bytes, n);
  }

  lemma EndKeeps(source: Input, r: Reader, appended: seq<string>, exited: bool, next: Reader)
    requires ReaderKeeps(source, r, appended, exited) && r.place.Scanning? && r.taken == |source.bytes|
    requires source.fault.Some? || exited
    requires next.taken == r.taken
    requires next.place == if r.place.buf == "" then Sending(source.fault) else Acquiring(DropCR(r.place.buf))
    ensures ReaderKeeps(source, next, appended, exited)
  {
    assert source.bytes[r.taken..] == "";
  }

  lemma StoreKeeps(source: Input, r: Reader, appended: seq<string>, exited: bool, next: Reader)
    requires ReaderKeeps(source, r, appended, exited) && r.place.Loaded?
    requires next == r.(place := Unlocking(r.place.l))
    ensures ReaderKeeps(source, next, appended + [r.place.l], exited)
  {
    Regroup(appended, r.place.l, Scan("", source.bytes[r.taken..]).lines);
  }

  lemma ScanKeepsStream(c: Command, s: State, k: Stream, buf: string)
    requires StreamKeeps(c, s, k) && s.At(k).place == Scanning(buf) && ScanStep(c, s, k, buf).Some?
    ensures ReaderKeeps(c.Source(k), ScanStep(c, s, k, buf).value, Of(s.output, k), s.exited)
  {
    if s.At(k).taken < |c.Source(k).bytes| {
      ByteKeeps(c.Source(k), s.At(k), Of(s.output, k), s.exited, ScanStep(c, s, k, buf).value);
    } else {
      EndKeeps(c.Source(k), s.At(k), Of(s.output, k), s.exited, ScanStep(c, s, k, buf).value);
    }
  }

  lemma EffectKeepsStream(c: Command, show: bool, s: State, k: Stream)
    requires StreamKeeps(c, s, k) && LockKeeps(show, s, k) && ReadEffect(c, show, s, k).Some?
    ensures
      var e := ReadEffect(c, show, s, k).value;
      ReaderKeeps(c.Source(k), e.reader, Of(e.output, k), s.exited)
  {
    var r := s.At(k);
    if r.place.Scanning? {
      ScanKeepsStream(c, s, k, r.place.buf);
    } else if r.place.Loaded? {
      StoreKeeps(c.Source(k), r, Of(s.output, k), s.exited, ReadEffect(c, show, s, k).value.reader);
      AppendKeeps(s.output, k, r.place.l);
    } else {
      assert ReadEffect(c, show, s, k).value.reader.taken == r.taken;
    }
  }

  /** A step changes the list by a line of its own stream, if at all. */
  lemma EffectOnOutput(c: Command, show: bool, s: State, k: Stream)
    requires LockKeeps(show, s, k) && ReadEffect(c, show, s, k).Some?
    ensures
      var r, e := s.At(k), ReadEffect(c, show, s, k).value;
      && e.output == (if r.place.Loaded? then s.output + [Line(k, r.place.l)] else s.output)
      && Of(e.output, k) == (if r.place.Loaded? then Of(s.output, k) + [r.place.l] else Of(s.output, k))
      && Of(e.output, Other(k)) == Of(s.output, Other(k))
  {
    if s.At(k).place.Loaded? {
      AppendKeeps(s.output, k, s.At(k).place.l);
    }
  }

  lemma ReadKeepsStreams(c: Command, show: bool, s: State, k: Stream)
    requires StreamsKeep(c, s) && LockKeeps(show, s, k) && ReadStep(c, show, s, k).Some?
    ensures StreamsKeep(c, ReadStep(c, show, s, k).value)
  {
    var t := ReadStep(c, show, s, k).value;
    assert StreamKeeps(c, s, k) && StreamKeeps(c, s, Other(k));
    EffectKeepsStream(c, show, s, k);
    EffectOnOutput(c, show, s, k);
    assert StreamKeeps(c, t, k) && StreamKeeps(c, t, Other(k));
  }

  lemma ScanOnLock(c: Command, s: State, k: Stream, buf: string)
    requires ScanStep(c, s, k, buf).Some?
    ensures
      var next := ScanStep(c, s, k, buf).value;
      && next.shown == s.At(k).shown && !Critical(next.place) && !next.place.Showing? && !next.place.Finished?
      && !s.main.Starting?
  {
  }

  lemma EffectOnLock(c: Command, show: bool, s: State, k: Stream)
    requires LockKeeps(show, s, k) && ReadEffect(c, show, s, k).Some?
    ensures
      var e := ReadEffect(c, show, s, k).value;
      && (Critical(e.reader.place) <==> e.owner == Some(k))
      && (e.reader.place.Loaded? ==> e.reader.place.seen == e.output)
      && !s.main.Starting? && !s.At(k).place.Finished? && !e.reader.place.Finished?
  {
    if s.At(k).place.Scanning? {
      ScanOnLock(c, s, k, s.At(k).place.buf);
    }
  }

  lemma EffectShows(c: Command, show: bool, s: State, k: Stream)
    requires ReadEffect(c, show, s, k).Some?
    ensures
      var r, next := s.At(k), ReadEffect(c, show, s, k).value.reader;
      && next.shown == (if r.place.Showing? then r.shown + [r.place.l] else r.shown)
      && Unshown(next.place) == (if r.place.Loaded? || (r.place.Unlocking? && show) then [r.place.l] else [])
      && (next.place.Showing? ==> show)
  {
    if s.At(k).place.Scanning? {
      ScanOnLock(c, s, k, s.At(k).place.buf);
    }
  }

  lemma ShowsAll(r: Reader, next: Reader, before: seq<string>, after: seq<string>)
    requires r.shown + Unshown(r.place) == before
    requires after == if r.place.Loaded? then before + [r.place.l] else before
    requires next.shown == if r.place.Showing? then r.shown + [r.place.l] else r.shown
    requires Unshown(next.place) == if r.place.Loaded? || r.place.Unlocking? then [r.place.l] else []
    ensures next.shown + Unshown(next.place) == after
  {
    Regroup(r.shown, "", []);
    Regroup(next.shown, "", []);
  }

  lemma EffectOnShown(c: Command, show: bool, s: State, k: Stream)
    requires LockKeeps(show, s, k) && ReadEffect(c, show, s, k).Some?
    ensures
      var e := ReadEffect(c, show, s, k).value;
      if show then e.reader.shown + Unshown(e.reader.place) == Of(e.output, k)
      else e.reader.shown == [] && !e.reader.place.Showing?
  {
    var e := ReadEffect(c, show, s, k).value;
    EffectShows(c, show, s, k);
    if show {
      EffectOnOutput(c, show, s, k);
      ShowsAll(s.At(k), e.reader, Of(s.output, k), Of(e.output, k));
    }
  }

  lemma EffectFields(c: Command, show: bool, s: State, k: Stream)
    requires ReadEffect(c, show, s, k).Some?
    ensures
      var p, e := s.At(k).place, ReadEffect(c, show, s, k).value;
      && e.owner == (if p.Acquiring? then Some(k) else if p.Unlocking? then None else s.owner)
      && (!p.Loaded? ==> e.output == s.output) && (p.Acquiring? ==> s.owner.None?)
  {
  }

  /** The other reader holds the lock, or nobody does, as before. */
  lemma EffectOnOwner(c: Command, show: bool, s: State, k: Stream)
    requires LockKeeps(show, s, k) && LockKeeps(show, s, Other(k)) && ReadEffect(c, show, s, k).Some?
    ensures
      var e := ReadEffect(c, show, s, k).value;
      && (e.owner == Some(Other(k)) <==> s.owner == Some(Other(k)))
      && (s.At(Other(k)).place.Loaded? ==> e.output == s.output)
  {
    EffectFields(c, show, s, k);
    assert Critical(s.At(k).place) <==> s.owner == Some(k);
  }

  lemma ReadKeepsLocks(c: Command, show: bool, s: State, k: Stream)
    requires LocksKeep(show, s) && ReadStep(c, show, s, k).Some?
    ensures LocksKeep(show, ReadStep(c, show, s, k).value)
  {
    var t := ReadStep(c, show, s, k).value;
    assert LockKeeps(show, s, k) && LockKeeps(show, s, Other(k));
    EffectOnLock(c, show, s, k);
    EffectOnShown(c, show, s, k);
    EffectOnOwner(c, show, s, k);
    EffectOnOutput(c, show, s, k);
    assert LockKeeps(show, t, k) && LockKeeps(show, t, Other(k));
  }

  lemma EffectOnTaken(c: Command, show: bool, s: State, k: Stream)
    requires ReadEffect(c, show, s, k).Some? && s.At(k).taken <= |Delivered(c, s, k)|
    ensures s.At(k).taken <= ReadEffect(c, show, s, k).value.reader.taken <= |Delivered(c, s, k)|
  {
  }

  lemma ReadKeepsProcess(c: Command, show: bool, s: State, k: Stream)
    requires ProcessKeeps(c, s) && ReadStep(c, show, s, k).Some?
    ensures ProcessKeeps(c, ReadStep(c, show, s, k).value)
  {
    var t := ReadStep(c, show, s, k).value;
    assert PipeKeeps(c, s, k) && PipeKeeps(c, s, Other(k));
    EffectOnTaken(c, show, s, k);
    assert PipeKeeps(c, t, k) && PipeKeeps(c, t, Other(k));
  }

  lemma ReadKeepsMain(c: Command, show: bool, s: State, k: Stream)
    requires MainKeeps(c, s) && LockKeeps(show, s, k) && ReadStep(c, show, s, k).Some?
    ensures MainKeeps(c, ReadStep(c, show, s, k).value)
  {
    var t := ReadStep(c, show, s, k).value;
    EffectOnLock(c, show, s, k);
    assert t.stdout.place.Finished? == s.stdout.place.Finished? && t.stderr.place.Finished? == s.stderr.place.Finished?;
    assert t.main == s.main && Count(t) == Count(s);
  }

  lemma ReadKeeps(c: Command, show: bool, s: State, k: Stream)
    requires Keeps(c, show, s) && ReadStep(c, show, s, k).Some?
    ensures Keeps(c, show, ReadStep(c, show, s, k).value)
  {
    assert LockKeeps(show, s, k);
    ReadKeepsStreams(c, show, s, k);
    ReadKeepsLocks(c, show, s, k);
    ReadKeepsProcess(c, show, s, k);
    ReadKeepsMain(c, show, s, k);
  }

  lemma FirstOfTwo(a: Option<string>, b: Option<string>)
    ensures FirstError([a, b]) == if a.Some? then a else b
  {
    assert [a, b][1..] == [b] && [b][1..] == [];
    assert FirstError([b]) == if b.Some? then b else None;
  }

  lemma DeliverKeeps(c: Command, show: bool, s: State, k: Stream)
    requires Keeps(c, show, s) && Step(c, show, s, Deliver(k)).Some?
    ensures Keeps(c, show, Step(c, show, s, Deliver(k)).value)
  {
    assert LockKeeps(show, s, k) && StreamKeeps(c, s, k);
    DeliverKeepsReaders(c, show, s, k, Step(c, show, s, Deliver(k)).value);
    DeliverKeepsMain(c, show, s, k);
  }

  lemma DeliverKeepsReaders(c: Command, show: bool, s: State, k: Stream, t: State)
    requires s.At(k).place.Sending? && !t.main.Starting?
    requires t == s.Put(k, s.At(k).(place := Finished)).(main := t.main)
    ensures LocksKeep(show, s) ==> LocksKeep(show, t)
    ensures StreamsKeep(c, s) ==> StreamsKeep(c, t)
    ensures PipeKeeps(c, s, Stdout) ==> PipeKeeps(c, t, Stdout)
    ensures PipeKeeps(c, s, Stderr) ==> PipeKeeps(c, t, Stderr)
  {
  }

  lemma DeliverKeepsMain(c: Command, show: bool, s: State, k: Stream)
    requires MainKeeps(c, s) && StreamKeeps(c, s, k) && Step(c, show, s, Deliver(k)).Some?
    ensures MainKeeps(c, Step(c, show, s, Deliver(k)).value)
  {
    var t := Step(c, show, s, Deliver(k)).value;
    assert t.main.results == s.main.results + [c.ScanError(k)];
    assert Count(t) == Count(s) + 1;
  }

  lemma SameReaders(c: Command, show: bool, s: State, t: State)
    requires t.stdout == s.stdout && t.stderr == s.stderr && t.output == s.output && t.owner == s.owner
    requires t.main.Starting? ==> s.main.Starting?
    requires s.exited ==> t.exited
    ensures LocksKeep(show, s) ==> LocksKeep(show, t)
    ensures StreamsKeep(c, s) ==> StreamsKeep(c, t)
  {
  }

  lemma SamePipes(c: Command, s: State, t: State)
    requires t.stdout == s.stdout && t.stderr == s.stderr && t.written == s.written
    ensures PipeKeeps(c, s, Stdout) ==> PipeKeeps(c, t, Stdout)
    ensures PipeKeeps(c, s, Stderr) ==> PipeKeeps(c, t, Stderr)
  {
  }

  lemma FinishKeepsMain(c: Command, show: bool, s: State)
    requires MainKeeps(c, s) && s.main.Receiving? && |s.main.results| >= 2 && FinishStep(c, s, s.main.results).Some?
    ensures MainKeeps(c, FinishStep(c, s, s.main.results).value)
  {
    FirstOfTwo(c.ScanError(Stdout), c.ScanError(Stderr));
    FirstOfTwo(c.ScanError(Stderr), c.ScanError(Stdout));
  }

  lemma ProceedKeeps(c: Command, show: bool, s: State)
    requires Keeps(c, show, s) && Step(c, show, s, Proceed).Some?
    ensures Keeps(c, show, Step(c, show, s, Proceed).value)
  {
    var t := Step(c, show, s, Proceed).value;
    SameReaders(c, show, s, t);
    SamePipes(c, s, t);
    if s.main.Receiving? {
      FinishKeepsMain(c, show, s);
    } else {
      assert s.stdout == FRESH && s.stderr == FRESH;
    }
  }

  lemma WriteKeepsPipe(c: Command, s: State, k: Stream)
    requires s.written < |c.script| && PipeKeeps(c, s, k)
    requires c.script[s.written].k == k ==> |Delivered(c, s, k)| < s.At(k).taken + c.pipeSize
    ensures PipeKeeps(c, s.(written := s.written + 1), k)
  {
    SentNext(c.script, s.written, k);
  }

  lemma ProcessStepKeepsProcess(c: Command, s: State)
    requires ProcessKeeps(c, s) && ProcessStep(c, s).Some?
    ensures ProcessKeeps(c, ProcessStep(c, s).value)
  {
    if s.written < |c.script| {
      WriteKeepsPipe(c, s, Stdout);
      WriteKeepsPipe(c, s, Stderr);
    } else {
      SamePipes(c, s, ProcessStep(c, s).value);
    }
  }

  lemma ProcessStepFields(c: Command, s: State)
    requires ProcessStep(c, s).Some?
    ensures
      var t := ProcessStep(c, s).value;
      t == s.(written := t.written, exited := t.exited) && (s.exited ==> t.exited)
  {
  }

  lemma ProcessStepKeepsMain(c: Command, s: State, t: State)
    requires MainKeeps(c, s) && t == s.(written := t.written, exited := t.exited)
    ensures MainKeeps(c, t)
  {
    assert Count(t) == Count(s);
  }

  lemma ProcessStepKeeps(c: Command, show: bool, s: State)
    requires Keeps(c, show, s) && ProcessStep(c, s).Some?
    ensures Keeps(c, show, ProcessStep(c, s).value)
  {
    var t := ProcessStep(c, s).value;
    ProcessStepKeepsProcess(c, s);
    ProcessStepFields(c, s);
    SameReaders(c, show, s, t);
    ProcessStepKeepsMain(c, s, t);
  }

  lemma StepKeeps(c: Command, show: bool, s: State, m: Move)
    requires Keeps(c, show, s) && Step(c, show, s, m).Some?
    ensures Keeps(c, show, Step(c, show, s, m).value)
  {
    match m
    case Read(k) => ReadKeeps(c, show, s, k);
    case Deliver(k) => DeliverKeeps(c, show, s, k);
    case Proceed => ProceedKeeps(c, show, s);
    case Process => ProcessStepKeeps(c, show, s);
  }

  lemma InitialKeeps(c: Command, show: bool)
    ensures Keeps(c, show, INITIAL)
  {
    assert c.script[..0] == [];
    FreshKeeps(c.Source(Stdout));
    FreshKeeps(c.Source(Stderr));
    assert StreamKeeps(c, INITIAL, Stdout) && StreamKeeps(c, INITIAL, Stderr);
    assert LockKeeps(show, INITIAL, Stdout) && LockKeeps(show, INITIAL, Stderr);
  }

  lemma FreshKeeps(source: Input)
    ensures ReaderKeeps(source, FRESH, [], false)
  {
    assert source.bytes[0..] == source.bytes;
    assert [] + source.Lines() == source.Lines();
  }

  lemma {:induction false} RunKeeps(c: Command, show: bool, s: State, moves: seq<Move>)
    requires Keeps(c, show, s) && Run(c, show, s, moves).Some?
    ensures Keeps(c, show, Run(c, show, s, moves).value)
    decreases |moves|
  {
    if moves != [] {
      StepKeeps(c, show, s, moves[0]);
      RunKeeps(c, show, Step(c, show, s, moves[0]).value, moves[1..]);
    }
  }

  predicate Reaches(c: Command, show: bool, moves: seq<Move>, s: State) {
    Run(c, show, INITIAL, moves) == Some(s)
  }

  lemma ReachedKeeps(c: Command, show: bool, moves: seq<Move>, s: State)
    requires Reaches(c, show, moves, s)
    ensures Keeps(c, show, s)
  {
    InitialKeeps(c, show);
    RunKeeps(c, show, INITIAL, moves);
  }

  // ---- Safety ----

  /** The two readers are never both between Lock and Unlock; so no line is lost between the load and the store. */
  lemma MutualExclusion(c: Command, show: bool, moves: seq<Move>, s: State)
    requires Reaches(c, show, moves, s)
    ensures !(Critical(s.stdout.place) && Critical(s.stderr.place))
    ensures forall k :: s.At(k).place.Loaded? ==> s.At(k).place.seen == s.output
  {
    ReachedKeeps(c, show, moves, s);
    assert LockKeeps(show, s, Stdout) && LockKeeps(show, s, Stderr);
  }

  lemma FinishedHasAll(c: Command, show: bool, s: State, k: Stream)
    requires StreamKeeps(c, s, k) && LockKeeps(show, s, k) && s.At(k).place.Finished?
    ensures Of(s.output, k) == c.Lines(k) && (show ==> s.At(k).shown == c.Lines(k))
  {
    Regroup(Of(s.output, k), "", []);
    Regroup(s.At(k).shown, "", []);
  }

  /** In every interleaving: when RunCmd returns an entry, each stream's part of the output is that stream's lines in
      order (and has been shown, if asked for); it returns one exactly when the process started and neither scanner
      failed. */
  lemma ReturnsAllLines(c: Command, show: bool, moves: seq<Move>, s: State)
    requires Reaches(c, show, moves, s) && s.main.Returned?
    ensures s.main.outcome.Ran? <==> c.startError.None? && c.ScanError(Stdout).None? && c.ScanError(Stderr).None?
    ensures s.main.outcome.Ran? ==>
              && s.main.outcome.exit == c.exit
              && forall k :: Of(s.main.outcome.output, k) == c.Lines(k) && (show ==> s.At(k).shown == c.Lines(k))
    ensures s.main.outcome.Broken? ==>
              if c.startError.Some? then c.startError == Some(s.main.outcome.error)
              else Some(s.main.outcome.error) in {c.ScanError(Stdout), c.ScanError(Stderr)}
  {
    ReachedKeeps(c, show, moves, s);
    if s.main.outcome.Ran? {
      assert s.main.outcome.output == s.output;
      FinishedHasAll(c, show, s, Stdout);
      FinishedHasAll(c, show, s, Stderr);
    }
  }

  lemma {:induction false} RunConcat(c: Command, show: bool, s: State, a: seq<Move>, b: seq<Move>)
    requires Run(c, show, s, a).Some?
    ensures Run(c, show, s, a + b) == Run(c, show, Run(c, show, s, a).value, b)
    decreases |a|
  {
    if a == [] {
      assert a + b == b;
    } else {
      assert (a + b)[1..] == a[1..] + b;
      RunConcat(c, show, Step(c, show, s, a[0]).value, a[1..], b);
    }
  }

  lemma RunStep(c: Command, show: bool, s: State, m: Move, rest: seq<Move>)
    requires Step(c, show, s, m).Some?
    ensures Run(c, show, s, [m] + rest) == Run(c, show, Step(c, show, s, m).value, rest)
  {
    assert ([m] + rest)[1..] == rest;
  }
}
