/** What a reader of a command's output (test/integration/spawn/executor.go) makes of the bytes of one stream:
    bufio.Scanner with its line splitting and its limit. */
module LineScanner {
  import opened Wrappers

  /** The length at which a line is too long. */
  const MAX_TOKEN: nat := 65536

  function DropCR(l: string): string {
    if l != "" && l[|l| - 1] == '\r' then l[..|l| - 1] else l
  }

  /** The lines, and the number of bytes read when a line has turned out too long. */
  datatype Scanned = Scanned(lines: seq<string>, tooLong: Option<nat>)

  function Later(at: Option<nat>, n: nat): Option<nat> {
    if at.Some? then Some(at.value + n) else None
  }

  /** Scanning the rest of a stream behind the beginning `buf` of a line. */
  function Scan(buf: string, rest: string): Scanned
    decreases |rest|
  {
    if rest == "" then Scanned(if buf == "" then [] else [DropCR(buf)], None)
    else if rest[0] == '\n' then
      var s := Scan("", rest[1..]);
      Scanned([DropCR(buf)] + s.lines, Later(s.tooLong, 1))
    else if |buf| + 1 >= MAX_TOKEN then Scanned([], Some(1))
    else
      var s := Scan(buf + [rest[0]], rest[1..]);
      Scanned(s.lines, Later(s.tooLong, 1))
  }

  /** The bytes that a reader gets, and the error that stops it behind them; None where it waits for the end of file. */
  datatype Input = Input(bytes: string, fault: Option<string>)
  {
    function Lines(): seq<string> {
      Scan("", bytes).lines
    }

    function Error(): Option<string> {
      if Scan("", bytes).tooLong.Some? then Some("bufio.Scanner: token too long") else fault
    }

    /** After how many bytes the reader stops by itself. */
    function Stop(): Option<nat> {
      if Scan("", bytes).tooLong.Some? then Scan("", bytes).tooLong
      else if fault.Some? then Some(|bytes|) else None
    }
  }

  /** One byte further. */
  lemma ScanByte(buf: string, bytes: string, n: nat)
    requires n < |bytes|
    ensures
      var b, s := bytes[n], Scan(buf, bytes[n..]);
      if b == '\n' then
        && s.lines == [DropCR(buf)] + Scan("", bytes[n + 1..]).lines
        && s.tooLong == Later(Scan("", bytes[n + 1..]).tooLong, 1)
      else if |buf| + 1 >= MAX_TOKEN then s == Scanned([], Some(1))
      else
        && s.lines == Scan(buf + [b], bytes[n + 1..]).lines
        && s.tooLong == Later(Scan(buf + [b], bytes[n + 1..]).tooLong, 1)
  {
    assert bytes[n..][1..] == bytes[n + 1..];
  }

  lemma {:induction false} TooLongWithin(buf: string, rest: string)
    ensures Scan(buf, rest).tooLong.Some? ==> 0 < Scan(buf, rest).tooLong.value <= |rest|
    decreases |rest|
  {
    if rest != "" {
      if rest[0] == '\n' {
        TooLongWithin("", rest[1..]);
      } else if |buf| + 1 < MAX_TOKEN {
        TooLongWithin(buf + [rest[0]], rest[1..]);
      }
    }
  }

  predicate OneLine(text: string) {
    text != "" && text[|text| - 1] == '\n' && '\n' !in text[..|text| - 1]
  }

  /** The length of the first line, with its end. */
  function FirstLine(bytes: string): (n: nat)
    requires bytes != "" && bytes[|bytes| - 1] == '\n'
    ensures 0 < n <= |bytes| && OneLine(bytes[..n])
  {
    if bytes[0] == '\n' then 1
    else
      var n := FirstLine(bytes[1..]) + 1;
      assert bytes[..n][..n - 1] == [bytes[0]] + bytes[1..][..n - 1][..n - 2];
      n
  }

  lemma {:induction false} ScanFirstLine(buf: string, bytes: string)
    requires bytes != "" && bytes[|bytes| - 1] == '\n' && Scan(buf, bytes).tooLong.None?
    requires |buf| < MAX_TOKEN
    ensures
      var n := FirstLine(bytes);
      && |buf| + n <= MAX_TOKEN && Scan("", bytes[n..]).tooLong.None?
      && Scan(buf, bytes).lines == [DropCR(buf + bytes[..n - 1])] + Scan("", bytes[n..]).lines
    decreases |bytes|
  {
    var n := FirstLine(bytes);
    if bytes[0] == '\n' {
      assert buf + bytes[..0] == buf;
    } else {
      ScanFirstLine(buf + [bytes[0]], bytes[1..]);
      assert bytes[1..][n - 1..] == bytes[n..];
      assert buf + [bytes[0]] + bytes[1..][..n - 2] == buf + bytes[..n - 1];
    }
  }

  /** A line without end is too long once it has reached the limit. */
  lemma {:induction false} LongLine(buf: string, rest: string)
    requires |buf| < MAX_TOKEN <= |buf| + |rest| && '\n' !in rest
    ensures Scan(buf, rest).tooLong == Some(MAX_TOKEN - |buf|)
    decreases |rest|
  {
    if |buf| + 1 < MAX_TOKEN {
      LongLine(buf + [rest[0]], rest[1..]);
    }
  }

  // ---- The lines of a text ----

  /** A line as it is written: what it says, and whether a carriage return stands in front of its end. */
  datatype Written = Written(line: string, cr: bool)

  function WithCR(w: Written): string {
    w.line + (if w.cr then "\r" else "")
  }

  /** Each line, and a line feed behind each. */
  function TextOf(ws: seq<Written>): string {
    if ws == [] then "" else WithCR(ws[0]) + "\n" + TextOf(ws[1..])
  }

  function Says(ws: seq<Written>): seq<string> {
    seq(|ws|, i requires 0 <= i < |ws| => ws[i].line)
  }

  /** Behind the last line feed a line only counts if something is written. */
  function SaysLast(w: Written): seq<string> {
    if WithCR(w) == "" then [] else [w.line]
  }

  /** A line has no line feed in it, and at most 65535 bytes; and only before a carriage return it may end in one. */
  predicate Fits(w: Written) {
    '\n' !in w.line && |WithCR(w)| < 65536 && (w.cr || w.line == "" || w.line[|w.line| - 1] != '\r')
  }

  predicate AllFit(ws: seq<Written>) {
    forall i :: 0 <= i < |ws| ==> Fits(ws[i])
  }

  lemma DropsEnd(w: Written)
    requires Fits(w)
    ensures DropCR(WithCR(w)) == w.line && '\n' !in WithCR(w)
  {
  }

  /** Up to the line feed. */
  lemma {:induction false} ScanLine(buf: string, line: string, rest: string)
    requires '\n' !in line && |buf| + |line| < 65536
    ensures
      var s, after := Scan(buf, line + "\n" + rest), Scan("", rest);
      s == Scanned([DropCR(buf + line)] + after.lines, Later(after.tooLong, |line| + 1))
    decreases |line|
  {
    var bytes := line + "\n" + rest;
    if line == "" {
      assert bytes[1..] == rest && buf + line == buf;
    } else {
      assert bytes[1..] == line[1..] + "\n" + rest && buf + [line[0]] + line[1..] == buf + line;
      ScanLine(buf + [line[0]], line[1..], rest);
    }
  }

  lemma TextMore(ws: seq<Written>, rest: string)
    requires ws != []
    ensures TextOf(ws) + rest == WithCR(ws[0]) + "\n" + (TextOf(ws[1..]) + rest)
    ensures |TextOf(ws)| == |WithCR(ws[0])| + 1 + |TextOf(ws[1..])|
  {
  }

  lemma SaysMore(ws: seq<Written>, lines: seq<string>)
    requires ws != []
    ensures Says(ws) + lines == [ws[0].line] + (Says(ws[1..]) + lines)
  {
    assert Says(ws) == [ws[0].line] + Says(ws[1..]);
  }

  lemma ScanFirst(w: Written, rest: string)
    requires Fits(w)
    ensures
      var after := Scan("", rest);
      Scan("", WithCR(w) + "\n" + rest) == Scanned([w.line] + after.lines, Later(after.tooLong, |WithCR(w)| + 1))
  {
    DropsEnd(w);
    ScanLine("", WithCR(w), rest);
    assert "" + WithCR(w) == WithCR(w);
  }

  /** The lines of a text are read one by one, whatever follows them. */
  lemma {:induction false} ScanText(ws: seq<Written>, rest: string)
    requires AllFit(ws)
    ensures
      var s, after := Scan("", TextOf(ws) + rest), Scan("", rest);
      s == Scanned(Says(ws) + after.lines, Later(after.tooLong, |TextOf(ws)|))
    decreases |ws|
  {
    var after := Scan("", rest);
    if ws == [] {
      assert TextOf(ws) + rest == rest && Says(ws) + after.lines == after.lines;
    } else {
      var more := TextOf(ws[1..]) + rest;
      TextMore(ws, rest);
      SaysMore(ws, after.lines);
      ScanFirst(ws[0], more);
      ScanText(ws[1..], rest);
    }
  }

  /** A last line without its line feed. */
  lemma {:induction false} ScanLast(buf: string, line: string)
    requires '\n' !in line && |buf| + |line| < 65536
    ensures Scan(buf, line) == Scanned(if buf + line == "" then [] else [DropCR(buf + line)], None)
    decreases |line|
  {
    if line == "" {
      assert buf + line == buf;
    } else {
      assert buf + [line[0]] + line[1..] == buf + line;
      ScanLast(buf + [line[0]], line[1..]);
    }
  }

  /** What the scanner reads from lines that fit: just what they say, with the last line feed or without. */
  lemma TextIsRead(ws: seq<Written>, last: Written)
    requires AllFit(ws) && Fits(last)
    ensures Scan("", TextOf(ws) + WithCR(last)) == Scanned(Says(ws) + SaysLast(last), None)
  {
    ScanText(ws, WithCR(last));
    DropsEnd(last);
    ScanLast("", WithCR(last));
    assert "" + WithCR(last) == WithCR(last);
  }

  /** No line feed within the first 65536 bytes. */
  predicate TooLong(line: string) {
    |line| >= 65536 && '\n' !in line[..65536]
  }

  lemma TooLongIsNotRead(line: string)
    requires TooLong(line)
    ensures Scan("", line) == Scanned([], Some(65536))
  {
    LongStart("", line);
  }

  /** A line too long: the lines in front of it. */
  lemma LongLineIsNotRead(ws: seq<Written>, line: string)
    requires AllFit(ws) && Scan("", line) == Scanned([], Some(65536))
    ensures Scan("", TextOf(ws) + line) == Scanned(Says(ws), Some(|TextOf(ws)| + 65536))
  {
    ScanText(ws, line);
    NoneBehind(Says(ws));
  }

  lemma NoneBehind(lines: seq<string>)
    ensures lines + [] == lines
  {
  }

  lemma {:induction false} LongStart(buf: string, rest: string)
    requires |buf| < 65536 <= |buf| + |rest| && '\n' !in rest[..65536 - |buf|]
    ensures Scan(buf, rest) == Scanned([], Some(65536 - |buf|))
    decreases |rest|
  {
    assert rest[0] == rest[..65536 - |buf|][0];
    if |buf| + 1 < 65536 {
      assert rest[1..][..65535 - |buf|] == rest[..65536 - |buf|][1..];
      LongStart(buf + [rest[0]], rest[1..]);
    }
  }

  /** Every text is of one of the two kinds. */
  lemma TextIsWritten(bytes: string) returns (ws: seq<Written>, end: string, last: Written)
    ensures AllFit(ws) && bytes == TextOf(ws) + end && (TooLong(end) || (Fits(last) && end == WithCR(last)))
  {
    ws, end := LinesBefore(bytes);
    last := Written("", false);
    if !TooLong(end) {
      last := AsWritten(end);
    }
  }

  lemma {:induction false} LinesBefore(bytes: string) returns (ws: seq<Written>, end: string)
    ensures AllFit(ws) && bytes == TextOf(ws) + end && (TooLong(end) || (|end| < 65536 && '\n' !in end))
    decreases |bytes|
  {
    var n := FirstFeed(bytes);
    if n >= 65536 || n == |bytes| {
      ws, end := [], bytes;
      assert TextOf(ws) + end == end;
      StartsWithoutFeed(bytes, n);
    } else {
      var first := AsWritten(bytes[..n]);
      var rest;
      rest, end := LinesBefore(bytes[n + 1..]);
      ws := [first] + rest;
      assert ws[1..] == rest && bytes == bytes[..n] + "\n" + bytes[n + 1..];
      TextMore(ws, end);
    }
  }

  lemma StartsWithoutFeed(bytes: string, n: nat)
    requires n <= |bytes| && '\n' !in bytes[..n] && (n >= 65536 || n == |bytes|)
    ensures TooLong(bytes) || (|bytes| < 65536 && '\n' !in bytes)
  {
    if n >= 65536 {
      assert bytes[..65536] == bytes[..n][..65536];
    } else {
      assert bytes[..n] == bytes;
    }
  }

  lemma {:induction false} FirstFeed(bytes: string) returns (n: nat)
    ensures n <= |bytes| && (n < |bytes| ==> bytes[n] == '\n') && '\n' !in bytes[..n]
    decreases |bytes|
  {
    if bytes == "" || bytes[0] == '\n' {
      n := 0;
    } else {
      n := FirstFeed(bytes[1..]);
      assert bytes[..n + 1] == [bytes[0]] + bytes[1..][..n];
      n := n + 1;
    }
  }

  lemma AsWritten(line: string) returns (w: Written)
    requires '\n' !in line && |line| < 65536
    ensures Fits(w) && WithCR(w) == line
  {
    if line != "" && line[|line| - 1] == '\r' {
      w := Written(line[..|line| - 1], true);
    } else {
      w := Written(line, false);
    }
  }
}
