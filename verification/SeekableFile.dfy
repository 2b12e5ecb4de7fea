/** Opened files of the generated file systems (pkg/apis/wksprovider/machine/scripts/scripts_vfsdata.go): a seekable
    file over a decompressor that only goes forward. */
module SeekableFile {

  /** The three offsets of an opened file: where the decompressor stands, where the file believes it stands, and where
      the next read is to start. */
  datatype File = File(gz: nat, grPos: int, seekPos: int)

  datatype Whence = SeekStart | SeekCurrent | SeekEnd

  const OPENED := File(0, 0, 0)

  function SeekTo(size: nat, f: File, offset: int, whence: Whence): File {
    match whence
    case SeekStart => f.(seekPos := offset)
    case SeekCurrent => f.(seekPos := f.seekPos + offset)
    case SeekEnd => f.(seekPos := size + offset)
  }

  /** Rewinding and fast-forwarding in front of a read; None where the skipped bytes are not there. */
  datatype Aligned = At(f: File) | PastEnd(f: File)

  function Align(size: nat, f: File): Aligned {
    var g := if f.grPos > f.seekPos then File(0, 0, f.seekPos) else f;
    if g.grPos < g.seekPos then
      var skip := g.seekPos - g.grPos;
      if g.gz + skip > size then PastEnd(File(if g.gz > size then g.gz else size, g.grPos, g.seekPos))
      else At(File(g.gz + skip, g.seekPos, g.seekPos))
    else At(g)
  }

  /** A read that delivers `n` bytes. */
  function ReadN(f: File, n: nat): File {
    File(f.gz + n, f.grPos + n, f.grPos + n)
  }

  /** The file's belief is right. */
  predicate Synced(size: nat, f: File) {
    f.gz == f.grPos && f.gz <= size
  }

  predicate InRange(size: nat, f: File) {
    0 <= f.seekPos <= size
  }

  /** In range, a read starts at the logical offset, through the rewind and through the fast-forward. */
  lemma AlignsInRange(size: nat, f: File)
    requires Synced(size, f)
    ensures InRange(size, f) <==> 0 <= f.seekPos && Align(size, f) == At(File(f.seekPos, f.seekPos, f.seekPos))
  {
  }

  /** Reading keeps the belief right exactly when it does not start behind the end, or the decompressor was at the
      end. */
  lemma StaysSyncedIff(size: nat, f: File)
    requires Synced(size, f)
    ensures Synced(size, Align(size, f).f) <==> f.seekPos <= size || f.grPos == size
  {
  }

  // ---- Whole runs ----

  datatype Op = Seek(offset: int, whence: Whence) | Read(n: nat)

  function Position(size: nat, pos: int, op: Op): int {
    match op
    case Seek(offset, SeekStart) => offset
    case Seek(offset, SeekCurrent) => pos + offset
    case Seek(offset, SeekEnd) => size + offset
    case Read(n) => pos + n
  }

  /** The simple file: a position, and every read within the content. Seeks may go anywhere in between. */
  predicate Plain(size: nat, pos: int, ops: seq<Op>)
    decreases |ops|
  {
    ops == []
    || ((ops[0].Read? ==> 0 <= pos <= pos + ops[0].n <= size) && Plain(size, Position(size, pos, ops[0]), ops[1..]))
  }

  /** What the reads of a run deliver from the simple file. */
  function PlainOutput<T>(content: seq<T>, pos: int, ops: seq<Op>): seq<T>
    requires Plain(|content|, pos, ops)
    decreases |ops|
  {
    if ops == [] then []
    else
      (if ops[0].Read? then content[pos..pos + ops[0].n] else [])
      + PlainOutput(content, Position(|content|, pos, ops[0]), ops[1..])
  }

  /** What the code delivers, None where it fails or where the decompressor does not have the bytes. */
  datatype Run<T> = Done(f: File, out: seq<T>) | Failed

  function RunOps<T>(content: seq<T>, f: File, ops: seq<Op>): Run<T>
    decreases |ops|
  {
    if ops == [] then Done(f, [])
    else
      match ops[0]
      case Seek(offset, whence) => RunOps(content, SeekTo(|content|, f, offset, whence), ops[1..])
      case Read(n) =>
        match Align(|content|, f)
        case PastEnd(_) => Failed
        case At(g) =>
          if g.gz + n > |content| then Failed
          else
            match RunOps(content, ReadN(g, n), ops[1..])
            case Failed => Failed
            case Done(h, out) => Done(h, content[g.gz..g.gz + n] + out)
  }

  /** After any seeks and any (short) reads within the content, the lazily decompressed file has delivered what a plain
      one delivers, and it still believes the truth. */
  lemma {:induction false} RunsLikePlain<T>(content: seq<T>, f: File, ops: seq<Op>)
    requires Synced(|content|, f) && Plain(|content|, f.seekPos, ops)
    ensures var r := RunOps(content, f, ops);
      r.Done? && r.out == PlainOutput(content, f.seekPos, ops) && Synced(|content|, r.f)
    decreases |ops|
  {
    if ops != [] {
      match ops[0]
      case Seek(offset, whence) => RunsLikePlain(content, SeekTo(|content|, f, offset, whence), ops[1..]);
      case Read(n) =>
        AlignsInRange(|content|, f);
        RunsLikePlain(content, ReadN(Align(|content|, f).f, n), ops[1..]);
    }
  }

  /** A read behind the end fails, as it should, but afterwards the file believes in an offset that is not so: rewound
      to the start, it has nothing to deliver. */
  lemma BeyondTheEndLosesSync(size: nat)
    requires size > 0
    ensures var f := SeekTo(size, OPENED, size + 1, SeekStart);
      var g := SeekTo(size, Align(size, f).f, 0, SeekStart);
      Align(size, f).PastEnd? && g.seekPos == 0 && Align(size, g) == At(g) && g.gz == size
  {
  }

  // ---- The code ----

  /** gzip.Reader: it delivers the content from front to back, in pieces as it likes. */
  class GzipReader<T> {
    const content: seq<T>
    var offset: nat

    constructor (content: seq<T>)
      ensures this.content == content && offset == 0
    {
      this.content := content;
      offset := 0;
    }

    method Reset()
      modifies this
      ensures offset == 0
    {
      offset := 0;
    }

    method Read(p: array<T>) returns (n: nat, eof: bool)
      requires offset <= |content|
      modifies this, p
      ensures offset == old(offset) + n <= |content| && n <= p.Length
      ensures p[..n] == content[old(offset)..offset]
      ensures n == 0 && p.Length > 0 ==> eof
      ensures eof ==> offset == |content|
    {
      var left := |content| - offset;
      var most := if p.Length < left then p.Length else left;
      n :| 0 <= n <= most && (most > 0 ==> n > 0);
      forall i | 0 <= i < n {
        p[i] := content[offset + i];
      }
      offset := offset + n;
      eof := offset == |content|;
    }

    /** io.CopyN into nothing: skips `n` bytes, or all there are and reports the end. */
    method Discard(n: nat) returns (eof: bool)
      requires offset <= |content|
      modifies this
      ensures eof <==> old(offset) + n > |content|
      ensures offset == if eof then |content| else old(offset) + n
    {
      eof := offset + n > |content|;
      offset := if eof then |content| else offset + n;
    }
  }

  class CompressedFile<T> {
    const gr: GzipReader<T>
    const uncompressedSize: nat
    var grPos: int
    var seekPos: int

    ghost predicate Valid()
      reads this, gr
    {
      uncompressedSize == |gr.content| && gr.offset <= |gr.content|
    }

    ghost function State(): File
      reads this, gr
    {
      File(gr.offset, grPos, seekPos)
    }

    constructor (content: seq<T>)
      ensures Valid() && State() == OPENED && gr.content == content && fresh(gr)
    {
      gr := new GzipReader(content);
      uncompressedSize := |content|;
      grPos := 0;
      seekPos := 0;
    }

    /** Every read, in range or not, in step or not: what it delivers and where the offsets stand afterwards. */
    method Read(p: array<T>) returns (n: nat, eof: bool)
      requires Valid()
      modifies this, gr, p
      ensures Valid()
      ensures match Align(|gr.content|, old(State()))
              case PastEnd(f) => n == 0 && eof && State() == f
              case At(f) => State() == ReadN(f, n) && f.gz + n <= |gr.content| && n <= p.Length
                            && p[..n] == gr.content[f.gz..f.gz + n]
                            && (n == 0 && p.Length > 0 ==> eof) && (eof ==> f.gz + n == |gr.content|)
    {
      if grPos > seekPos {
        gr.Reset();
        grPos := 0;
      }
      if grPos < seekPos {
        var err := gr.Discard(seekPos - grPos);
        if err {
          return 0, true;
        }
        grPos := seekPos;
      }
      n, eof := gr.Read(p);
      grPos := grPos + n;
      seekPos := grPos;
    }

    method Seek(offset: int, whence: Whence) returns (pos: int)
      requires Valid()
      modifies this
      ensures Valid() && pos == seekPos
      ensures State() == SeekTo(|gr.content|, old(State()), offset, whence)
      ensures seekPos == Position(|gr.content|, old(seekPos), Op.Seek(offset, whence))
    {
      match whence {
        case SeekStart => seekPos := 0 + offset;
        case SeekCurrent => seekPos := seekPos + offset;
        case SeekEnd => seekPos := uncompressedSize + offset;
      }
      return seekPos;
    }
  }
}
