/**
 * The windowed file proxy of virtualenv.py: a Python file object and the `fileview` class on top of it.
 * Python exceptions are `Raised` results; `View` is the value a FileView object holds.
 */
module FileViews {
  import opened Bytes

  datatype Error =
    | WindowError      // IOError: offset outside the view's window
    | WhenceError      // IOError: invalid whence argument
    | StructError      // struct.unpack got too few bytes
    | AssertionError
    | DecodeError      // a name is not ASCII
    | EncodeError      // the replacement is not ASCII
    | NoNulError       // ValueError of str.index('\0')
    | RecursionError

  datatype Result<+T> = Ok(value: T) | Raised(error: Error)

  /** sys.maxsize of a 64-bit interpreter. */
  const MAXINT: nat := 0x7FFF_FFFF_FFFF_FFFF

  // ---------------------------------------------------------------- the underlying file

  /** What file.read(size) returns at position p: up to `size` bytes, fewer at the end of the file. */
  function ReadAt(c: seq<byte>, p: nat, size: nat): (bs: seq<byte>)
    ensures |bs| <= size
  {
    if p >= |c| then [] else if p + size <= |c| then c[p..p + size] else c[p..]
  }

  /** What file.write(bs) makes of the contents at position p; a gap past the old end is zero-filled. */
  function WriteAt(c: seq<byte>, p: nat, bs: seq<byte>): seq<byte> {
    if bs == [] then c
    else if p > |c| then c + Zeros(p - |c|) + bs
    else if p + |bs| <= |c| then c[..p] + bs + c[p + |bs|..]
    else c[..p] + bs
  }

  lemma WriteAtEffect(c: seq<byte>, p: nat, bs: seq<byte>)
    ensures var r := WriteAt(c, p, bs);
      && |r| == (if bs == [] || p + |bs| <= |c| then |c| else p + |bs|)
      && (bs != [] ==> r[p..p + |bs|] == bs)
      && (forall i :: 0 <= i < |c| && !(p <= i < p + |bs|) ==> r[i] == c[i])
      && (forall i :: |c| <= i < |r| && i < p ==> r[i] == 0)
  {
  }

  class RawFile {
    var content: seq<byte>
    var pos: nat

    constructor (c: seq<byte>)
      ensures content == c && pos == 0
    {
      content, pos := c, 0;
    }

    method Seek(p: nat)
      modifies this
      ensures content == old(content) && pos == p
    {
      pos := p;
    }

    method Read(size: nat) returns (bs: seq<byte>)
      modifies this
      ensures content == old(content)
      ensures bs == ReadAt(content, old(pos), size) && pos == old(pos) + |bs|
    {
      bs := ReadAt(content, pos, size);
      pos := pos + |bs|;
    }

    method Write(bs: seq<byte>)
      modifies this
      ensures content == WriteAt(old(content), old(pos), bs) && pos == old(pos) + |bs|
    {
      content := WriteAt(content, pos, bs);
      pos := pos + |bs|;
    }
  }

  // ---------------------------------------------------------------- views as values

  datatype Whence = Set | Cur | End | Other

  /** A window [start, end] of the underlying file and the position inside it. */
  datatype View = View(start: nat, end: nat, pos: nat) {
    ghost predicate Valid() {
      start + pos <= end
    }
  }

  function InWindow(v: View, at: int): bool {
    v.start <= at <= v.end
  }

  function SeekTarget(v: View, offset: int, whence: Whence): Option<int> {
    match whence
    case Set => Some(offset + v.start)
    case Cur => Some(offset + v.start + v.pos)
    case End => Some(offset + v.end)
    case Other => None
  }

  function SeekView(v: View, offset: int, whence: Whence): Result<View> {
    var target := SeekTarget(v, offset, whence);
    if target.None? then Raised(WhenceError)
    else if !InWindow(v, target.value) then Raised(WindowError)
    else Ok(v.(pos := target.value - v.start))
  }

  function WriteView(v: View, c: seq<byte>, bs: seq<byte>): Result<(View, seq<byte>)> {
    var here := v.start + v.pos;
    if !InWindow(v, here) || !InWindow(v, here + |bs|) then Raised(WindowError)
    else Ok((v.(pos := v.pos + |bs|), WriteAt(c, here, bs)))
  }

  function ReadView(v: View, c: seq<byte>, size: int): Result<(View, seq<byte>)> {
    var here := v.start + v.pos;
    if size < 0 then Raised(AssertionError)
    else if !InWindow(v, here) then Raised(WindowError)
    else
      var bs := ReadAt(c, here, if size < v.end - here then size else v.end - here);
      Ok((v.(pos := v.pos + |bs|), bs))
  }

  /** Where a seek lands: counted from the window's start, the view's position, or the window's end, or it raises. */
  lemma SeekLands(v: View, offset: int)
    ensures SeekView(v, offset, Set)
            == if 0 <= offset && v.start + offset <= v.end then Ok(View(v.start, v.end, offset)) else Raised(WindowError)
    ensures SeekView(v, offset, Cur)
            == if 0 <= v.pos + offset && v.start + v.pos + offset <= v.end then Ok(View(v.start, v.end, v.pos + offset))
               else Raised(WindowError)
    ensures v.Valid() ==>
      SeekView(v, offset, End)
      == if v.start <= v.end + offset <= v.end then Ok(View(v.start, v.end, v.end + offset - v.start)) else Raised(WindowError)
    ensures SeekView(v, offset, Other) == Raised(WhenceError)
  {
  }

  /** A read in the window gives all bytes asked for, up to the window's and the file's end. */
  lemma ReadsAll(v: View, c: seq<byte>, size: nat)
    requires v.Valid()
    ensures ReadView(v, c, size).Ok?
    ensures var (v', bs) := ReadView(v, c, size).value;
            var here := v.start + v.pos;
            && v' == View(v.start, v.end, v.pos + |bs|)
            && (|bs| == size || here + |bs| == v.end || here + |bs| >= |c|)
            && (forall i :: 0 <= i < |bs| ==> here + i < |c| && bs[i] == c[here + i])
  {
  }

  // ---------------------------------------------------------------- the class

  class FileView {
    const fileobj: RawFile
    const start: nat
    const end: nat
    var pos: nat

    function Value(): View
      reads this
    {
      View(start, end, pos)
    }

    ghost predicate Valid()
      reads this
    {
      Value().Valid()
    }

    constructor (fileobj: RawFile, start: nat := 0, size: nat := MAXINT)
      ensures this.fileobj == fileobj && Value() == View(start, start + size, 0)
    {
      this.fileobj := fileobj;
      this.start, this.end, this.pos := start, start + size, 0;
    }

    /** A view given another view unwraps it: `start` counts from the start of the file, not of the outer window. */
    constructor Nested(outer: FileView, start: nat := 0, size: nat := MAXINT)
      ensures this.fileobj == outer.fileobj && Value() == View(start, start + size, 0)
    {
      this.fileobj := outer.fileobj;
      this.start, this.end, this.pos := start, start + size, 0;
    }

    method Tell() returns (p: nat)
      ensures p == pos
    {
      p := pos;
    }

    method CheckWindow(seekto: int) returns (error: Option<Error>)
      ensures error == if InWindow(Value(), seekto) then None else Some(WindowError)
    {
      error := if !(start <= seekto <= end) then Some(WindowError) else None;
    }

    method Seek(offset: int, whence: Whence := Set) returns (error: Option<Error>)
      modifies this, fileobj
      ensures fileobj.content == old(fileobj.content)
      ensures match SeekView(old(Value()), offset, whence)
              case Ok(v) => error == None && Value() == v && fileobj.pos == start + pos
              case Raised(e) => error == Some(e) && Value() == old(Value())
    {
      var seekto := offset;
      match whence {
        case Set => seekto := seekto + start;
        case Cur => seekto := seekto + start + pos;
        case End => seekto := seekto + end;
        case Other => return Some(WhenceError);
      }
      error := CheckWindow(seekto);
      if error.Some? { return; }
      fileobj.Seek(seekto);
      pos := seekto - start;
    }

    method Write(bs: seq<byte>) returns (error: Option<Error>)
      modifies this, fileobj
      ensures match WriteView(old(Value()), old(fileobj.content), bs)
              case Ok((v, c)) => error == None && Value() == v && fileobj.content == c && fileobj.pos == start + pos
              case Raised(e) => error == Some(e) && Value() == old(Value()) && fileobj.content == old(fileobj.content)
    {
      var here := start + pos;
      error := CheckWindow(here);
      if error.Some? { return; }
      error := CheckWindow(here + |bs|);
      if error.Some? { return; }
      fileobj.Seek(here);
      fileobj.Write(bs);
      pos := pos + |bs|;
    }

    method Read(size: int := MAXINT) returns (r: Result<seq<byte>>)
      modifies this, fileobj
      ensures fileobj.content == old(fileobj.content)
      ensures match ReadView(old(Value()), fileobj.content, size)
              case Ok((v, bs)) => r == Ok(bs) && Value() == v && fileobj.pos == start + pos
              case Raised(e) => r == Raised(e) && Value() == old(Value())
    {
      if size < 0 { return Raised(AssertionError); }
      var here := start + pos;
      var error := CheckWindow(here);
      if error.Some? { return Raised(error.value); }
      var limited := if size < end - here then size else end - here;
      fileobj.Seek(here);
      var bs := fileobj.Read(limited);
      pos := pos + |bs|;
      r := Ok(bs);
    }
  }

  // ---------------------------------------------------------------- whole runs of operations

  datatype Op = SeekOp(offset: int, whence: Whence) | WriteOp(bytes: seq<byte>) | ReadOp(size: int)

  /** One call on a view; a call that raises leaves view and file as they were. The last component is what was read. */
  function Apply(op: Op, v: View, c: seq<byte>): (View, seq<byte>, seq<byte>) {
    match op
    case SeekOp(offset, whence) => (
      match SeekView(v, offset, whence)
      case Ok(v') => (v', c, [])
      case Raised(_) => (v, c, []))
    case WriteOp(bs) => (
      match WriteView(v, c, bs)
      case Ok((v', c')) => (v', c', [])
      case Raised(_) => (v, c, []))
    case ReadOp(size) => (
      match ReadView(v, c, size)
      case Ok((v', bs)) => (v', c, bs)
      case Raised(_) => (v, c, []))
  }

  function Run(ops: seq<Op>, v: View, c: seq<byte>): (View, seq<byte>) {
    if ops == [] then (v, c)
    else
      var (v', c', _) := Apply(ops[0], v, c);
      Run(ops[1..], v', c')
  }

  /** Old bytes outside the window are never changed, and bytes the file gains before the window are zero filler. */
  ghost predicate Confined(v: View, before: seq<byte>, after: seq<byte>) {
    && |before| <= |after|
    && (forall i :: 0 <= i < |before| && !(v.start <= i < v.end) ==> after[i] == before[i])
    && (forall i :: |before| <= i < |after| && i < v.start ==> after[i] == 0)
    && (|after| > |before| ==> |after| <= v.end)
  }

  /** One operation: the position stays in the window, writes stay in it, and what is read lies in it. */
  lemma StepConfined(op: Op, v: View, c: seq<byte>)
    requires v.Valid()
    ensures var (v', c', bs) := Apply(op, v, c);
            && v'.Valid() && v'.start == v.start && v'.end == v.end
            && Confined(v, c, c')
            && (bs != [] ==> v.start + v'.pos <= |c| && v'.start + v'.pos <= v.end
                             && bs == c[v.start + v.pos..v.start + v'.pos])
  {
    if op.WriteOp? {
      WriteAtEffect(c, v.start + v.pos, op.bytes);
    }
  }

  /** Any run of seeks, reads and writes on a view, whatever the file holds, is confined to its window. */
  lemma {:induction false} RunConfined(ops: seq<Op>, v: View, c: seq<byte>)
    requires v.Valid()
    ensures Run(ops, v, c).0.Valid()
    ensures Run(ops, v, c).0.start == v.start && Run(ops, v, c).0.end == v.end
    ensures Confined(v, c, Run(ops, v, c).1)
  {
    if ops != [] {
      var (v', c', _) := Apply(ops[0], v, c);
      StepConfined(ops[0], v, c);
      RunConfined(ops[1..], v', c');
    }
  }
}
