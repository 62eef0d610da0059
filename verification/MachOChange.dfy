/** mach_o_change: the in-place rewriter, call by call as the Python code makes them. */
module MachOChange {
  import opened Bytes
  import opened FileViews
  import opened MachOFormat

  // ---------------------------------------------------------------- the rewriter as a function

  /** Where a call leaves the file's contents, and the view it used or the exception it let through. */
  datatype Step = Next(content: seq<byte>, view: View) | Stop(content: seq<byte>, error: Error)

  function UnpackAll(bs: seq<byte>, endian: Endian, num: nat): seq<nat>
    requires |bs| == 4 * num
  {
    seq(num, i requires 0 <= i < num => Unpack(bs[4 * i..4 * i + 4], endian))
  }

  /** read_data: num words, or the exception. */
  function ReadDataSpec(v: View, c: seq<byte>, endian: Endian, num: nat): (r: Result<(View, seq<nat>)>)
    ensures r.Ok? ==> |r.value.1| == num
  {
    match ReadView(v, c, 4 * num)
    case Raised(e) => Raised(e)
    case Ok((v', bs)) => if |bs| != 4 * num then Raised(StructError) else Ok((v', UnpackAll(bs, endian, num)))
  }

  /** The name field of the command that starts at `where`: read, compare, and overwrite if it is `what`. */
  function NameSpec(v: View, c: seq<byte>, where: nat, size: nat, endian: Endian, what: seq<byte>, value: seq<byte>): Step {
    match ReadDataSpec(v, c, endian, 1)
    case Raised(e) => Stop(c, e)
    case Ok((v1, ws)) => (
      match SeekView(v1, where + ws[0], Set)
      case Raised(e) => Stop(c, e)
      case Ok(v2) => (
        match ReadView(v2, c, size - ws[0])
        case Raised(e) => Stop(c, e)
        case Ok((v3, load)) =>
          if !Ascii(load) then Stop(c, DecodeError)
          else if 0 !in load then Stop(c, NoNulError)
          else if UpToNul(load) != what then Next(c, v3)
          else (
            match SeekView(v3, where + ws[0], Set)
            case Raised(e) => Stop(c, e)
            case Ok(v4) =>
              if !Ascii(value) then Stop(c, EncodeError)
              else (
                match WriteView(v4, c, value + [0])
                case Raised(e) => Stop(c, e)
                case Ok((v5, c')) => Next(c', v5)))))
  }

  /** One turn of the loop over load commands. */
  function CommandSpec(v: View, c: seq<byte>, endian: Endian, what: seq<byte>, value: seq<byte>): Step {
    match ReadDataSpec(v, c, endian, 2)
    case Raised(e) => Stop(c, e)
    case Ok((v1, ws)) =>
      var named := if ws[0] == LC_LOAD_DYLIB then NameSpec(v1, c, v.pos, ws[1], endian, what, value) else Next(c, v1);
      if named.Stop? then named
      else (
        match SeekView(named.view, v.pos + ws[1], Set)
        case Raised(e) => Stop(named.content, e)
        case Ok(v2) => Next(named.content, v2))
  }

  function CommandsSpec(v: View, c: seq<byte>, endian: Endian, n: nat, what: seq<byte>, value: seq<byte>): Step
    decreases n
  {
    if n == 0 then Next(c, v)
    else
      var step := CommandSpec(v, c, endian, what, value);
      if step.Stop? then step
      else CommandsSpec(step.view, step.content, endian, n - 1, what, value)
  }

  function MachoSpec(v: View, c: seq<byte>, bits: nat, endian: Endian, what: seq<byte>, value: seq<byte>): Step {
    match ReadDataSpec(v, c, endian, 6)
    case Raised(e) => Stop(c, e)
    case Ok((v1, ws)) =>
      if bits == 64 then (
        match ReadDataSpec(v1, c, endian, 1)
        case Raised(e) => Stop(c, e)
        case Ok((v2, _)) => CommandsSpec(v2, c, endian, ws[3], what, value))
      else CommandsSpec(v1, c, endian, ws[3], what, value)
  }

  /** do_file; `frames` is how many nested calls the interpreter's recursion limit still allows. */
  function FileSpec(c: seq<byte>, offset: nat, size: nat, frames: nat, what: seq<byte>, value: seq<byte>): Step
    decreases frames, 1, 0
  {
    if frames == 0 then Stop(c, RecursionError)
    else (
      match ReadDataSpec(View(offset, offset + size, 0), c, Big, 1)
      case Raised(e) => Stop(c, e)
      case Ok((v, ws)) =>
        if ws[0] == FAT_MAGIC then (
          match ReadDataSpec(v, c, Big, 1)
          case Raised(e) => Stop(c, e)
          case Ok((v1, ns)) => SlicesSpec(v1, c, ns[0], frames, what, value))
        else if ThinKind(ws[0]).Some? then
          MachoSpec(v, c, ThinKind(ws[0]).value.0, ThinKind(ws[0]).value.1, what, value)
        else Next(c, v))
  }

  /** The loop over the entries of a fat file. */
  function SlicesSpec(v: View, c: seq<byte>, n: nat, frames: nat, what: seq<byte>, value: seq<byte>): Step
    requires frames > 0
    decreases frames, 0, n
  {
    if n == 0 then Next(c, v)
    else (
      match ReadDataSpec(v, c, Big, 5)
      case Raised(e) => Stop(c, e)
      case Ok((v1, ws)) =>
        var step := FileSpec(c, ws[2], ws[3], frames - 1, what, value);
        if step.Stop? then step
        else SlicesSpec(v1, step.content, n - 1, frames, what, value))
  }

  /** mach_o_change on an open file: its new contents, and the exception if one gets out. */
  function ChangeSpec(c: seq<byte>, frames: nat, what: seq<byte>, value: seq<byte>): (seq<byte>, Option<Error>) {
    if |what| < |value| then (c, Some(AssertionError))
    else (
      match FileSpec(c, 0, MAXINT, frames, what, value)
      case Next(c', _) => (c', None)
      case Stop(c', e) => (c', Some(e)))
  }

  // ---------------------------------------------------------------- the methods

  method ReadData(file: FileView, endian: Endian, num: nat := 1) returns (r: Result<seq<nat>>)
    modifies file, file.fileobj
    ensures file.fileobj.content == old(file.fileobj.content)
    ensures match ReadDataSpec(old(file.Value()), file.fileobj.content, endian, num)
            case Ok((v, ws)) => r == Ok(ws) && file.Value() == v
            case Raised(e) => r == Raised(e)
  {
    var got := file.Read(num * 4);
    if got.Raised? { return Raised(got.error); }
    if |got.value| != 4 * num { return Raised(StructError); }
    r := Ok(UnpackAll(got.value, endian, num));
  }

  method ChangeName(file: FileView, where: nat, size: nat, endian: Endian, what: seq<byte>, value: seq<byte>)
    returns (error: Option<Error>)
    modifies file, file.fileobj
    ensures match NameSpec(old(file.Value()), old(file.fileobj.content), where, size, endian, what, value)
            case Next(c, v) => error == None && file.fileobj.content == c && file.Value() == v
            case Stop(c, e) => error == Some(e) && file.fileobj.content == c
  {
    hide SeekView, ReadView, WriteView, Ascii, UpToNul;
    var words := ReadData(file, endian);
    if words.Raised? { return Some(words.error); }
    var nameOffset := words.value[0];
    error := file.Seek(where + nameOffset, Set);
    if error.Some? { return; }
    var load := file.Read(size - nameOffset);
    if load.Raised? { return Some(load.error); }
    if !Ascii(load.value) { return Some(DecodeError); }
    if 0 !in load.value { return Some(NoNulError); }
    if UpToNul(load.value) == what {
      error := file.Seek(where + nameOffset, Set);
      if error.Some? { return; }
      if !Ascii(value) { return Some(EncodeError); }
      error := file.Write(value + [0]);
    }
  }

  method ChangeCommand(file: FileView, endian: Endian, what: seq<byte>, value: seq<byte>) returns (error: Option<Error>)
    modifies file, file.fileobj
    ensures match CommandSpec(old(file.Value()), old(file.fileobj.content), endian, what, value)
            case Next(c, v) => error == None && file.fileobj.content == c && file.Value() == v
            case Stop(c, e) => error == Some(e) && file.fileobj.content == c
  {
    var where := file.Tell();
    var words := ReadData(file, endian, 2);
    if words.Raised? { return Some(words.error); }
    var cmd, cmdsize := words.value[0], words.value[1];
    if cmd == LC_LOAD_DYLIB {
      error := ChangeName(file, where, cmdsize, endian, what, value);
      if error.Some? { return; }
    }
    error := file.Seek(where + cmdsize, Set);
  }

  method DoMacho(file: FileView, bits: nat, endian: Endian, what: seq<byte>, value: seq<byte>) returns (error: Option<Error>)
    modifies file, file.fileobj
    ensures match MachoSpec(old(file.Value()), old(file.fileobj.content), bits, endian, what, value)
            case Next(c, v) => error == None && file.fileobj.content == c && file.Value() == v
            case Stop(c, e) => error == Some(e) && file.fileobj.content == c
  {
    hide ReadDataSpec, CommandSpec;
    var header := ReadData(file, endian, 6);
    if header.Raised? { return Some(header.error); }
    var ncmds := header.value[3];
    if bits == 64 {
      var reserved := ReadData(file, endian);
      if reserved.Raised? { return Some(reserved.error); }
    }
    ghost var goal := CommandsSpec(file.Value(), file.fileobj.content, endian, ncmds, what, value);
    for n := 0 to ncmds
      invariant CommandsSpec(file.Value(), file.fileobj.content, endian, ncmds - n, what, value) == goal
    {
      error := ChangeCommand(file, endian, what, value);
      if error.Some? { return; }
    }
    error := None;
  }

  method DoFile(fileobj: RawFile, offset: nat, size: nat, frames: nat, what: seq<byte>, value: seq<byte>)
    returns (error: Option<Error>)
    modifies fileobj
    ensures match FileSpec(old(fileobj.content), offset, size, frames, what, value)
            case Next(c, _) => error == None && fileobj.content == c
            case Stop(c, e) => error == Some(e) && fileobj.content == c
    decreases frames
  {
    hide ReadView, MachoSpec;
    if frames == 0 { return Some(RecursionError); }
    var file := new FileView(fileobj, offset, size);
    var words := ReadData(file, Big);
    if words.Raised? { return Some(words.error); }
    var magic := words.value[0];
    if magic == FAT_MAGIC {
      var count := ReadData(file, Big);
      if count.Raised? { return Some(count.error); }
      var nfatArch := count.value[0];
      ghost var goal := SlicesSpec(file.Value(), fileobj.content, nfatArch, frames, what, value);
      for n := 0 to nfatArch
        invariant file.fileobj == fileobj
        invariant SlicesSpec(file.Value(), fileobj.content, nfatArch - n, frames, what, value) == goal
      {
        var entry := ReadData(file, Big, 5);
        if entry.Raised? { return Some(entry.error); }
        error := DoFile(file.fileobj, entry.value[2], entry.value[3], frames - 1, what, value);
        if error.Some? { return; }
      }
      return None;
    } else if magic == MH_MAGIC {
      error := DoMacho(file, 32, Big, what, value);
    } else if magic == MH_CIGAM {
      error := DoMacho(file, 32, Little, what, value);
    } else if magic == MH_MAGIC_64 {
      error := DoMacho(file, 64, Big, what, value);
    } else if magic == MH_CIGAM_64 {
      error := DoMacho(file, 64, Little, what, value);
    } else {
      error := None;
    }
  }

  method Change(file: RawFile, frames: nat, what: seq<byte>, value: seq<byte>) returns (error: Option<Error>)
    modifies file
    ensures (file.content, error) == ChangeSpec(old(file.content), frames, what, value)
  {
    if !(|what| >= |value|) { return Some(AssertionError); }
    error := DoFile(file, 0, MAXINT, frames, what, value);
  }
}
