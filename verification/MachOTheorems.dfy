/**
 * Parsing commutes with the in-place rewrite: on every well-formed file mach_o_change succeeds, keeps the length,
 * and leaves a file that parses to the same structure with exactly the matching names replaced; running it again
 * changes no byte.
 */
module MachOTheorems {
  import opened Bytes
  import opened FileViews
  import opened MachOFormat
  import opened MachOChange

  /** What mach_o_change requires of its arguments. */
  ghost predicate Usable(what: seq<byte>, value: seq<byte>) {
    |value| <= |what| && Ascii(value)
  }

  // ---------------------------------------------------------------- frames

  /** c' differs from c at most inside [lo, hi). */
  ghost predicate OnlyInside(c: seq<byte>, c': seq<byte>, lo: nat, hi: nat) {
    |c'| == |c| && forall i :: 0 <= i < |c| && !(lo <= i < hi) ==> c'[i] == c[i]
  }

  ghost predicate SameOn(c: seq<byte>, c': seq<byte>, lo: nat, hi: nat) {
    hi <= |c| && |c'| == |c| && forall i :: lo <= i < hi ==> c'[i] == c[i]
  }

  lemma SameSlice(c: seq<byte>, c': seq<byte>, lo: nat, hi: nat, a: nat, b: nat)
    requires SameOn(c, c', lo, hi) && lo <= a <= b <= hi
    ensures c'[a..b] == c[a..b]
  {
  }

  /** A command is parsed from its own bytes alone. */
  lemma CommandFrame(c: seq<byte>, c': seq<byte>, p: nat, hi: nat, hi': nat, endian: Endian)
    requires hi <= |c| && CommandOk(c, p, hi, endian)
    requires p + Word(c, p + 4, endian) <= hi' <= |c|
    requires SameOn(c, c', p, p + Word(c, p + 4, endian))
    ensures CommandOk(c', p, hi', endian) && ParseCommand(c', p, hi', endian) == ParseCommand(c, p, hi, endian)
    ensures Word(c', p + 4, endian) == Word(c, p + 4, endian)
  {
    hide Unpack, SameOn, DylibOk, NameAt;
    var size := Word(c, p + 4, endian);
    assert |c'| == |c| by { SameLength(c, c', p, p + size); }
    SameSlice(c, c', p, p + size, p, p + 4);
    SameSlice(c, c', p, p + size, p + 4, p + 8);
    if Word(c, p, endian) == LC_LOAD_DYLIB {
      DylibFrame(c, c', p, size, endian);
    }
  }

  lemma SameLength(c: seq<byte>, c': seq<byte>, lo: nat, hi: nat)
    requires SameOn(c, c', lo, hi)
    ensures |c'| == |c|
  {
  }

  lemma DylibFrame(c: seq<byte>, c': seq<byte>, p: nat, size: nat, endian: Endian)
    requires p + size <= |c| && DylibOk(c, p, size, endian) && SameOn(c, c', p, p + size)
    ensures DylibOk(c', p, size, endian) && NameAt(c', p, size, endian) == NameAt(c, p, size, endian)
  {
    hide Unpack, UpToNul, IsText;
    SameSlice(c, c', p, p + size, p + 8, p + 12);
    SameSlice(c, c', p, p + size, p + Word(c, p + 8, endian), p + size);
  }

  lemma {:induction false} CommandsFrame(c: seq<byte>, c': seq<byte>, p: nat, hi: nat, endian: Endian, n: nat)
    requires hi <= |c| && CommandsOk(c, p, hi, endian, n) && SameOn(c, c', p, hi)
    ensures CommandsOk(c', p, hi, endian, n)
    ensures ParseCommands(c', p, hi, endian, n) == ParseCommands(c, p, hi, endian, n)
    decreases n
  {
    if n > 0 {
      var size := Word(c, p + 4, endian);
      CommandFrame(c, c', p, hi, hi, endian);
      CommandsFrame(c, c', p + size, hi, endian, n - 1);
    }
  }

  lemma ImageFrame(c: seq<byte>, c': seq<byte>, lo: nat, hi: nat)
    requires hi <= |c| && ImageOk(c, lo, hi) && SameOn(c, c', lo, hi)
    ensures ImageOk(c', lo, hi) && ParseImage(c', lo, hi) == ParseImage(c, lo, hi)
  {
    SameSlice(c, c', lo, hi, lo, lo + 4);
    var magic := Word(c, lo, Big);
    if ThinKind(magic).Some? {
      var (bits, endian) := ThinKind(magic).value;
      var first := lo + HeaderSize(bits);
      SameSlice(c, c', lo, hi, lo + 16, lo + 20);
      SameSlice(c, c', lo, hi, lo, first);
      CommandsFrame(c, c', first, hi, endian, Word(c, lo + 16, endian));
    }
  }

  // ---------------------------------------------------------------- one command

  function RewriteCommand(c: seq<byte>, p: nat, hi: nat, endian: Endian, what: seq<byte>, value: seq<byte>): seq<byte>
    requires hi <= |c| && CommandOk(c, p, hi, endian)
  {
    if ParseCommand(c, p, hi, endian).name == Some(what) then WriteAt(c, p + Word(c, p + 8, endian), value + [0]) else c
  }

  /** Prefixing a region by value and a NUL makes its string value, up to value's own first NUL. */
  lemma {:induction false} UpToNulPrefix(value: seq<byte>, rest: seq<byte>)
    ensures UpToNul(value + [0] + rest) == UpToNul(value)
  {
    if value != [] && value[0] != 0 {
      assert (value + [0] + rest)[1..] == value[1..] + [0] + rest;
      UpToNulPrefix(value[1..], rest);
    }
  }

  /** A region overwritten at its start by value and a NUL holds the string value. */
  lemma NewName(region: seq<byte>, region': seq<byte>, value: seq<byte>)
    requires |value| < |region| == |region'| && IsText(region) && Ascii(value)
    requires region'[..|value| + 1] == value + [0] && region'[|value| + 1..] == region[|value| + 1..]
    ensures IsText(region') && UpToNul(region') == UpToNul(value)
  {
    var rest := region[|value| + 1..];
    assert region' == value + [0] + rest;
    UpToNulPrefix(value, rest);
    assert region'[|value|] == 0;
  }

  lemma OutsideSlice(c: seq<byte>, c': seq<byte>, lo: nat, hi: nat, a: nat, b: nat)
    requires OnlyInside(c, c', lo, hi) && a <= b <= |c| && (b <= lo || hi <= a)
    ensures |c'| == |c| && c'[a..b] == c[a..b]
  {
  }

  lemma RegionRewritten(c: seq<byte>, c': seq<byte>, at: nat, end: nat, value: seq<byte>)
    requires at + |value| + 1 <= end <= |c| == |c'| && IsText(c[at..end]) && Ascii(value)
    requires OnlyInside(c, c', at, at + |value| + 1) && c'[at..at + |value| + 1] == value + [0]
    ensures IsText(c'[at..end]) && UpToNul(c'[at..end]) == UpToNul(value)
  {
    hide Ascii, UpToNul, OnlyInside, IsText;
    var k := |value| + 1;
    SliceOfSlice(c', at, end, 0, k);
    SliceOfSlice(c', at, end, k, end - at);
    SliceOfSlice(c, at, end, k, end - at);
    OutsideSlice(c, c', at, at + k, at + k, end);
    NewName(c[at..end], c'[at..end], value);
  }

  lemma DylibRewritten(c: seq<byte>, c': seq<byte>, p: nat, size: nat, at: nat, endian: Endian, value: seq<byte>)
    requires p + size <= |c| == |c'| && DylibOk(c, p, size, endian) && Ascii(value)
    requires at == p + Word(c, p + 8, endian) && at + |value| + 1 <= p + size
    requires OnlyInside(c, c', at, at + |value| + 1) && c'[at..at + |value| + 1] == value + [0]
    ensures DylibOk(c', p, size, endian) && NameAt(c', p, size, endian) == UpToNul(value)
  {
    hide Unpack, Ascii, UpToNul, OnlyInside, IsText;
    OutsideSlice(c, c', at, at + |value| + 1, p + 8, p + 12);
    RegionRewritten(c, c', at, p + size, value);
  }

  /** The name and its NUL lie in the command, behind its three words. */
  lemma NameLies(c: seq<byte>, p: nat, size: nat, endian: Endian)
    requires p + size <= |c| && DylibOk(c, p, size, endian)
    ensures 12 <= size && 12 <= Word(c, p + 8, endian) && Word(c, p + 8, endian) + |NameAt(c, p, size, endian)| + 1 <= size
  {
    hide Unpack, UpToNul, Ascii;
    UpToNulShorter(c[p + Word(c, p + 8, endian)..p + size]);
  }

  /** The overwritten name lies in its command, so the command still parses, with the new name. */
  lemma RewriteCommandEffect(c: seq<byte>, p: nat, hi: nat, endian: Endian, what: seq<byte>, value: seq<byte>)
    requires hi <= |c| && CommandOk(c, p, hi, endian) && Usable(what, value)
    ensures var c' := RewriteCommand(c, p, hi, endian, what, value);
            && OnlyInside(c, c', p, p + Word(c, p + 4, endian))
            && CommandOk(c', p, hi, endian)
            && ParseCommand(c', p, hi, endian) == RenameCommand(ParseCommand(c, p, hi, endian), what, value)
  {
    hide Unpack, WriteAt, UpToNul, Ascii, DylibOk, NameAt;
    if ParseCommand(c, p, hi, endian).name == Some(what) {
      var size := Word(c, p + 4, endian);
      NameLies(c, p, size, endian);
      var at := p + Word(c, p + 8, endian);
      var c' := WriteAt(c, at, value + [0]);
      WriteAtEffect(c, at, value + [0]);
      SameSlice(c, c', p, at, p, p + 4);
      SameSlice(c, c', p, at, p + 4, p + 8);
      DylibRewritten(c, c', p, size, at, endian, value);
    }
  }

  /** One turn of the loop does exactly that and moves on to the next command. */
  lemma CommandStep(v: View, c: seq<byte>, hi: nat, endian: Endian, what: seq<byte>, value: seq<byte>)
    requires hi <= |c| && hi <= v.end && Usable(what, value)
    requires CommandOk(c, v.start + v.pos, hi, endian)
    ensures var p := v.start + v.pos;
            CommandSpec(v, c, endian, what, value)
            == Next(RewriteCommand(c, p, hi, endian, what, value), v.(pos := v.pos + Word(c, p + 4, endian)))
  {
    hide Unpack, NameSpec, WriteAt, NameAt, DylibOk, ReadDataSpec;
    var p := v.start + v.pos;
    ReadsWords(v, c, endian, 2);
    if Word(c, p, endian) == LC_LOAD_DYLIB {
      NameStep(v.(pos := v.pos + 8), c, p, Word(c, p + 4, endian), endian, what, value);
    }
  }

  lemma NameStep(v: View, c: seq<byte>, p: nat, size: nat, endian: Endian, what: seq<byte>, value: seq<byte>)
    requires p + size <= |c| && p + size <= v.end && v.start <= p && v.start + v.pos == p + 8
    requires DylibOk(c, p, size, endian) && Usable(what, value)
    ensures var step := NameSpec(v, c, p - v.start, size, endian, what, value);
            && step.Next? && step.view.start == v.start && step.view.end == v.end
            && step.content == if NameAt(c, p, size, endian) == what then WriteAt(c, p + Word(c, p + 8, endian), value + [0]) else c
  {
    hide Unpack, UpToNul, WriteAt, Ascii, ReadView, ReadDataSpec, SeekView, WriteView;
    var offset, where := Word(c, p + 8, endian), p - v.start;
    NameLies(c, p, size, endian);
    ReadsWord(v, c, endian);
    var v1, v2, v3 := v.(pos := v.pos + 4), v.(pos := where + offset), v.(pos := where + size);
    SeeksSet(v1, where + offset);
    ReadsSlice(v2, c, size - offset);
    SeeksSet(v3, where + offset);
    if NameAt(c, p, size, endian) == what {
      WritesInside(v2, c, value + [0]);
    }
  }

  lemma SeeksSet(v: View, to: nat)
    requires v.start + to <= v.end
    ensures SeekView(v, to, Set) == Ok(v.(pos := to))
  {
  }

  lemma WritesInside(v: View, c: seq<byte>, bs: seq<byte>)
    requires v.start + v.pos + |bs| <= v.end
    ensures WriteView(v, c, bs) == Ok((v.(pos := v.pos + |bs|), WriteAt(c, v.start + v.pos, bs)))
  {
  }

  lemma ReadsWord(v: View, c: seq<byte>, endian: Endian)
    requires v.start + v.pos + 4 <= |c| && v.start + v.pos + 4 <= v.end
    ensures ReadDataSpec(v, c, endian, 1) == Ok((v.(pos := v.pos + 4), [Word(c, v.start + v.pos, endian)]))
  {
    hide Unpack;
    var bs := c[v.start + v.pos..v.start + v.pos + 4];
    assert bs[0..4] == bs;
    assert UnpackAll(bs, endian, 1) == [Unpack(bs, endian)];
  }

  lemma ReadsSlice(v: View, c: seq<byte>, size: nat)
    requires v.start + v.pos + size <= |c| && v.start + v.pos + size <= v.end
    ensures ReadView(v, c, size)
            == Ok((v.(pos := v.pos + size), c[v.start + v.pos..v.start + v.pos + size]))
  {
  }

  // ---------------------------------------------------------------- all commands of an image

  function RenameAll(ks: seq<Command>, what: seq<byte>, value: seq<byte>): seq<Command> {
    seq(|ks|, i requires 0 <= i < |ks| => RenameCommand(ks[i], what, value))
  }

  lemma {:induction false} CommandsTheorem(v: View, c: seq<byte>, hi: nat, endian: Endian, n: nat,
                                           what: seq<byte>, value: seq<byte>)
    requires hi <= |c| && hi <= v.end && Usable(what, value)
    requires CommandsOk(c, v.start + v.pos, hi, endian, n)
    ensures var p := v.start + v.pos;
            var step := CommandsSpec(v, c, endian, n, what, value);
            && step.Next? && OnlyInside(c, step.content, p, hi)
            && CommandsOk(step.content, p, hi, endian, n)
            && ParseCommands(step.content, p, hi, endian, n) == RenameAll(ParseCommands(c, p, hi, endian, n), what, value)
    decreases n
  {
    hide Unpack, CommandSpec, RewriteCommand, ParseCommand, RenameCommand, DylibOk, OnlyInside, CommandOk, RenameAll, ParseCommands;
    var p := v.start + v.pos;
    if n == 0 {
      NoCommands(c, p, hi, endian, what, value);
    } else {
      CommandFits(c, p, hi, endian);
      var size := Word(c, p + 4, endian);
      CommandStep(v, c, hi, endian, what, value);
      RewriteCommandEffect(c, p, hi, endian, what, value);
      var c1 := RewriteCommand(c, p, hi, endian, what, value);
      assert |c1| == |c| && SameOn(c, c1, p + size, hi) by { Behind(c, c1, p, size, hi); }
      assert Word(c1, p + 4, endian) == size by { SizeKept(c, c1, p, hi, endian, what, value); }
      CommandsFrame(c, c1, p + size, hi, endian, n - 1);
      CommandsTheorem(v.(pos := v.pos + size), c1, hi, endian, n - 1, what, value);
      var c' := CommandsSpec(v, c, endian, n, what, value).content;
      Composed(c, c1, c', p, hi, endian, n, what, value);
    }
  }

  lemma NoCommands(c: seq<byte>, p: nat, hi: nat, endian: Endian, what: seq<byte>, value: seq<byte>)
    requires p <= hi <= |c|
    ensures OnlyInside(c, c, p, hi) && CommandsOk(c, p, hi, endian, 0)
    ensures ParseCommands(c, p, hi, endian, 0) == RenameAll([], what, value) == []
  {
  }

  /** What lies outside the first command stays. */
  lemma Behind(c: seq<byte>, c1: seq<byte>, p: nat, size: nat, hi: nat)
    requires OnlyInside(c, c1, p, p + size) && p + size <= hi <= |c|
    ensures |c1| == |c| && SameOn(c, c1, p + size, hi)
  {
  }

  /** The first command rewritten, then the others. */
  lemma Composed(c: seq<byte>, c1: seq<byte>, c': seq<byte>, p: nat, hi: nat, endian: Endian, n: nat,
                 what: seq<byte>, value: seq<byte>)
    requires n > 0 && hi <= |c| == |c1| && CommandsOk(c, p, hi, endian, n) && CommandOk(c1, p, hi, endian)
    requires var size := Word(c, p + 4, endian);
             && Word(c1, p + 4, endian) == size && OnlyInside(c, c1, p, p + size) && OnlyInside(c1, c', p + size, hi)
             && ParseCommand(c1, p, hi, endian) == RenameCommand(ParseCommand(c, p, hi, endian), what, value)
             && CommandsOk(c1, p + size, hi, endian, n - 1) && CommandsOk(c', p + size, hi, endian, n - 1)
             && ParseCommands(c1, p + size, hi, endian, n - 1) == ParseCommands(c, p + size, hi, endian, n - 1)
             && ParseCommands(c', p + size, hi, endian, n - 1)
                == RenameAll(ParseCommands(c1, p + size, hi, endian, n - 1), what, value)
    ensures OnlyInside(c, c', p, hi) && CommandsOk(c', p, hi, endian, n)
    ensures ParseCommands(c', p, hi, endian, n) == RenameAll(ParseCommands(c, p, hi, endian, n), what, value)
  {
    hide Word, ParseCommand, RenameCommand, CommandOk, CommandsOk, ParseCommands, OnlyInside, SameOn, RenameAll;
    CommandsUnfold(c, p, hi, endian, n);
    CommandFits(c, p, hi, endian);
    CommandFits(c1, p, hi, endian);
    var size := Word(c, p + 4, endian);
    Before(c1, c', p, p + size, hi);
    CommandFrame(c1, c', p, hi, hi, endian);
    Nested(c, c1, c', p, p + size, hi);
    CommandsFold(c', p, hi, endian, n);
    RenameAllCons(ParseCommand(c, p, hi, endian), ParseCommands(c, p + size, hi, endian, n - 1), what, value);
  }

  lemma RenameAllCons(k: Command, ks: seq<Command>, what: seq<byte>, value: seq<byte>)
    ensures RenameAll([k] + ks, what, value) == [RenameCommand(k, what, value)] + RenameAll(ks, what, value)
  {
    hide RenameCommand;
  }

  /** What lies before the other commands stays. */
  lemma Before(c1: seq<byte>, c': seq<byte>, p: nat, lo: nat, hi: nat)
    requires OnlyInside(c1, c', lo, hi) && p <= lo <= hi <= |c1|
    ensures |c'| == |c1| && SameOn(c1, c', p, lo)
  {
  }

  lemma Nested(c: seq<byte>, c1: seq<byte>, c': seq<byte>, p: nat, mid: nat, hi: nat)
    requires p <= mid <= hi && OnlyInside(c, c1, p, mid) && OnlyInside(c1, c', mid, hi)
    ensures OnlyInside(c, c', p, hi)
  {
  }

  lemma CommandsUnfold(c: seq<byte>, p: nat, hi: nat, endian: Endian, n: nat)
    requires n > 0 && hi <= |c| && CommandsOk(c, p, hi, endian, n)
    ensures CommandOk(c, p, hi, endian) && p + 8 <= |c|
    ensures var size := Word(c, p + 4, endian);
            && CommandsOk(c, p + size, hi, endian, n - 1)
            && ParseCommands(c, p, hi, endian, n) == [ParseCommand(c, p, hi, endian)] + ParseCommands(c, p + size, hi, endian, n - 1)
  {
    hide Word, ParseCommand, DylibOk;
  }

  lemma CommandsFold(c: seq<byte>, p: nat, hi: nat, endian: Endian, n: nat)
    requires n > 0 && hi <= |c| && CommandOk(c, p, hi, endian) && p + 8 <= |c|
    requires CommandsOk(c, p + Word(c, p + 4, endian), hi, endian, n - 1)
    ensures CommandsOk(c, p, hi, endian, n)
    ensures ParseCommands(c, p, hi, endian, n)
            == [ParseCommand(c, p, hi, endian)] + ParseCommands(c, p + Word(c, p + 4, endian), hi, endian, n - 1)
  {
    hide Word, ParseCommand, DylibOk;
  }

  lemma CommandFits(c: seq<byte>, p: nat, hi: nat, endian: Endian)
    requires hi <= |c| && CommandOk(c, p, hi, endian)
    ensures p + 8 <= hi && 8 <= Word(c, p + 4, endian) && p + Word(c, p + 4, endian) <= hi
  {
  }

  lemma SizeKept(c: seq<byte>, c': seq<byte>, p: nat, hi: nat, endian: Endian, what: seq<byte>, value: seq<byte>)
    requires hi <= |c| && hi <= |c'| && CommandOk(c, p, hi, endian) && CommandOk(c', p, hi, endian)
    requires ParseCommand(c', p, hi, endian) == RenameCommand(ParseCommand(c, p, hi, endian), what, value)
    ensures Word(c', p + 4, endian) == Word(c, p + 4, endian)
  {
  }

  // ---------------------------------------------------------------- nothing left to rename

  /** Overwriting could change no byte: value is what itself, or no name equals what. */
  ghost predicate Quiet(ks: seq<Command>, what: seq<byte>, value: seq<byte>) {
    value == what || forall i :: 0 <= i < |ks| ==> ks[i].name != Some(what)
  }

  lemma QuietCommand(c: seq<byte>, p: nat, hi: nat, endian: Endian, what: seq<byte>, value: seq<byte>)
    requires hi <= |c| && CommandOk(c, p, hi, endian)
    requires value == what || ParseCommand(c, p, hi, endian).name != Some(what)
    ensures RewriteCommand(c, p, hi, endian, what, value) == c
  {
    hide Unpack, WriteAt, Ascii;
    if ParseCommand(c, p, hi, endian).name == Some(what) {
      var at := p + Word(c, p + 8, endian);
      var end := p + Word(c, p + 4, endian);
      SliceOfSlice(c, at, end, 0, |what|);
      assert c[at..end][|what|] == 0;
      assert c[at..at + |what| + 1] == what + [0];
      WriteAtEffect(c, at, what + [0]);
      var c' := WriteAt(c, at, what + [0]);
      assert forall i :: at <= i < at + |what| + 1 ==> c'[i] == c'[at..at + |what| + 1][i - at] == c[at..at + |what| + 1][i - at] == c[i];
      assert c' == c;
    }
  }

  lemma {:induction false} QuietCommands(v: View, c: seq<byte>, hi: nat, endian: Endian, n: nat,
                                         what: seq<byte>, value: seq<byte>)
    requires hi <= |c| && hi <= v.end && Usable(what, value)
    requires CommandsOk(c, v.start + v.pos, hi, endian, n)
    requires Quiet(ParseCommands(c, v.start + v.pos, hi, endian, n), what, value)
    ensures CommandsSpec(v, c, endian, n, what, value).Next? && CommandsSpec(v, c, endian, n, what, value).content == c
    decreases n
  {
    hide Unpack, CommandSpec, RewriteCommand, ParseCommand, DylibOk;
    if n > 0 {
      var p := v.start + v.pos;
      var size := Word(c, p + 4, endian);
      var ks := ParseCommands(c, p, hi, endian, n);
      assert ks[0] == ParseCommand(c, p, hi, endian);
      assert ks[1..] == ParseCommands(c, p + size, hi, endian, n - 1);
      CommandStep(v, c, hi, endian, what, value);
      QuietCommand(c, p, hi, endian, what, value);
      QuietCommands(v.(pos := v.pos + size), c, hi, endian, n - 1, what, value);
    }
  }

  // ---------------------------------------------------------------- images

  ghost predicate QuietImage(image: Image, what: seq<byte>, value: seq<byte>) {
    image.Thin? ==> Quiet(image.commands, what, value)
  }

  /** Renaming leaves nothing to rename. */
  lemma RenamedIsQuiet(image: Image, what: seq<byte>, value: seq<byte>)
    requires |value| <= |what|
    ensures QuietImage(RenameImage(image, what, value), what, value)
  {
    if image.Thin? && UpToNul(value) == what {
      assert value == what;
    }
  }

  lemma ReadsWords(v: View, c: seq<byte>, endian: Endian, num: nat)
    requires v.start + v.pos + 4 * num <= |c| && v.start + v.pos + 4 * num <= v.end
    ensures var p := v.start + v.pos;
            && ReadDataSpec(v, c, endian, num).Ok?
            && var (v', ws) := ReadDataSpec(v, c, endian, num).value;
               && v' == v.(pos := v.pos + 4 * num) && |ws| == num
               && forall i :: 0 <= i < num ==> ws[i] == Word(c, p + 4 * i, endian)
  {
    hide Unpack;
    var p := v.start + v.pos;
    ReadsSlice(v, c, 4 * num);
    forall i | 0 <= i < num
      ensures UnpackAll(c[p..p + 4 * num], endian, num)[i] == Word(c, p + 4 * i, endian)
    {
      SliceOfSlice(c, p, p + 4 * num, 4 * i, 4 * i + 4);
    }
  }

  /** The window in which do_file reads an image: it holds [lo, hi) and may reach past the end of the file. */
  lemma ThinStep(c: seq<byte>, lo: nat, hi: nat, size: nat, frames: nat, what: seq<byte>, value: seq<byte>)
    requires hi <= |c| && hi <= lo + size && ImageOk(c, lo, hi) && frames > 0
    ensures var magic := Word(c, lo, Big);
            var step := FileSpec(c, lo, size, frames, what, value);
            if ThinKind(magic).Some? then
              var (bits, endian) := ThinKind(magic).value;
              step == CommandsSpec(View(lo, lo + size, HeaderSize(bits)), c, endian, Word(c, lo + 16, endian), what, value)
            else step.Next? && step.content == c
  {
    hide Unpack, CommandsOk, CommandsSpec, ReadDataSpec;
    var v := View(lo, lo + size, 0);
    ReadsWord(v, c, Big);
    var magic := Word(c, lo, Big);
    if ThinKind(magic).Some? {
      var (bits, endian) := ThinKind(magic).value;
      ReadsWords(v.(pos := 4), c, endian, 6);
      if bits == 64 {
        ReadsWord(v.(pos := 28), c, endian);
      }
    }
  }

  lemma ImageTheorem(c: seq<byte>, lo: nat, hi: nat, size: nat, frames: nat, what: seq<byte>, value: seq<byte>)
    requires hi <= |c| && hi <= lo + size && ImageOk(c, lo, hi) && frames > 0 && Usable(what, value)
    ensures var step := FileSpec(c, lo, size, frames, what, value);
            && step.Next? && OnlyInside(c, step.content, lo, hi)
            && ImageOk(step.content, lo, hi)
            && ParseImage(step.content, lo, hi) == RenameImage(ParseImage(c, lo, hi), what, value)
  {
    hide Unpack, CommandsOk, CommandsSpec, FileSpec, ParseCommands, RenameCommand;
    ThinStep(c, lo, hi, size, frames, what, value);
    var magic := Word(c, lo, Big);
    if ThinKind(magic).Some? {
      var (bits, endian) := ThinKind(magic).value;
      var v := View(lo, lo + size, HeaderSize(bits));
      var n := Word(c, lo + 16, endian);
      CommandsTheorem(v, c, hi, endian, n, what, value);
      var c' := CommandsSpec(v, c, endian, n, what, value).content;
      SameSlice(c, c', lo, lo + HeaderSize(bits), lo, lo + 4);
      SameSlice(c, c', lo, lo + HeaderSize(bits), lo + 16, lo + 20);
      SameSlice(c, c', lo, lo + HeaderSize(bits), lo, lo + HeaderSize(bits));
    }
  }

  lemma QuietImageStep(c: seq<byte>, lo: nat, hi: nat, size: nat, frames: nat, what: seq<byte>, value: seq<byte>)
    requires hi <= |c| && hi <= lo + size && ImageOk(c, lo, hi) && frames > 0 && Usable(what, value)
    requires QuietImage(ParseImage(c, lo, hi), what, value)
    ensures FileSpec(c, lo, size, frames, what, value).Next?
    ensures FileSpec(c, lo, size, frames, what, value).content == c
  {
    hide Unpack, CommandsOk, CommandsSpec, FileSpec, ParseCommands, Quiet;
    ThinStep(c, lo, hi, size, frames, what, value);
    var magic := Word(c, lo, Big);
    if ThinKind(magic).Some? {
      var (bits, endian) := ThinKind(magic).value;
      QuietCommands(View(lo, lo + size, HeaderSize(bits)), c, hi, endian, Word(c, lo + 16, endian), what, value);
    }
  }

  // ---------------------------------------------------------------- fat files

  /** After k slices: the table and the slices from k on are as before, the first k slices are renamed. */
  ghost predicate SlicesDone(c: seq<byte>, c': seq<byte>, k: nat, what: seq<byte>, value: seq<byte>)
    requires FatOk(c) && k <= SliceCount(c)
  {
    && SameOn(c, c', 0, Entry(SliceCount(c)))
    && (forall j :: k <= j < SliceCount(c) ==> SameOn(c, c', SliceLo(c, j), SliceHi(c, j)))
    && (forall j :: 0 <= j < k ==>
          && ImageOk(c', SliceLo(c, j), SliceHi(c, j))
          && ParseImage(c', SliceLo(c, j), SliceHi(c, j))
             == RenameImage(ParseImage(c, SliceLo(c, j), SliceHi(c, j)), what, value))
  }

  lemma TableFrame(c: seq<byte>, c': seq<byte>, i: nat)
    requires FatOk(c) && i < SliceCount(c) && SameOn(c, c', 0, Entry(SliceCount(c)))
    ensures SliceLo(c', i) == SliceLo(c, i) && SliceHi(c', i) == SliceHi(c, i)
    ensures c'[Entry(i)..Entry(i + 1)] == c[Entry(i)..Entry(i + 1)]
  {
    var top := Entry(SliceCount(c));
    SameSlice(c, c', 0, top, Entry(i), Entry(i + 1));
    SameSlice(c, c', 0, top, Entry(i) + 8, Entry(i) + 12);
    SameSlice(c, c', 0, top, Entry(i) + 12, Entry(i) + 16);
  }

  lemma SliceStep(c: seq<byte>, ck: seq<byte>, k: nat, frames: nat, what: seq<byte>, value: seq<byte>)
    requires FatOk(c) && k < SliceCount(c) && frames > 0 && Usable(what, value)
    requires SlicesDone(c, ck, k, what, value)
    ensures var lo, hi := SliceLo(c, k), SliceHi(c, k);
            var step := FileSpec(ck, lo, hi - lo, frames, what, value);
            step.Next? && SlicesDone(c, step.content, k + 1, what, value)
  {
    hide Unpack, FileSpec, ImageOk, ParseImage, RenameImage;
    var lo, hi := SliceLo(c, k), SliceHi(c, k);
    ImageFrame(c, ck, lo, hi);
    ImageTheorem(ck, lo, hi, hi - lo, frames, what, value);
    var c' := FileSpec(ck, lo, hi - lo, frames, what, value).content;
    forall j | 0 <= j < k
      ensures ImageOk(c', SliceLo(c, j), SliceHi(c, j))
      ensures ParseImage(c', SliceLo(c, j), SliceHi(c, j)) == ParseImage(ck, SliceLo(c, j), SliceHi(c, j))
    {
      ImageFrame(ck, c', SliceLo(c, j), SliceHi(c, j));
    }
  }

  lemma {:induction false} SlicesTheorem(v: View, c: seq<byte>, ck: seq<byte>, k: nat, frames: nat,
                                         what: seq<byte>, value: seq<byte>)
    requires FatOk(c) && k <= SliceCount(c) && frames > 1 && Usable(what, value)
    requires v.start == 0 && v.pos == Entry(k) && |c| <= v.end
    requires SlicesDone(c, ck, k, what, value)
    ensures var step := SlicesSpec(v, ck, SliceCount(c) - k, frames, what, value);
            step.Next? && SlicesDone(c, step.content, SliceCount(c), what, value)
    decreases SliceCount(c) - k
  {
    hide Unpack, FileSpec, SlicesDone, ReadDataSpec, ImageOk;
    if k < SliceCount(c) {
      SlicesEntry(v, c, ck, k, what, value);
      SliceStep(c, ck, k, frames - 1, what, value);
      var lo, hi := SliceLo(c, k), SliceHi(c, k);
      var c' := FileSpec(ck, lo, hi - lo, frames - 1, what, value).content;
      SlicesTheorem(v.(pos := Entry(k + 1)), c, c', k + 1, frames, what, value);
    }
  }

  lemma SlicesEntry(v: View, c: seq<byte>, ck: seq<byte>, k: nat, what: seq<byte>, value: seq<byte>)
    requires FatOk(c) && k < SliceCount(c) && v.start == 0 && v.pos == Entry(k) && |c| <= v.end
    requires SlicesDone(c, ck, k, what, value)
    ensures 8 <= |c| && Entry(k + 1) <= |c| && ReadDataSpec(v, ck, Big, 5).Ok?
    ensures var (v', ws) := ReadDataSpec(v, ck, Big, 5).value;
            && |ws| == 5 && v' == v.(pos := Entry(k + 1))
            && ws[2] == SliceLo(c, k) && ws[3] == SliceHi(c, k) - SliceLo(c, k)
  {
    hide Unpack, ReadDataSpec, ImageOk, ParseImage;
    TableFrame(c, ck, k);
    ReadsWords(v, ck, Big, 5);
  }

  lemma {:induction false} QuietSlices(v: View, c: seq<byte>, k: nat, frames: nat, what: seq<byte>, value: seq<byte>)
    requires FatOk(c) && k <= SliceCount(c) && frames > 1 && Usable(what, value)
    requires v.start == 0 && v.pos == Entry(k) && |c| <= v.end
    requires forall j :: 0 <= j < SliceCount(c) ==> QuietImage(ParseImage(c, SliceLo(c, j), SliceHi(c, j)), what, value)
    ensures SlicesSpec(v, c, SliceCount(c) - k, frames, what, value).Next?
    ensures SlicesSpec(v, c, SliceCount(c) - k, frames, what, value).content == c
    decreases SliceCount(c) - k
  {
    hide Unpack, FileSpec, ReadDataSpec, ImageOk, ParseImage, QuietImage;
    if k < SliceCount(c) {
      ReadsWords(v, c, Big, 5);
      var lo, hi := SliceLo(c, k), SliceHi(c, k);
      QuietImageStep(c, lo, hi, hi - lo, frames - 1, what, value);
      QuietSlices(v.(pos := Entry(k + 1)), c, k + 1, frames, what, value);
    }
  }

  /** Opening a fat file: do_file goes straight to the loop over its table. */
  lemma FatStep(c: seq<byte>, frames: nat, what: seq<byte>, value: seq<byte>)
    requires FatOk(c) && IsFat(c) && |c| <= MAXINT && frames > 0
    ensures FileSpec(c, 0, MAXINT, frames, what, value)
            == SlicesSpec(View(0, MAXINT, 8), c, SliceCount(c), frames, what, value)
  {
    hide Unpack, SlicesSpec, ReadDataSpec, ImageOk;
    ReadsWord(View(0, MAXINT, 0), c, Big);
    ReadsWord(View(0, MAXINT, 4), c, Big);
  }

  // ---------------------------------------------------------------- whole files

  ghost predicate QuietBinary(b: Binary, what: seq<byte>, value: seq<byte>) {
    match b
    case Single(image) => QuietImage(image, what, value)
    case Fat(slices) => forall i :: 0 <= i < |slices| ==> QuietImage(slices[i].image, what, value)
  }

  lemma FatTheorem(c: seq<byte>, frames: nat, what: seq<byte>, value: seq<byte>)
    requires FatOk(c) && IsFat(c) && |c| <= MAXINT && frames > 1 && Usable(what, value)
    ensures var (c', error) := ChangeSpec(c, frames, what, value);
            && error == None && |c'| == |c| && WellFormed(c') && Parse(c') == Rename(Parse(c), what, value)
  {
    hide Unpack, FileSpec, SlicesSpec, ImageOk, ParseImage, RenameImage;
    FatStep(c, frames, what, value);
    SlicesTheorem(View(0, MAXINT, 8), c, c, 0, frames, what, value);
    var c' := ChangeSpec(c, frames, what, value).0;
    var n := SliceCount(c);
    SameSlice(c, c', 0, Entry(n), 0, 4);
    SameSlice(c, c', 0, Entry(n), 4, 8);
    forall i | 0 <= i < n
      ensures SliceLo(c', i) == SliceLo(c, i) && SliceHi(c', i) == SliceHi(c, i)
      ensures c'[Entry(i)..Entry(i + 1)] == c[Entry(i)..Entry(i + 1)]
    {
      TableFrame(c, c', i);
    }
    assert FatOk(c');
    assert Parse(c').slices == Rename(Parse(c), what, value).slices;
  }

  /**
   * On every well-formed file, thin or fat, the rewrite succeeds in place, and re-parsing gives the same structure
   * with exactly the matching library names replaced. Two frames are do_file and its call for a slice.
   */
  lemma ParseCommutesWithChange(c: seq<byte>, frames: nat, what: seq<byte>, value: seq<byte>)
    requires WellFormed(c) && frames > 1 && Usable(what, value)
    ensures var (c', error) := ChangeSpec(c, frames, what, value);
            && error == None && |c'| == |c| && WellFormed(c') && Parse(c') == Rename(Parse(c), what, value)
  {
    hide Unpack, FileSpec, ImageOk, ParseImage, RenameImage, FatOk;
    if IsFat(c) {
      FatTheorem(c, frames, what, value);
    } else {
      ImageTheorem(c, 0, |c|, MAXINT, frames, what, value);
      MagicKept(c, ChangeSpec(c, frames, what, value).0, what, value);
    }
  }

  /** A thin file stays thin. */
  lemma MagicKept(c: seq<byte>, c': seq<byte>, what: seq<byte>, value: seq<byte>)
    requires |c'| == |c| && ImageOk(c, 0, |c|) && ImageOk(c', 0, |c'|)
    ensures !IsFat(c')
  {
  }

  lemma QuietFile(c: seq<byte>, frames: nat, what: seq<byte>, value: seq<byte>)
    requires WellFormed(c) && frames > 1 && Usable(what, value) && QuietBinary(Parse(c), what, value)
    ensures ChangeSpec(c, frames, what, value) == (c, None)
  {
    hide Unpack, FileSpec, SlicesSpec, ImageOk, ParseImage, QuietImage;
    if IsFat(c) {
      FatStep(c, frames, what, value);
      forall j | 0 <= j < SliceCount(c)
        ensures QuietImage(ParseImage(c, SliceLo(c, j), SliceHi(c, j)), what, value)
      {
        assert Parse(c).slices[j] == ParseSlice(c, j);
      }
      QuietSlices(View(0, MAXINT, 8), c, 0, frames, what, value);
    } else {
      QuietImageStep(c, 0, |c|, MAXINT, frames, what, value);
    }
  }

  /** A second run changes nothing, byte for byte. */
  lemma ChangeIsIdempotent(c: seq<byte>, frames: nat, what: seq<byte>, value: seq<byte>)
    requires WellFormed(c) && frames > 1 && Usable(what, value)
    ensures var c' := ChangeSpec(c, frames, what, value).0;
            ChangeSpec(c', frames, what, value) == (c', None)
  {
    hide ChangeSpec, WellFormed, Parse, RenameImage;
    ParseCommutesWithChange(c, frames, what, value);
    var c' := ChangeSpec(c, frames, what, value).0;
    var b := Parse(c);
    match b {
      case Single(image) => RenamedIsQuiet(image, what, value);
      case Fat(slices) =>
        forall i | 0 <= i < |slices| ensures QuietImage(RenameImage(slices[i].image, what, value), what, value) {
          RenamedIsQuiet(slices[i].image, what, value);
        }
    }
    QuietFile(c', frames, what, value);
  }

  // ---------------------------------------------------------------- malformed files

  /** A string of a file that ends with a NUL at or after |value| can take value and a NUL. */
  lemma OverwriteKeepsLength(c: seq<byte>, at: nat, load: seq<byte>, value: seq<byte>)
    requires at + |load| <= |c| && |value| < |load|
    ensures |WriteAt(c, at, value + [0])| == |c|
  {
    WriteAtEffect(c, at, value + [0]);
  }

  lemma ReadLies(v: View, c: seq<byte>, size: int)
    ensures var r := ReadView(v, c, size); r.Ok? && r.value.1 != [] ==> v.start + v.pos + |r.value.1| <= |c|
  {
  }

  lemma UpToNulShorter(load: seq<byte>)
    requires 0 in load
    ensures |UpToNul(load)| < |load|
  {
    NoNulStays(load);
  }

  lemma {:induction false} NoNulStays(load: seq<byte>)
    ensures 0 !in load ==> UpToNul(load) == load
    ensures 0 in load ==> |UpToNul(load)| < |load|
  {
    if load != [] {
      NoNulStays(load[1..]);
    }
  }

  /** Whatever the file holds, a name is overwritten only inside the bytes just read. */
  lemma NameKeepsLength(v: View, c: seq<byte>, where: nat, size: nat, endian: Endian, what: seq<byte>, value: seq<byte>)
    requires |value| <= |what|
    ensures |NameSpec(v, c, where, size, endian, what, value).content| == |c|
  {
    hide Unpack, Ascii, WriteAt, UpToNul, ReadDataSpec, ReadView;
    var read := ReadDataSpec(v, c, endian, 1);
    if read.Ok? {
      var (v1, ws) := read.value;
      var sought := SeekView(v1, where + ws[0], Set);
      if sought.Ok? {
        var v2 := sought.value;
        ReadLies(v2, c, size - ws[0]);
        var got := ReadView(v2, c, size - ws[0]);
        if got.Ok? && 0 in got.value.1 && UpToNul(got.value.1) == what {
          UpToNulShorter(got.value.1);
          ReadKeepsStart(v2, c, size - ws[0]);
          OverwriteKeepsLength(c, v2.start + v2.pos, got.value.1, value);
        }
      }
    }
  }

  lemma ReadKeepsStart(v: View, c: seq<byte>, size: int)
    ensures var r := ReadView(v, c, size); r.Ok? ==> r.value.0.start == v.start && r.value.0.end == v.end
  {
  }

  lemma {:induction false} CommandsKeepLength(v: View, c: seq<byte>, endian: Endian, n: nat, what: seq<byte>, value: seq<byte>)
    requires |value| <= |what|
    ensures |CommandsSpec(v, c, endian, n, what, value).content| == |c|
    decreases n
  {
    hide ReadDataSpec, NameSpec, SeekView;
    if n > 0 {
      var read := ReadDataSpec(v, c, endian, 2);
      if read.Ok? {
        NameKeepsLength(read.value.0, c, v.pos, read.value.1[1], endian, what, value);
      }
      var step := CommandSpec(v, c, endian, what, value);
      if step.Next? {
        CommandsKeepLength(step.view, step.content, endian, n - 1, what, value);
      }
    }
  }

  lemma {:induction false} FileKeepsLength(c: seq<byte>, offset: nat, size: nat, frames: nat, what: seq<byte>, value: seq<byte>)
    requires |value| <= |what|
    ensures |FileSpec(c, offset, size, frames, what, value).content| == |c|
    decreases frames, 1, 0
  {
    hide ReadDataSpec, CommandsSpec;
    if frames > 0 {
      var read := ReadDataSpec(View(offset, offset + size, 0), c, Big, 1);
      if read.Ok? {
        var (v, ws) := read.value;
        if ws[0] == FAT_MAGIC {
          var count := ReadDataSpec(v, c, Big, 1);
          if count.Ok? {
            SlicesKeepLength(count.value.0, c, count.value.1[0], frames, what, value);
          }
        } else if ThinKind(ws[0]).Some? {
          MachoKeepsLength(v, c, ThinKind(ws[0]).value.0, ThinKind(ws[0]).value.1, what, value);
        }
      }
    }
  }

  lemma MachoKeepsLength(v: View, c: seq<byte>, bits: nat, endian: Endian, what: seq<byte>, value: seq<byte>)
    requires |value| <= |what|
    ensures |MachoSpec(v, c, bits, endian, what, value).content| == |c|
  {
    hide ReadDataSpec, CommandsSpec;
    var read := ReadDataSpec(v, c, endian, 6);
    if read.Ok? {
      var (v1, ws) := read.value;
      var again := ReadDataSpec(v1, c, endian, 1);
      CommandsKeepLength(v1, c, endian, ws[3], what, value);
      if again.Ok? {
        CommandsKeepLength(again.value.0, c, endian, ws[3], what, value);
      }
    }
  }

  lemma {:induction false} SlicesKeepLength(v: View, c: seq<byte>, n: nat, frames: nat, what: seq<byte>, value: seq<byte>)
    requires |value| <= |what| && frames > 0
    ensures |SlicesSpec(v, c, n, frames, what, value).content| == |c|
    decreases frames, 0, n
  {
    hide ReadDataSpec, FileSpec;
    if n > 0 {
      var read := ReadDataSpec(v, c, Big, 5);
      if read.Ok? {
        var (v1, ws) := read.value;
        FileKeepsLength(c, ws[2], ws[3], frames - 1, what, value);
        var step := FileSpec(c, ws[2], ws[3], frames - 1, what, value);
        if step.Next? {
          SlicesKeepLength(v1, step.content, n - 1, frames, what, value);
        }
      }
    }
  }

  /** For any contents and arguments, even when an exception ends the run half way, the file keeps its length. */
  lemma ChangeKeepsLength(c: seq<byte>, frames: nat, what: seq<byte>, value: seq<byte>)
    ensures |ChangeSpec(c, frames, what, value).0| == |c|
  {
    if |value| <= |what| {
      FileKeepsLength(c, 0, MAXINT, frames, what, value);
    }
  }
}
