/**
 * The part of the Mach-O file format that mach_o_change reads, described by absolute offsets into the file and
 * independently of the window machinery: what a well-formed file is, what it parses to, and what renaming a
 * loaded library means.
 */
module MachOFormat {
  import opened Bytes
  import opened FileViews

  datatype Endian = Big | Little

  const MH_MAGIC: nat := 0xfeedface
  const MH_CIGAM: nat := 0xcefaedfe
  const MH_MAGIC_64: nat := 0xfeedfacf
  const MH_CIGAM_64: nat := 0xcffaedfe
  const FAT_MAGIC: nat := 0xcafebabe
  const LC_LOAD_DYLIB: nat := 0xc

  /** The 32-bit word that struct.unpack makes of four bytes. */
  function Unpack(bs: seq<byte>, endian: Endian): nat {
    if endian == Big then BigEndian(bs) else LittleEndian(bs)
  }

  function Word(c: seq<byte>, p: nat, endian: Endian): nat
    requires p + 4 <= |c|
  {
    Unpack(c[p..p + 4], endian)
  }

  predicate Ascii(bs: seq<byte>) {
    forall i :: 0 <= i < |bs| ==> bs[i] < 128
  }

  /** The bytes before the first NUL. */
  function UpToNul(bs: seq<byte>): (r: seq<byte>)
    ensures |r| <= |bs| && r == bs[..|r|] && 0 !in r
    ensures |r| < |bs| ==> bs[|r|] == 0
  {
    if bs == [] || bs[0] == 0 then [] else [bs[0]] + UpToNul(bs[1..])
  }

  // ---------------------------------------------------------------- what a file parses to

  datatype Command = Command(cmd: nat, size: nat, name: Option<seq<byte>>)

  datatype Image =
    | Thin(bits: nat, endian: Endian, header: seq<byte>, commands: seq<Command>)
    | Unknown(magic: nat)

  datatype Slice = Slice(entry: seq<byte>, image: Image)

  datatype Binary = Single(image: Image) | Fat(slices: seq<Slice>)

  /** (word size, endianness) of the four thin magic numbers. */
  function ThinKind(magic: nat): Option<(nat, Endian)> {
    if magic == MH_MAGIC then Some((32, Big))
    else if magic == MH_CIGAM then Some((32, Little))
    else if magic == MH_MAGIC_64 then Some((64, Big))
    else if magic == MH_CIGAM_64 then Some((64, Little))
    else None
  }

  /** Bytes from the magic number to the first command. */
  function HeaderSize(bits: nat): nat {
    if bits == 64 then 32 else 28
  }

  // ---------------------------------------------------------------- load commands

  /** What decodes as ASCII and holds a NUL. */
  predicate IsText(bs: seq<byte>) {
    Ascii(bs) && 0 in bs
  }

  /** The command at p is an LC_LOAD_DYLIB whose name lies, NUL included, inside the command. */
  predicate DylibOk(c: seq<byte>, p: nat, size: nat, endian: Endian)
    requires p + size <= |c|
  {
    && 12 <= size
    && var offset := Word(c, p + 8, endian);
       && 12 <= offset < size
       && IsText(c[p + offset..p + size])
  }

  /** A whole command lies at p, before hi. */
  predicate CommandOk(c: seq<byte>, p: nat, hi: nat, endian: Endian)
    requires hi <= |c|
  {
    && p + 8 <= hi
    && var size := Word(c, p + 4, endian);
       && 8 <= size && p + size <= hi
       && (Word(c, p, endian) == LC_LOAD_DYLIB ==> DylibOk(c, p, size, endian))
  }

  /** n commands follow one another from p on and end at or before hi. */
  predicate CommandsOk(c: seq<byte>, p: nat, hi: nat, endian: Endian, n: nat)
    requires hi <= |c|
    decreases n
  {
    p <= hi &&
    (n == 0 || (CommandOk(c, p, hi, endian) && CommandsOk(c, p + Word(c, p + 4, endian), hi, endian, n - 1)))
  }

  function NameAt(c: seq<byte>, p: nat, size: nat, endian: Endian): seq<byte>
    requires p + size <= |c| && DylibOk(c, p, size, endian)
  {
    UpToNul(c[p + Word(c, p + 8, endian)..p + size])
  }

  function ParseCommand(c: seq<byte>, p: nat, hi: nat, endian: Endian): Command
    requires hi <= |c| && CommandOk(c, p, hi, endian)
  {
    var cmd, size := Word(c, p, endian), Word(c, p + 4, endian);
    Command(cmd, size, if cmd == LC_LOAD_DYLIB then Some(NameAt(c, p, size, endian)) else None)
  }

  function ParseCommands(c: seq<byte>, p: nat, hi: nat, endian: Endian, n: nat): (r: seq<Command>)
    requires hi <= |c| && CommandsOk(c, p, hi, endian, n)
    ensures |r| == n
    decreases n
  {
    if n == 0 then []
    else
      [ParseCommand(c, p, hi, endian)] + ParseCommands(c, p + Word(c, p + 4, endian), hi, endian, n - 1)
  }

  // ---------------------------------------------------------------- images and files

  /** [lo, hi) holds an image this rewriter knows, or one it skips; a fat image inside a fat file is not well formed. */
  predicate ImageOk(c: seq<byte>, lo: nat, hi: nat)
    requires hi <= |c|
  {
    && lo + 4 <= hi
    && var magic := Word(c, lo, Big);
       && magic != FAT_MAGIC
       && (ThinKind(magic).Some? ==>
             var (bits, endian) := ThinKind(magic).value;
             && lo + HeaderSize(bits) <= hi
             && CommandsOk(c, lo + HeaderSize(bits), hi, endian, Word(c, lo + 16, endian)))
  }

  function ParseImage(c: seq<byte>, lo: nat, hi: nat): Image
    requires hi <= |c| && ImageOk(c, lo, hi)
  {
    var magic := Word(c, lo, Big);
    if ThinKind(magic).Some? then
      var (bits, endian) := ThinKind(magic).value;
      var first := lo + HeaderSize(bits);
      Thin(bits, endian, c[lo..first], ParseCommands(c, first, hi, endian, Word(c, lo + 16, endian)))
    else Unknown(magic)
  }

  /** The i-th entry of the fat table: five words from here on. */
  function Entry(i: nat): nat {
    8 + 20 * i
  }

  function SliceLo(c: seq<byte>, i: nat): nat
    requires Entry(i + 1) <= |c|
  {
    Word(c, Entry(i) + 8, Big)
  }

  function SliceHi(c: seq<byte>, i: nat): nat
    requires Entry(i + 1) <= |c|
  {
    SliceLo(c, i) + Word(c, Entry(i) + 12, Big)
  }

  predicate IsFat(c: seq<byte>) {
    4 <= |c| && Word(c, 0, Big) == FAT_MAGIC
  }

  function SliceCount(c: seq<byte>): nat
    requires 8 <= |c|
  {
    Word(c, 4, Big)
  }

  /** Slices lie behind the table, are pairwise disjoint, and each holds a well-formed image. */
  predicate FatOk(c: seq<byte>) {
    && 8 <= |c|
    && var n := SliceCount(c);
       && Entry(n) <= |c|
       && (forall i :: 0 <= i < n ==> Entry(n) <= SliceLo(c, i) && SliceHi(c, i) <= |c| && ImageOk(c, SliceLo(c, i), SliceHi(c, i)))
       && (forall i, j :: 0 <= i < j < n ==> SliceHi(c, i) <= SliceLo(c, j) || SliceHi(c, j) <= SliceLo(c, i))
  }

  predicate WellFormed(c: seq<byte>) {
    |c| <= MAXINT && if IsFat(c) then FatOk(c) else ImageOk(c, 0, |c|)
  }

  function ParseSlice(c: seq<byte>, i: nat): Slice
    requires FatOk(c) && i < SliceCount(c)
  {
    Slice(c[Entry(i)..Entry(i + 1)], ParseImage(c, SliceLo(c, i), SliceHi(c, i)))
  }

  function Parse(c: seq<byte>): Binary
    requires WellFormed(c)
  {
    if IsFat(c) then Fat(seq(SliceCount(c), i requires 0 <= i < SliceCount(c) => ParseSlice(c, i)))
    else Single(ParseImage(c, 0, |c|))
  }

  // ---------------------------------------------------------------- renaming a parsed file

  /** Exactly the names (only LC_LOAD_DYLIB commands have one) equal to `what` become `value`, up to its first NUL. */
  function RenameCommand(k: Command, what: seq<byte>, value: seq<byte>): Command {
    if k.name == Some(what) then k.(name := Some(UpToNul(value))) else k
  }

  function RenameImage(image: Image, what: seq<byte>, value: seq<byte>): Image {
    match image
    case Thin(_, _, _, commands) =>
      image.(commands := seq(|commands|, i requires 0 <= i < |commands| => RenameCommand(commands[i], what, value)))
    case Unknown(_) => image
  }

  function Rename(b: Binary, what: seq<byte>, value: seq<byte>): Binary {
    match b
    case Single(image) => Single(RenameImage(image, what, value))
    case Fat(slices) =>
      Fat(seq(|slices|, i requires 0 <= i < |slices| =>
        slices[i].(image := RenameImage(slices[i].image, what, value))))
  }
}
