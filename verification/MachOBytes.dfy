/**
 * The file format as a writer sees it: images, load commands and fat tables put together byte by byte, and the proof
 * that the format's reading takes them apart again. So the words, magic numbers and offsets are the format's own.
 */
module MachOBytes {
  import opened Bytes
  import opened FileViews
  import opened MachOFormat
  import opened MachOChange
  import opened MachOTheorems

  /** A 32-bit word, written byte by byte. */
  function Put(n: nat, endian: Endian): (bs: seq<byte>)
    ensures |bs| == 4
  {
    if endian == Big then [n / 0x100_0000 % 0x100, n / 0x1_0000 % 0x100, n / 0x100 % 0x100, n % 0x100]
    else [n % 0x100, n / 0x100 % 0x100, n / 0x1_0000 % 0x100, n / 0x100_0000 % 0x100]
  }

  lemma PutReads(n: nat, endian: Endian)
    requires n < 0x1_0000_0000
    ensures Unpack(Put(n, endian), endian) == n
  {
    if endian == Big {
      PlaceValues(n / 0x100_0000 % 0x100, n / 0x1_0000 % 0x100, n / 0x100 % 0x100, n % 0x100);
    } else {
      PlaceValues(n % 0x100, n / 0x100 % 0x100, n / 0x1_0000 % 0x100, n / 0x100_0000 % 0x100);
    }
    Places(n);
  }

  lemma Places(n: nat)
    requires n < 0x1_0000_0000
    ensures n == 0x100_0000 * (n / 0x100_0000 % 0x100) + 0x1_0000 * (n / 0x1_0000 % 0x100) + 0x100 * (n / 0x100 % 0x100) + n % 0x100
  {
  }

  lemma PutAt(c: seq<byte>, p: nat, n: nat, endian: Endian)
    requires p + 4 <= |c| && c[p..p + 4] == Put(n, endian) && n < 0x1_0000_0000
    ensures Word(c, p, endian) == n
  {
    PutReads(n, endian);
  }

  // ---------------------------------------------------------------- magic numbers, byte by byte

  const FAT_BYTES: seq<byte> := [0xCA, 0xFE, 0xBA, 0xBE]

  function MagicBytes(bits: nat, endian: Endian): seq<byte> {
    if endian == Big then [0xFE, 0xED, 0xFA, if bits == 64 then 0xCF else 0xCE]
    else [if bits == 64 then 0xCF else 0xCE, 0xFA, 0xED, 0xFE]
  }

  /** Two big-endian words are equal only if their bytes are. */
  lemma SameWord(a: seq<byte>, b: seq<byte>)
    requires |a| == |b| == 4
    ensures BigEndian(a) == BigEndian(b) <==> a == b
  {
    assert a == [a[0], a[1], a[2], a[3]] && b == [b[0], b[1], b[2], b[3]];
    PlaceValues(a[0], a[1], a[2], a[3]);
    PlaceValues(b[0], b[1], b[2], b[3]);
    Digits256(a[0], a[1], a[2], a[3], b[0], b[1], b[2], b[3]);
  }

  lemma Digits256(a: byte, b: byte, c: byte, d: byte, e: byte, f: byte, g: byte, h: byte)
    ensures 0x100_0000 * a + 0x1_0000 * b + 0x100 * c + d == 0x100_0000 * e + 0x1_0000 * f + 0x100 * g + h
            <==> a == e && b == f && c == g && d == h
  {
  }

  /** The five magic numbers, byte by byte. */
  lemma MagicWords()
    ensures BigEndian(FAT_BYTES) == FAT_MAGIC
    ensures BigEndian(MagicBytes(32, Big)) == MH_MAGIC && BigEndian(MagicBytes(32, Little)) == MH_CIGAM
    ensures BigEndian(MagicBytes(64, Big)) == MH_MAGIC_64 && BigEndian(MagicBytes(64, Little)) == MH_CIGAM_64
  {
    hide BigEndian;
    PlaceValues(0xCA, 0xFE, 0xBA, 0xBE);
    PlaceValues(0xFE, 0xED, 0xFA, 0xCE);
    PlaceValues(0xCE, 0xFA, 0xED, 0xFE);
    PlaceValues(0xFE, 0xED, 0xFA, 0xCF);
    PlaceValues(0xCF, 0xFA, 0xED, 0xFE);
  }

  /** Which files are fat, and which word size and byte order each thin magic number stands for. */
  lemma MagicNumbers(c: seq<byte>, p: nat)
    requires p + 4 <= |c|
    ensures Word(c, p, Big) == FAT_MAGIC <==> c[p..p + 4] == FAT_BYTES
    ensures IsFat(c) <==> c[..4] == FAT_BYTES
    ensures forall bits, endian :: bits == 32 || bits == 64 ==>
      (ThinKind(Word(c, p, Big)) == Some((bits, endian)) <==> c[p..p + 4] == MagicBytes(bits, endian))
    ensures ThinKind(Word(c, p, Big)).Some? ==> ThinKind(Word(c, p, Big)).value.0 in {32, 64}
  {
    hide BigEndian, MagicBytes, ThinKind;
    MagicWords();
    AnyKind(BigEndian(c[p..p + 4]));
    var m := c[p..p + 4];
    SameWord(m, FAT_BYTES);
    SameWord(c[0..4], FAT_BYTES);
    assert c[0..4] == c[..4];
    forall bits, endian | bits == 32 || bits == 64
      ensures ThinKind(Word(c, p, Big)) == Some((bits, endian)) <==> m == MagicBytes(bits, endian)
    {
      MagicLength(bits, endian);
      MagicKind(BigEndian(m), bits, endian);
      SameWord(m, MagicBytes(bits, endian));
    }
  }

  lemma AnyKind(w: nat)
    ensures ThinKind(w).Some? ==> ThinKind(w).value.0 in {32, 64}
  {
  }

  lemma MagicKind(w: nat, bits: nat, endian: Endian)
    requires bits == 32 || bits == 64
    ensures ThinKind(w) == Some((bits, endian)) <==> w == BigEndian(MagicBytes(bits, endian))
  {
    hide BigEndian, MagicBytes;
    MagicWords();
    if bits == 32 {
      assert endian == Big || endian == Little;
    } else {
      assert endian == Big || endian == Little;
    }
  }

  lemma MagicLength(bits: nat, endian: Endian)
    ensures |MagicBytes(bits, endian)| == 4 && MagicBytes(bits, endian) != FAT_BYTES
  {
  }

  // ---------------------------------------------------------------- load commands

  /** A load command as a writer has it: extra are the fields between the name's offset and the name. */
  datatype Load =
    | Other(cmd: nat, body: seq<byte>)
    | Dylib(extra: seq<byte>, name: seq<byte>, padding: seq<byte>)

  function SizeOf(k: Load): nat {
    match k
    case Other(_, body) => 8 + |body|
    case Dylib(extra, name, padding) => 12 + |extra| + |name| + 1 + |padding|
  }

  ghost predicate Writable(k: Load) {
    && SizeOf(k) < 0x1_0000_0000
    && match k
       case Other(cmd, _) => cmd < 0x1_0000_0000 && cmd != 12
       case Dylib(_, name, padding) => 0 !in name && Ascii(name) && Ascii(padding)
  }

  function LoadBytes(k: Load, endian: Endian): (bs: seq<byte>)
    ensures |bs| == SizeOf(k)
  {
    match k
    case Other(cmd, body) => Put(cmd, endian) + Put(SizeOf(k), endian) + body
    case Dylib(extra, name, padding) =>
      Put(12, endian) + Put(SizeOf(k), endian) + Put(12 + |extra|, endian) + extra + (name + [0] + padding)
  }

  /** What the format reads it as. */
  function AsCommand(k: Load): Command {
    match k
    case Other(cmd, _) => Command(cmd, SizeOf(k), None)
    case Dylib(_, name, _) => Command(12, SizeOf(k), Some(name))
  }

  lemma LoadReads(c: seq<byte>, p: nat, hi: nat, endian: Endian, k: Load)
    requires Writable(k) && p + SizeOf(k) <= hi <= |c| && c[p..p + SizeOf(k)] == LoadBytes(k, endian)
    ensures CommandOk(c, p, hi, endian) && ParseCommand(c, p, hi, endian) == AsCommand(k) && Word(c, p + 4, endian) == SizeOf(k)
  {
    HeadReads(c, p, endian, k);
    hide Put, Word, UpToNul, Ascii, DylibOk, NameAt, LoadBytes;
    if k.Dylib? {
      DylibReads(c, p, endian, k);
    }
  }

  function CmdOf(k: Load): nat {
    if k.Other? then k.cmd else 12
  }

  lemma LoadHead(k: Load, endian: Endian)
    ensures SizeOf(k) >= 8 && LoadBytes(k, endian)[0..4] == Put(CmdOf(k), endian) && LoadBytes(k, endian)[4..8] == Put(SizeOf(k), endian)
  {
    hide Put;
  }

  lemma HeadReads(c: seq<byte>, p: nat, endian: Endian, k: Load)
    requires Writable(k) && p + SizeOf(k) <= |c| && c[p..p + SizeOf(k)] == LoadBytes(k, endian)
    ensures p + 8 <= |c| && Word(c, p, endian) == CmdOf(k) && Word(c, p + 4, endian) == SizeOf(k)
  {
    LoadHead(k, endian);
    hide Put, LoadBytes, SizeOf;
    var size := SizeOf(k);
    SliceOfSlice(c, p, p + size, 0, 4);
    SliceOfSlice(c, p, p + size, 4, 8);
    PutAt(c, p, CmdOf(k), endian);
    PutAt(c, p + 4, size, endian);
  }

  lemma DylibReads(c: seq<byte>, p: nat, endian: Endian, k: Load)
    requires k.Dylib? && Writable(k) && p + SizeOf(k) <= |c| && c[p..p + SizeOf(k)] == LoadBytes(k, endian)
    ensures DylibOk(c, p, SizeOf(k), endian) && NameAt(c, p, SizeOf(k), endian) == k.name
  {
    hide Put, Word, UpToNul, IsText, LoadBytes;
    var size, offset, text := SizeOf(k), 12 + |k.extra|, k.name + [0] + k.padding;
    LoadParts(k, endian);
    SliceOfSlice(c, p, p + size, 8, 12);
    PutAt(c, p + 8, offset, endian);
    SliceOfSlice(c, p, p + size, offset, size);
    assert LoadBytes(k, endian)[offset..size] == LoadBytes(k, endian)[offset..];
    assert c[p + offset..p + size] == text;
    TextReads(k.name, k.padding);
  }

  lemma LoadParts(k: Load, endian: Endian)
    requires k.Dylib?
    ensures var bs, offset := LoadBytes(k, endian), 12 + |k.extra|;
            bs[8..12] == Put(offset, endian) && bs[offset..] == k.name + [0] + k.padding
  {
    hide Put;
  }

  lemma TextReads(name: seq<byte>, padding: seq<byte>)
    requires 0 !in name && Ascii(name) && Ascii(padding)
    ensures UpToNul(name + [0] + padding) == name && IsText(name + [0] + padding)
  {
    assert (name + [0] + padding)[|name|] == 0;
    UpToNulPrefix(name, padding);
    NoNul(name);
  }

  lemma {:induction false} NoNul(bs: seq<byte>)
    requires 0 !in bs
    ensures UpToNul(bs) == bs
  {
    if bs != [] {
      NoNul(bs[1..]);
    }
  }

  function LoadsBytes(ks: seq<Load>, endian: Endian): seq<byte> {
    if ks == [] then [] else LoadBytes(ks[0], endian) + LoadsBytes(ks[1..], endian)
  }

  function AsCommands(ks: seq<Load>): (r: seq<Command>)
    ensures |r| == |ks| && forall i :: 0 <= i < |ks| ==> r[i] == AsCommand(ks[i])
  {
    seq(|ks|, i requires 0 <= i < |ks| => AsCommand(ks[i]))
  }

  lemma {:induction false} LoadsRead(c: seq<byte>, p: nat, hi: nat, endian: Endian, ks: seq<Load>)
    requires forall i :: 0 <= i < |ks| ==> Writable(ks[i])
    requires p + |LoadsBytes(ks, endian)| <= hi <= |c| && c[p..p + |LoadsBytes(ks, endian)|] == LoadsBytes(ks, endian)
    ensures CommandsOk(c, p, hi, endian, |ks|) && ParseCommands(c, p, hi, endian, |ks|) == AsCommands(ks)
    decreases |ks|
  {
    hide LoadBytes, ParseCommand, ParseCommands, CommandOk, CommandsOk, AsCommand, AsCommands, Writable, Word, SizeOf;
    if ks == [] {
      NoLoads(c, p, hi, endian);
    } else {
      var size, all := SizeOf(ks[0]), |LoadsBytes(ks, endian)|;
      SliceOfSlice(c, p, p + all, 0, size);
      SliceOfSlice(c, p, p + all, size, all);
      LoadReads(c, p, hi, endian, ks[0]);
      CommandFits(c, p, hi, endian);
      LoadsRead(c, p + size, hi, endian, ks[1..]);
      CommandsFold(c, p, hi, endian, |ks|);
      AsCommandsCons(ks);
    }
  }

  lemma NoLoads(c: seq<byte>, p: nat, hi: nat, endian: Endian)
    requires p <= hi <= |c|
    ensures CommandsOk(c, p, hi, endian, 0) && ParseCommands(c, p, hi, endian, 0) == AsCommands([])
  {
  }

  lemma AsCommandsCons(ks: seq<Load>)
    requires ks != []
    ensures AsCommands(ks) == [AsCommand(ks[0])] + AsCommands(ks[1..])
  {
    hide AsCommand;
  }

  // ---------------------------------------------------------------- images

  /**
   * A thin image as a writer has it: types are cputype, cpusubtype and filetype, sizes sizeofcmds and flags, reserved the
   * extra word of a 64-bit header, rest whatever follows the load commands.
   */
  datatype Written =
    Written(bits: nat, endian: Endian, types: seq<byte>, sizes: seq<byte>, reserved: seq<byte>, loads: seq<Load>, rest: seq<byte>)

  ghost predicate ImageFits(w: Written) {
    && (w.bits == 32 || w.bits == 64)
    && |w.types| == 12 && |w.sizes| == 8 && |w.reserved| == (if w.bits == 64 then 4 else 0)
    && |w.loads| < 0x1_0000_0000 && forall i :: 0 <= i < |w.loads| ==> Writable(w.loads[i])
  }

  function ImageHeader(w: Written): seq<byte> {
    MagicBytes(w.bits, w.endian) + w.types + Put(|w.loads|, w.endian) + w.sizes + w.reserved
  }

  function ImageBytes(w: Written): seq<byte> {
    ImageHeader(w) + LoadsBytes(w.loads, w.endian) + w.rest
  }

  lemma HeaderParts(w: Written)
    requires ImageFits(w)
    ensures var header := ImageHeader(w);
            && |header| == (if w.bits == 64 then 32 else 28)
            && header[0..4] == MagicBytes(w.bits, w.endian) && header[16..20] == Put(|w.loads|, w.endian)
  {
  }

  lemma ImageParts(w: Written)
    requires ImageFits(w)
    ensures var b, size, loads := ImageBytes(w), |ImageHeader(w)|, LoadsBytes(w.loads, w.endian);
            && |b| >= size + |loads| && size >= 28 && b[0..4] == MagicBytes(w.bits, w.endian) && b[16..20] == Put(|w.loads|, w.endian)
            && b[0..size] == ImageHeader(w) && b[size..size + |loads|] == loads
  {
    HeaderParts(w);
    hide ImageHeader, LoadsBytes, MagicBytes, Put;
    var b, header := ImageBytes(w), ImageHeader(w);
    assert b[0..4] == header[0..4] && b[16..20] == header[16..20];
  }

  /** Wherever such an image lies, it reads as exactly that. */
  lemma ImageReads(c: seq<byte>, lo: nat, hi: nat, w: Written)
    requires ImageFits(w) && lo <= hi <= |c| && c[lo..hi] == ImageBytes(w)
    ensures ImageOk(c, lo, hi) && ParseImage(c, lo, hi) == Thin(w.bits, w.endian, ImageHeader(w), AsCommands(w.loads))
  {
    hide Put, LoadsBytes, AsCommands, CommandsOk, ParseCommands, Word, ThinKind, MagicBytes, ImageHeader;
    var header := ImageHeader(w);
    var size := |header|;
    MagicLength(w.bits, w.endian);
    HeaderParts(w);
    ImageParts(w);
    hide ImageBytes;
    SliceOfSlice(c, lo, hi, 0, 4);
    SliceOfSlice(c, lo, hi, 16, 20);
    SliceOfSlice(c, lo, hi, 0, size);
    SliceOfSlice(c, lo, hi, size, size + |LoadsBytes(w.loads, w.endian)|);
    MagicNumbers(c, lo);
    PutAt(c, lo + 16, |w.loads|, w.endian);
    LoadsRead(c, lo + size, hi, w.endian, w.loads);
  }

  /** The commands of an image, with exactly the libraries named `what` named `value`. */
  ghost predicate IsRenamed(image: Image, w: Written, what: seq<byte>, value: seq<byte>) {
    && image.Thin? && image.bits == w.bits && image.endian == w.endian && image.header == ImageHeader(w)
    && |image.commands| == |w.loads|
    && forall i :: 0 <= i < |w.loads| ==>
      image.commands[i] == match w.loads[i]
                           case Other(cmd, body) => Command(cmd, 8 + |body|, None)
                           case Dylib(_, name, _) => Command(12, SizeOf(w.loads[i]), Some(if name == what then value else name))
  }

  lemma RenamedIs(image: Image, w: Written, what: seq<byte>, value: seq<byte>)
    requires image == Thin(w.bits, w.endian, ImageHeader(w), AsCommands(w.loads)) && 0 !in value
    ensures IsRenamed(RenameImage(image, what, value), w, what, value)
  {
    hide ImageHeader;
    NoNul(value);
  }

  /** A thin file written like this, rewritten, reads as the same file with the libraries renamed. */
  lemma WrittenImageIsRenamed(w: Written, frames: nat, what: seq<byte>, value: seq<byte>)
    requires ImageFits(w) && |ImageBytes(w)| <= MAXINT && frames > 1 && |value| <= |what| && Ascii(value) && 0 !in value
    ensures var (c', error) := ChangeSpec(ImageBytes(w), frames, what, value);
            && error == None && |c'| == |ImageBytes(w)| && WellFormed(c') && Parse(c').Single?
            && IsRenamed(Parse(c').image, w, what, value)
  {
    hide ImageBytes, ImageFits, ChangeSpec, ImageOk, ParseImage, IsRenamed, RenameImage;
    var c := ImageBytes(w);
    assert c[0..|c|] == c;
    ImageReads(c, 0, |c|, w);
    ThinStart(w);
    ParseCommutesWithChange(c, frames, what, value);
    RenamedIs(ParseImage(c, 0, |c|), w, what, value);
  }

  lemma ThinStart(w: Written)
    requires ImageFits(w)
    ensures !IsFat(ImageBytes(w))
  {
    hide ImageHeader, LoadsBytes, MagicBytes;
    var c := ImageBytes(w);
    MagicLength(w.bits, w.endian);
    HeaderParts(w);
    MagicNumbers(c, 0);
    assert c[..4] == ImageHeader(w)[0..4];
  }

  // ---------------------------------------------------------------- fat files

  /** One entry: cputype and cpusubtype, where the slice is, and its alignment. */
  datatype FatEntry = FatEntry(types: seq<byte>, offset: nat, size: nat, align: seq<byte>)

  ghost predicate EntryFits(e: FatEntry) {
    |e.types| == 8 && |e.align| == 4 && e.offset < 0x1_0000_0000 && e.size < 0x1_0000_0000
  }

  function EntryBytes(e: FatEntry): seq<byte> {
    e.types + Put(e.offset, Big) + Put(e.size, Big) + e.align
  }

  /** A file that starts like this is fat, and its slices lie where the entries say. */
  lemma FatTableReads(c: seq<byte>, entries: seq<FatEntry>)
    requires |entries| < 0x1_0000_0000 && 8 + 20 * |entries| <= |c| && forall i :: 0 <= i < |entries| ==> EntryFits(entries[i])
    requires c[..8] == FAT_BYTES + Put(|entries|, Big)
    requires forall i :: 0 <= i < |entries| ==> c[8 + 20 * i..28 + 20 * i] == EntryBytes(entries[i])
    ensures IsFat(c) && SliceCount(c) == |entries|
    ensures forall i :: 0 <= i < |entries| ==>
      SliceLo(c, i) == entries[i].offset && SliceHi(c, i) == entries[i].offset + entries[i].size
  {
    hide Put;
    MagicNumbers(c, 0);
    assert c[..4] == c[..8][..4] && c[4..8] == c[..8][4..8];
    PutAt(c, 4, |entries|, Big);
    forall i | 0 <= i < |entries|
      ensures SliceLo(c, i) == entries[i].offset && SliceHi(c, i) == entries[i].offset + entries[i].size
    {
      var p, e := 8 + 20 * i, entries[i];
      assert c[p..28 + 20 * i] == EntryBytes(e);
      SliceOfSlice(c, p, p + 20, 8, 12);
      SliceOfSlice(c, p, p + 20, 12, 16);
      PutAt(c, p + 8, e.offset, Big);
      PutAt(c, p + 12, e.size, Big);
    }
  }

  /** A fat file: a table, and in each slice a thin image; the slices lie behind the table and do not overlap. */
  ghost predicate FatFile(c: seq<byte>, entries: seq<FatEntry>, images: seq<Written>) {
    && |entries| == |images| < 0x1_0000_0000 && 8 + 20 * |entries| <= |c| <= MAXINT
    && c[..8] == FAT_BYTES + Put(|entries|, Big)
    && (forall i :: 0 <= i < |entries| ==> EntryFits(entries[i]) && c[8 + 20 * i..28 + 20 * i] == EntryBytes(entries[i]))
    && (forall i :: 0 <= i < |entries| ==>
          && 8 + 20 * |entries| <= entries[i].offset && entries[i].offset + entries[i].size <= |c|
          && ImageFits(images[i]) && c[entries[i].offset..entries[i].offset + entries[i].size] == ImageBytes(images[i]))
    && (forall i, j :: 0 <= i < j < |entries| ==>
          entries[i].offset + entries[i].size <= entries[j].offset || entries[j].offset + entries[j].size <= entries[i].offset)
  }

  lemma FatFileReads(c: seq<byte>, entries: seq<FatEntry>, images: seq<Written>)
    requires FatFile(c, entries, images)
    ensures IsFat(c) && FatOk(c) && SliceCount(c) == |entries|
    ensures forall i :: 0 <= i < |entries| ==>
      && SliceLo(c, i) <= SliceHi(c, i) <= |c|
      && ImageOk(c, SliceLo(c, i), SliceHi(c, i))
      && ParseImage(c, SliceLo(c, i), SliceHi(c, i))
         == Thin(images[i].bits, images[i].endian, ImageHeader(images[i]), AsCommands(images[i].loads))
  {
    hide Put, EntryBytes, ImageBytes, ImageFits, ImageHeader, AsCommands, ImageOk, ParseImage, Word;
    FatTableReads(c, entries);
    forall i | 0 <= i < |entries|
      ensures SliceLo(c, i) <= SliceHi(c, i) <= |c| && ImageOk(c, SliceLo(c, i), SliceHi(c, i))
      ensures ParseImage(c, SliceLo(c, i), SliceHi(c, i))
              == Thin(images[i].bits, images[i].endian, ImageHeader(images[i]), AsCommands(images[i].loads))
    {
      ImageReads(c, SliceLo(c, i), SliceHi(c, i), images[i]);
    }
  }

  /** A fat file written like this, rewritten, reads as the same file with the libraries of every slice renamed. */
  lemma WrittenFatFileIsRenamed(c: seq<byte>, entries: seq<FatEntry>, images: seq<Written>, frames: nat, what: seq<byte>, value: seq<byte>)
    requires FatFile(c, entries, images) && frames > 1 && |value| <= |what| && Ascii(value) && 0 !in value
    ensures var (c', error) := ChangeSpec(c, frames, what, value);
            && error == None && |c'| == |c| && WellFormed(c') && Parse(c').Fat? && |Parse(c').slices| == |images|
            && forall i :: 0 <= i < |images| ==> IsRenamed(Parse(c').slices[i].image, images[i], what, value)
  {
    hide ChangeSpec, ImageOk, ParseImage, IsRenamed, RenameImage, FatFile, FatOk, ImageHeader, AsCommands;
    FatFileReads(c, entries, images);
    FatSize(c, entries, images);
    ParseCommutesWithChange(c, frames, what, value);
    forall i | 0 <= i < |images|
      ensures IsRenamed(RenameImage(ParseImage(c, SliceLo(c, i), SliceHi(c, i)), what, value), images[i], what, value)
    {
      RenamedIs(ParseImage(c, SliceLo(c, i), SliceHi(c, i)), images[i], what, value);
    }
  }

  lemma FatSize(c: seq<byte>, entries: seq<FatEntry>, images: seq<Written>)
    requires FatFile(c, entries, images)
    ensures |c| <= MAXINT && |entries| == |images| && 8 + 20 * |entries| <= |c|
  {
  }

  // ---------------------------------------------------------------- files that are no binaries

  /** What happens to the rest: too short for a magic number, an unknown one, or a longer name to write. */
  lemma OtherFiles(c: seq<byte>, frames: nat, what: seq<byte>, value: seq<byte>)
    requires frames > 0
    ensures ChangeSpec(c, 0, what, value) == (c, Some(if |what| < |value| then AssertionError else RecursionError))
    ensures |what| < |value| ==> ChangeSpec(c, frames, what, value) == (c, Some(AssertionError))
    ensures |value| <= |what| && |c| < 4 ==> ChangeSpec(c, frames, what, value) == (c, Some(StructError))
    ensures |value| <= |what| && 4 <= |c| && c[..4] != FAT_BYTES
            && (forall bits, endian :: c[..4] == MagicBytes(bits, endian) ==> bits != 32 && bits != 64)
            ==> ChangeSpec(c, frames, what, value) == (c, None)
  {
    hide Unpack;
    if |value| <= |what| && 4 <= |c| {
      MagicNumbers(c, 0);
      ReadsWord(View(0, MAXINT, 0), c, Big);
    }
  }

  /** A load command that its file does not hold as announced ends the rewriting, and the file stays as it is. */
  lemma TruncatedCommand(v: View, c: seq<byte>, endian: Endian, what: seq<byte>, value: seq<byte>)
    requires v.Valid() && v.start + v.pos <= v.end
    requires v.start + v.pos + 8 > |c| || v.start + v.pos + 8 > v.end
    ensures CommandSpec(v, c, endian, what, value) == Stop(c, StructError)
  {
    ReadsAll(v, c, 8);
  }

  /**
   * An LC_LOAD_DYLIB command at p whose name lies outside the window, begins behind the command's end, is no ASCII, has
   * no NUL, or is to be overwritten by what is no ASCII: the exception, and the file stays as it is.
   */
  lemma BadName(v: View, c: seq<byte>, endian: Endian, what: seq<byte>, value: seq<byte>)
    requires v.start + v.pos + 12 <= |c| && v.start + v.pos + 12 <= v.end
    requires c[v.start + v.pos..v.start + v.pos + 4] == Put(12, endian)
    ensures var p := v.start + v.pos;
            var size, offset, result := Word(c, p + 4, endian), Word(c, p + 8, endian), CommandSpec(v, c, endian, what, value);
            && (p + offset > v.end ==> result == Stop(c, WindowError))
            && (p + offset <= v.end && size < offset ==> result == Stop(c, AssertionError))
            && (offset <= size && p + size <= |c| && p + size <= v.end ==>
                  var text := c[p + offset..p + size];
                  && (!Ascii(text) ==> result == Stop(c, DecodeError))
                  && (Ascii(text) && 0 !in text ==> result == Stop(c, NoNulError))
                  && (Ascii(text) && 0 in text && UpToNul(text) == what && !Ascii(value) ==> result == Stop(c, EncodeError)))
  {
    hide Unpack, Put, UpToNul, Ascii, ReadDataSpec, ReadView;
    var p := v.start + v.pos;
    PutAt(c, p, 12, endian);
    ReadsWords(v, c, endian, 2);
    var v1 := v.(pos := v.pos + 8);
    ReadsWord(v1, c, endian);
    var size, offset := Word(c, p + 4, endian), Word(c, p + 8, endian);
    if p + offset <= v.end {
      var v2 := v.(pos := v.pos + offset);
      if size < offset {
        NegativeRead(v2, c, size - offset);
      } else if p + size <= |c| && p + size <= v.end {
        ReadsSlice(v2, c, size - offset);
      }
    }
  }

  lemma NegativeRead(v: View, c: seq<byte>, size: int)
    requires size < 0
    ensures ReadView(v, c, size) == Raised(AssertionError)
  {
  }

  /** A command that is longer than the window lets nothing follow it. */
  lemma OverlongCommand(v: View, c: seq<byte>, endian: Endian, what: seq<byte>, value: seq<byte>)
    requires v.start + v.pos + 8 <= |c| && v.start + v.pos + 8 <= v.end
    requires c[v.start + v.pos..v.start + v.pos + 4] != Put(12, endian)
    requires v.start + v.pos + Word(c, v.start + v.pos + 4, endian) > v.end
    ensures CommandSpec(v, c, endian, what, value) == Stop(c, WindowError)
  {
    hide Unpack, Put, ReadDataSpec;
    var p := v.start + v.pos;
    ReadsWords(v, c, endian, 2);
    OnlyTwelve(c, p, endian);
  }

  lemma OnlyTwelve(c: seq<byte>, p: nat, endian: Endian)
    requires p + 4 <= |c|
    ensures Word(c, p, endian) == 12 ==> c[p..p + 4] == Put(12, endian)
  {
    var m := c[p..p + 4];
    assert m == [m[0], m[1], m[2], m[3]];
    PlaceValues(m[0], m[1], m[2], m[3]);
  }
}
