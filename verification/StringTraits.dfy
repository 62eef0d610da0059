/**
 * ValueTraits<const std::string>: printing a byte string between quotes, multi-byte sequences raw and everything
 * else escaped, and the decoder that shows nothing is lost.
 */
module StringTraits {
  import opened Bytes
  import opened Numbers

  /** A C++ char seen as unsigned. */
  type octet = c: char | c as int < 256

  function Code(c: octet): nat {
    c as int
  }

  // ---------------------------------------------------------------- escapes

  /** The characters of charToString for one char. */
  function CharText(c: octet): (t: string)
    ensures 1 <= |t| <= 4 && '\0' !in t
  {
    if c == '\\' then "\\\\"
    else if c == '\"' then "\\\""
    else if c == '\'' then "\\'"
    else if c == '\0' then "\\0"
    else if Code(c) == 7 then "\\a"
    else if Code(c) == 8 then "\\b"
    else if c == '\n' then "\\n"
    else if c == '\r' then "\\r"
    else if c == '\t' then "\\t"
    else if 32 <= Code(c) <= 127 then [c]
    else ['\\', 'x', DigitToChar(Code(c) / 16), DigitToChar(Code(c) % 16)]
  }

  const NAMED: seq<char> := ['\\', '\"', '\'', '\0', 7 as char, 8 as char, '\n', '\r', '\t']

  /** The nine named escapes; a printable character is itself, and every other one its two hexadecimal digits. */
  lemma CharLooks(c: octet)
    ensures CharText('\\') == "\\\\" && CharText('\"') == "\\\"" && CharText('\'') == "\\'" && CharText('\0') == "\\0"
    ensures CharText(7 as char) == "\\a" && CharText(8 as char) == "\\b"
    ensures CharText('\n') == "\\n" && CharText('\r') == "\\r" && CharText('\t') == "\\t"
    ensures 32 <= c as int <= 127 && c !in NAMED ==> CharText(c) == [c]
    ensures !(32 <= c as int <= 127) && c !in NAMED ==>
      CharText(c) == ['\\', 'x', "0123456789ABCDEF"[c as int / 16], "0123456789ABCDEF"[c as int % 16]]
  {
    DigitLooks(c as int / 16);
    DigitLooks(c as int % 16);
    assert c !in NAMED ==> forall i :: 0 <= i < 9 ==> c != NAMED[i];
    if c !in NAMED {
      assert NAMED[0] == '\\' && NAMED[1] == '\"' && NAMED[2] == '\'' && NAMED[3] == '\0' && NAMED[4] == 7 as char;
      assert NAMED[5] == 8 as char && NAMED[6] == '\n' && NAMED[7] == '\r' && NAMED[8] == '\t';
    }
  }

  /** A byte has one hexadecimal digit below 16, else two. */
  lemma HexDigits(n: nat)
    requires n < 256
    ensures Digits(n, 16) == if n < 16 then [n] else [n / 16, n % 16]
  {
    if n >= 16 {
      assert Digits(n / 16, 16) == [n / 16];
    }
  }

  lemma HexText(n: nat)
    requires n < 256
    ensures Window(n, 16, 0, U32 - 1) == Digits(n, 16)
    ensures Text(Digits(n, 16)) == if n < 16 then [DigitToChar(n)] else [DigitToChar(n / 16), DigitToChar(n % 16)]
  {
    HexDigits(n);
  }

  /** charToString into a buffer of five characters, "\xXX" and its NUL; end is behind the text. */
  method CharToString(c: octet, s: array<char>) returns (end: nat)
    requires s.Length == 5
    modifies s
    ensures end == |CharText(c)| && s[..end] == CharText(c) && s[end] == '\0'
  {
    hide Digits, Window;
    var code := Code(c);
    if c == '\\' || c == '\"' || c == '\'' || c == '\0' || code == 7 || code == 8 || c == '\n' || c == '\r' || c == '\t' {
      s[0], s[1], s[2] := '\\', NameOf(c), '\0';
      return 2;
    }
    if code >= 32 && code <= 127 {
      s[0], s[1] := c, '\0';
      return 1;
    }
    s[0], s[1] := '\\', 'x';
    var at := 0;
    if code < 0x10 {
      s[2] := '0';
      at := 1;
    }
    HexText(code);
    end := NumberToString(code, s, at + 2, U64, 16);
  }

  /** The letter of a two-character escape. */
  function NameOf(c: octet): char {
    if c == '\0' then '0' else if Code(c) == 7 then 'a' else if Code(c) == 8 then 'b'
    else if c == '\n' then 'n' else if c == '\r' then 'r' else if c == '\t' then 't' else c
  }

  // ---------------------------------------------------------------- multi-byte sequences

  /** ch & (1 << k) */
  predicate Bit(c: octet, k: nat)
    requires k < 8
  {
    Code(c) / [1, 2, 4, 8, 16, 32, 64, 128][k] % 2 == 1
  }

  predicate MbPartial(c: octet) {
    Bit(c, 7)
  }

  predicate MbStart(c: octet) {
    Bit(c, 7) && Bit(c, 6)
  }

  function LengthFrom(c: octet, numBytes: nat): (n: nat)
    requires 1 <= numBytes <= 6
    ensures numBytes <= n <= 6
    decreases 6 - numBytes
  {
    if numBytes < 6 && Bit(c, 7 - numBytes) then LengthFrom(c, numBytes + 1) else numBytes
  }

  /** The length the first byte announces: one more than the run of ones behind its top bit, at most 6. */
  function MbLengthSpec(c: octet): nat {
    LengthFrom(c, 1)
  }

  /** All bits from bit 6 down to bit 8 - numBytes are set, and the next one is not, unless there are six bytes. */
  method MbLength(c: octet) returns (numBytes: nat)
    ensures numBytes == MbLengthSpec(c) && 1 <= numBytes <= 6
    ensures forall k :: 7 - numBytes < k < 7 ==> Bit(c, k)
    ensures numBytes < 6 ==> !Bit(c, 7 - numBytes)
  {
    numBytes := 1;
    while numBytes < 6 && Bit(c, 7 - numBytes)
      invariant 1 <= numBytes <= 6 && LengthFrom(c, numBytes) == LengthFrom(c, 1)
      invariant forall k :: 7 - numBytes < k < 7 ==> Bit(c, k)
    {
      numBytes := numBytes + 1;
    }
  }

  /** Lead and partial bytes by their values, and how many bytes a lead byte announces. */
  lemma ByteRanges(c: octet)
    ensures MbPartial(c) <==> c as int >= 0x80
    ensures MbStart(c) <==> c as int >= 0xC0
    ensures 0xC0 <= c as int < 0xE0 ==> MbLengthSpec(c) == 2
    ensures 0xE0 <= c as int < 0xF0 ==> MbLengthSpec(c) == 3
    ensures 0xF0 <= c as int < 0xF8 ==> MbLengthSpec(c) == 4
    ensures 0xF8 <= c as int < 0xFC ==> MbLengthSpec(c) == 5
    ensures 0xFC <= c as int ==> MbLengthSpec(c) == 6
  {
  }

  /** A whole multi-byte sequence starts at i: the announced bytes exist and all have their top bit set. */
  predicate IsMbSpec(s: seq<octet>, i: nat)
    requires i < |s|
  {
    && MbStart(s[i]) && i + MbLengthSpec(s[i]) <= |s|
    && forall j :: i <= j < i + MbLengthSpec(s[i]) ==> MbPartial(s[j])
  }

  method IsMb(s: seq<octet>, start: nat) returns (b: bool)
    requires start < |s|
    ensures b == IsMbSpec(s, start)
  {
    var len := MbLength(s[start]);
    if !MbStart(s[start]) || start + len > |s| { return false; }
    var i := start;
    while len > 0
      invariant start <= i && i + len == start + MbLengthSpec(s[start]) <= |s|
      invariant forall j :: start <= j < i ==> MbPartial(s[j])
      decreases len
    {
      if !MbPartial(s[i]) { return false; }
      len := len - 1;
      i := i + 1;
    }
    b := true;
  }

  // ---------------------------------------------------------------- the quoted text

  function Body(s: seq<octet>, i: nat): string
    requires i <= |s|
    decreases |s| - i
  {
    if i == |s| then ""
    else if IsMbSpec(s, i) then s[i..i + MbLengthSpec(s[i])] + Body(s, i + MbLengthSpec(s[i]))
    else CharText(s[i]) + Body(s, i + 1)
  }

  lemma BodyAt(s: seq<octet>, i: nat)
    requires i < |s|
    ensures if IsMbSpec(s, i) then
              i + MbLengthSpec(s[i]) <= |s| && Body(s, i) == s[i..i + MbLengthSpec(s[i])] + Body(s, i + MbLengthSpec(s[i]))
            else Body(s, i) == CharText(s[i]) + Body(s, i + 1)
  {
    hide MbLengthSpec, CharText;
  }

  /**
   * A text of printable characters without a named escape and of whole multi-byte sequences prints as itself: runs are
   * the lengths of these pieces.
   */
  ghost predicate Plain(s: seq<octet>, i: nat, runs: seq<nat>)
    requires i <= |s|
    decreases |runs|
  {
    if runs == [] then i == |s|
    else
      && 0 < runs[0] <= |s| - i
      && (if s[i] as int >= 0xC0 then
            runs[0] == MbLengthSpec(s[i]) && forall j :: i <= j < i + runs[0] ==> s[j] as int >= 0x80
          else runs[0] == 1 && 32 <= s[i] as int <= 127 && s[i] !in NAMED)
      && Plain(s, i + runs[0], runs[1..])
  }

  lemma {:induction false} PlainPrintsItself(s: seq<octet>, i: nat, runs: seq<nat>)
    requires i <= |s| && Plain(s, i, runs)
    ensures Body(s, i) == s[i..]
    decreases |runs|
  {
    hide CharText, IsMbSpec, MbLengthSpec, Body;
    if runs == [] {
      BodyEnd(s);
    } else {
      PlainPrintsItself(s, i + runs[0], runs[1..]);
      FirstPiece(s, i, runs[0]);
      BodyAt(s, i);
      assert s[i..] == s[i..i + runs[0]] + s[i + runs[0]..];
    }
  }

  lemma FirstPiece(s: seq<octet>, i: nat, n: nat)
    requires i < |s| && 0 < n <= |s| - i
    requires if s[i] as int >= 0xC0 then n == MbLengthSpec(s[i]) && forall j :: i <= j < i + n ==> s[j] as int >= 0x80
             else n == 1 && 32 <= s[i] as int <= 127 && s[i] !in NAMED
    ensures if s[i] as int >= 0xC0 then IsMbSpec(s, i) else !IsMbSpec(s, i) && CharText(s[i]) == s[i..i + n]
  {
    hide CharText, MbLengthSpec, MbStart, MbPartial;
    ByteRanges(s[i]);
    if s[i] as int >= 0xC0 {
      forall j | i <= j < i + n ensures MbPartial(s[j]) {
        ByteRanges(s[j]);
      }
    } else {
      CharLooks(s[i]);
    }
  }

  lemma BodyEnd(s: seq<octet>)
    ensures Body(s, |s|) == ""
  {
  }

  function Quoted(s: seq<octet>): string {
    "\"" + Body(s, 0) + "\""
  }

  /** ++ i and -- i on an unsigned of 32 bits. */
  function Incremented(i: nat): (r: nat)
    ensures i < U32 - 1 ==> r == i + 1
  {
    (i + 1) % U32
  }

  function Decremented(i: nat): (r: nat)
    ensures 0 < i < U32 ==> r == i - 1
  {
    (i - 1) % U32
  }

  /**
   * The constructor. The inner loop runs past the sequence, and -- i undoes its last step for the outer loop's ++ i.
   */
  method AsString(s: seq<octet>) returns (text: string)
    requires |s| < U32
    ensures text == Quoted(s)
  {
    hide IsMbSpec, MbLengthSpec, CharText, Body, Incremented, Decremented;
    text := "\"";
    var i := 0;
    while i < |s|
      invariant 0 <= i <= |s| && text + Body(s, i) == "\"" + Body(s, 0)
      decreases |s| - i
    {
      BodyAt(s, i);
      var mb := IsMb(s, i);
      if mb {
        ghost var before, start := text, i;
        MbFits(s, i);
        var len := MbLength(s[i]);
        while len > 0
          invariant start <= i && i + len == start + MbLengthSpec(s[start]) <= |s| && text == before + s[start..i]
          decreases len
        {
          text := text + [s[i]];
          len := len - 1;
          i := Incremented(i);
        }
        i := Decremented(i);
      } else {
        var c := new char[5];
        var end := CharToString(s[i], c);
        text := text + c[..end];
      }
      i := Incremented(i);
    }
    BodyEnd(s);
    text := text + "\"";
  }

  lemma MbFits(s: seq<octet>, i: nat)
    requires i < |s| && IsMbSpec(s, i)
    ensures 1 <= MbLengthSpec(s[i]) && i + MbLengthSpec(s[i]) <= |s|
  {
  }

  // ---------------------------------------------------------------- reading it back

  /** One escape sequence or one raw character off the front of t: what it stands for, and how long it is. */
  function Unit(t: string): (char, nat)
    requires t != ""
  {
    if t[0] != '\\' || |t| == 1 then (t[0], 1)
    else if t[1] == '0' then ('\0', 2)
    else if t[1] == 'a' then (7 as char, 2)
    else if t[1] == 'b' then (8 as char, 2)
    else if t[1] == 'n' then ('\n', 2)
    else if t[1] == 'r' then ('\r', 2)
    else if t[1] == 't' then ('\t', 2)
    else if t[1] == 'x' && |t| >= 4 then (Hex(t[2], t[3]), 4)
    else (t[1], 2)
  }

  function Hex(a: char, b: char): char {
    ((CharToDigit(a) * 16 + CharToDigit(b)) % 256) as char
  }

  function Unescape(t: string): string
    decreases |t|
  {
    if t == "" then "" else [Unit(t).0] + Unescape(t[Unit(t).1..])
  }

  function Unquote(t: string): string
    requires |t| >= 2
  {
    Unescape(t[1..|t| - 1])
  }

  lemma HexInverse(n: nat)
    requires n < 256
    ensures Hex(DigitToChar(n / 16), DigitToChar(n % 16)) as int == n
  {
  }

  /** An escape reads back as its character, whatever follows. */
  lemma UnitOfChar(c: octet, rest: string)
    ensures Unit(CharText(c) + rest) == (c, |CharText(c)|)
  {
    HexInverse(Code(c));
  }

  predicate AllPartial(raw: seq<octet>) {
    forall i :: 0 <= i < |raw| ==> MbPartial(raw[i])
  }

  lemma UnescapePartial(c: octet, rest: string)
    requires MbPartial(c)
    ensures Unescape([c] + rest) == [c] + Unescape(rest)
  {
    var t := [c] + rest;
    assert t[1..] == rest && t[0] != '\\';
    assert Unit(t) == (c, 1);
  }

  lemma {:induction false} UnescapeRaw(raw: seq<octet>, rest: string)
    requires AllPartial(raw)
    ensures Unescape(raw + rest) == raw + Unescape(rest)
    decreases |raw|
  {
    hide Unescape, MbPartial;
    if raw == [] {
      assert raw + rest == rest;
    } else {
      assert raw + rest == [raw[0]] + (raw[1..] + rest);
      UnescapePartial(raw[0], raw[1..] + rest);
      UnescapeRaw(raw[1..], rest);
    }
  }

  lemma UnescapeChar(c: octet, rest: string)
    ensures Unescape(CharText(c) + rest) == [c] + Unescape(rest)
  {
    hide CharText, Unit;
    UnitOfChar(c, rest);
    assert (CharText(c) + rest)[|CharText(c)|..] == rest;
  }

  lemma RawBytes(s: seq<octet>, i: nat)
    requires i < |s| && IsMbSpec(s, i)
    ensures i + MbLengthSpec(s[i]) <= |s| && AllPartial(s[i..i + MbLengthSpec(s[i])])
  {
    hide MbLengthSpec, MbPartial;
  }

  lemma {:induction false} UnescapeBody(s: seq<octet>, i: nat)
    requires i <= |s|
    ensures Unescape(Body(s, i)) == s[i..]
    decreases |s| - i
  {
    hide CharText, Unescape, MbLengthSpec, IsMbSpec, AllPartial, Body;
    if i == |s| {
      BodyEnd(s);
      NothingToUnescape();
    } else if IsMbSpec(s, i) {
      BodyAt(s, i);
      MbFits(s, i);
      RawBytes(s, i);
      var n := MbLengthSpec(s[i]);
      UnescapeRaw(s[i..i + n], Body(s, i + n));
      UnescapeBody(s, i + n);
      assert s[i..i + n] + s[i + n..] == s[i..];
    } else {
      BodyAt(s, i);
      UnescapeChar(s[i], Body(s, i + 1));
      UnescapeBody(s, i + 1);
      assert [s[i]] + s[i + 1..] == s[i..];
    }
  }

  lemma NothingToUnescape()
    ensures Unescape("") == ""
  {
  }

  /** Decoding the printed text gives the string back, for every byte string. */
  lemma QuotingLosesNothing(s: seq<octet>)
    ensures |Quoted(s)| >= 2 && Unquote(Quoted(s)) == s
  {
    UnescapeBody(s, 0);
    assert Quoted(s)[1..|Quoted(s)| - 1] == Body(s, 0);
  }

  /** So two strings print alike only if they are equal. */
  lemma QuotingIsInjective(a: seq<octet>, b: seq<octet>)
    requires Quoted(a) == Quoted(b)
    ensures a == b
  {
    QuotingLosesNothing(a);
    QuotingLosesNothing(b);
  }
}
