/**
 * numberToString of ValueTraits.h for unsigned types: the digit loops over a machine word, the canonical expansion
 * they print, and the buffer sizes that rely on it.
 */
module Numbers {
  import opened Bytes

  /** Letters continue the digits up to base 36; larger digits print as '?'. */
  function DigitToChar(digit: nat): char {
    if digit < 10 then '0' + digit as char
    else if digit <= 35 then 'A' + (digit - 10) as char
    else '?'
  }

  lemma DigitLooks(digit: nat)
    ensures digit < 36 ==> DigitToChar(digit) == "0123456789ABCDEFGHIJKLMNOPQRSTUVWXYZ"[digit]
    ensures digit >= 36 ==> DigitToChar(digit) == '?'
    ensures digit < 16 ==> DigitToChar(digit) == "0123456789ABCDEF"[digit]
  {
  }

  // ---------------------------------------------------------------- the canonical expansion

  lemma MulStep(a: nat, b: nat, c: nat)
    ensures a < b ==> a * c + c <= b * c
    ensures a <= b ==> a * c <= b * c
  {
    if a < b {
      assert b * c == (a + 1) * c + (b - a - 1) * c;
    }
  }

  lemma DivLess(n: nat, base: nat)
    requires base >= 2 && n >= base
    ensures 0 < n / base < n
  {
    var q := n / base;
    assert n == base * q + n % base;
    MulStep(1, base, q);
    assert 2 * q <= base * q by { MulStep(2, base, q); }
  }

  function Pow(base: nat, e: nat): nat {
    if e == 0 then 1 else base * Pow(base, e - 1)
  }

  /** The digits of n, most significant first; 0 has one digit. */
  function Digits(n: nat, base: nat): (ds: seq<nat>)
    requires base >= 2
    ensures ds != [] && forall i :: 0 <= i < |ds| ==> ds[i] < base
    decreases n
  {
    if n < base then [n]
    else
      DivLess(n, base);
      Digits(n / base, base) + [n % base]
  }

  function Value(ds: seq<nat>, base: nat): nat {
    if ds == [] then 0 else Value(ds[..|ds| - 1], base) * base + ds[|ds| - 1]
  }

  lemma ValueAppend(ds: seq<nat>, d: nat, base: nat)
    ensures Value(ds + [d], base) == Value(ds, base) * base + d
  {
    assert (ds + [d])[..|ds|] == ds;
  }

  lemma {:induction false} ValueOfDigits(n: nat, base: nat)
    requires base >= 2
    ensures Value(Digits(n, base), base) == n
    ensures n > 0 ==> Digits(n, base)[0] > 0
    decreases n
  {
    hide Value;
    if n >= base {
      DivLess(n, base);
      ValueOfDigits(n / base, base);
      ValueAppend(Digits(n / base, base), n % base, base);
      assert n == n / base * base + n % base;
    } else {
      ValueAppend([], n, base);
      ValueOfNone(base);
      assert [] + [n] == [n];
    }
  }

  lemma ValueOfNone(base: nat)
    ensures Value([], base) == 0
  {
  }

  lemma PowPositive(base: nat, e: nat)
    requires base > 0
    ensures Pow(base, e) > 0
  {
  }

  /** Splitting off the most significant digit. */
  lemma ValueHead(ds: seq<nat>, base: nat)
    requires ds != []
    ensures Value(ds, base) == ds[0] * Pow(base, |ds| - 1) + Value(ds[1..], base)
  {
    hide Value, Pow;
    assert ds == [ds[0]] + ds[1..];
    ValuePrepend(ds[0], ds[1..], base);
  }

  lemma {:induction false} ValuePrepend(h: nat, ds: seq<nat>, base: nat)
    ensures Value([h] + ds, base) == h * Pow(base, |ds|) + Value(ds, base)
    decreases |ds|
  {
    hide Value, Pow;
    if ds == [] {
      OneDigit(h, base);
      ValueOfNone(base);
      PowZero(base);
      assert [h] + ds == [h];
    } else {
      var init, l := ds[..|ds| - 1], ds[|ds| - 1];
      ValuePrepend(h, init, base);
      assert ds == init + [l] && [h] + ds == ([h] + init) + [l];
      ValueAppend([h] + init, l, base);
      ValueAppend(init, l, base);
      Shift(base, |init|);
      Spread(h, Pow(base, |init|), Value(init, base), l, base);
    }
  }

  lemma OneDigit(h: nat, base: nat)
    ensures Value([h], base) == h
  {
    assert [h][..0] == [];
  }

  lemma Spread(h: nat, p: nat, v: nat, l: nat, base: nat)
    ensures (h * p + v) * base + l == h * (p * base) + (v * base + l)
  {
  }

  lemma {:induction false} ValueBound(ds: seq<nat>, base: nat)
    requires base >= 2 && forall i :: 0 <= i < |ds| ==> ds[i] < base
    ensures Value(ds, base) < Pow(base, |ds|)
    decreases |ds|
  {
    if ds != [] {
      var init := ds[..|ds| - 1];
      ValueBound(init, base);
      MulStep(Value(init, base), Pow(base, |init|), base);
      Shift(base, |init|);
    }
  }

  lemma Quotient(d: nat, p: nat, r: nat)
    requires r < p
    ensures (d * p + r) / p == d && (d * p + r) - p * d == r
  {
    assert d * p + r == p * d + r;
    DivUnique(d * p + r, p, d, r);
  }

  lemma DivUnique(n: nat, p: nat, d: nat, r: nat)
    requires p > 0 && n == p * d + r && r < p
    ensures n / p == d
  {
    var q := n / p;
    assert n == p * q + n % p;
    MulStep(q, d, p);
    MulStep(d, q, p);
  }

  // ---------------------------------------------------------------- the printed window

  /** Digits [skip, skip + max) of the expansion. */
  function Window(n: nat, base: nat, skip: nat, max: nat): seq<nat>
    requires base >= 2
  {
    var ds := Digits(n, base);
    var from := if skip < |ds| then skip else |ds|;
    ds[from..if from + max < |ds| then from + max else |ds|]
  }

  function Text(ds: seq<nat>): (s: string)
    ensures |s| == |ds| && forall i :: 0 <= i < |ds| ==> s[i] == DigitToChar(ds[i])
  {
    seq(|ds|, i requires 0 <= i < |ds| => DigitToChar(ds[i]))
  }

  function Decimal(n: nat): string {
    Text(Digits(n, 10))
  }

  /** The state of the digit loops: j digits are done, n is the value of the rest and digit their leading power. */
  ghost predicate Rest(ds: seq<nat>, base: nat, j: nat, n: nat, digit: nat) {
    && j <= |ds| && n == Value(ds[j..], base)
    && digit == if j < |ds| then Pow(base, |ds| - 1 - j) else 0
  }

  /** One turn of a digit loop: it takes digit j and leaves the rest. */
  lemma Turn(ds: seq<nat>, base: nat, j: nat, n: nat, digit: nat)
    requires base >= 2 && (forall i :: 0 <= i < |ds| ==> ds[i] < base) && j < |ds| && Rest(ds, base, j, n, digit)
    ensures digit >= 1 && n / digit == ds[j] && digit * ds[j] <= n
    ensures Rest(ds, base, j + 1, n - digit * ds[j], digit / base)
  {
    var rest := ds[j..];
    ValueHead(rest, base);
    assert rest[1..] == ds[j + 1..];
    ValueBound(ds[j + 1..], base);
    PowPositive(base, |rest| - 1);
    Quotient(ds[j], digit, Value(ds[j + 1..], base));
    if j + 1 < |ds| {
      var p := Pow(base, |ds| - 2 - j);
      assert digit == base * p;
      DivUnique(digit, base, p, 0);
    }
  }

  /** While the first loop runs, the next power is still at most n. */
  lemma LeadingPower(n: nat, base: nat, e: nat)
    requires base >= 2 && Pow(base, e) <= n / base
    ensures e + 1 < |Digits(n, base)| && Pow(base, e + 1) <= n
  {
    hide Digits, Value;
    var ds := Digits(n, base);
    assert n == base * (n / base) + n % base;
    MulStep(Pow(base, e), n / base, base);
    ValueOfDigits(n, base);
    ValueBound(ds, base);
    if |ds| <= e + 1 {
      PowGrows(base, |ds|, e + 1);
    }
  }

  lemma {:induction false} PowGrows(base: nat, a: nat, b: nat)
    requires base >= 1 && a <= b
    ensures Pow(base, a) <= Pow(base, b)
    decreases b
  {
    if a < b {
      PowGrows(base, a, b - 1);
      MulStep(1, base, Pow(base, b - 1));
    }
  }

  /** It stops at the leading power. */
  lemma LoopEnd(n: nat, base: nat, e: nat)
    requires base >= 2 && e < |Digits(n, base)| && Pow(base, e) > n / base
    ensures e == |Digits(n, base)| - 1
  {
    hide Digits, Value;
    var ds := Digits(n, base);
    if e < |ds| - 1 {
      var p := Pow(base, |ds| - 2);
      LeadingDigit(n, base);
      PowGrows(base, e, |ds| - 2);
      DivAtLeast(n, base, p);
    }
  }

  /** A number of more than one digit is at least the power of its leading digit. */
  lemma LeadingDigit(n: nat, base: nat)
    requires base >= 2 && |Digits(n, base)| > 1
    ensures n >= base * Pow(base, |Digits(n, base)| - 2)
  {
    var ds := Digits(n, base);
    ValueOfDigits(n, base);
    ValueHead(ds, base);
    MulStep(1, ds[0], Pow(base, |ds| - 1));
  }

  lemma DivAtLeast(n: nat, base: nat, p: nat)
    requires base > 0 && n >= base * p
    ensures n / base >= p
  {
    var q := n / base;
    assert n == base * q + n % base;
    MulStep(q, p, base);
  }

  lemma QuotientIsNat(a: nat, b: nat)
    requires b > 0
    ensures a / b >= 0
  {
  }

  lemma ModSmall(x: nat, limit: nat)
    requires x < limit
    ensures x % limit == x
  {
  }

  lemma Grows(digit: nat, base: nat)
    requires digit > 0 && base >= 2
    ensures digit * base > digit
  {
    MulStep(1, base, digit);
  }

  /** The first loop. The product never wraps: it is at most the number. */
  method FindLeadingPower(number: nat, limit: nat, base: nat) returns (digit: nat)
    requires number < limit && 2 <= base < limit
    ensures Rest(Digits(number, base), base, 0, number, digit)
  {
    hide Digits, Value, Rest, Pow;
    digit := 1;
    ghost var e: nat := 0;
    PowZero(base);
    while digit <= number / base
      invariant digit == Pow(base, e) && e < |Digits(number, base)|
      invariant 0 < digit && digit < limit
      decreases number - digit
    {
      LeadingPower(number, base, e);
      Shift(base, e);
      Grows(digit, base);
      ModSmall(digit * base, limit);
      digit := digit * base % limit;
      e := e + 1;
    }
    LoopEnd(number, base, e);
    RestStart(number, base, digit);
  }

  /** The step of both digit loops: digitValue = (unsigned)(n / digit), n -= digit * digitValue, digit /= base. */
  method TakeDigit(n: nat, digit: nat, limit: nat, base: nat, ghost ds: seq<nat>, ghost j: nat)
    returns (digitValue: nat, n': nat, digit': nat)
    requires Rest(ds, base, j, n, digit) && n < limit && digit >= 1 && 2 <= base <= U32
    requires forall i :: 0 <= i < |ds| ==> ds[i] < base
    ensures j < |ds| && digitValue == ds[j] && Rest(ds, base, j + 1, n', digit') && n' <= n
  {
    hide Rest;
    RestMeans(ds, base, j, n, digit);
    Turn(ds, base, j, n, digit);
    ModSmall(n / digit, U32);
    ModSmall(n - digit * ds[j], limit);
    QuotientIsNat(digit, base);
    QuotientIsNat(n, digit);
    digitValue := (n / digit) % U32;
    n' := (n - digit * digitValue) % limit;
    digit' := digit / base;
  }

  /**
   * numberToString for an unsigned type of `limit` values, into s from position `at` on: exactly the window of the
   * canonical expansion and a NUL. All arithmetic is modulo limit, and casts to unsigned modulo 2^32.
   */
  method NumberToString(number: nat, s: array<char>, at: nat, limit: nat, base: nat := 10, skip: nat := 0, max: nat := U32 - 1)
    returns (end: nat)
    requires number < limit && 2 <= base < limit && base <= U32
    requires at + |Window(number, base, skip, max)| < s.Length
    modifies s
    ensures end == at + |Window(number, base, skip, max)|
    ensures s[..] == old(s[..])[..at] + Text(Window(number, base, skip, max)) + ['\0'] + old(s[..])[end + 1..]
  {
    hide Digits, Value, DigitToChar, Rest, Window, Pow;
    ghost var ds, before := Digits(number, base), s[..];
    var digit := FindLeadingPower(number, limit, base);
    var n: nat;
    ghost var from: nat;
    n, digit, from := SkipDigits(number, digit, limit, base, skip, ds);
    WindowIs(number, base, skip, max, from, n, digit);
    end := WriteDigits(n, digit, limit, base, max, ds, from, s, at);
    s[end] := '\0';
    assert s[..] == before[..at] + Text(Window(number, base, skip, max)) + ['\0'] + before[end + 1..];
  }

  /** *s = c, behind the text written so far. */
  method Store(s: array<char>, end: nat, c: char, ghost before: string, ghost at: nat, ghost text: string)
    requires at <= end == at + |text| < s.Length == |before| && s[..] == before[..at] + text + before[end..]
    modifies s
    ensures s[..] == before[..at] + (text + [c]) + before[end + 1..]
  {
    s[end] := c;
  }

  /** The third loop. */
  method WriteDigits(number: nat, start: nat, limit: nat, base: nat, max: nat, ghost ds: seq<nat>, ghost from: nat,
                     s: array<char>, at: nat)
    returns (end: nat)
    requires Rest(ds, base, from, number, start) && number < limit && 2 <= base <= U32
    requires from <= |ds| && forall i :: 0 <= i < |ds| ==> ds[i] < base
    requires at + (if from + max < |ds| then max else |ds| - from) < s.Length
    modifies s
    ensures var to := if from + max < |ds| then from + max else |ds|;
            end == at + to - from && s[..] == old(s[..])[..at] + Text(ds[from..to]) + old(s[..])[end..]
  {
    hide DigitToChar, Rest;
    ghost var before := s[..];
    var n: nat, digit: nat, maxDigits: nat, digitValue: nat := number, start, max, 0;
    ghost var j: nat := from;
    end := at;
    RestMeans(ds, base, j, n, digit);
    while digit >= 1 && maxDigits > 0
      invariant Rest(ds, base, j, n, digit) && from <= j <= |ds| && end == at + j - from && maxDigits + (j - from) == max
      invariant n <= number && end < s.Length && (digit >= 1 <==> j < |ds|)
      invariant s[..] == before[..at] + Text(ds[from..j]) + before[end..]
      decreases maxDigits
    {
      digitValue, n, digit := TakeDigit(n, digit, limit, base, ds, j);
      TextGrows(ds, from, j + 1);
      Store(s, end, DigitToChar(digitValue), before, at, Text(ds[from..j]));
      maxDigits := maxDigits - 1;
      end := end + 1;
      j := j + 1;
      RestMeans(ds, base, j, n, digit);
    }
  }

  /** The second loop. */
  method SkipDigits(number: nat, start: nat, limit: nat, base: nat, skip: nat, ghost ds: seq<nat>)
    returns (n: nat, digit: nat, ghost j: nat)
    requires Rest(ds, base, 0, number, start) && number < limit && 2 <= base <= U32
    requires forall i :: 0 <= i < |ds| ==> ds[i] < base
    ensures Rest(ds, base, j, n, digit) && n <= number && j <= |ds| && j <= skip && (digit < 1 || j == skip)
  {
    hide Rest;
    n, digit, j := number, start, 0;
    var skipDigits: nat := skip;
    var digitValue: nat;
    while digit >= 1 && skipDigits > 0
      invariant Rest(ds, base, j, n, digit) && skipDigits + j == skip && n <= number
      decreases skipDigits
    {
      digitValue, n, digit := TakeDigit(n, digit, limit, base, ds, j);
      skipDigits := skipDigits - 1;
      j := j + 1;
    }
    RestMeans(ds, base, j, n, digit);
  }

  lemma TextGrows(ds: seq<nat>, from: nat, j: nat)
    requires from < j <= |ds|
    ensures Text(ds[from..j]) == Text(ds[from..j - 1]) + [DigitToChar(ds[j - 1])]
  {
  }

  lemma PowZero(base: nat)
    ensures Pow(base, 0) == 1
  {
  }

  lemma Shift(base: nat, e: nat)
    ensures Pow(base, e + 1) == Pow(base, e) * base
  {
  }

  lemma RestMeans(ds: seq<nat>, base: nat, j: nat, n: nat, digit: nat)
    requires Rest(ds, base, j, n, digit) && base >= 2
    ensures j <= |ds| && (digit >= 1 <==> j < |ds|)
  {
    if j < |ds| {
      PowPositive(base, |ds| - 1 - j);
    }
  }

  lemma RestStart(number: nat, base: nat, digit: nat)
    requires base >= 2 && digit == Pow(base, |Digits(number, base)| - 1)
    ensures Rest(Digits(number, base), base, 0, number, digit)
  {
    ValueOfDigits(number, base);
    assert Digits(number, base)[0..] == Digits(number, base);
  }

  lemma WindowIs(number: nat, base: nat, skip: nat, max: nat, from: nat, n: nat, digit: nat)
    requires base >= 2 && Rest(Digits(number, base), base, from, n, digit)
    requires from <= skip && (digit < 1 || from == skip)
    ensures var ds := Digits(number, base);
            Window(number, base, skip, max) == ds[from..if from + max < |ds| then from + max else |ds|]
  {
    RestMeans(Digits(number, base), base, from, n, digit);
  }

  // ---------------------------------------------------------------- reading a number back, and room for it

  function CharToDigit(c: char): nat {
    if '0' <= c <= '9' then (c - '0') as nat else if 'A' <= c <= 'Z' then (c - 'A') as nat + 10 else 0
  }

  function FromText(s: string, base: nat): nat {
    if s == "" then 0 else FromText(s[..|s| - 1], base) * base + CharToDigit(s[|s| - 1])
  }

  lemma {:induction false} FromTextOfDigits(ds: seq<nat>, base: nat)
    requires base <= 36 && forall i :: 0 <= i < |ds| ==> ds[i] < base
    ensures FromText(Text(ds), base) == Value(ds, base)
    decreases |ds|
  {
    if ds != [] {
      assert Text(ds)[..|ds| - 1] == Text(ds[..|ds| - 1]);
      FromTextOfDigits(ds[..|ds| - 1], base);
    }
  }

  /** The i-th digit from the right is n / base^i modulo base. */
  lemma {:induction false} DigitAt(n: nat, base: nat, i: nat)
    requires base >= 2 && i < |Digits(n, base)|
    ensures Pow(base, i) > 0 && Digits(n, base)[|Digits(n, base)| - 1 - i] == n / Pow(base, i) % base
    decreases i
  {
    PowPositive(base, i);
    if i == 0 {
      PowZero(base);
    } else {
      PowPositive(base, i - 1);
      DigitAt(n / base, base, i - 1);
      Shift(base, i - 1);
      QuotientTwice(n, base, Pow(base, i - 1));
    }
  }

  lemma SplitTwice(n: nat, a: nat, b: nat, q: nat, r: nat, p: nat, s: nat)
    requires n == q * a + r && q == p * b + s
    ensures n == (b * a) * p + (s * a + r)
  {
    assert (p * b + s) * a == (p * b) * a + s * a;
    assert (p * b) * a == (b * a) * p;
  }

  lemma QuotientTwice(n: nat, a: nat, b: nat)
    requires a > 0 && b > 0
    ensures n / a / b == n / (b * a)
  {
    var q, r := n / a, n % a;
    var p, s := q / b, q % b;
    SplitTwice(n, a, b, q, r, p, s);
    MulStep(s, b, a);
    DivUnique(n, b * a, p, s * a + r);
  }

  /** A window has max digits, or as many as there are behind the skipped ones, each at its own place. */
  lemma WindowDigits(n: nat, base: nat, skip: nat, max: nat, i: nat)
    requires base >= 2 && i < |Window(n, base, skip, max)|
    ensures var k := |Digits(n, base)|;
            && |Window(n, base, skip, max)| == (if skip >= k then 0 else if max < k - skip then max else k - skip)
            && skip + i < k && Pow(base, k - 1 - (skip + i)) > 0
            && Window(n, base, skip, max)[i] == n / Pow(base, k - 1 - (skip + i)) % base
  {
    var k := |Digits(n, base)|;
    DigitAt(n, base, k - 1 - (skip + i));
  }

  /**
   * With default arguments every number of up to eight bytes is printed in full, and its text is the number: it
   * evaluates back to it and has no leading zero.
   */
  lemma TextIsNumber(n: nat, base: nat)
    requires n < U64 && 2 <= base <= 36
    ensures Window(n, base, 0, U32 - 1) == Digits(n, base)
    ensures FromText(Text(Window(n, base, 0, U32 - 1)), base) == n
    ensures n > 0 ==> Text(Window(n, base, 0, U32 - 1))[0] != '0'
  {
    hide Digits, Value, Text, FromText;
    TwoTo64();
    FewDigits(n, base, 64);
    ValueOfDigits(n, base);
    FromTextOfDigits(Digits(n, base), base);
  }

  lemma TwoTo8()
    ensures Pow(2, 8) == 256
  {
    assert Pow(2, 4) == 16;
  }

  lemma TwoTo64()
    ensures Pow(2, 64) == U64
  {
    hide Pow;
    TwoTo8();
    PowerOfSum(2, 8, 8);
    PowerOfSum(2, 16, 16);
    PowerOfSum(2, 32, 32);
  }

  lemma {:induction false} PowerOfSum(base: nat, a: nat, b: nat)
    ensures Pow(base, a + b) == Pow(base, a) * Pow(base, b)
    decreases a
  {
    if a > 0 {
      PowerOfSum(base, a - 1, b);
      Regroup(base, Pow(base, a - 1), Pow(base, b));
    }
  }

  lemma Regroup(a: nat, b: nat, c: nat)
    ensures a * (b * c) == a * b * c
  {
  }

  /** A number below 2^k has at most k digits, whatever the base. */
  lemma {:induction false} FewDigits(n: nat, base: nat, k: nat)
    requires base >= 2 && k > 0 && n < Pow(2, k)
    ensures |Digits(n, base)| <= k
    decreases k
  {
    if n >= base {
      Shift(2, k - 1);
      HalfAtMost(n, base);
      assert k > 1 by { assert Pow(2, 1) == 2; }
      FewDigits(n / base, base, k - 1);
    }
  }

  lemma HalfAtMost(n: nat, base: nat)
    requires base >= 2
    ensures 2 * (n / base) <= n
  {
    MulStep(2, base, n / base);
  }

  /** A k-byte unsigned number has at most 3k decimal digits, so 1 + 3 * sizeof(T) characters hold it. */
  lemma {:induction false} DecimalFits(n: nat, k: nat)
    requires k > 0 && n < Pow256(k)
    ensures |Digits(n, 10)| <= 3 * k
    decreases k
  {
    if k == 1 {
      SmallDigits(n);
    } else if n >= 1000 {
      DigitsShorter(n);
      assert n / 1000 < Pow256(k - 1) by { assert n < 256 * Pow256(k - 1); }
      DecimalFits(n / 1000, k - 1);
    } else {
      SmallDigits(n);
    }
  }

  lemma SmallDigits(n: nat)
    requires n < 1000
    ensures |Digits(n, 10)| <= 3
  {
    if n >= 10 {
      assert Digits(n, 10) == Digits(n / 10, 10) + [n % 10];
      if n >= 100 {
        assert Digits(n / 10, 10) == Digits(n / 10 / 10, 10) + [n / 10 % 10];
      }
    }
  }

  lemma DigitsShorter(n: nat)
    requires n >= 1000
    ensures |Digits(n, 10)| == |Digits(n / 1000, 10)| + 3
  {
    assert n / 10 / 10 / 10 == n / 1000;
    assert Digits(n, 10) == Digits(n / 10, 10) + [n % 10];
    assert Digits(n / 10, 10) == Digits(n / 10 / 10, 10) + [n / 10 % 10];
  }
}
