/**
 * WorldDescription::strTotalTests with _CXXTEST_FACTOR: the number of tests, its trial-division factorisation in
 * 32-bit arithmetic, and the face that is printed instead for a prime.
 */
module Factoring {
  import opened Bytes
  import opened Numbers

  datatype Factor = Factor(prime: nat, power: nat)

  // ---------------------------------------------------------------- numbers

  ghost predicate NoDivisorBelow(m: nat, f: nat) {
    forall d :: 2 <= d < f ==> m % d != 0
  }

  ghost predicate IsPrime(p: nat) {
    p >= 2 && NoDivisorBelow(p, p)
  }

  function Product(fs: seq<Factor>): nat {
    if fs == [] then 1 else Pow(fs[0].prime, fs[0].power) * Product(fs[1..])
  }

  /** Powers of primes, the primes strictly increasing and at least lo. */
  ghost predicate Increasing(fs: seq<Factor>, lo: nat) {
    fs == [] || (fs[0].prime >= lo && IsPrime(fs[0].prime) && fs[0].power >= 1 && Increasing(fs[1..], fs[0].prime + 1))
  }

  lemma Divides(d: nat, q: nat)
    requires d > 0
    ensures (d * q) % d == 0
  {
    var m := d * q;
    assert m == d * (m / d) + m % d;
    MulStep(m / d, q, d);
    MulStep(q, m / d, d);
  }

  lemma Cofactor(m: nat, d: nat) returns (q: nat)
    requires d > 0 && m % d == 0
    ensures m == d * q
  {
    q := m / d;
    assert m == d * q + m % d;
  }

  /** Divisibility is transitive. */
  lemma DividesThrough(m: nat, f: nat, d: nat)
    requires d > 0 && f > 0 && m % f == 0 && f % d == 0
    ensures m % d == 0
  {
    var a := Cofactor(m, f);
    var b := Cofactor(f, d);
    assert m == d * (b * a);
    Divides(d, b * a);
  }

  // ---------------------------------------------------------------- the loop as a function

  /** How often f divides m, and what is left. */
  function Exponent(m: nat, f: nat): nat
    requires m > 0 && f >= 2
    decreases m
  {
    if m % f != 0 then 0 else Shrinks(m, f); 1 + Exponent(m / f, f)
  }

  function Reduced(m: nat, f: nat): (r: nat)
    requires m > 0 && f >= 2
    ensures 0 < r <= m && r % f != 0
    decreases m
  {
    if m % f != 0 then m else Shrinks(m, f); Reduced(m / f, f)
  }

  lemma Shrinks(m: nat, f: nat)
    requires m > 0 && f >= 2 && m % f == 0
    ensures 0 < m / f < m
  {
    var q := Cofactor(m, f);
    assert m / f == q by { DivUnique(m, f, q, 0); }
    MulStep(1, f, q);
  }

  function NextFactor(f: nat): nat {
    f + if f == 2 then 1 else 2
  }

  /** The guard (factor * factor) <= n, with the product in 32 bits. */
  function Guard(m: nat, f: nat): bool {
    (f * f) % U32 <= m
  }

  /** The loop's invariant: the factor has not wrapped and everything below it is divided out. */
  ghost predicate Searching(m: nat, f: nat) {
    0 < m < U32 && (f == 2 || (f >= 3 && f % 2 == 1)) && f <= U32 - 3 && NoDivisorBelow(m, f)
  }

  lemma FoundDivides(m: nat, f: nat)
    requires m > 0 && f >= 2 && Exponent(m, f) > 0
    ensures m % f == 0
  {
  }

  lemma PowerStep(f: nat, e: nat)
    ensures Pow(f, e + 1) == f * Pow(f, e)
  {
  }

  lemma ReducedDivides(m: nat, f: nat)
    requires m > 0 && f >= 2
    ensures m == Pow(f, Exponent(m, f)) * Reduced(m, f)
    decreases m
  {
    if m % f == 0 {
      hide Pow;
      Shrinks(m, f);
      ReducedDivides(m / f, f);
      var q := Cofactor(m, f);
      DivUnique(m, f, q, 0);
      var e, r := Exponent(m / f, f), Reduced(m / f, f);
      PowerStep(f, e);
      Regroup(f, Pow(f, e), r);
    } else {
      assert Pow(f, 0) == 1;
    }
  }

  lemma Swap(p: nat, d: nat, q: nat)
    ensures p * (d * q) == d * (p * q)
  {
  }

  /** What has no small divisor keeps none when divided. */
  lemma ReducedKeeps(m: nat, f: nat, lo: nat)
    requires m > 0 && f >= 2 && NoDivisorBelow(m, lo)
    ensures NoDivisorBelow(Reduced(m, f), lo)
  {
    hide Reduced, Exponent, Pow;
    var r := Reduced(m, f);
    ReducedDivides(m, f);
    forall d | 2 <= d < lo ensures r % d != 0 {
      if r % d == 0 {
        var q := Cofactor(r, d);
        var p := Pow(f, Exponent(m, f));
        Swap(p, d, q);
        Divides(d, p * q);
      }
    }
  }

  /** Without a divisor below f, a number above 1 is at least f. */
  lemma AtLeastFactor(m: nat, f: nat)
    requires m > 1 && NoDivisorBelow(m, f)
    ensures m >= f
  {
    Divides(m, 1);
  }

  /** The factor never wraps: its last value before 2^32 would need a divisor it has already passed. */
  lemma NextSearching(m: nat, f: nat)
    requires Searching(m, f) && Guard(m, f)
    ensures Searching(Reduced(m, f), NextFactor(f))
  {
    hide Guard;
    var r := Reduced(m, f);
    ReducedKeeps(m, f, f);
    NotLast(m, f);
    if f > 2 {
      EvenSkipped(r, f);
    }
  }

  lemma NotLast(m: nat, f: nat)
    requires Searching(m, f) && Guard(m, f)
    ensures f != U32 - 3
  {
    assert (U32 - 3) * (U32 - 3) % U32 == 9;
    if m > 1 {
      AtLeastFactor(m, f);
    }
    TopComposite(m);
  }

  lemma TopComposite(m: nat)
    ensures U32 - 3 <= m < U32 ==> m % 2 == 0 || m % 3 == 0 || m % 9241 == 0
  {
    assert 9241 * 464773 == U32 - 3;
  }

  lemma EvenSkipped(r: nat, f: nat)
    requires f >= 3 && f % 2 == 1 && NoDivisorBelow(r, f) && r % f != 0
    ensures NoDivisorBelow(r, f + 2)
  {
    if r % (f + 1) == 0 {
      assert (f + 1) % 2 == 0;
      DividesThrough(r, f + 1, 2);
    }
  }

  /** The factors the loop emits from factor f on, and what it leaves. */
  ghost function Factors(m: nat, f: nat): (seq<Factor>, nat)
    requires Searching(m, f)
    decreases U32 - f
  {
    if !Guard(m, f) then ([], m)
    else
      NextSearching(m, f);
      var (fs, rest) := Factors(Reduced(m, f), NextFactor(f));
      (if Exponent(m, f) > 0 then [Factor(f, Exponent(m, f))] + fs else fs, rest)
  }

  // ---------------------------------------------------------------- it is the prime factorisation

  /** The first divisor found is prime. */
  lemma FoundIsPrime(m: nat, f: nat)
    requires f >= 2 && NoDivisorBelow(m, f) && m % f == 0
    ensures IsPrime(f)
  {
    forall d | 2 <= d < f ensures f % d != 0 {
      if f % d == 0 {
        DividesThrough(m, f, d);
      }
    }
  }

  /** When the guard fails the true square exceeds m, wrapped or not, so what is left is prime. */
  lemma RestIsPrime(m: nat, f: nat)
    requires Searching(m, f) && !Guard(m, f) && m > 1
    ensures IsPrime(m)
  {
    assert f * f > m by {
      if f < 65536 {
        SquareFits(f);
      } else {
        MulStep(65536, f, f);
        MulStep(65536, f, 65536);
      }
    }
    forall d | 2 <= d < m ensures m % d != 0 {
      if m % d == 0 {
        var q := Cofactor(m, d);
        assert d >= f;
        assert q >= 2 by { MulStep(q, 2, d); }
        assert m == q * d;
        Divides(q, d);
        assert q >= f;
        MulStep(f, d, f);
        MulStep(f, q, d);
      }
    }
  }

  lemma SquareFits(f: nat)
    requires f < 65536
    ensures (f * f) % U32 == f * f
  {
    MulStep(f, 65535, f);
    MulStep(f, 65535, 65535);
  }

  lemma FactorsCorrect(m: nat, f: nat)
    requires Searching(m, f)
    ensures var (fs, rest) := Factors(m, f);
            && Product(fs) * rest == m && Increasing(fs, f)
            && (rest == 1 || (IsPrime(rest) && rest >= f && forall i :: 0 <= i < |fs| ==> fs[i].prime < rest))
    decreases U32 - f
  {
    hide IsPrime, NoDivisorBelow, Product, Increasing, Guard, Reduced, Exponent;
    FactorsOfNone(f);
    if !Guard(m, f) {
      if m > 1 {
        RestIsPrime(m, f);
        AtLeastFactor(m, f);
      }
    } else {
      NextSearching(m, f);
      FactorsCorrect(Reduced(m, f), NextFactor(f));
      ReducedDivides(m, f);
      var (fs, rest) := Factors(Reduced(m, f), NextFactor(f));
      var e := Exponent(m, f);
      if e > 0 {
        FoundDivides(m, f);
        FoundIsPrime(m, f);
        Prepend(f, e, fs, rest, m);
      } else {
        assert Pow(f, e) == 1;
        IncreasingFrom(fs, NextFactor(f), f);
      }
    }
  }

  lemma Prepend(f: nat, e: nat, fs: seq<Factor>, rest: nat, m: nat)
    requires e >= 1 && IsPrime(f) && Increasing(fs, NextFactor(f)) && m == Pow(f, e) * (Product(fs) * rest)
    ensures var all := [Factor(f, e)] + fs;
            && Increasing(all, f) && Product(all) * rest == m
            && forall i :: 0 <= i < |all| ==> all[i] == if i == 0 then Factor(f, e) else fs[i - 1]
  {
    hide Pow, IsPrime;
    var all := [Factor(f, e)] + fs;
    assert all[1..] == fs;
    IncreasingFrom(fs, NextFactor(f), f + 1);
    Regroup(Pow(f, e), Product(fs), rest);
  }

  lemma FactorsOfNone(f: nat)
    ensures Product([]) == 1 && Increasing([], f) && Pow(f, 0) == 1
  {
  }

  lemma IncreasingFrom(fs: seq<Factor>, hi: nat, lo: nat)
    requires Increasing(fs, hi) && lo <= hi
    ensures Increasing(fs, lo)
  {
  }

  // ---------------------------------------------------------------- the printed line

  /** " = p^k * q ...": the power is printed only above 1. */
  function Terms(fs: seq<Factor>, first: bool): string {
    if fs == [] then ""
    else
      (if first then " = " else " * ") + Decimal(fs[0].prime)
      + (if fs[0].power > 1 then "^" + Decimal(fs[0].power) else "") + Terms(fs[1..], false)
  }

  function Face(failedTests: nat, warnings: nat): string {
    if failedTests > 0 then " :(" else if warnings > 0 then " :|" else " :)"
  }

  /** What follows the factors: a last prime, or for a number without factors the face. */
  function Ending(fs: seq<Factor>, rest: nat, face: string): string {
    if rest <= 1 then "" else if fs == [] then face else " * " + Decimal(rest)
  }

  lemma SearchStarts(n: nat)
    requires 0 < n < U32
    ensures Searching(n, 2)
  {
  }

  ghost function Line(n: nat, failedTests: nat, warnings: nat): string
    requires n < U32
  {
    if n <= 1 then Decimal(n)
    else
      SearchStarts(n);
      var (fs, rest) := Factors(n, 2);
      Decimal(n) + Terms(fs, true) + Ending(fs, rest, Face(failedTests, warnings))
  }

  // ---------------------------------------------------------------- reading the line back

  /** Left to right: the product so far, the base of the term at hand, the number being read, and whether it is a power. */
  datatype Reader = Reader(done: nat, base: nat, current: nat, power: bool)

  function Term(r: Reader): nat {
    if r.power then Pow(r.base, r.current) else r.current
  }

  function ReadChar(r: Reader, c: char): Reader {
    if '0' <= c <= '9' then r.(current := r.current * 10 + CharToDigit(c))
    else if c == '^' then Reader(r.done, r.current, 0, true)
    else if c == '*' then Reader(r.done * Term(r), 0, 0, false)
    else if c == '=' then Reader(1, 0, 0, false)
    else r
  }

  function ReadAll(r: Reader, s: string): Reader {
    if s == "" then r else ReadChar(ReadAll(r, s[..|s| - 1]), s[|s| - 1])
  }

  /** The value of " = p^k * q ...". */
  function Evaluate(s: string): nat {
    var r := ReadAll(Reader(1, 0, 0, false), s);
    r.done * Term(r)
  }

  lemma {:induction false} ReadAppend(r: Reader, a: string, b: string)
    ensures ReadAll(r, a + b) == ReadAll(ReadAll(r, a), b)
    decreases |b|
  {
    if b == "" {
      assert a + b == a;
    } else {
      assert (a + b)[..|a + b| - 1] == a + b[..|b| - 1];
      ReadAppend(r, a, b[..|b| - 1]);
    }
  }

  lemma {:induction false} ReadDigits(r: Reader, ds: seq<nat>)
    requires r.current == 0 && forall i :: 0 <= i < |ds| ==> ds[i] < 10
    ensures ReadAll(r, Text(ds)) == r.(current := Value(ds, 10))
    decreases |ds|
  {
    if ds != [] {
      assert Text(ds)[..|ds| - 1] == Text(ds[..|ds| - 1]);
      ReadDigits(r, ds[..|ds| - 1]);
    }
  }

  lemma ReadNumber(r: Reader, n: nat)
    requires r.current == 0
    ensures ReadAll(r, Decimal(n)) == r.(current := n)
  {
    ReadDigits(r, Digits(n, 10));
    ValueOfDigits(n, 10);
  }

  lemma ReadOne(r: Reader, c: char)
    ensures ReadAll(r, [c]) == ReadChar(r, c)
  {
    assert [c][..0] == "";
  }

  lemma ReadSign(r: Reader, c: char)
    requires c == '=' || c == '*'
    ensures ReadAll(r, [' ', c, ' ']) == ReadChar(r, c)
  {
    assert [' ', c, ' '] == [' '] + ([c] + [' ']);
    ReadAppend(r, [' '], [c] + [' ']);
    ReadOne(r, ' ');
    ReadAppend(r, [c], [' ']);
    ReadOne(r, c);
    ReadOne(ReadChar(r, c), ' ');
  }

  /** One term, with or without a power. */
  lemma ReadTerm(r: Reader, f: Factor)
    requires r == Reader(r.done, 0, 0, false) && f.power >= 1
    ensures var t := ReadAll(r, Decimal(f.prime) + (if f.power > 1 then "^" + Decimal(f.power) else ""));
            t.done == r.done && Term(t) == Pow(f.prime, f.power)
  {
    hide Digits, Text, Decimal;
    ReadNumber(r, f.prime);
    if f.power > 1 {
      ReadAppend(r, Decimal(f.prime), "^" + Decimal(f.power));
      ReadAppend(r.(current := f.prime), "^", Decimal(f.power));
      ReadOne(r.(current := f.prime), '^');
      ReadNumber(Reader(r.done, f.prime, 0, true), f.power);
    } else {
      assert Decimal(f.prime) + "" == Decimal(f.prime);
      assert Pow(f.prime, 1) == f.prime * Pow(f.prime, 0);
    }
  }

  lemma {:induction false} ReadTerms(r: Reader, fs: seq<Factor>, first: bool)
    requires forall i :: 0 <= i < |fs| ==> fs[i].power >= 1
    ensures fs != [] ==>
      var t := ReadAll(r, Terms(fs, first));
      t.done * Term(t) == (if first then 1 else r.done * Term(r)) * Product(fs)
    decreases |fs|
  {
    if fs != [] {
      hide Digits, Text, Decimal, ReadAll, Term, Pow, Terms;
      var sign := if first then " = " else " * ";
      var term := Decimal(fs[0].prime) + (if fs[0].power > 1 then "^" + Decimal(fs[0].power) else "");
      var more := Terms(fs[1..], false);
      TermsSplit(fs, first);
      ReadAppend(r, sign, term + more);
      ReadSign(r, sign[1]);
      assert sign == [' ', sign[1], ' '];
      var r1 := ReadChar(r, sign[1]);
      ReadAppend(r1, term, more);
      ReadTerm(r1, fs[0]);
      var r2 := ReadAll(r1, term);
      ReadTerms(r2, fs[1..], false);
      if |fs| == 1 {
        assert Product(fs[1..]) == 1;
        ReadNothing(r2);
      }
      Associate(r1.done, Pow(fs[0].prime, fs[0].power), Product(fs[1..]));
    }
  }

  lemma TermsSplit(fs: seq<Factor>, first: bool)
    requires fs != []
    ensures Terms(fs, first) == (if first then " = " else " * ")
      + ((Decimal(fs[0].prime) + (if fs[0].power > 1 then "^" + Decimal(fs[0].power) else "")) + Terms(fs[1..], false))
    ensures Terms([], false) == ""
  {
  }

  lemma ReadNothing(r: Reader)
    ensures ReadAll(r, "") == r
  {
  }

  lemma Associate(a: nat, b: nat, c: nat)
    ensures a * b * c == a * (b * c)
  {
  }

  lemma {:induction false} IncreasingPowers(fs: seq<Factor>, lo: nat)
    requires Increasing(fs, lo)
    ensures forall i :: 0 <= i < |fs| ==> fs[i].power >= 1
    decreases |fs|
  {
    if fs != [] {
      IncreasingPowers(fs[1..], fs[0].prime + 1);
    }
  }

  /** The printed product evaluates to the number. */
  lemma TermsEvaluate(fs: seq<Factor>, lo: nat)
    requires fs != [] && Increasing(fs, lo)
    ensures Evaluate(Terms(fs, true)) == Product(fs)
  {
    hide ReadAll, Term, Terms;
    IncreasingPowers(fs, lo);
    ReadTerms(Reader(1, 0, 0, false), fs, true);
  }

  // ---------------------------------------------------------------- what the line says

  const SQUARE: nat := 65535 * 65535

  /** Below 65535^2 the factor stays below 2^16, where its square does not wrap. */
  lemma PrimeHasNoFactors(n: nat, f: nat)
    requires IsPrime(n) && n < SQUARE && Searching(n, f) && f <= 65535
    ensures Factors(n, f) == ([], n)
    decreases U32 - f
  {
    hide Reduced;
    SquareFits(f);
    if Guard(n, f) {
      NextSearching(n, f);
      MulStep(65535, f, f);
      MulStep(65535, f, 65535);
      MulStep(n, f, f);
      MulStep(1, f, n);
      assert n % f != 0;
      assert Reduced(n, f) == n by { NotDivided(n, f); }
      PrimeHasNoFactors(n, NextFactor(f));
    }
  }

  lemma NotDivided(n: nat, f: nat)
    requires n > 0 && f >= 2 && n % f != 0
    ensures Reduced(n, f) == n && Exponent(n, f) == 0
  {
  }

  /** The 32-bit square of this odd number is 2^32 - 7, the largest there is. */
  const ROOT: nat := 479772853

  /** From 65535^2 on some 32-bit square of a factor below n still exceeds n, at ROOT at the latest. */
  lemma LargePrimeHasNoFactors(n: nat, f: nat)
    requires IsPrime(n) && SQUARE <= n < U32 - 7 && Searching(n, f) && f <= ROOT
    ensures Factors(n, f) == ([], n)
    decreases ROOT - f
  {
    hide Reduced, Exponent, IsPrime, NoDivisorBelow, Factors;
    if Guard(n, f) {
      RootSquared();
      assert f < ROOT;
      FactorsStep(n, f);
      NotItself(n, f);
      LargePrimeHasNoFactors(n, NextFactor(f));
    } else {
      NoneLeft(n, f);
    }
  }

  lemma RootSquared()
    ensures (ROOT * ROOT) % U32 == U32 - 7 && ROOT % 2 == 1 && ROOT < SQUARE
  {
  }

  lemma NoneLeft(n: nat, f: nat)
    requires Searching(n, f) && !Guard(n, f)
    ensures Factors(n, f) == ([], n)
  {
  }

  /** Odd squares are 1 modulo 8, so just below 2^32 the wrapped square never exceeds n. */
  lemma OddSquare(f: nat)
    requires f % 2 == 1
    ensures (f * f) % U32 <= U32 - 7
  {
    var k := f / 2;
    assert f == 2 * k + 1;
    assert f * f == 4 * (k * (k + 1)) + 1 by { Square(k); }
    Consecutive(k);
    OneModEight(k * (k + 1) / 2);
  }

  lemma OneModEight(h: nat)
    ensures (8 * h + 1) % U32 <= U32 - 7
  {
    var q, x := (8 * h + 1) / U32, (8 * h + 1) % U32;
    assert x == 8 * (h - 0x2000_0000 * q) + 1;
  }

  /** So for a number from 2^32 - 7 on the guard always holds. */
  lemma TopGuard(n: nat, f: nat)
    requires U32 - 7 <= n && (f == 2 || f % 2 == 1)
    ensures Guard(n, f)
  {
    if f != 2 { OddSquare(f); }
  }

  lemma Square(k: nat)
    ensures (2 * k + 1) * (2 * k + 1) == 4 * (k * (k + 1)) + 1
  {
  }

  lemma {:induction false} Consecutive(k: nat)
    ensures k * (k + 1) % 2 == 0
  {
    if k > 0 {
      Consecutive(k - 1);
      assert k * (k + 1) == (k - 1) * k + 2 * k;
    }
  }

  /** A prime from 2^32 - 7 on is found as its own factor: the loop ends only by dividing it. */
  lemma TopPrimeIsFactored(n: nat, f: nat)
    requires IsPrime(n) && U32 - 7 <= n && Searching(n, f)
    ensures Factors(n, f) == ([Factor(n, 1)], 1)
    decreases U32 - f
  {
    hide Reduced, Exponent, IsPrime, Guard, NoDivisorBelow, Factors;
    TopGuard(n, f);
    FactorsStep(n, f);
    if f != n {
      NotItself(n, f);
      TopPrimeIsFactored(n, NextFactor(f));
    } else {
      DividedOut(n);
      LastFactor(NextFactor(f));
      assert [Factor(n, 1)] + [] == [Factor(n, 1)];
    }
  }

  lemma NotItself(n: nat, f: nat)
    requires IsPrime(n) && Searching(n, f) && f != n
    ensures Reduced(n, f) == n && Exponent(n, f) == 0
  {
    PrimeMeans(n, f);
    NotDivided(n, f);
  }

  lemma FactorsStep(m: nat, f: nat)
    requires Searching(m, f) && Guard(m, f)
    ensures Searching(Reduced(m, f), NextFactor(f))
    ensures var (fs, rest) := Factors(Reduced(m, f), NextFactor(f));
            Factors(m, f) == (if Exponent(m, f) > 0 then [Factor(f, Exponent(m, f))] + fs else fs, rest)
  {
    hide Reduced, Exponent, Guard, NoDivisorBelow;
    NextSearching(m, f);
  }

  lemma PrimeMeans(n: nat, f: nat)
    requires IsPrime(n) && f >= 2 && NoDivisorBelow(n, f)
    ensures n % f == 0 ==> f == n
  {
    if n % f == 0 && f > n {
      AtLeastFactor(n, f);
    }
  }

  lemma DividedOut(n: nat)
    requires n >= 2
    ensures Reduced(n, n) == 1 && Exponent(n, n) == 1
  {
    Divides(n, 1);
    DivUnique(n, n, 1, 0);
    ModSmall(1, n);
    assert Exponent(1, n) == 0 && Reduced(1, n) == 1;
  }

  /** With 1 left and the factor just below 2^32, the guard fails. */
  lemma LastFactor(f: nat)
    requires Searching(1, f) && f >= U32 - 7
    ensures Factors(1, f) == ([], 1)
  {
    var d := U32 - f;
    assert d == 3 || d == 5 || d == 7;
    assert (U32 - 3) * (U32 - 3) % U32 == 9 && (U32 - 5) * (U32 - 5) % U32 == 25 && (U32 - 7) * (U32 - 7) % U32 == 49;
  }

  /** The factorisation the line shows for a number that gets no face. */
  ghost function Shown(n: nat): seq<Factor>
    requires 2 <= n < U32
  {
    SearchStarts(n);
    var (fs, rest) := Factors(n, 2);
    if rest > 1 then fs + [Factor(rest, 1)] else fs
  }

  lemma {:induction false} ExtendFactors(fs: seq<Factor>, lo: nat, rest: nat)
    requires Increasing(fs, lo) && IsPrime(rest) && rest >= lo && forall i :: 0 <= i < |fs| ==> fs[i].prime < rest
    ensures Increasing(fs + [Factor(rest, 1)], lo) && Product(fs + [Factor(rest, 1)]) == Product(fs) * rest
    decreases |fs|
  {
    hide IsPrime;
    var all := fs + [Factor(rest, 1)];
    if fs == [] {
      assert all[1..] == [];
      assert Pow(rest, 1) == rest * Pow(rest, 0);
      assert Increasing(all[1..], rest + 1);
    } else {
      assert all[1..] == fs[1..] + [Factor(rest, 1)];
      ExtendFactors(fs[1..], fs[0].prime + 1, rest);
      Associate(Pow(fs[0].prime, fs[0].power), Product(fs[1..]), rest);
    }
  }

  lemma {:induction false} ExtendTerms(fs: seq<Factor>, first: bool, rest: nat)
    requires first ==> fs != []
    ensures Terms(fs + [Factor(rest, 1)], first) == Terms(fs, first) + " * " + Decimal(rest)
    decreases |fs|
  {
    hide Decimal, Terms;
    var all := fs + [Factor(rest, 1)];
    TermsSplit(all, first);
    if fs == [] {
      assert all[1..] == [];
      assert Terms(all, false) == " * " + (Decimal(rest) + "") + "";
      TermsSplit(all, false);
    } else {
      assert all[1..] == fs[1..] + [Factor(rest, 1)];
      ExtendTerms(fs[1..], false, rest);
      TermsSplit(fs, first);
    }
  }

  /**
   * For every composite 32-bit number the line shows its prime factorisation, primes increasing, and the printed
   * product evaluates back to the number.
   */
  lemma CompositeLine(n: nat, failedTests: nat, warnings: nat)
    requires 2 <= n < U32 && !IsPrime(n)
    ensures var fs := Shown(n);
            && Line(n, failedTests, warnings) == Decimal(n) + Terms(fs, true)
            && Increasing(fs, 2) && Product(fs) == n && Evaluate(Terms(fs, true)) == n
  {
    hide Terms, Decimal, Evaluate, IsPrime, Factors, Increasing, Product, Face;
    SearchStarts(n);
    FactorsCorrect(n, 2);
    var (fs, rest) := Factors(n, 2);
    FactorsOfNone(2);
    if rest > 1 {
      ExtendFactors(fs, 2, rest);
      if fs != [] { ExtendTerms(fs, true, rest); }
    }
    TermsEvaluate(Shown(n), 2);
    assert Line(n, failedTests, warnings) == Decimal(n) + Terms(Shown(n), true);
  }

  /** A prime below 2^32 - 7 is printed with a face. */
  lemma PrimeHasFace(n: nat, failedTests: nat, warnings: nat)
    requires 2 <= n < U32 - 7 && IsPrime(n)
    ensures Line(n, failedTests, warnings) == Decimal(n) + Face(failedTests, warnings)
  {
    hide Decimal, IsPrime, Factors, Face;
    SearchStarts(n);
    if n < SQUARE {
      PrimeHasNoFactors(n, 2);
    } else {
      LargePrimeHasNoFactors(n, 2);
    }
    assert Terms([], true) == "";
  }

  /** From there on no 32-bit square exceeds the number, so a prime is found as its own factor. */
  lemma TopPrimeLine(n: nat, failedTests: nat, warnings: nat)
    requires U32 - 7 <= n < U32 && IsPrime(n)
    ensures Line(n, failedTests, warnings) == Decimal(n) + " = " + Decimal(n)
  {
    hide Decimal, IsPrime, Factors, Face;
    SearchStarts(n);
    TopPrimeIsFactored(n, 2);
    TermsSplit([Factor(n, 1)], true);
    assert [Factor(n, 1)][1..] == [];
  }

  /**
   * A face is printed exactly for the primes below 2^32 - 7: a sad one after failures, a straight one after warnings
   * only, else a happy one. Larger primes are printed as their own factor.
   */
  lemma PrimeLine(n: nat, failedTests: nat, warnings: nat)
    requires 2 <= n < U32
    ensures Line(n, failedTests, warnings) in [Decimal(n) + " :(", Decimal(n) + " :|", Decimal(n) + " :)"] <==> IsPrime(n) && n < U32 - 7
    ensures IsPrime(n) && n < U32 - 7 && failedTests > 0 ==> Line(n, failedTests, warnings) == Decimal(n) + " :("
    ensures IsPrime(n) && n < U32 - 7 && failedTests == 0 && warnings > 0 ==> Line(n, failedTests, warnings) == Decimal(n) + " :|"
    ensures IsPrime(n) && n < U32 - 7 && failedTests == 0 && warnings == 0 ==> Line(n, failedTests, warnings) == Decimal(n) + " :)"
    ensures IsPrime(n) && n >= U32 - 7 ==> Line(n, failedTests, warnings) == Decimal(n) + " = " + Decimal(n)
  {
    hide Line, Decimal, IsPrime, Face, Terms, Product, Increasing, Evaluate, Shown;
    if IsPrime(n) && n < U32 - 7 {
      PrimeHasFace(n, failedTests, warnings);
      OneOfThree(Decimal(n), failedTests, warnings);
    } else if IsPrime(n) {
      TopPrimeLine(n, failedTests, warnings);
      NoFace(Decimal(n), Decimal(n));
    } else {
      CompositeLine(n, failedTests, warnings);
      SomeFactor(Shown(n), n);
      TermsBegin(Shown(n));
      NoFace(Decimal(n), Terms(Shown(n), true)[3..]);
      assert Decimal(n) + Terms(Shown(n), true) == Decimal(n) + " = " + Terms(Shown(n), true)[3..];
    }
  }

  lemma OneOfThree(number: string, failedTests: nat, warnings: nat)
    ensures number + Face(failedTests, warnings) in [number + " :(", number + " :|", number + " :)"]
    ensures failedTests > 0 ==> Face(failedTests, warnings) == " :("
    ensures failedTests == 0 && warnings > 0 ==> Face(failedTests, warnings) == " :|"
    ensures failedTests == 0 && warnings == 0 ==> Face(failedTests, warnings) == " :)"
  {
    var faces := [number + " :(", number + " :|", number + " :)"];
    assert faces[0] == number + " :(" && faces[1] == number + " :|" && faces[2] == number + " :)";
  }

  lemma NoFace(number: string, rest: string)
    ensures number + " = " + rest !in [number + " :(", number + " :|", number + " :)"]
  {
    var k, line := |number| + 1, number + " = " + rest;
    assert line[k] == '=' && (number + " :(")[k] == ':' && (number + " :|")[k] == ':' && (number + " :)")[k] == ':';
  }

  lemma SomeFactor(fs: seq<Factor>, n: nat)
    requires n >= 2 && Product(fs) == n
    ensures fs != []
  {
  }

  lemma TermsBegin(fs: seq<Factor>)
    requires fs != []
    ensures |Terms(fs, true)| >= 3 && Terms(fs, true)[..3] == " = "
  {
    hide Decimal;
  }

  /** How a factorisation looks. */
  lemma TermsLook()
    ensures Terms([Factor(2, 3), Factor(3, 2), Factor(5, 1)], true) == " = 2^3 * 3^2 * 5"
  {
    hide Decimal, Terms;
    SmallDecimals();
    var fs := [Factor(2, 3), Factor(3, 2), Factor(5, 1)];
    TermsSplit(fs, true);
    TermsSplit(fs[1..], false);
    TermsSplit(fs[1..][1..], false);
    assert fs[1..] == [Factor(3, 2), Factor(5, 1)] && fs[1..][1..] == [Factor(5, 1)] && fs[1..][1..][1..] == [];
  }

  lemma SmallDecimals()
    ensures Decimal(2) == "2" && Decimal(3) == "3" && Decimal(5) == "5"
  {
  }

  // ---------------------------------------------------------------- the method

  /** copyString: the characters of src and its NUL. */
  method CopyString(dst: array<char>, at: nat, src: string) returns (end: nat)
    requires '\0' !in src && at + |src| < dst.Length
    modifies dst
    ensures end == at + |src| && dst[..end] == old(dst[..at]) + src && dst[end] == '\0'
  {
    ghost var before := dst[..at];
    end := at;
    while end - at < |src|
      invariant at <= end <= at + |src| && dst[..end] == before + src[..end - at]
    {
      dst[end] := src[end - at];
      end := end + 1;
    }
    dst[end] := '\0';
  }

  /** numberToString in decimal, for unsigned. */
  method PutNumber(n: nat, s: array<char>, at: nat) returns (end: nat)
    requires n < U32 && at + |Decimal(n)| < s.Length
    modifies s
    ensures end == at + |Decimal(n)| && s[..end] == old(s[..at]) + Decimal(n) && s[end] == '\0'
  {
    hide Digits;
    assert Pow256(4) == U32;
    DecimalFits(n, 4);
    assert Window(n, 10, 0, U32 - 1) == Digits(n, 10);
    end := NumberToString(n, s, at, U32);
  }

  lemma {:induction false} TermsAppend(a: seq<Factor>, b: seq<Factor>, first: bool)
    ensures Terms(a + b, first) == Terms(a, first) + Terms(b, first && a == [])
    decreases |a|
  {
    hide Decimal, Terms;
    if a == [] {
      assert a + b == b;
      TermsSplitNone(first);
    } else {
      assert (a + b)[1..] == a[1..] + b;
      TermsSplit(a + b, first);
      TermsSplit(a, first);
      TermsAppend(a[1..], b, false);
    }
  }

  lemma TermsSplitNone(first: bool)
    ensures Terms([], first) == ""
  {
  }

  /** The inner loop: divide the factor out. */
  method DivideOut(m: nat, f: nat) returns (n: nat, power: nat)
    requires m > 0 && f >= 2
    ensures n == Reduced(m, f) && power == Exponent(m, f)
  {
    n, power := m, 0;
    while n % f == 0
      invariant n > 0 && Reduced(n, f) == Reduced(m, f) && power + Exponent(n, f) == Exponent(m, f)
      decreases n
    {
      Shrinks(n, f);
      power := power + 1;
      n := n / f;
    }
  }

  /** Print one factor. */
  method PutFactor(f: Factor, first: bool, s: array<char>, at: nat) returns (p: nat)
    requires f.prime < U32 && f.power < U32 && at + |Terms([f], first)| < s.Length
    modifies s
    ensures p == at + |Terms([f], first)| && s[..p] == old(s[..at]) + Terms([f], first) && s[p] == '\0'
  {
    hide Decimal, Terms;
    TermsSplit([f], first);
    assert [f][1..] == [];
    p := CopyString(s, at, if first then " = " else " * ");
    p := PutNumber(f.prime, s, p);
    if f.power > 1 {
      p := CopyString(s, p, "^");
      p := PutNumber(f.power, s, p);
    }
  }

  lemma {:induction false} SmallPower(m: nat, f: nat)
    requires 0 < m < U32 && f >= 2
    ensures Exponent(m, f) < U32 && Exponent(m, f) <= m
    decreases m
  {
    if m % f == 0 {
      Shrinks(m, f);
      SmallPower(m / f, f);
    }
  }

  /** What the loop still has to print behind the factors already printed. */
  ghost function Remaining(printed: seq<Factor>, m: nat, f: nat, face: string): string
    requires Searching(m, f)
  {
    var (fs, rest) := Factors(m, f);
    Terms(fs, printed == []) + Ending(printed + fs, rest, face)
  }

  /** One turn of the loop prints the next factor, if there is one. */
  lemma RemainingStep(printed: seq<Factor>, m: nat, f: nat, face: string)
    requires Searching(m, f) && Guard(m, f)
    ensures Searching(Reduced(m, f), NextFactor(f))
    ensures var k := Factor(f, Exponent(m, f));
            Remaining(printed, m, f, face)
            == if k.power > 0 then Terms([k], printed == []) + Remaining(printed + [k], Reduced(m, f), NextFactor(f), face)
               else Remaining(printed, Reduced(m, f), NextFactor(f), face)
  {
    hide Decimal, Terms, Factors, Reduced, Exponent, Guard, NoDivisorBelow;
    FactorsStep(m, f);
    var (fs, rest) := Factors(Reduced(m, f), NextFactor(f));
    var k := Factor(f, Exponent(m, f));
    if k.power > 0 {
      TermsAppend([k], fs, printed == []);
      assert printed + [k] + fs == printed + ([k] + fs);
    }
  }

  /**
   * strTotalTests: the line, with its NUL. The source gives it a fixed buffer; here the buffer has room for the line.
   */
  method StrTotalTests(numTotalTests: nat, failedTests: nat, warnings: nat, s: array<char>)
    requires numTotalTests < U32 && |Line(numTotalTests, failedTests, warnings)| < s.Length
    modifies s
    ensures var line := Line(numTotalTests, failedTests, warnings); s[..|line|] == line && s[|line|] == '\0'
  {
    hide Decimal, Terms, Factors, Reduced, Exponent, NoDivisorBelow, Guard, Remaining, Ending, Face, Line;
    ghost var face := Face(failedTests, warnings);
    ghost var line := Line(numTotalTests, failedTests, warnings);
    LineStart(numTotalTests, failedTests, warnings);
    var p := PutNumber(numTotalTests, s, 0);
    assert s[..p] == Decimal(numTotalTests);
    if numTotalTests <= 1 { return; }
    var n, numFactors, factor := numTotalTests, 0, 2;
    ghost var printed: seq<Factor> := [];
    while (factor * factor) % U32 <= n
      invariant Searching(n, factor) && |printed| == numFactors
      invariant 0 <= p < s.Length && s[p] == '\0' && line == s[..p] + Remaining(printed, n, factor, face)
      decreases U32 - factor
    {
      GuardHolds(n, factor);
      RemainingStep(printed, n, factor, face);
      SmallPower(n, factor);
      ghost var k := Factor(factor, Exponent(n, factor));
      var power;
      n, power := DivideOut(n, factor);
      if power > 0 {
        p := PutFactor(Factor(factor, power), numFactors == 0, s, p);
        numFactors := numFactors + 1;
        printed := printed + [k];
      }
      factor := factor + if factor == 2 then 1 else 2;
    }
    GuardFails(n, factor);
    RemainingEnd(printed, n, factor, face);
    p := PutEnding(n, numFactors, failedTests, warnings, printed, s, p);
    assert s[..p] == line;
  }

  /** What follows the loop. */
  method PutEnding(n: nat, numFactors: nat, failedTests: nat, warnings: nat, ghost printed: seq<Factor>, s: array<char>, at: nat)
    returns (p: nat)
    requires n < U32 && numFactors == |printed| && at < s.Length && s[at] == '\0'
    requires at + |Ending(printed, n, Face(failedTests, warnings))| < s.Length
    modifies s
    ensures p == at + |Ending(printed, n, Face(failedTests, warnings))|
    ensures s[..p] == old(s[..at]) + Ending(printed, n, Face(failedTests, warnings)) && s[p] == '\0'
  {
    hide Decimal;
    p := at;
    if n > 1 {
      if numFactors == 0 {
        p := CopyString(s, p, if failedTests > 0 then " :(" else if warnings > 0 then " :|" else " :)");
      } else {
        p := CopyString(s, p, " * ");
        p := PutNumber(n, s, p);
      }
    }
  }

  lemma GuardHolds(m: nat, f: nat)
    requires (f * f) % U32 <= m
    ensures Guard(m, f)
  {
  }

  lemma GuardFails(m: nat, f: nat)
    requires (f * f) % U32 > m
    ensures !Guard(m, f)
  {
  }

  lemma RemainingEnd(printed: seq<Factor>, m: nat, f: nat, face: string)
    requires Searching(m, f) && !Guard(m, f)
    ensures Remaining(printed, m, f, face) == Ending(printed, m, face)
  {
    hide Decimal;
    TermsSplitNone(printed == []);
    assert printed + [] == printed;
  }

  lemma LineStart(n: nat, failedTests: nat, warnings: nat)
    requires n < U32
    ensures n <= 1 ==> Line(n, failedTests, warnings) == Decimal(n)
    ensures n > 1 ==> Searching(n, 2)
                      && Line(n, failedTests, warnings) == Decimal(n) + Remaining([], n, 2, Face(failedTests, warnings))
  {
    hide Decimal, Terms, Factors;
    if n > 1 {
      SearchStarts(n);
      var fs := Factors(n, 2).0;
      assert [] + fs == fs;
      var face := Face(failedTests, warnings);
      assert Decimal(n) + Terms(fs, true) + Ending(fs, Factors(n, 2).1, face)
          == Decimal(n) + (Terms(fs, true) + Ending(fs, Factors(n, 2).1, face));
    }
  }
}
