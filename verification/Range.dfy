/** Decimal formatting in a fixed byte buffer and the Content-Range header built from it. */
module Range {

  const MIN_INT64: int := -0x8000_0000_0000_0000
  const MAX_INT64: int := 0x7fff_ffff_ffff_ffff

  type Int64 = n: int | MIN_INT64 <= n <= MAX_INT64

  /** Two's complement negation: the minimum is its own negation. */
  function Negate(n: Int64): Int64 {
    if n == MIN_INT64 then MIN_INT64 else -n
  }

  function DigitChar(d: nat): char
    requires d < 10
  {
    ('0' as int + d) as char
  }

  predicate IsDigit(c: char) {
    '0' <= c <= '9'
  }

  /** The decimal digits of n, most significant first; zero has none. */
  function Digits(n: nat): string {
    if n == 0 then "" else Digits(n / 10) + [DigitChar(n % 10)]
  }

  /** What the formatter writes for each 64-bit integer. */
  function Formatted(n: Int64): string {
    if n == 0 then "0"
    else if n == MIN_INT64 then "-"
    else if n < 0 then "-" + Digits(-n)
    else Digits(n)
  }

  function Pow10(k: nat): nat {
    if k == 0 then 1 else 10 * Pow10(k - 1)
  }

  lemma DigitsStep(m: nat)
    requires m > 0
    ensures Digits(m) == Digits(m / 10) + [DigitChar(m % 10)]
  {
  }

  /** One digit less, one power less. */
  lemma PowerStep(m: nat, k: nat)
    requires 0 < m < Pow10(k)
    ensures k > 0 && m / 10 < Pow10(k - 1)
  {
  }

  lemma NineteenDigitsAreEnough(m: int)
    requires m <= MAX_INT64
    ensures m < Pow10(19)
  {
    assert Pow10(8) == 100_000_000;
    assert Pow10(16) == 10_000_000_000_000_000;
  }

  /** The digit loop: fills a 20-byte buffer from its end; the index never goes below one. */
  method FillDigits(b: array<char>, n: nat) returns (i: nat)
    requires b.Length == 20 && n < Pow10(19)
    modifies b
    ensures 1 <= i <= 20 && b[i..] == Digits(n)
  {
    hide Digits, Pow10, DigitChar;
    var m: nat := n;
    i := b.Length;
    NoDigits();
    while m > 0
      invariant 1 <= i <= 20 && m < Pow10(i - 1)
      invariant Digits(n) == Digits(m) + b[i..]
      decreases m
    {
      DigitsStep(m);
      PowerStep(m, i - 1);
      ghost var tail := b[i..];
      i := i - 1;
      b[i] := DigitChar(m % 10);
      assert b[i..] == [DigitChar(m % 10)] + tail;
      m := m / 10;
    }
  }

  lemma NoDigits()
    ensures Digits(0) == ""
  {
  }

  method Itoa(n: Int64) returns (s: string)
    ensures s == Formatted(n)
  {
    hide Digits, Pow10;
    if n == 0 {
      return "0";
    }
    var m := n;
    var neg := m < 0;
    if neg {
      m := Negate(m);
    }
    var b := new char[20](_ => '0');
    var i := b.Length;
    if m > 0 {
      NineteenDigitsAreEnough(m);
      i := FillDigits(b, m);
    }
    if neg {
      ghost var tail := b[i..];
      i := i - 1;
      b[i] := '-';
      assert b[i..] == ['-'] + tail;
    }
    return b[i..];
  }

  predicate AllDigits(s: string) {
    forall k :: 0 <= k < |s| ==> IsDigit(s[k])
  }

  /** The number a digit string denotes, read independently of how it was written. */
  function DigitsValue(s: string): nat
    requires AllDigits(s)
  {
    if s == "" then 0
    else 10 * DigitsValue(s[..|s| - 1]) + (s[|s| - 1] as int - '0' as int)
  }

  /** An optional minus sign, then a canonical run of digits: no leading zero, no "-0". */
  predicate Canonical(s: string) {
    var digits := if s != "" && s[0] == '-' then s[1..] else s;
    && digits != ""
    && AllDigits(digits)
    && (digits[0] == '0' ==> s == "0")
  }

  function ParseInt(s: string): int
    requires Canonical(s)
  {
    if s[0] == '-' then -(DigitsValue(s[1..]) as int) else DigitsValue(s)
  }

  lemma {:induction false} DigitsRoundTrip(n: nat)
    requires n > 0
    ensures Digits(n) != "" && Digits(n)[0] != '0'
    ensures AllDigits(Digits(n))
    ensures DigitsValue(Digits(n)) == n
  {
    var s := Digits(n);
    if n >= 10 {
      DigitsRoundTrip(n / 10);
    }
    assert s == Digits(n / 10) + [DigitChar(n % 10)];
    assert s[..|s| - 1] == Digits(n / 10);
  }

  /** Every 64-bit integer except the minimum is written as its canonical decimal. */
  lemma FormattedIsCanonicalDecimal(n: Int64)
    ensures n != MIN_INT64 <==> Canonical(Formatted(n))
    ensures n != MIN_INT64 ==> ParseInt(Formatted(n)) == n
  {
    if n > 0 {
      DigitsRoundTrip(n);
      assert IsDigit(Formatted(n)[0]);
    } else if MIN_INT64 < n < 0 {
      DigitsRoundTrip(-n);
      assert Formatted(n)[1..] == Digits(-n);
      assert IsDigit(Digits(-n)[0]);
    } else if n == 0 {
      assert "0"[..0] == "";
    }
  }

  lemma FormattedInjective(a: Int64, b: Int64)
    requires Formatted(a) == Formatted(b)
    ensures a == b
  {
    FormattedIsCanonicalDecimal(a);
    FormattedIsCanonicalDecimal(b);
  }

  lemma DigitsOnly(s: string)
    requires AllDigits(s)
    ensures '-' !in s && '/' !in s
    ensures forall k :: 0 < k < |s| + 1 ==> (['-'] + s)[k] != '-'
    ensures '/' !in ['-'] + s
  {
  }

  lemma DigitsOfPositive(n: nat)
    requires n > 0
    ensures Digits(n) != "" && AllDigits(Digits(n))
  {
    DigitsRoundTrip(n);
  }

  /** A minus sign can only come first, and no slash occurs. */
  lemma FormattedShape(n: Int64)
    ensures Formatted(n) != ""
    ensures forall k :: 0 < k < |Formatted(n)| ==> Formatted(n)[k] != '-'
    ensures '/' !in Formatted(n)
  {
    hide Digits, AllDigits;
    if n > 0 {
      DigitsOfPositive(n);
      DigitsOnly(Digits(n));
    } else if MIN_INT64 < n < 0 {
      DigitsOfPositive(-n);
      DigitsOnly(Digits(-n));
      assert Formatted(n) == ['-'] + Digits(-n);
    }
  }

  /** The decimal form of a natural number, zero included. */
  function Decimal(n: nat): string {
    if n == 0 then "0" else Digits(n)
  }

  lemma DecimalShape(n: nat)
    ensures Decimal(n) != "" && AllDigits(Decimal(n)) && DigitsValue(Decimal(n)) == n
  {
    if n == 0 {
      assert "0"[..0] == "";
    } else {
      DigitsRoundTrip(n);
    }
  }

  function ContentRange(first: Int64, last: Int64, total: Int64): string {
    Formatted(first) + "-" + Formatted(last) + "/" + Formatted(total)
  }

  method FormatContentRange(first: Int64, last: Int64, total: Int64) returns (s: string)
    ensures s == ContentRange(first, last, total)
  {
    var f := Itoa(first);
    var l := Itoa(last);
    var t := Itoa(total);
    s := f + "-" + l + "/" + t;
  }

  /** If the part before the separator cannot contain it past its first character, a split is unique. */
  lemma SplitUnique(a: string, b: string, sep: char, ra: string, rb: string)
    requires a != "" && b != ""
    requires forall k :: 0 < k < |a| ==> a[k] != sep
    requires forall k :: 0 < k < |b| ==> b[k] != sep
    requires a + [sep] + ra == b + [sep] + rb
    ensures a == b && ra == rb
  {
    var s := a + [sep] + ra;
    assert s[|a|] == sep && s[|b|] == sep;
    assert a == s[..|a|] && b == s[..|b|];
    assert ra == s[|a| + 1..] && rb == s[|b| + 1..];
  }

  /** Two headers agree only when all three numbers do, on every triple of 64-bit integers. */
  lemma ContentRangeInjective(a1: Int64, a2: Int64, a3: Int64, b1: Int64, b2: Int64, b3: Int64)
    requires ContentRange(a1, a2, a3) == ContentRange(b1, b2, b3)
    ensures a1 == b1 && a2 == b2 && a3 == b3
  {
    FormattedShape(a1);
    FormattedShape(b1);
    FormattedShape(a2);
    FormattedShape(b2);
    var ra, rb := Formatted(a2) + "/" + Formatted(a3), Formatted(b2) + "/" + Formatted(b3);
    HeaderSplit(Formatted(a1), ra, Formatted(a2), Formatted(a3));
    HeaderSplit(Formatted(b1), rb, Formatted(b2), Formatted(b3));
    SplitUnique(Formatted(a1), Formatted(b1), '-', ra, rb);
    SplitUnique(Formatted(a2), Formatted(b2), '/', Formatted(a3), Formatted(b3));
    FormattedInjective(a1, b1);
    FormattedInjective(a2, b2);
    FormattedInjective(a3, b3);
  }

  lemma HeaderSplit(f: string, r: string, l: string, t: string)
    requires r == l + "/" + t
    ensures f + "-" + l + "/" + t == f + ['-'] + r
    ensures r == l + ['/'] + t
  {
  }

  lemma TwentyFour()
    ensures Digits(24) == "24"
  {
    assert Digits(2) == Digits(0) + [DigitChar(2)];
    assert Digits(24) == Digits(2) + [DigitChar(4)];
    assert DigitChar(2) == '2' && DigitChar(4) == '4';
  }

  lemma Hundred()
    ensures Digits(100) == "100"
  {
    assert Digits(1) == Digits(0) + [DigitChar(1)];
    assert Digits(10) == Digits(1) + [DigitChar(0)];
    assert Digits(100) == Digits(10) + [DigitChar(0)];
    assert DigitChar(1) == '1' && DigitChar(0) == '0';
  }

  /** A header as it is sent. */
  lemma ContentRangeExample()
    ensures ContentRange(0, 24, 100) == "0-24/100"
  {
    hide Digits;
    TwentyFour();
    Hundred();
  }
}
