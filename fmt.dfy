/** Go's integer formatting as the call renderer uses it: the `%d` and
    `%#08x` verbs of package fmt applied to a `uint64`, together with a
    reader for the digit strings they produce. */
module Fmt {

  /** Go's `uint64`. */
  type uint64 = x: int | 0 <= x < 0x1_0000_0000_0000_0000

  /** b to the power k. */
  function Pow(b: nat, k: nat): nat
  {
    if k == 0 then 1 else b * Pow(b, k - 1)
  }

  /** The digit character for d, lower-case beyond 9 as Go writes it. */
  function DigitChar(d: nat): (c: char)
    requires d < 16
    ensures DigitValue(c) == d
    ensures IsDigit(c, d + 1)
  {
    if d < 10 then ('0' as int + d) as char else ('a' as int + d - 10) as char
  }

  /** The value of a digit character ('0'-'9', 'a'-'f'); 0 for anything else. */
  function DigitValue(c: char): nat
  {
    if '0' <= c <= '9' then c as int - '0' as int
    else if 'a' <= c <= 'f' then c as int - 'a' as int + 10
    else 0
  }

  /** c is a digit of the given base, written the way Go writes it. */
  predicate IsDigit(c: char, base: nat)
  {
    ('0' <= c <= '9' && c as int - '0' as int < base)
    || ('a' <= c <= 'f' && c as int - 'a' as int + 10 < base)
  }

  /** Every character of s is a digit of the given base. */
  predicate AllDigits(s: string, base: nat)
  {
    forall i :: 0 <= i < |s| ==> IsDigit(s[i], base)
  }

  /** The digits of n in the given base, most significant first, with no
      leading zero (Go's strconv formatting of an unsigned integer). */
  function Digits(n: nat, base: nat): (s: string)
    requires 2 <= base <= 16
    ensures |s| >= 1 && AllDigits(s, base)
    ensures s[0] == '0' <==> n == 0
    ensures n == 0 ==> s == "0"
    decreases n
  {
    if n < base then [DigitChar(n)]
    else
      DivStep(n, base);
      Digits(n / base, base) + [DigitChar(n % base)]
  }

  /** Dividing by the base makes progress and leaves a digit. */
  lemma DivStep(n: nat, base: nat)
    requires 2 <= base <= n
    ensures 1 <= n / base < n && n % base < base
    ensures n == n / base * base + n % base
  {
  }

  /** Reads a string of digits back as a number, most significant first. */
  function ParseDigits(s: string, base: nat): nat
  {
    if s == [] then 0
    else ParseDigits(s[..|s| - 1], base) * base + DigitValue(s[|s| - 1])
  }

  /** width copies of the character c. */
  function Fill(width: nat, c: char): (r: string)
    ensures |r| == width
    ensures forall i :: 0 <= i < width ==> r[i] == c
  {
    if width == 0 then "" else Fill(width - 1, c) + [c]
  }

  /** s left-padded with c to at least width characters; never truncated. */
  function PadLeft(s: string, width: nat, c: char): (r: string)
    ensures |r| == if |s| >= width then |s| else width
    ensures r == Fill(|r| - |s|, c) + s
  {
    if |s| >= width then s else Fill(width - |s|, c) + s
  }

  /** Go's `fmt.Sprintf("%d", n)` for an unsigned n. */
  function FormatDecimal(n: uint64): string
  {
    Digits(n, 10)
  }

  /** Go's `fmt.Sprintf("%#08x", n)`: "0x" followed by the lower-case hex
      digits of n zero-padded to at least 8 digits. The prefix does not
      count toward the width. */
  function FormatHex08(n: uint64): string
  {
    "0x" + PadLeft(Digits(n, 16), 8, '0')
  }

  lemma DivBound(n: nat, b: nat, m: nat)
    requires b > 0
    ensures n / b < m <==> n < b * m
  {
    var q, r := n / b, n % b;
    assert n == q * b + r && 0 <= r < b;
    if q < m {
      assert q * b <= (m - 1) * b;
    } else {
      assert m * b <= q * b;
    }
  }

  lemma PowAtLeastBase(b: nat, k: nat)
    requires b >= 1 && k >= 1
    ensures Pow(b, k) >= b
    decreases k
  {
    if k > 1 {
      PowAtLeastBase(b, k - 1);
    }
  }

  /** The digit string of n has at most k digits exactly when n < base^k. */
  lemma {:induction false} DigitsLength(n: nat, base: nat, k: nat)
    requires 2 <= base <= 16 && k >= 1
    ensures |Digits(n, base)| <= k <==> n < Pow(base, k)
    decreases n
  {
    if n < base {
      PowAtLeastBase(base, k);
    } else {
      var q := n / base;
      DivStep(n, base);
      DigitsStep(n, base);
      if k == 1 {
        assert Pow(base, 1) == base;
      } else {
        var p := Pow(base, k - 1);
        assert Pow(base, k) == base * p;
        DigitsLength(q, base, k - 1);
        DivBound(n, base, p);
      }
    }
  }

  /** One more digit for each division by the base. */
  lemma DigitsStep(n: nat, base: nat)
    requires 2 <= base <= n && base <= 16
    ensures |Digits(n, base)| == |Digits(n / base, base)| + 1
  {
  }

  /** Reading the digits of n back gives n. */
  lemma {:induction false} ParseDigitsOfDigits(n: nat, base: nat)
    requires 2 <= base <= 16
    ensures ParseDigits(Digits(n, base), base) == n
    decreases n
  {
    var s := Digits(n, base);
    if n < base {
      assert s[..|s| - 1] == [];
    } else {
      var q, r := n / base, n % base;
      DivStep(n, base);
      assert s[..|s| - 1] == Digits(q, base) && s[|s| - 1] == DigitChar(r);
      ParseDigitsOfDigits(q, base);
      assert ParseDigits(s, base) == q * base + r;
    }
  }

  /** Leading zeros do not change the value read. */
  lemma {:induction false} ParseDigitsLeadingZeros(z: nat, s: string, base: nat)
    ensures ParseDigits(Fill(z, '0') + s, base) == ParseDigits(s, base)
    decreases z, |s|
  {
    if z == 0 {
      assert Fill(z, '0') + s == s;
    } else if s == [] {
      var t := Fill(z, '0');
      assert t + s == t;
      assert t[..z - 1] == Fill(z - 1, '0');
      ParseDigitsLeadingZeros(z - 1, [], base);
      assert Fill(z - 1, '0') + [] == Fill(z - 1, '0');
    } else {
      var t := Fill(z, '0') + s;
      assert t[..|t| - 1] == Fill(z, '0') + s[..|s| - 1];
      ParseDigitsLeadingZeros(z, s[..|s| - 1], base);
    }
  }

  /** `%d` output is plain decimal digits with no padding, and reads back as n. */
  lemma DecimalForm(n: uint64)
    ensures AllDigits(FormatDecimal(n), 10)
    ensures FormatDecimal(n)[0] == '0' ==> FormatDecimal(n) == "0"
    ensures ParseDigits(FormatDecimal(n), 10) == n
    ensures 1 <= |FormatDecimal(n)| <= 20
  {
    ParseDigitsOfDigits(n, 10);
    PowTable();
    DigitsLength(n, 10, 20);
  }

  /** `%#08x` output is "0x" and at least 8 lower-case hex digits; exactly 8
      when n fits in 32 bits; otherwise n's own digits with no zero padding
      (at most 16). The digits read back as n. */
  lemma Hex08Form(n: uint64)
    ensures |FormatHex08(n)| >= 10 && FormatHex08(n)[..2] == "0x"
    ensures AllDigits(FormatHex08(n)[2..], 16)
    ensures ParseDigits(FormatHex08(n)[2..], 16) == n
    ensures |FormatHex08(n)| == 10 <==> n < 0x1_0000_0000
    ensures |FormatHex08(n)| <= 18
    ensures n >= 0x1_0000_0000 ==> FormatHex08(n)[2] != '0'
  {
    var d := Digits(n, 16);
    var p := PadLeft(d, 8, '0');
    assert FormatHex08(n)[2..] == p;
    assert p == Fill(|p| - |d|, '0') + d;
    forall i | 0 <= i < |p|
      ensures IsDigit(p[i], 16)
    {
      if i >= |p| - |d| {
        assert p[i] == d[i - (|p| - |d|)];
      }
    }
    ParseDigitsOfDigits(n, 16);
    ParseDigitsLeadingZeros(|p| - |d|, d, 16);
    PowTable();
    DigitsLength(n, 16, 8);
    DigitsLength(n, 16, 16);
    if n >= 0x1_0000_0000 {
      assert |d| > 8 && p == d;
    }
  }

  /** The powers the width bounds need. */
  lemma PowTable()
    ensures Pow(16, 8) == 0x1_0000_0000
    ensures Pow(16, 16) == 0x1_0000_0000_0000_0000
    ensures Pow(10, 20) == 100_000_000_000_000_000_000
  {
    PowSplit(16, 4, 4);
    PowSplit(16, 8, 8);
    PowSplit(10, 5, 5);
    PowSplit(10, 10, 10);
    assert Pow(16, 4) == 0x1_0000;
    assert Pow(10, 5) == 100_000;
  }

  lemma {:induction false} PowSplit(b: nat, i: nat, j: nat)
    ensures Pow(b, i + j) == Pow(b, i) * Pow(b, j)
    decreases i
  {
    if i > 0 {
      PowSplit(b, i - 1, j);
      assert Pow(b, i + j) == b * Pow(b, i - 1 + j);
    }
  }
}
