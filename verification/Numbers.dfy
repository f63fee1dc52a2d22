/** Decimal numbers as printf writes them and strtoull reads them. */
module Numbers {

  predicate Digit(c: char) { '0' <= c <= '9' }

  predicate AllDigits(s: string) { forall i :: 0 <= i < |s| ==> Digit(s[i]) }

  const DIGITS: string := "0123456789"

  /** %d of a number that is not negative. */
  function Dec(n: nat): (s: string)
    ensures |s| >= 1 && AllDigits(s)
  {
    if n < 10 then [DIGITS[n]] else Dec(n / 10) + [DIGITS[n % 10]]
  }

  function ToNat(s: string): nat
    requires AllDigits(s)
  {
    if s == "" then 0 else ToNat(s[..|s| - 1]) * 10 + (s[|s| - 1] as int - '0' as int)
  }

  lemma {:induction false} DecToNat(n: nat)
    ensures ToNat(Dec(n)) == n
  {
    if n >= 10 {
      DecToNat(n / 10);
      assert Dec(n)[..|Dec(n)| - 1] == Dec(n / 10);
    }
  }

  function Pow10(k: nat): nat { if k == 0 then 1 else 10 * Pow10(k - 1) }

  lemma {:induction false} DecLength(n: nat, k: nat)
    requires k >= 1 && n < Pow10(k)
    ensures |Dec(n)| <= k
  {
    if n >= 10 {
      DecLength(n / 10, k - 1);
    }
  }

  /** The leading digits of a text. */
  function LeadingDigits(s: string): (r: string)
    ensures AllDigits(r) && |r| <= |s| && r == s[..|r|]
    ensures AllDigits(s) ==> r == s
  {
    if s == "" || !Digit(s[0]) then "" else [s[0]] + LeadingDigits(s[1..])
  }

  const ULLONG: nat := 0x1_0000_0000_0000_0000
  const SSIZE: nat := 0x8000_0000_0000_0000

  /** strtoull(s, NULL, 10) for text without leading blanks: an optional minus sign, digits,
      saturation above the largest value. */
  function Strtoull(s: string): (r: nat)
    ensures r < ULLONG
  {
    var negative := s != "" && s[0] == '-';
    var n := ToNat(LeadingDigits(if negative then s[1..] else s));
    if n >= ULLONG then ULLONG - 1
    else if negative && n > 0 then ULLONG - n
    else n
  }

  /** The cast from unsigned long long to ssize_t. */
  function Signed(x: nat): int
    requires x < ULLONG
  {
    if x < SSIZE then x else x - ULLONG
  }

  lemma {:induction false} LeadingOf(d: string, x: string)
    requires AllDigits(d) && (x != "" ==> !Digit(x[0]))
    ensures LeadingDigits(d + x) == d
  {
    if d == "" {
      assert d + x == x;
    } else {
      assert (d + x)[1..] == d[1..] + x;
      LeadingOf(d[1..], x);
    }
  }

  /** A number, whatever follows it, is read up to 2^64 - 1. */
  lemma StrtoullReads(n: nat, x: string)
    requires x != "" ==> !Digit(x[0])
    ensures Strtoull(Dec(n) + x) == if n < 18446744073709551616 then n else 18446744073709551615
  {
    LeadingOf(Dec(n), x);
    DecToNat(n);
    assert Digit((Dec(n) + x)[0]);
  }

  /** With a minus sign it is taken from 2^64, so that the cast gives the negative number; beyond
      2^64 the cast gives -1. */
  lemma StrtoullNegates(n: nat, x: string)
    requires x != "" ==> !Digit(x[0])
    ensures var r := Signed(Strtoull("-" + Dec(n) + x));
            && (n <= 9223372036854775808 ==> r == 0 - n)
            && (9223372036854775808 < n < 18446744073709551616 ==> r == 18446744073709551616 - n)
            && (n >= 18446744073709551616 ==> r == -1)
  {
    var s := "-" + Dec(n) + x;
    assert s[1..] == Dec(n) + x;
    LeadingOf(Dec(n), x);
    DecToNat(n);
  }

  /** Text that is no number is read as zero. */
  lemma StrtoullOfNothing(x: string)
    requires x != "" ==> !Digit(x[0]) && x[0] != '-'
    ensures Strtoull(x) == 0
  {
  }

  /** What the client prints as its body length is what the server reads. */
  lemma LengthRoundTrip(n: nat)
    requires n < SSIZE
    ensures Signed(Strtoull(Dec(n))) == n
    ensures |Dec(n)| <= 19
  {
    DecToNat(n);
    assert Digit(Dec(n)[0]);
    assert Pow10(6) == 1_000_000;
    assert Pow10(12) == 1_000_000_000_000;
    assert Pow10(18) == 1_000_000_000_000_000_000;
    assert Pow10(19) == 10_000_000_000_000_000_000;
    DecLength(n, 19);
  }
}
