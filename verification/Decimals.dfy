/** Decimal numbers as the servers print and read them. */
module Decimals {
  import opened Bits

  predicate IsDigit(c: byte) {
    48 <= c <= 57
  }

  predicate AllDigits(s: seq<byte>) {
    forall i :: 0 <= i < |s| ==> IsDigit(s[i])
  }

  /** The number written by digits; no digits count as 0. */
  function Number(s: seq<byte>): nat
    requires AllDigits(s)
  {
    if s == [] then 0 else 10 * Number(s[..|s| - 1]) + (s[|s| - 1] - 48)
  }

  /** Decimal digits of a number, as the stream operator prints it. */
  function Digits(n: nat): (s: seq<byte>)
    ensures |s| >= 1 && AllDigits(s)
  {
    if n < 10 then [48 + n] else Digits(n / 10) + [48 + n % 10]
  }

  /** Reading printed digits gives the number back. */
  lemma {:induction false} NumberOfDigits(n: nat)
    ensures Number(Digits(n)) == n
    decreases n
  {
    if n < 10 {
      assert [48 + n][..0] == [];
    } else {
      NumberOfDigits(n / 10);
      var d: seq<byte> := [48 + n % 10];
      assert (Digits(n / 10) + d)[..|Digits(n / 10) + d| - 1] == Digits(n / 10);
    }
  }

  // ---- atoi ----

  predicate IsSpace(c: byte) {
    c == 32 || 9 <= c <= 13
  }

  /** The number at the front of a string; 0 when there is none. */
  function LeadingNumber(s: seq<byte>, value: nat): nat {
    if s == [] || !IsDigit(s[0]) then value else LeadingNumber(s[1..], 10 * value + (s[0] - 48))
  }

  /** atoi, without its overflow: white space, a sign and digits are read, the rest is ignored. */
  function Atoi(s: seq<byte>): int {
    if s == [] then 0
    else if IsSpace(s[0]) then Atoi(s[1..])
    else if s[0] == 45 then var v: int := LeadingNumber(s[1..], 0); -v
    else if s[0] == 43 then LeadingNumber(s[1..], 0)
    else LeadingNumber(s, 0)
  }

  lemma {:induction false} LeadingDigits(a: seq<byte>, b: seq<byte>, value: nat)
    requires AllDigits(a)
    ensures LeadingNumber(a + b, value) == LeadingNumber(b, LeadingNumber(a, value))
    decreases |a|
  {
    if a == [] {
      assert a + b == b;
    } else {
      assert (a + b)[1..] == a[1..] + b;
      LeadingDigits(a[1..], b, 10 * value + (a[0] - 48));
    }
  }

  /** What was printed is read back. */
  lemma {:induction false} AtoiOfDigits(n: nat)
    ensures Atoi(Digits(n)) == n
    decreases n
  {
    LeadingOfDigits(n);
    assert IsDigit(Digits(n)[0]);
  }

  lemma {:induction false} LeadingOfDigits(n: nat)
    ensures LeadingNumber(Digits(n), 0) == n
    decreases n
  {
    if n >= 10 {
      var d: seq<byte> := [48 + n % 10];
      LeadingDigits(Digits(n / 10), d, 0);
      LeadingOfDigits(n / 10);
      OneDigit(n % 10, n / 10);
    } else {
      OneDigit(n, 0);
    }
  }

  lemma OneDigit(d: nat, value: nat)
    requires d < 10
    ensures LeadingNumber([48 + d], value) == 10 * value + d
  {
    assert [48 + d][1..] == [];
    assert LeadingNumber([], 10 * value + d) == 10 * value + d;
  }

  /** 1024 is printed as its four digits, and " -12a" is read as -12. */
  lemma KnownDecimals()
    ensures Digits(1024) == [49, 48, 50, 52]
    ensures Atoi([32, 45, 49, 50, 97]) == -12
  {
    assert [32, 45, 49, 50, 97][1..] == [45, 49, 50, 97] && [45, 49, 50, 97][1..] == [49, 50, 97];
    assert [49, 50, 97][1..] == [50, 97] && [50, 97][1..] == [97];
  }
}
