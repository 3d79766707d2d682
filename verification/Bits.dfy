/** Bytes, 32-bit words and the bitwise operators of C on non-negative integers.

    The ciphers work on `unsigned char` and `unsigned int`.  A byte is an integer below
    256 and a word one below 2^32; sums are written `% 256` or `% 2^32` where the source
    truncates.  Exclusive-or, and, or are defined bit by bit, so that their laws are
    proved rather than assumed. */
module Bits {

  type byte = x: int | 0 <= x < 256
  type word = x: int | 0 <= x < 0x1_0000_0000

  function Pow2(k: nat): (p: nat)
    ensures p >= 1
  {
    if k == 0 then 1 else 2 * Pow2(k - 1)
  }

  /** `a ^ b` */
  function Xor(a: nat, b: nat): nat
    decreases a + b
  {
    if a == 0 && b == 0 then 0
    else (a % 2 + b % 2) % 2 + 2 * Xor(a / 2, b / 2)
  }

  /** `a & b` */
  function And(a: nat, b: nat): nat
    decreases a
  {
    if a == 0 then 0
    else (if a % 2 == 1 && b % 2 == 1 then 1 else 0) + 2 * And(a / 2, b / 2)
  }

  /** `a | b` */
  function Or(a: nat, b: nat): nat
    decreases a + b
  {
    if a == 0 && b == 0 then 0
    else (if a % 2 + b % 2 == 0 then 0 else 1) + 2 * Or(a / 2, b / 2)
  }

  lemma {:induction false} OrBelow(a: nat, b: nat, k: nat)
    requires a < Pow2(k) && b < Pow2(k)
    ensures Or(a, b) < Pow2(k)
    decreases k
  {
    if a != 0 || b != 0 {
      OrBelow(a / 2, b / 2, k - 1);
    }
  }

  lemma {:induction false} XorBelow(a: nat, b: nat, k: nat)
    requires a < Pow2(k) && b < Pow2(k)
    ensures Xor(a, b) < Pow2(k)
    decreases k
  {
    if a != 0 || b != 0 {
      XorBelow(a / 2, b / 2, k - 1);
    }
  }

  lemma Pow2Values()
    ensures Pow2(1) == 2 && Pow2(8) == 256 && Pow2(16) == 65536 && Pow2(32) == 0x1_0000_0000
  {
    assert Pow2(4) == 16;
    Pow2Add(4, 4);
    Pow2Add(8, 8);
    Pow2Add(16, 16);
  }

  function XorByte(a: byte, b: byte): byte
  {
    Pow2Values();
    XorBelow(a, b, 8);
    Xor(a, b)
  }

  function XorWord(a: word, b: word): word
  {
    Pow2Values();
    XorBelow(a, b, 32);
    Xor(a, b)
  }

  function OrWord(a: word, b: word): word
  {
    Pow2Values();
    OrBelow(a, b, 32);
    Or(a, b)
  }

  /** `x & 0xff` */
  function LowByte(x: word): (r: byte)
    ensures r == x % 256
  {
    AndFF(x);
    And(x, 255)
  }

  function AddWord(a: word, b: word): word
  {
    var s: int := a + b;
    s % 0x1_0000_0000
  }

  function MulWord(a: word, b: word): word
  {
    var p: int := a * b;
    p % 0x1_0000_0000
  }

  lemma {:induction false} XorZero(a: nat)
    ensures Xor(a, 0) == a
    decreases a
  {
    if a != 0 {
      XorZero(a / 2);
    }
  }

  lemma {:induction false} XorComm(a: nat, b: nat)
    ensures Xor(a, b) == Xor(b, a)
    decreases a + b
  {
    if a != 0 || b != 0 {
      XorComm(a / 2, b / 2);
    }
  }

  lemma {:induction false} XorAssoc(a: nat, b: nat, c: nat)
    ensures Xor(Xor(a, b), c) == Xor(a, Xor(b, c))
    decreases a + b + c
  {
    if a != 0 || b != 0 || c != 0 {
      XorAssoc(a / 2, b / 2, c / 2);
      XorAssocHalves(a, b, c);
      XorAssocParity(a, b, c);
      SameHalfAndParity(Xor(Xor(a, b), c), Xor(a, Xor(b, c)));
    }
  }

  lemma XorAssocHalves(a: nat, b: nat, c: nat)
    ensures Xor(Xor(a, b), c) / 2 == Xor(Xor(a / 2, b / 2), c / 2)
    ensures Xor(a, Xor(b, c)) / 2 == Xor(a / 2, Xor(b / 2, c / 2))
  {
    XorHalves(a, b);
    XorHalves(b, c);
    XorHalves(Xor(a, b), c);
    XorHalves(a, Xor(b, c));
  }

  lemma XorAssocParity(a: nat, b: nat, c: nat)
    ensures Xor(Xor(a, b), c) % 2 == Xor(a, Xor(b, c)) % 2
  {
    hide Xor;
    var ab, bc := Xor(a, b), Xor(b, c);
    XorParity(a, b);
    XorParity(b, c);
    XorParity(ab, c);
    XorParity(a, bc);
    BitSumAssoc(a % 2, b % 2, c % 2);
  }

  lemma BitSumAssoc(p: nat, q: nat, r: nat)
    requires p < 2 && q < 2 && r < 2
    ensures ((p + q) % 2 + r) % 2 == (p + (q + r) % 2) % 2
  {
  }

  lemma SameHalfAndParity(x: nat, y: nat)
    requires x / 2 == y / 2 && x % 2 == y % 2
    ensures x == y
  {
  }

  lemma XorHalves(a: nat, b: nat)
    ensures Xor(a, b) / 2 == Xor(a / 2, b / 2)
  {
  }

  lemma XorParity(a: nat, b: nat)
    ensures Xor(a, b) % 2 == (a % 2 + b % 2) % 2
  {
  }

  lemma {:induction false} XorSelf(a: nat)
    ensures Xor(a, a) == 0
    decreases a
  {
    if a != 0 {
      XorSelf(a / 2);
    }
  }

  /** Exclusive-or with the same value twice gives the original back. */
  lemma XorCancels(a: nat, b: nat)
    ensures Xor(Xor(a, b), b) == a
  {
    XorAssoc(a, b, b);
    XorSelf(b);
    XorZero(a);
  }

  /** A mask of the form 2^k - 1 keeps the low k bits. */
  lemma {:induction false} AndMask(x: nat, k: nat)
    ensures And(x, Pow2(k) - 1) == Mod(x, Pow2(k))
    decreases k
  {
    if k == 0 {
      AndZero(x);
    } else {
      AndMask(x / 2, k - 1);
      AndMaskStep(x, Pow2(k - 1));
    }
  }

  /** `x & 0xff` */
  lemma AndFF(x: nat)
    ensures And(x, 255) == x % 256
  {
    Pow2Values();
    AndMask(x, 8);
  }

  lemma AndMaskStep(x: nat, h: nat)
    requires h >= 1 && And(x / 2, h - 1) == Mod(x / 2, h)
    ensures And(x, 2 * h - 1) == Mod(x, 2 * h)
  {
    ModHalf(x, h);
    AndOddMask(x, 2 * h - 1);
    hide And, Mod;
    assert (2 * h - 1) / 2 == h - 1;
  }

  /** The remainder, as a function the proofs can keep closed. */
  function Mod(x: nat, d: nat): nat
    requires d > 0
  {
    x % d
  }

  lemma AndOddMask(x: nat, m: nat)
    requires m % 2 == 1
    ensures And(x, m) == x % 2 + 2 * And(x / 2, m / 2)
  {
  }

  lemma ModHalf(x: nat, h: nat)
    requires h > 0
    ensures Mod(x, 2 * h) == x % 2 + 2 * Mod(x / 2, h)
  {
    var q, r := x / 2 / h, x / 2 % h;
    assert x / 2 == q * h + r;
    ModOfSplit(x, q, h, r);
  }

  lemma ModOfSplit(x: nat, q: nat, h: nat, r: nat)
    requires h > 0 && r < h
    requires x / 2 == q * h + r
    ensures x % (2 * h) == x % 2 + 2 * r
  {
    var m := x % 2 + 2 * r;
    assert x == q * (2 * h) + m by {
      assert x == 2 * (x / 2) + x % 2;
      assert 2 * (q * h) == q * (2 * h);
    }
    DivUnique(x, 2 * h, q, m);
  }

  lemma SameLowByte(x: nat, m: nat, q: nat)
    requires x == m * 256 + q
    ensures x % 256 == q % 256
  {
  }

  lemma SumMod256(x: nat, y: nat)
    ensures (x % 256 + y % 256) % 256 == (x + y) % 256
  {
    SameLowByte(x + y, x / 256 + y / 256, x % 256 + y % 256);
  }

  lemma MulGap(a: nat, b: nat, d: nat)
    requires a > b
    ensures a * d >= b * d + d
  {
    var k := a - b - 1;
    assert a * d == (b + 1 + k) * d == b * d + d + k * d;
  }

  lemma DivUnique(x: nat, d: nat, q: nat, r: nat)
    requires d > 0 && r < d && x == q * d + r
    ensures x / d == q && x % d == r
  {
    var q', r' := x / d, x % d;
    assert x == q' * d + r';
    if q > q' {
      MulGap(q, q', d);
    } else if q < q' {
      MulGap(q', q, d);
    }
  }

  lemma {:induction false} AndZero(x: nat)
    ensures And(x, 0) == 0
    decreases x
  {
    if x != 0 {
      AndZero(x / 2);
    }
  }

  lemma {:induction false} AndComm(a: nat, b: nat)
    ensures And(a, b) == And(b, a)
    decreases a
  {
    if a == 0 {
      AndZero(b);
    } else if b == 0 {
      AndZero(a);
    } else {
      AndComm(a / 2, b / 2);
    }
  }

  lemma {:induction false} AndSelf(x: nat)
    ensures And(x, x) == x
    decreases x
  {
    if x != 0 {
      AndSelf(x / 2);
    }
  }

  /** Testing bit k with `(1 << k) & n`. */
  lemma {:induction false} AndBit(k: nat, n: nat)
    ensures (And(Pow2(k), n) != 0) <==> (n / Pow2(k)) % 2 == 1
    decreases k
  {
    if k == 0 {
      assert And(1, n) == n % 2 + 2 * And(0, n / 2);
    } else {
      AndBit(k - 1, n / 2);
      var h := Pow2(k - 1);
      assert Pow2(k) / 2 == h && Pow2(k) % 2 == 0;
      DivDiv(n, h);
    }
  }

  lemma DivDiv(n: nat, h: nat)
    requires h > 0
    ensures n / 2 / h == n / (2 * h)
  {
    var q, r := n / 2 / h, n / 2 % h;
    assert n / 2 == q * h + r;
    assert n == q * (2 * h) + (n % 2 + 2 * r) by { assert 2 * (q * h) == q * (2 * h); }
    DivUnique(n, 2 * h, q, n % 2 + 2 * r);
  }

  ghost predicate IsPow2(n: nat) {
    exists k: nat :: n == Pow2(k)
  }

  /** `(i & (i - 1)) == 0` tests for a power of two. */
  lemma {:induction false} AndPredecessor(i: nat)
    requires i >= 1
    ensures And(i, i - 1) == 0 <==> IsPow2(i)
    decreases i
  {
    if i == 1 {
      assert i == Pow2(0);
      assert And(1, 0) == 0 by { AndZero(1); }
    } else if i % 2 == 1 {
      assert And(i, i - 1) == 2 * (i / 2) by {
        assert (i - 1) / 2 == i / 2;
        AndSelf(i / 2);
      }
      OddIsNotPow2(i);
    } else {
      assert And(i, i - 1) == 2 * And(i / 2, i / 2 - 1) by {
        assert (i - 1) / 2 == i / 2 - 1;
      }
      AndPredecessor(i / 2);
      HalfPow2(i);
    }
  }

  lemma OddIsNotPow2(i: nat)
    requires i > 1 && i % 2 == 1
    ensures !IsPow2(i)
  {
  }

  lemma HalfPow2(i: nat)
    requires i >= 2 && i % 2 == 0
    ensures IsPow2(i) <==> IsPow2(i / 2)
  {
    if k: nat :| i / 2 == Pow2(k) {
      assert i == Pow2(k + 1);
    }
    if k: nat :| i == Pow2(k) {
      assert i / 2 == Pow2(k - 1);
    }
  }

  lemma {:induction false} Pow2Add(a: nat, b: nat)
    ensures Pow2(a + b) == Pow2(a) * Pow2(b)
    decreases b
  {
    if b != 0 {
      Pow2Add(a, b - 1);
      assert Pow2(a) * (2 * Pow2(b - 1)) == 2 * (Pow2(a) * Pow2(b - 1));
    }
  }
}
