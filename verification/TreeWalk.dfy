/** The shape of the walk behind the tree keystream generator, as plain arithmetic.

    Nodes of a complete binary tree are numbered as in a heap: the root is 1, the children
    of z are 2z and 2z + 1, and the leaves of a tree of height k are 2^k .. 2^(k+1) - 1.
    Everything here holds for every height. */
module TreeWalk {
  import opened Bits

  /** The proper ancestors of z below which the path to z turns left, from the root down. */
  ghost function LeftAncestors(z: nat): (s: seq<nat>)
    requires z >= 1
    ensures forall i :: 0 <= i < |s| ==> 1 <= s[i] < z
  {
    if z == 1 then []
    else if z % 2 == 0 then LeftAncestors(z / 2) + [z / 2]
    else LeftAncestors(z / 2)
  }

  /** The first descendant of z, going left only, whose number is at least m. */
  ghost function Leftmost(z: nat, m: nat): (r: nat)
    requires z >= 1
    ensures r >= m && r >= z
    decreases m - z
  {
    if z >= m then z else Leftmost(2 * z, m)
  }

  lemma {:induction false} LeftmostIsLeaf(z: nat, m: nat)
    requires 1 <= z < 2 * m
    ensures m <= Leftmost(z, m) < 2 * m
    decreases m - z
  {
    if z < m {
      LeftmostIsLeaf(2 * z, m);
    }
  }

  /** A node at depth at most k has at most k left turns above it. */
  lemma {:induction false} StackDepth(z: nat, k: nat)
    requires 1 <= z < Pow2(k + 1)
    ensures |LeftAncestors(z)| <= k
    decreases k
  {
    if z > 1 {
      StackDepth(z / 2, k - 1);
    }
  }

  /** Left turns are entered further and further down: the i-th has a number of at least 2^i. */
  lemma {:induction false} TurnsGoDown(z: nat)
    requires z >= 1
    ensures var s := LeftAncestors(z);
            z >= Pow2(|s|) && forall i :: 0 <= i < |s| ==> s[i] >= Pow2(i)
    decreases z
  {
    if z > 1 {
      TurnsGoDown(z / 2);
    }
  }

  /** Popping the last left turn leaves the left turns above it: the stack discipline. */
  lemma {:induction false} PopLeftTurn(z: nat)
    requires z >= 1 && LeftAncestors(z) != []
    ensures var s := LeftAncestors(z); var a := s[|s| - 1];
            LeftAncestors(2 * a + 1) == s[..|s| - 1]
    decreases z
  {
    var s := LeftAncestors(z);
    var a := s[|s| - 1];
    assert (2 * a + 1) / 2 == a;
    if z % 2 == 0 {
      assert a == z / 2;
      assert s[..|s| - 1] == LeftAncestors(a);
    } else {
      PopLeftTurn(z / 2);
    }
  }

  lemma {:induction false} LeftmostDoubles(w: nat, h: nat)
    requires 1 <= w < 2 * h
    ensures Leftmost(w, 2 * h) == 2 * Leftmost(w, h)
    decreases h - w
  {
    if w < h {
      LeftmostDoubles(2 * w, h);
    } else {
      assert Leftmost(w, h) == w;
      assert Leftmost(w, 2 * h) == Leftmost(2 * w, 2 * h) == 2 * w;
    }
  }

  /** The right child of a starts exactly at the leaf after z. */
  ghost predicate StartsNext(a: nat, z: nat, m: nat) {
    2 * a + 1 < 2 * m && Leftmost(2 * a + 1, m) == z + 1
  }

  /** The right sibling below the last left turn starts exactly at the next leaf, and only
      the last leaf has no left turn above it. */
  lemma {:induction false} NextLeaf(z: nat, k: nat)
    requires Pow2(k) <= z < 2 * Pow2(k)
    ensures LeftAncestors(z) == [] <==> z == 2 * Pow2(k) - 1
    ensures var s := LeftAncestors(z); s != [] ==> StartsNext(s[|s| - 1], z, Pow2(k))
    decreases k
  {
    if k > 0 {
      NextLeaf(z / 2, k - 1);
      var s := LeftAncestors(z);
      if z % 2 == 1 && s != [] {
        StartsNextDoubles(s[|s| - 1], z, Pow2(k - 1));
      }
    }
  }

  lemma StartsNextDoubles(a: nat, z: nat, h: nat)
    requires z % 2 == 1 && StartsNext(a, z / 2, h)
    ensures StartsNext(a, z, 2 * h)
  {
    LeftmostDoubles(2 * a + 1, h);
  }

  /** The left turn above the last leaf but one is the parent of the last two leaves. */
  lemma {:induction false} LastLeavesParent(k: nat)
    requires k >= 1
    ensures LeftAncestors(2 * Pow2(k) - 2) == [Pow2(k) - 1]
  {
    var p := Pow2(k) - 1;
    assert (2 * Pow2(k) - 2) / 2 == p;
    assert LeftAncestors(p) == [] by {
      assert Pow2(k - 1) <= p < 2 * Pow2(k - 1);
      NextLeaf(p, k - 1);
    }
  }

  /** The node reached from the root by reading the bits of t from the top: after the bits
      above position b have been read, the walk is at t / 2^b. */
  lemma ReadBit(t: nat, b: nat)
    requires b >= 1
    ensures t / Pow2(b - 1) == 2 * (t / Pow2(b)) + (t / Pow2(b - 1)) % 2
  {
    DivDiv2(t, Pow2(b - 1));
  }

  lemma DivDiv2(t: nat, h: nat)
    requires h > 0
    ensures t / h / 2 == t / (2 * h)
  {
    var q, r := t / h / 2, t / h % 2;
    var u := t % h;
    assert t == (2 * q + r) * h + u;
    assert (2 * q + r) * h == q * (2 * h) + r * h;
    assert 0 <= r * h <= h by { if r == 0 { assert r * h == 0; } else { assert r == 1; } }
    DivUnique(t, 2 * h, q, r * h + u);
  }

  /** Adding a multiple of 2^k does not change the bits below position k. */
  lemma BitOfSum(x: nat, n: nat, q: nat, k: nat, b: nat)
    requires b < k && x == q * Pow2(k) + n
    ensures (x / Pow2(b)) % 2 == (n / Pow2(b)) % 2
  {
    SplitPower(q, k, b);
    EvenMultiple(x, n, q * Pow2(k - b - 1), Pow2(b));
  }

  lemma EvenMultiple(x: nat, n: nat, m: nat, p: nat)
    requires p > 0 && x == (2 * m) * p + n
    ensures (x / p) % 2 == (n / p) % 2
  {
    AddMultiple(n, 2 * m, p);
    EvenShift(m, n / p);
  }

  lemma EvenShift(m: nat, d: nat)
    ensures (2 * m + d) % 2 == d % 2
  {
  }

  lemma SplitPower(q: nat, k: nat, b: nat)
    requires b < k
    ensures q * Pow2(k) == (2 * (q * Pow2(k - b - 1))) * Pow2(b)
  {
    var c, p := Pow2(k - b - 1), Pow2(b);
    Pow2Add(k - b, b);
    assert Pow2(k) == (2 * c) * p;
    assert q * ((2 * c) * p) == (2 * (q * c)) * p;
  }

  lemma AddMultiple(n: nat, m: nat, p: nat)
    requires p > 0
    ensures (m * p + n) / p == m + n / p
  {
    var d, r := n / p, n % p;
    assert n == d * p + r;
    assert m * p + n == (m + d) * p + r;
    DivUnique(m * p + n, p, m + d, r);
  }
}
