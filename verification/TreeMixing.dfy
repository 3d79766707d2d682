/** What the macros of the tree cipher do to a pair of words, said without them: the rotations move
    bytes, the turns over a table set up from a key can be undone, so different trees never meet,
    and the table is what one flat run of 2048 swaps leaves. */
module TreeMixing {
  import opened Bits
  import opened TreeWalk
  import opened TreeCipher
  import opened KeyTable
  import opened TreeKeystream

  // ---- the rotations ----

  lemma {:induction false} OrShifted(a: nat, b: nat, k: nat)
    requires b < Pow2(k)
    ensures Or(a * Pow2(k), b) == a * Pow2(k) + b
    decreases k
  {
    hide Or;
    if k == 0 {
      OrZero(a);
    } else {
      var h := Pow2(k - 1);
      assert a * Pow2(k) == 2 * (a * h);
      OrShifted(a, b / 2, k - 1);
      OrOfEven(a * h, b);
    }
  }

  lemma {:induction false} OrZero(a: nat)
    ensures Or(a, 0) == a
    decreases a
  {
    if a != 0 {
      OrZero(a / 2);
    }
  }

  lemma OrOfEven(c: nat, b: nat)
    ensures Or(2 * c, b) == b % 2 + 2 * Or(c, b / 2)
  {
    if c == 0 && b == 0 {
      OrZero(0);
    }
  }

  lemma Rot8Is(x: word)
    ensures Rot8(x) == x % 0x100_0000 * 256 + x / 0x100_0000
  {
    DropTopByte(x);
    Pow2Values();
    OrShifted(x % 0x100_0000, x / 0x100_0000, 8);
  }

  lemma Rot24Is(x: word)
    ensures Rot24(x) == x % 256 * 0x100_0000 + x / 256
  {
    assert MulWord(x, 0x100_0000) == x % 256 * 0x100_0000;
    Pow2Values();
    Pow2Add(16, 8);
    OrShifted(x % 256, x / 256, 24);
  }

  /** A rotation by 24 undoes one by 8 and the other way round. */
  lemma RotationsCancel(x: word)
    ensures Rot24(Rot8(x)) == x && Rot8(Rot24(x)) == x
  {
    Rot8Is(x);
    Rot24Is(x);
    Rot24Is(Rot8(x));
    Rot8Is(Rot24(x));
    hide Rot8, Rot24;
    DivUnique(Rot8(x), 256, x % 0x100_0000, x / 0x100_0000);
    DivUnique(Rot24(x), 0x100_0000, x % 256, x / 256);
  }

  /** Rotating by 8 moves every byte one place up, and the top byte to the bottom. */
  lemma Rot8Bytes(x: word, k: nat)
    requires k < 4
    ensures ByteOf(Rot8(x), k) == ByteOf(x, (k + 3) % 4)
    ensures ByteOf(Rot24(x), k) == ByteOf(x, (k + 1) % 4)
  {
    hide Rot8, Rot24, ByteOf;
    RotatedUp(x, k);
    RotationsCancel(x);
    RotatedUp(Rot24(x), (k + 1) % 4);
    assert ((k + 1) % 4 + 3) % 4 == k;
  }

  lemma RotatedUp(x: word, k: nat)
    requires k < 4
    ensures ByteOf(Rot8(x), k) == ByteOf(x, (k + 3) % 4)
  {
    var a, h := x / 0x100_0000, x % 0x100_0000;
    Rot8Is(x);
    hide Rot8;
    ShiftedByte(h, a, k);
    if k > 0 {
      LowBytes(a, h, k - 1);
    }
  }

  // ---- undoing the macros ----

  /** The macro d undone. */
  function Unmixed(p: Pair, z: word): Pair {
    var x := (p.x - p.y) % 0x1_0000_0000;
    Pair((x - z) % 0x1_0000_0000, (p.y - x) % 0x1_0000_0000)
  }

  lemma MixUndone(p: Pair, z: word)
    ensures Unmixed(Mix(p, z), z) == p
  {
    var m := 0x1_0000_0000;
    var x: int, y: int := (p.x + z) % m, (p.y + (p.x + z) % m) % m;
    WrapBack(x, y);
    WrapBack(p.x, z);
    WrapBack(p.y, x);
  }

  lemma WrapBack(a: word, b: word)
    ensures ((a + b) % 0x1_0000_0000 - b) % 0x1_0000_0000 == a
  {
  }

  /** The low bytes of the words a look-up leaves are different for different low bytes. */
  ghost predicate Separates(F: Table) {
    forall i: byte, j: byte :: XorWord(i, F[i]) % 256 == XorWord(j, F[j]) % 256 ==> i == j
  }

  lemma {:induction false} XorLowPart(a: nat, b: nat, k: nat)
    ensures Mod(Xor(a, b), Pow2(k)) == Xor(Mod(a, Pow2(k)), Mod(b, Pow2(k)))
    decreases k
  {
    if k > 0 {
      var h := Pow2(k - 1);
      XorLowPart(a / 2, b / 2, k - 1);
      ModHalf(a, h);
      ModHalf(b, h);
      ModHalf(Xor(a, b), h);
      XorHalves(a, b);
      XorParity(a, b);
      XorOfDigits(a % 2, Mod(a / 2, h), b % 2, Mod(b / 2, h));
    } else {
      assert Mod(a, 1) == 0 && Mod(b, 1) == 0 && Mod(Xor(a, b), 1) == 0;
    }
  }

  lemma XorOfDigits(p: nat, a: nat, q: nat, b: nat)
    requires p < 2 && q < 2
    ensures Xor(p + 2 * a, q + 2 * b) == (p + q) % 2 + 2 * Xor(a, b)
  {
    var u, v := p + 2 * a, q + 2 * b;
    assert u / 2 == a && u % 2 == p && v / 2 == b && v % 2 == q;
    XorHalves(u, v);
    XorParity(u, v);
    hide Xor;
    assert Xor(u, v) == Xor(u, v) % 2 + 2 * (Xor(u, v) / 2);
  }

  lemma XorLowByte(a: word, b: word)
    ensures XorWord(a, b) % 256 == XorByte(a % 256, b % 256)
  {
    Pow2Values();
    XorLowPart(a, b, 8);
  }

  /** Every table set up from a key separates. */
  lemma SetupSeparates(key: Key)
    ensures Separates(Setup(key))
  {
    var G, F := Rounds(key, ROUNDS), Setup(key);
    ColumnsArePermutations(key, ROUNDS, 0);
    hide Rounds, Xor;
    forall i: byte, j: byte | XorWord(i, F[i]) % 256 == XorWord(j, F[j]) % 256 ensures i == j {
      UnmaskedByte(G[i], i);
      UnmaskedByte(G[j], j);
      assert F[i] == XorWord(G[i], i) && F[j] == XorWord(G[j], j);
      OnePlace(G, i, j);
    }
  }

  lemma OnePlace(G: Table, i: byte, j: byte)
    requires ColumnDistinct(G, 0)
    ensures G[i] % 256 == G[j] % 256 ==> i == j
  {
    assert forall a, b :: 0 <= a < b < 256 ==> ByteOf(G[a], 0) != ByteOf(G[b], 0);
  }

  lemma UnmaskedByte(g: word, i: byte)
    ensures XorWord(i, XorWord(g, i)) % 256 == g % 256
  {
    XorComm(i, XorWord(g, i));
    XorCancels(g, i);
  }

  /** A look-up undone: the byte that was looked up is the one that fits. */
  ghost function Unlooked(F: Table, v: word): word {
    if i: byte :| XorWord(i, F[i]) % 256 == v % 256 then XorWord(v, F[i]) else v
  }

  lemma LookUndone(F: Table, x: word)
    requires Separates(F)
    ensures Unlooked(F, Look(F, x)) == x
  {
    var b := x % 256;
    var v := Look(F, x);
    XorLowByte(x, F[b]);
    XorLowByte(b, F[b]);
    assert XorWord(b, F[b]) % 256 == v % 256;
    hide Xor;
    var i: byte :| XorWord(i, F[i]) % 256 == v % 256 && Unlooked(F, v) == XorWord(v, F[i]);
    assert i == b;
    XorCancels(x, F[b]);
  }

  /** The macro f undone. */
  ghost function LeftUndone(F: Table, p: Pair): Pair {
    Pair(Unlooked(F, Rot24(Unlooked(F, Rot24(p.x)))), Rot8(Unlooked(F, Rot8(Unlooked(F, p.y)))))
  }

  /** The macro g undone. */
  ghost function RightUndone(F: Table, p: Pair): Pair {
    Pair(0xFFFF_FFFF - Rot8(Unlooked(F, Rot8(Unlooked(F, p.x)))), Unlooked(F, Rot24(Unlooked(F, Rot24(p.y)))))
  }

  lemma UpUndone(F: Table, x: word)
    requires Separates(F)
    ensures Unlooked(F, Rot24(Unlooked(F, Rot24(Rot8(Look(F, Rot8(Look(F, x)))))))) == x
  {
    hide Rot8, Rot24, Look, Unlooked, Separates;
    var a := Look(F, x);
    var b := Look(F, Rot8(a));
    RotationsCancel(b);
    LookUndone(F, Rot8(a));
    RotationsCancel(a);
    LookUndone(F, x);
  }

  lemma DownUndone(F: Table, x: word)
    requires Separates(F)
    ensures Rot8(Unlooked(F, Rot8(Unlooked(F, Look(F, Rot24(Look(F, Rot24(x)))))))) == x
  {
    hide Rot8, Rot24, Look, Unlooked, Separates;
    var a := Look(F, Rot24(x));
    LookUndone(F, Rot24(a));
    RotationsCancel(a);
    LookUndone(F, Rot24(x));
    RotationsCancel(x);
  }

  /** Both turns over a separating table, as the tables of all keys are, can be undone. */
  lemma TurnsUndone(F: Table, p: Pair)
    requires Separates(F)
    ensures LeftUndone(F, TurnLeft(p, F)) == p
    ensures RightUndone(F, TurnRight(p, F)) == p
  {
    hide Rot8, Rot24, Look, Unlooked, Separates;
    UpUndone(F, p.x);
    DownUndone(F, p.y);
    DownUndone(F, 0xFFFF_FFFF - p.x);
    UpUndone(F, p.y);
  }

  /** Under every key, walks down two different trees have different values at every node: a seek to
      one leaf of two trees never leaves the same registers. */
  lemma {:induction false} TreesApart(key: Key, s: word, t: word, z: word)
    requires s != t && z >= 1
    ensures Node(MacrosOf(Setup(key)), s, z) != Node(MacrosOf(Setup(key)), t, z)
    decreases z
  {
    if z > 1 {
      hide Mix, TurnLeft, TurnRight, Unmixed, LeftUndone, RightUndone, Setup, Separates;
      var F, m := Setup(key), MacrosOf(Setup(key));
      var p, q := Node(m, s, z / 2), Node(m, t, z / 2);
      TreesApart(key, s, t, z / 2);
      MixUndone(p, z / 2);
      MixUndone(q, z / 2);
      SetupSeparates(key);
      TurnsUndone(F, Mix(p, z / 2));
      TurnsUndone(F, Mix(q, z / 2));
    }
  }

  /** Seek the same leaf in two trees under one key. */
  method SeekBoth(key: Key, s: word, t: word, leaf: word) returns (a: CryptKey, b: CryptKey)
    ensures s != t ==> (a.x, a.y) != (b.x, b.y)
  {
    hide Setup, Node, OnPath, ClampSafe, Next, Leaf;
    a := SoughtTo(key, s, leaf);
    b := SoughtTo(key, t, leaf);
    if s != t {
      TreesApart(key, s, t, LEAVES + leaf % LEAVES);
    }
  }

  method SoughtTo(key: Key, tree: word, leaf: word) returns (L: CryptKey)
    ensures fresh(L) && Pair(L.x, L.y) == Node(MacrosOf(Setup(key)), tree, LEAVES + leaf % LEAVES)
  {
    hide Setup, Node, ClampSafe, Next, Leaf;
    L := new CryptKey();
    L.Init(key);
    var _ := L.Seek(tree, leaf);
  }

  // ---- the walk over a table of zeros ----

  /** The rotation by 16 that two rotations by 8, or by 24, make. */
  function HalfTurn(x: word): word {
    x % 65536 * 65536 + x / 65536
  }

  function Zeros(): Table {
    seq(256, i => 0)
  }

  lemma LookNothing(x: word)
    ensures Look(Zeros(), x) == x
  {
    XorZero(x);
  }

  lemma RotatedTwice(x: word)
    ensures Rot8(Rot8(x)) == HalfTurn(x) && Rot24(Rot24(x)) == HalfTurn(x)
  {
    UpTwice(x);
    hide Rot8, Rot24;
    UpTwice(HalfTurn(x));
    DivUnique(HalfTurn(x), 65536, x % 65536, x / 65536);
    RotationsCancel(HalfTurn(x));
    RotationsCancel(Rot8(HalfTurn(x)));
  }

  lemma UpTwice(x: word)
    ensures Rot8(Rot8(x)) == HalfTurn(x)
  {
    var a, b := x / 65536, x % 65536;
    var p, q := a / 256, a % 256;
    DivUnique(x, 0x100_0000, p, q * 65536 + b);
    Rot8Is(x);
    Rot8Is(Rot8(x));
    hide Rot8;
    DivUnique(Rot8(x), 0x100_0000, q, b * 256 + p);
  }

  /** Over a table of zeros only the additions, the rotations and the complement are left. */
  lemma BareTurns(p: Pair)
    ensures TurnLeft(p, Zeros()) == Pair(HalfTurn(p.x), HalfTurn(p.y))
    ensures TurnRight(p, Zeros()) == Pair(HalfTurn(0xFFFF_FFFF - p.x), HalfTurn(p.y))
  {
    hide Rot8, Rot24, Look, HalfTurn, Zeros;
    forall x: word ensures Look(Zeros(), x) == x {
      LookNothing(x);
    }
    RotatedTwice(p.x);
    RotatedTwice(p.y);
    RotatedTwice(0xFFFF_FFFF - p.x);
  }

  /** The value at a node from the value at its parent, over the zero table. */
  function BareStep(p: Pair, z: nat): Pair {
    var x: word := (2 * (p.x + z / 2) + p.y) % 0x1_0000_0000;
    var y: word := (p.x + z / 2 + p.y) % 0x1_0000_0000;
    Pair(HalfTurn(if z % 2 == 0 then x else 0xFFFF_FFFF - x), HalfTurn(y))
  }

  lemma MixIs(p: Pair, z: word)
    ensures Mix(p, z) == Pair((2 * (p.x + z) + p.y) % 0x1_0000_0000, (p.x + z + p.y) % 0x1_0000_0000)
  {
    WrapOnce(p.x + z, p.y);
    WrapOnce(p.x + z, (p.y + (p.x + z) % 0x1_0000_0000) % 0x1_0000_0000);
    WrapOnce(p.x + z + p.y, p.x + z);
  }

  /** Wrapping before an addition that wraps makes no difference. */
  lemma WrapOnce(a: nat, b: nat)
    ensures (a % 0x1_0000_0000 + b) % 0x1_0000_0000 == (a + b) % 0x1_0000_0000
  {
    var m := 0x1_0000_0000;
    var s := a % m + b;
    DivUnique(a + b, m, a / m + s / m, s % m);
  }

  /** The value at a node over the zero table, in plain arithmetic. */
  function BareValue(tree: word, z: nat): Pair
    requires z >= 1
    decreases z
  {
    if z == 1 then Pair(tree, 0) else BareStep(BareValue(tree, z / 2), z)
  }

  lemma BareNodeStep(tree: word, z: word)
    requires z >= 2
    ensures Node(MacrosOf(Zeros()), tree, z) == BareStep(Node(MacrosOf(Zeros()), tree, z / 2), z)
  {
    hide TurnLeft, TurnRight, HalfTurn, Zeros, Mix;
    var p := Node(MacrosOf(Zeros()), tree, z / 2);
    BareTurns(Mix(p, z / 2));
    MixIs(p, z / 2);
  }

  lemma {:induction false} BareNode(tree: word, z: word)
    requires z >= 1
    ensures Node(MacrosOf(Zeros()), tree, z) == BareValue(tree, z)
    decreases z
  {
    if z > 1 {
      BareNode(tree, z / 2);
      BareNodeStep(tree, z);
      hide BareStep, Node, MacrosOf, Zeros;
    }
  }

  /** The keystream word of every leaf of every tree over the zero table. */
  lemma BareLeaf(tree: word, n: nat)
    requires n < 0x1_0000
    ensures var p := BareValue(tree, 0x1_0000 + n);
            Leaf(MacrosOf(Zeros()), tree, n) == XorWord(p.x, p.y)
  {
    hide Node, MacrosOf, Zeros, Xor, BareValue;
    BareNode(tree, 0x1_0000 + n);
  }

  // ---- the set-up as one run ----

  /** The deck after n swaps of the whole set-up: every 512 swaps the words make room for a byte and
      the index starts at the number of the round. */
  function Swaps(key: Key, n: nat): Deck
    requires n <= 2048
  {
    if n == 0 then Deck(Zeros(), 0)
    else
      var d := Swaps(key, n - 1);
      var i := (n - 1) % 256;
      var e := if (n - 1) % 512 == 0 then Deck(Shifted(d.F), (n - 1) / 512) else d;
      var j := (e.index + key[i % |key|] + e.F[i]) % 256;
      Deck(e.F[i := e.F[j]][j := e.F[i]], j)
  }

  function Shifted(F: Table): Table {
    seq(256, i requires 0 <= i < 256 => F[i] % 0x100_0000 * 256 + i)
  }

  lemma ShiftedIsWidened(F: Table)
    ensures Shifted(F) == Widen(F)
  {
    forall i | 0 <= i < 256 ensures Shifted(F)[i] == Widen(F)[i] {
      DropTopByte(F[i]);
    }
  }

  /** The deck the swap at step n works on. */
  function Ready(key: Key, n: nat): Deck
    requires n < 2048
  {
    var d := Swaps(key, n);
    if n % 512 == 0 then Deck(Widen(d.F), n / 512) else d
  }

  lemma SwapsStep(key: Key, n: nat)
    requires n < 2048
    ensures var e := Ready(key, n);
            var j := Partner(key, e.F, e.index, n % 256);
            Swaps(key, n + 1) == Deck(Swap(e.F, n % 256, j), j)
  {
    hide Widen, Shifted;
    ShiftedIsWidened(Swaps(key, n).F);
  }

  lemma ReadyInside(key: Key, n: nat, k: nat)
    requires n + k < 2048 && n % 256 == 0 && 1 <= k < 256
    ensures Ready(key, n + k) == Swaps(key, n + k) && (n + k) % 256 == k
  {
    hide Swaps, Widen;
  }

  lemma {:induction false} PassIsRun(key: Key, n: nat, k: nat)
    requires n + k <= 2048 && n % 256 == 0 && 1 <= k <= 256
    ensures Swaps(key, n + k) == Pass(key, Ready(key, n), k)
    decreases k
  {
    hide Pass, Partner, Swaps, Swap, Ready;
    if k > 1 {
      PassIsRun(key, n, k - 1);
      ReadyInside(key, n, k - 1);
    }
    SwapsStep(key, n + (k - 1));
    PassStep(key, Ready(key, n), k - 1);
    PassNothing(key, Ready(key, n));
  }

  lemma PassNothing(key: Key, d: Deck)
    ensures Pass(key, d, 0) == d
  {
  }

  lemma {:induction false} RoundsAreRuns(key: Key, r: nat)
    requires r <= ROUNDS
    ensures Rounds(key, r) == Swaps(key, 512 * r).F
    decreases r
  {
    hide Swaps, Pass, Rounds, Passes;
    if r > 0 {
      var n, w := 512 * (r - 1), |Zeros()|;
      RoundsAreRuns(key, r - 1);
      RoundStep(key, r - 1);
      assert n % 512 == 0 && (n + w) % 512 == 256 && n / 512 == r - 1;
      PassIsRun(key, n, w);
      PassIsRun(key, n + w, w);
      hide Widen, Zeros;
      TwoPasses(key, Ready(key, n), w);
    } else {
      RunStart(key);
    }
  }

  lemma RunStart(key: Key)
    ensures Rounds(key, 0) == Swaps(key, 0).F
  {
  }

  lemma TwoPasses(key: Key, d: Deck, w: nat)
    requires w == 256
    ensures Passes(key, d, SETUP_PASSES) == Pass(key, Pass(key, d, w), w)
  {
    hide Pass, Passes;
    PassesStart(key, d);
    PassesStep(key, d, 0);
    PassesStep(key, d, 1);
  }

  /** The table of a key is what the 2048 swaps leave, each word exclusive-ored with its place. */
  lemma SetupIsOneRun(key: Key, i: nat)
    requires i < 256
    ensures Setup(key)[i] == XorWord(Swaps(key, 2048).F[i], i)
  {
    hide Swaps, Rounds, Xor;
    RoundsAreRuns(key, ROUNDS);
  }

  // ---- the pad ----

  /** The pad runs through the bytes of the keystream words, lowest first, and leaves out every
      sixty-fourth. */
  lemma PadSkipsLast(m: Macros, tree: word, i: nat)
    requires (i + i / 63) / 4 < LEAVES
    ensures PadByte(m, tree, i) == ByteOf(Leaf(m, tree, (i + i / 63) / 4), (i + i / 63) % 4)
  {
    hide Leaf, ByteOf;
    assert i + i / 63 == 64 * (i / 63) + i % 63;
  }
}
