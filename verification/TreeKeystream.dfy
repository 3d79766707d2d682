/** The structured generator: the `crypt_key` struct and the routines that update it. */
module TreeKeystream {
  import opened Bits
  import opened TreeWalk
  import opened TreeCipher
  import opened KeyTable

  /** Byte i of the pad drawn from a fresh generator: blocks of 16 words, of whose 64 bytes
      the last is skipped. */
  function PadByte(m: Macros, tree: word, i: nat): byte {
    var offset := i % 63;
    ByteOf(Leaf(m, tree, Ahead(16 * (i / 63), offset / 4)), offset % 4)
  }

  /** Byte n opens a new block exactly when n is a multiple of 63. */
  lemma PadCount(n: nat)
    ensures n > 0 && n % 63 == 0 ==> (n - 1) % 63 == 62 && (n - 1) / 63 + 1 == n / 63
    ensures n % 63 != 0 ==> (n - 1) % 63 + 1 == n % 63 && (n - 1) / 63 == n / 63
  {
  }

  method MixStep(x: word, y: word, z: word) returns (x': word, y': word)
    ensures Pair(x', y') == Mix(Pair(x, y), z)
  {
    x', y' := x, y;
    x' := AddWord(x', z);
    y' := AddWord(y', x');
    x' := AddWord(x', y');
  }

  method LeftStep(x: word, y: word, z: word, F: array<word>) returns (x': word, y': word, z': word)
    requires F.Length == TABLE_SIZE
    ensures Pair(x', y') == TurnLeft(Pair(x, y), F[..]) && z' == AddWord(z, z)
  {
    x', y', z' := x, y, z;
    y' := Rot24(y');
    x' := XorWord(x', F[LowByte(x')]);
    y' := XorWord(y', F[LowByte(y')]);
    y' := Rot24(y');
    x' := Rot8(x');
    x' := XorWord(x', F[LowByte(x')]);
    y' := XorWord(y', F[LowByte(y')]);
    x' := Rot8(x');
    z' := AddWord(z', z');
  }

  method RightStep(x: word, y: word, z: word, F: array<word>) returns (x': word, y': word, z': word)
    requires F.Length == TABLE_SIZE
    ensures Pair(x', y') == TurnRight(Pair(x, y), F[..]) && z' == AddWord(z, AddWord(z, 1))
  {
    x', y', z' := x, y, z;
    x' := Not(x');
    x' := Rot24(x');
    x' := XorWord(x', F[LowByte(x')]);
    y' := XorWord(y', F[LowByte(y')]);
    x' := Rot24(x');
    y' := Rot8(y');
    x' := XorWord(x', F[LowByte(x')]);
    y' := XorWord(y', F[LowByte(y')]);
    y' := Rot8(y');
    z' := AddWord(z', AddWord(z', 1));
  }

  method ClearTable(F: array<word>)
    requires F.Length == TABLE_SIZE
    modifies F
    ensures F[..] == seq(256, i => 0)
  {
    for i := 0 to TABLE_SIZE
      invariant forall k :: 0 <= k < i ==> F[k] == 0
    {
      F[i] := 0;
    }
  }

  method WidenTable(F: array<word>)
    requires F.Length == TABLE_SIZE
    modifies F
    ensures F[..] == Widen(old(F[..]))
  {
    for i := 0 to TABLE_SIZE
      invariant forall k :: 0 <= k < i ==> F[k] == AddWord(MulWord(old(F[k]), 256), k)
      invariant forall k :: i <= k < TABLE_SIZE ==> F[k] == old(F[k])
    {
      F[i] := AddWord(MulWord(F[i], TABLE_SIZE), i);
    }
  }

  method ShufflePass(F: array<word>, key: Key, start: byte) returns (index: byte)
    requires F.Length == TABLE_SIZE
    modifies F
    ensures Deck(F[..], index) == Pass(key, Deck(old(F[..]), start), F.Length)
  {
    index := start;
    ghost var d := Deck(F[..], start);
    assert d == Pass(key, d, 0);
    hide And, AddWord, Pass, Partner;
    for i := 0 to F.Length
      invariant Deck(F[..], index) == Pass(key, d, i)
    {
      PassStep(key, d, i);
      PartnerOf(key, F[..], index, i);
      index := LowByte(AddWord(index, AddWord(key[i % |key|], F[i])));
      var tmp := F[i];
      F[i] := F[index];
      F[index] := tmp;
    }
  }

  method MaskTable(F: array<word>)
    requires F.Length == TABLE_SIZE
    modifies F
    ensures F[..] == Masked(old(F[..]))
  {
    hide Xor;
    for i := 0 to TABLE_SIZE
      invariant forall k :: 0 <= k < i ==> F[k] == XorWord(old(F[k]), k)
      invariant forall k :: i <= k < TABLE_SIZE ==> F[k] == old(F[k])
    {
      F[i] := XorWord(F[i], i);
    }
  }

  method SetupRound(F: array<word>, key: Key, j: nat)
    requires F.Length == TABLE_SIZE && j < ROUNDS && F[..] == Rounds(key, j)
    modifies F
    ensures F[..] == Rounds(key, j + 1)
  {
    hide Rounds, Passes, Pass, Widen;
    RoundStep(key, j);
    WidenTable(F);
    ghost var d := Deck(F[..], j);
    var index: byte := j;
    PassesStart(key, d);
    for k := 0 to SETUP_PASSES
      invariant Deck(F[..], index) == Passes(key, d, k)
    {
      PassesStep(key, d, k);
      index := ShufflePass(F, key, index);
    }
  }

  method SetupTable(F: array<word>, key: Key)
    requires F.Length == TABLE_SIZE
    modifies F
    ensures F[..] == Setup(key)
  {
    ClearTable(F);
    assert F[..] == Rounds(key, 0);
    hide Rounds, Masked;
    for j := 0 to ROUNDS
      invariant F[..] == Rounds(key, j)
    {
      SetupRound(F, key, j);
    }
    MaskTable(F);
  }

  class CryptKey {
    const F: array<word>
    const xStack: array<word>
    const yStack: array<word>
    const zStack: array<word>
    const keydata: array<word>
    var index: int
    var x: word
    var y: word
    var z: word
    var treeNum: word
    var keyptr: int        // byte offset into keydata; -1 stands for NULL
    ghost var drawn: nat   // pad bytes used since initialisation

    constructor ()
      ensures Shape() && fresh(F) && fresh(xStack) && fresh(yStack) && fresh(zStack) && fresh(keydata)
    {
      F := new word[TABLE_SIZE];
      xStack, yStack, zStack := new word[HEIGHT], new word[HEIGHT], new word[HEIGHT];
      keydata := new word[NWORDS];
      index, x, y, z, treeNum, keyptr, drawn := 0, 0, 0, 0, 0, -1, 0;
    }

    ghost predicate Shape() {
      && F.Length == TABLE_SIZE && keydata.Length == NWORDS
      && xStack.Length == yStack.Length == zStack.Length == HEIGHT
      && F != xStack && F != yStack && F != zStack && F != keydata
      && xStack != yStack && xStack != zStack && xStack != keydata
      && yStack != zStack && yStack != keydata && zStack != keydata
    }

    ghost function M(): Macros
      requires Shape()
      reads F
    {
      MacrosOf(F[..])
    }

    ghost function View(): Walker
      reads this`index, this`x, this`y, this`z, this`treeNum, xStack, yStack, zStack
    {
      Walker(xStack[..], yStack[..], zStack[..], index, x, y, z, treeNum)
    }

    ghost predicate Walking()
      reads this`index, this`x, this`y, this`z, this`treeNum, F, xStack, yStack, zStack
    {
      Shape() && OnPath(M(), View()) && ClampSafe(M(), View())
    }

    /** The leaf whose word comes next. */
    ghost function Position(): nat
      requires Walking()
      reads this`index, this`x, this`y, this`z, this`treeNum, F, xStack, yStack, zStack
    {
      Next(M(), View())
    }

    method Push(x: word, y: word, z: word)
      requires Shape() && 0 <= index < HEIGHT
      modifies this`index, xStack, yStack, zStack
      ensures View() == Pushed(old(View()), x, y, z)
    {
      xStack[index] := x;
      yStack[index] := y;
      zStack[index] := z;
      index := index + 1;
    }

    /** The generator with its three registers held in locals, as inside the loops. */
    ghost function ViewAt(x: word, y: word, z: word): Walker
      reads this`index, this`treeNum, xStack, yStack, zStack
    {
      Walker(xStack[..], yStack[..], zStack[..], index, x, y, z, treeNum)
    }

    /** Mix, push, turn left: nothing is pushed outside the stacks, and a generator on its path
        stays on it. */
    method GoLeft(x: word, y: word, z: word) returns (x': word, y': word, z': word)
      requires Shape() && z < LEAVES && Bounded(ViewAt(x, y, z))
      modifies this`index, xStack, yStack, zStack
      ensures Bounded(ViewAt(x', y', z')) && z' == 2 * z
      ensures old(OnPath(M(), ViewAt(x, y, z))) ==>
                && OnPath(M(), ViewAt(x', y', z'))
                && Next(M(), ViewAt(x', y', z')) == old(Next(M(), ViewAt(x, y, z)))
    {
      hide Mix, TurnLeft, TurnRight, Bounded, OnPath;
      ghost var m, w := M(), ViewAt(x, y, z);
      RoomToPush(w);
      BoundedIndex(w);
      x', y' := MixStep(x, y, z);
      ghost var u := Pair(x', y');
      Push(x', y', z);
      assert ViewAt(x, y, z) == Pushed(w, u.x, u.y, z);
      x', y', z' := LeftStep(x', y', z, F);
      PushKeepsBounds(w, ViewAt(x', y', z'), u.x, u.y);
      if OnPath(m, w) {
        MixedIsTurned(m, w, u);
        StepLeft(m, w, ViewAt(x', y', z'));
      }
    }

    /** The inner loop of the word generator: down the left side to a leaf. */
    method GoDown(x0: word, y0: word, z0: word) returns (x: word, y: word, z: word)
      requires Shape() && Bounded(ViewAt(x0, y0, z0))
      modifies this`index, xStack, yStack, zStack
      ensures Bounded(ViewAt(x, y, z)) && z >= LEAVES
      ensures old(OnPath(M(), ViewAt(x0, y0, z0))) ==>
                && OnPath(M(), ViewAt(x, y, z))
                && Next(M(), ViewAt(x, y, z)) == old(Next(M(), ViewAt(x0, y0, z0)))
                && (old(ClampSafe(M(), ViewAt(x0, y0, z0))) ==> ClampSafe(M(), ViewAt(x, y, z)))
    {
      hide Mix, TurnLeft, TurnRight, Xor, Node, Leftmost, Bounded, OnPath, Next;
      x, y, z := x0, y0, z0;
      ghost var path := OnPath(M(), ViewAt(x, y, z));
      BoundedIndex(ViewAt(x, y, z));
      while z < LEAVES
        invariant Bounded(ViewAt(x, y, z)) && z >= 1
        invariant path ==> OnPath(M(), ViewAt(x, y, z))
        invariant path ==> Next(M(), ViewAt(x, y, z)) == old(Next(M(), ViewAt(x0, y0, z0)))
        invariant path && old(ClampSafe(M(), ViewAt(x0, y0, z0))) ==> ClampSafe(M(), ViewAt(x, y, z))
        decreases LEAVES - z
      {
        x, y, z := GoLeft(x, y, z);
      }
    }

    /** Mix, turn right. */
    method GoRight(x: word, y: word, z: word) returns (x': word, y': word, z': word)
      requires Shape() && z < LEAVES && OnPath(M(), ViewAt(x, y, z))
      ensures OnPath(M(), ViewAt(x', y', z')) && z' == 2 * z + 1
    {
      hide Mix, TurnLeft, TurnRight;
      ghost var m, w := M(), ViewAt(x, y, z);
      x', y' := MixStep(x, y, z);
      assert Pair(x', y') == Turned(m, treeNum, z);
      x', y', z' := RightStep(x', y', z, F);
      StepRight(m, w, ViewAt(x', y', z'));
    }

    /** Pop, with the clamp on the index, and turn right from the popped triple. */
    method Pop(ghost x0: word, ghost y0: word, ghost z0: word) returns (x: word, y: word, z: word)
      requires Shape() && Bounded(ViewAt(x0, y0, z0))
      modifies this`index
      ensures Pops(M(), old(ViewAt(x0, y0, z0)), ViewAt(x, y, z)) && Bounded(ViewAt(x, y, z))
    {
      hide TurnRight;
      ghost var w := ViewAt(x0, y0, z0);
      index := index - 1;
      if index < 0 {
        index := 0;
      }
      x := xStack[index];
      y := yStack[index];
      z := zStack[index];
      x, y, z := RightStep(x, y, z, F);
      hide Bounded;
      PopKeepsBounds(M(), w, ViewAt(x, y, z));
    }

    /** Walk from the root straight to a leaf.  The stack slot 0 is left as it was when the
        leaf is the last one, so the clamp invariant is promised for every other leaf. */
    method Seek(tree: word, leafNum: word) returns (r: word)
      requires Shape()
      modifies this`index, this`x, this`y, this`z, this`treeNum, xStack, yStack, zStack
      ensures OnPath(M(), View())
      ensures z == LEAVES + leafNum % LEAVES && treeNum == tree
      ensures Next(M(), View()) == leafNum % LEAVES
      ensures leafNum % LEAVES != LEAVES - 1 ==> Walking()
      ensures r == Leaf(M(), tree, leafNum % LEAVES)
    {
      hide Mix, TurnLeft, TurnRight, And, Xor, LeftAncestors, Node;
      var i: nat := 32768;
      var x, y, z := tree, 0, 1;
      index, treeNum := 0, tree;
      ghost var t := LEAVES + leafNum % LEAVES;
      ghost var b: nat := HEIGHT;
      RootOfWalk(t);
      AtRoot(M(), ViewAt(x, y, z));
      while i > 0
        invariant b <= HEIGHT && i == (if b == 0 then 0 else Pow2(b - 1))
        invariant z == t / Pow2(b)
        invariant treeNum == tree
        invariant OnPath(M(), ViewAt(x, y, z))
        decreases i
      {
        BitAt(leafNum, b);
        AboveLeaves(t, b);
        hide Pow2;
        if And(i, leafNum) != 0 {
          x, y, z := GoRight(x, y, z);
        } else {
          OnPathIsBounded(M(), ViewAt(x, y, z));
          x, y, z := GoLeft(x, y, z);
        }
        i, b := i / 2, b - 1;
      }
      this.x, this.y, this.z := x, y, z;
      assert View() == ViewAt(x, y, z);
      r := XorWord(x, y);
    }

    /** Produce the next words in leaf order, each the word of its leaf as long as the leaves last.
        Beyond the last leaf the clamp on the stack index makes the generator repeat the last
        word; only a generator that was sent straight to the last leaf does not, because there
        slot 0 holds whatever was in it before.  Every access is inside the stacks, whatever that
        is. */
    method Encrypt(dest: array<word>, nodes: int)
      requires Shape() && Bounded(View()) && nodes <= dest.Length
      requires dest != F && dest != xStack && dest != yStack && dest != zStack
      modifies this`index, this`x, this`y, this`z, xStack, yStack, zStack, dest
      ensures Bounded(View())
      ensures old(OnPath(M(), View())) ==>
                var p := old(Next(M(), View()));
                forall k :: 0 <= k < nodes && p + k < LEAVES ==> dest[k] == Leaf(M(), treeNum, p + k)
      ensures old(Walking()) ==>
                forall k :: 0 <= k < nodes ==> dest[k] == Leaf(M(), treeNum, Ahead(old(Position()), k))
      ensures forall k :: 0 <= k < dest.Length && nodes <= k ==> dest[k] == old(dest[k])
      ensures old(Walking()) ==>
                Walking() && Position() == Ahead(old(Position()), if nodes < 0 then 0 else nodes)
      ensures nodes <= 0 ==> View() == old(View())
      ensures old(Walking()) && nodes > 0 ==> z == AfterLeaf(Ahead(old(Position()), nodes - 1))
    {
      hide TurnRight, Xor, Node, Leftmost, AfterLeaf, Pops, LeftAncestors, MacrosOf, Bounded, OnPath, Next, ClampSafe;
      var x: word, y: word, z: word := x, y, z;
      var k := 0;
      ghost var path := OnPath(M(), View());
      ghost var p := if path then Next(M(), View()) else 0;
      ghost var safe := path && ClampSafe(M(), View());
      assert View() == ViewAt(x, y, z);
      BoundedIndex(View());
      if path && !safe {
        UnsafeIsLast(M(), View());
      }
      while k < nodes
        invariant 0 <= k && (k <= nodes || k == 0)
        invariant Bounded(ViewAt(x, y, z)) && p < LEAVES
        invariant path && (k == 0 || safe) ==>
                    OnPath(M(), ViewAt(x, y, z)) && Next(M(), ViewAt(x, y, z)) == Ahead(p, k)
        invariant safe ==> ClampSafe(M(), ViewAt(x, y, z))
        invariant k == 0 ==> ViewAt(x, y, z) == old(View())
        invariant safe && k > 0 ==> z == AfterLeaf(Ahead(p, k - 1))
        invariant forall j :: 0 <= j < k && (safe || (path && j == 0)) ==>
                    dest[j] == Leaf(M(), treeNum, Ahead(p, j))
        invariant forall j :: k <= j < dest.Length ==> dest[j] == old(dest[j])
      {
        x, y, z := GoDown(x, y, z);
        ghost var w := ViewAt(x, y, z);
        dest[k] := XorWord(x, y);
        k := k + 1;
        BoundedIndex(w);
        x, y, z := Pop(x, y, z);
        if path && (k == 1 || safe) {
          LeafWord(M(), w);
          if safe {
            StepAfterLeaf(M(), w, ViewAt(x, y, z));
          }
        }
      }
      this.x, this.y, this.z := x, y, z;
      assert View() == ViewAt(x, y, z);
    }

    /** Set the table up from the key and stand before leaf 0 of tree 0. */
    method Init(key: Key)
      requires Shape()
      modifies this, F, xStack, yStack, zStack
      ensures F[..] == Setup(key) && treeNum == 0
      ensures Walking() && Position() == 0 && z == LEAVES
      ensures keyptr == -1 && drawn == 0
    {
      hide Setup, OnPath, ClampSafe, Leaf, Node, MacrosOf, Xor;
      keyptr, drawn := -1, 0;
      SetupTable(F, key);
      var _ := Seek(0, 0);
    }

    /** keydata holds block b of the word stream of a generator started at leaf 0. */
    ghost predicate HoldsBlock(b: nat)
      reads this`index, this`x, this`y, this`z, this`treeNum, F, xStack, yStack, zStack, keydata
    {
      && Walking()
      && Position() == Ahead(0, 16 * (b + 1))
      && forall k :: 0 <= k < NWORDS ==> keydata[k] == Leaf(M(), treeNum, Ahead(16 * b, k))
    }

    /** The block of words in keydata and the byte pointer belong to the number of pad bytes
        drawn so far. */
    ghost predicate Padding()
      reads this, F, xStack, yStack, zStack, keydata
    {
      if drawn == 0 then
        Walking() && Position() == 0 && keyptr == -1
      else
        HoldsBlock((drawn - 1) / 63) && keyptr == (drawn - 1) % 63 + 1
    }

    method NextBlock(ghost b: nat)
      requires Walking() && Position() == Ahead(0, 16 * b)
      modifies this`index, this`x, this`y, this`z, xStack, yStack, zStack, keydata
      ensures HoldsBlock(b) && treeNum == old(treeNum)
    {
      hide OnPath, ClampSafe, Leaf, MacrosOf, Next, AfterLeaf, Bounded;
      OnPathIsBounded(M(), View());
      Encrypt(keydata, NWORDS);
    }

    /** Refill the block when its 63 usable bytes are gone. */
    method Refill()
      requires Padding()
      modifies this`index, this`x, this`y, this`z, this`keyptr, xStack, yStack, zStack, keydata
      ensures Shape() && HoldsBlock(drawn / 63) && keyptr == drawn % 63
      ensures treeNum == old(treeNum) && drawn == old(drawn)
    {
      PadCount(drawn);
      if keyptr == -1 || keyptr >= 4 * NWORDS - 1 {
        keyptr := 0;
        NextBlock(drawn / 63);
      }
    }

    method NextPadByte() returns (b: byte)
      requires Padding()
      modifies this, xStack, yStack, zStack, keydata
      ensures Padding() && treeNum == old(treeNum) && drawn == old(drawn) + 1
      ensures b == PadByte(M(), treeNum, old(drawn))
    {
      hide OnPath, ClampSafe, Leaf, MacrosOf, Next, AfterLeaf, ByteOf, Walking, Position, Ahead;
      Refill();
      b := ByteOf(keydata[keyptr / 4], keyptr % 4);
      keyptr := keyptr + 1;
      drawn := drawn + 1;
    }

    /** Exclusive-or the data with the next bytes of the pad. */
    method DoCrypt(data: array<byte>, datalen: int)
      requires Shape() && Padding() && datalen <= data.Length
      requires data as object !in {this, F, xStack, yStack, zStack, keydata}
      modifies this, xStack, yStack, zStack, keydata, data
      ensures Padding() && treeNum == old(treeNum)
      ensures forall i :: 0 <= i < datalen ==>
                data[i] == XorByte(old(data[i]), PadByte(M(), treeNum, old(drawn) + i))
      ensures forall i :: 0 <= i < data.Length && datalen <= i ==> data[i] == old(data[i])
      ensures drawn == old(drawn) + if datalen < 0 then 0 else datalen
    {
      hide HoldsBlock, Walking, Position, PadByte, MacrosOf, XorByte;
      var i := 0;
      while i < datalen
        invariant 0 <= i && (i <= datalen || i == 0)
        invariant Padding() && drawn == old(drawn) + i && treeNum == old(treeNum)
        invariant forall k :: 0 <= k < i ==>
                    data[k] == XorByte(old(data[k]), PadByte(M(), treeNum, old(drawn) + k))
        invariant forall k :: i <= k < data.Length ==> data[k] == old(data[k])
      {
        var b := NextPadByte();
        data[i] := XorByte(data[i], b);
        i := i + 1;
      }
    }
  }

  lemma RootOfWalk(t: nat)
    requires LEAVES <= t < 2 * LEAVES
    ensures t / Pow2(HEIGHT) == 1 && Pow2(HEIGHT - 1) == 32768 && Pow2(0) == 1
  {
    Pow2Values();
    assert Pow2(16) == 2 * Pow2(15);
  }

  lemma AboveLeaves(t: nat, b: nat)
    requires LEAVES <= t < 2 * LEAVES && 1 <= b <= HEIGHT
    ensures t / Pow2(b) < LEAVES
  {
    var p := Pow2(b);
    assert p >= 2;
    hide Pow2;
    QuotientHalves(t, p);
  }

  lemma QuotientHalves(t: nat, p: nat)
    requires p >= 2
    ensures 2 * (t / p) <= t
  {
    var q := t / p;
    assert t == q * p + t % p;
    MulMonotone(q, 2, p);
  }

  lemma MulMonotone(q: nat, a: nat, b: nat)
    requires a <= b
    ensures q * a <= q * b
  {
    assert q * b == q * a + q * (b - a);
  }

  /** Reading bit b - 1 of the leaf number moves the walk one level down. */
  lemma BitAt(leafNum: word, b: nat)
    requires 1 <= b <= HEIGHT
    ensures var t := LEAVES + leafNum % LEAVES;
            t / Pow2(b - 1) == 2 * (t / Pow2(b)) + (if And(Pow2(b - 1), leafNum) != 0 then 1 else 0)
    ensures Pow2(b - 1) / 2 == if b == 1 then 0 else Pow2(b - 2)
  {
    hide And;
    ReadBit(LEAVES + leafNum % LEAVES, b);
    SameBit(leafNum, b);
    AndBit(b - 1, leafNum);
  }

  lemma SameBit(leafNum: word, b: nat)
    requires 1 <= b <= HEIGHT
    ensures ((LEAVES + leafNum % LEAVES) / Pow2(b - 1)) % 2 == (leafNum / Pow2(b - 1)) % 2
  {
    var n, q := leafNum % LEAVES, leafNum / LEAVES;
    Pow2Values();
    hide Pow2;
    BitOfSum(LEAVES + n, n, 1, HEIGHT, b - 1);
    BitOfSum(leafNum, n, q, HEIGHT, b - 1);
  }

  function Sum(sizes: seq<nat>): nat {
    if sizes == [] then 0 else Sum(sizes[..|sizes| - 1]) + sizes[|sizes| - 1]
  }

  /** However the requests are batched, and from whatever leaf, each word drawn is the word found
      by walking to its leaf from the root, as long as the leaves last; past the last leaf that
      word is repeated, unless the walk began there. */
  method DrawInBatches(L: CryptKey, tree: word, n: word, sizes: seq<nat>, probe: nat)
    returns (out: seq<word>, direct: word)
    requires L.Shape() && n < LEAVES
    modifies L`index, L`x, L`y, L`z, L`treeNum, L.xStack, L.yStack, L.zStack
    ensures |out| == Sum(sizes)
    ensures forall k :: 0 <= k < |out| && n + k < LEAVES ==> out[k] == Leaf(L.M(), tree, n + k)
    ensures n < LEAVES - 1 ==> out == Words(L.M(), tree, n, Sum(sizes))
    ensures probe < |out| && n + probe < LEAVES ==> out[probe] == direct
  {
    hide OnPath, ClampSafe, Leaf, MacrosOf, Next, AfterLeaf, Bounded;
    if n == LEAVES - 1 {
      out := DrawFromLastLeaf(L, tree, sizes);
    } else {
      out := DrawBelowLastLeaf(L, tree, n, sizes);
    }
    direct := L.Seek(tree, (n + probe) % LEAVES);
  }

  method DrawBelowLastLeaf(L: CryptKey, tree: word, n: word, sizes: seq<nat>) returns (out: seq<word>)
    requires L.Shape() && n < LEAVES - 1
    modifies L`index, L`x, L`y, L`z, L`treeNum, L.xStack, L.yStack, L.zStack
    ensures |out| == Sum(sizes) && out == Words(L.M(), tree, n, Sum(sizes))
  {
    hide OnPath, ClampSafe, Leaf, MacrosOf, Next, AfterLeaf, Bounded;
    var _ := L.Seek(tree, n);
    out := [];
    for i := 0 to |sizes|
      invariant L.Walking() && L.treeNum == tree
      invariant L.Position() == Ahead(n, Sum(sizes[..i]))
      invariant out == Words(L.M(), tree, n, Sum(sizes[..i]))
    {
      var dest := new word[sizes[i]];
      OnPathIsBounded(L.M(), L.View());
      L.Encrypt(dest, sizes[i]);
      assert dest[..] == Words(L.M(), tree, Ahead(n, Sum(sizes[..i])), sizes[i]);
      assert sizes[..i + 1][..i] == sizes[..i];
      WordsSplit(L.M(), tree, n, Sum(sizes[..i]), sizes[i]);
      out := out + dest[..];
    }
    assert sizes[..|sizes|] == sizes;
  }

  /** The first word of a generator sent straight to the last leaf is the word of that leaf. */
  method DrawFromLastLeaf(L: CryptKey, tree: word, sizes: seq<nat>) returns (out: seq<word>)
    requires L.Shape()
    modifies L`index, L`x, L`y, L`z, L`treeNum, L.xStack, L.yStack, L.zStack
    ensures |out| == Sum(sizes)
    ensures out != [] ==> out[0] == Leaf(L.M(), tree, LEAVES - 1)
  {
    hide OnPath, ClampSafe, Leaf, MacrosOf, Next, AfterLeaf, Bounded;
    var _ := L.Seek(tree, LEAVES - 1);
    OnPathIsBounded(L.M(), L.View());
    out := [];
    for i := 0 to |sizes|
      invariant Bounded(L.View()) && L.treeNum == tree && |out| == Sum(sizes[..i])
      invariant out == [] ==> OnPath(L.M(), L.View()) && Next(L.M(), L.View()) == LEAVES - 1
      invariant out != [] ==> out[0] == Leaf(L.M(), tree, LEAVES - 1)
    {
      assert sizes[..i + 1][..i] == sizes[..i];
      var dest := new word[sizes[i]];
      L.Encrypt(dest, sizes[i]);
      out := out + dest[..];
    }
    assert sizes[..|sizes|] == sizes;
  }
}
