/** The flattened generator: the same tree cipher with table, stacks, registers and output
    block at fixed offsets of one word array. */
module FlatKeystream {
  import opened Bits
  import opened TreeWalk
  import opened TreeCipher
  import opened KeyTable
  import opened TreeKeystream

  const X_STACK: nat := 256
  const Y_STACK: nat := 272
  const Z_STACK: nat := 288
  const INDEX: nat := 304
  const BLOCK: nat := 309
  const FLAT_SIZE: nat := 325

  /** The index after a pop from the empty stack. */
  const WRAPPED: word := 0xFFFF_FFFF

  /** The walker stored in the array, with the registers index, x, y, z given separately. */
  ghost function FlatAt(t: seq<word>, index: int, x: word, y: word, z: word): Walker
    requires |t| >= FLAT_SIZE
  {
    Walker(t[X_STACK..Y_STACK], t[Y_STACK..Z_STACK], t[Z_STACK..INDEX], index, x, y, z, t[308])
  }

  /** The walker stored in the array. */
  ghost function FlatView(t: seq<word>): Walker
    requires |t| >= FLAT_SIZE
  {
    FlatAt(t, t[304], t[305], t[306], t[307])
  }

  ghost function FlatMacros(t: seq<word>): Macros
    requires |t| >= FLAT_SIZE
  {
    MacrosOf(t[..256])
  }

  function SubWord(a: word, b: word): word {
    var d: int := a - b;
    d % 0x1_0000_0000
  }

  /** Turn left with the register moves of the flattened code. */
  method FlatLeft(tbuff: array<word>, x: word, y: word) returns (t1: word, t3: word)
    requires tbuff.Length >= FLAT_SIZE
    ensures Pair(t1, t3) == TurnLeft(Pair(x, y), tbuff[..256])
  {
    t1, t3 := x, y;
    var t4 := Rot24(t3);
    t1 := XorWord(t1, tbuff[LowByte(t1)]);
    t4 := XorWord(t4, tbuff[LowByte(t4)]);
    t3 := Rot24(t4);
    t4 := Rot8(t1);
    t4 := XorWord(t4, tbuff[LowByte(t4)]);
    t3 := XorWord(t3, tbuff[LowByte(t3)]);
    t1 := Rot8(t4);
  }

  /** Turn right with the register moves of the flattened code. */
  method FlatRight(tbuff: array<word>, x: word, y: word) returns (t1: word, t3: word)
    requires tbuff.Length >= FLAT_SIZE
    ensures Pair(t1, t3) == TurnRight(Pair(x, y), tbuff[..256])
  {
    t1 := x;
    var t5 := y;
    t1 := Not(t1);
    t3 := Rot24(t1);
    t3 := XorWord(t3, tbuff[LowByte(t3)]);
    t5 := XorWord(t5, tbuff[LowByte(t5)]);
    t1 := Rot24(t3);
    var t4 := Rot8(t5);
    t1 := XorWord(t1, tbuff[LowByte(t1)]);
    t4 := XorWord(t4, tbuff[LowByte(t4)]);
    t3 := Rot8(t4);
  }

  /** Storing a triple in the stack regions is a push; nothing else changes. */
  lemma FlatPush(t: seq<word>, u: seq<word>, index: int, x: word, y: word, z: word,
                 x0: word, y0: word, z0: word)
    requires |t| >= FLAT_SIZE && 0 <= index < HEIGHT
    requires u == t[X_STACK + index := x][Y_STACK + index := y][Z_STACK + index := z]
    ensures FlatAt(u, index + 1, x0, y0, z0) == Pushed(FlatAt(t, index, x0, y0, z0), x, y, z)
    ensures FlatMacros(u) == FlatMacros(t)
  {
    assert u[..256] == t[..256];
  }

  /** Only the stack regions of the array differ. */
  ghost predicate StacksOnly(t: seq<word>, u: seq<word>) {
    && |t| == |u| >= FLAT_SIZE
    && (forall i :: 0 <= i < X_STACK ==> u[i] == t[i])
    && (forall i :: INDEX <= i < |t| ==> u[i] == t[i])
  }

  lemma StacksOnlyKeepsMacros(t: seq<word>, u: seq<word>)
    requires StacksOnly(t, u)
    ensures FlatMacros(u) == FlatMacros(t)
  {
    assert u[..256] == t[..256];
  }

  /** The three stores of the inner loop. */
  method FlatStore(tbuff: array<word>, index: word, x: word, y: word, z: word,
                   ghost x0: word, ghost y0: word, ghost z0: word)
    requires tbuff.Length >= FLAT_SIZE && index < HEIGHT
    modifies tbuff
    ensures StacksOnly(old(tbuff[..]), tbuff[..])
    ensures FlatAt(tbuff[..], index + 1, x0, y0, z0)
         == Pushed(old(FlatAt(tbuff[..], index, x0, y0, z0)), x, y, z)
  {
    ghost var t := tbuff[..];
    tbuff[X_STACK + index] := x;
    tbuff[Y_STACK + index] := y;
    tbuff[Z_STACK + index] := z;
    FlatPush(t, tbuff[..], index, x, y, z, x0, y0, z0);
  }

  /** The body of the inner loop: mix, push, turn left. */
  method FlatGoLeft(tbuff: array<word>, x: word, index: word, y: word, z: word)
    returns (t1: word, t2: word, t3: word, t5: word)
    requires tbuff.Length >= FLAT_SIZE && z < LEAVES
    requires OnPath(FlatMacros(tbuff[..]), FlatAt(tbuff[..], index, x, y, z))
    modifies tbuff
    ensures StacksOnly(old(tbuff[..]), tbuff[..])
    ensures OnPath(FlatMacros(tbuff[..]), FlatAt(tbuff[..], t2, t1, t3, t5)) && t5 == 2 * z
    ensures Next(FlatMacros(tbuff[..]), FlatAt(tbuff[..], t2, t1, t3, t5))
         == old(Next(FlatMacros(tbuff[..]), FlatAt(tbuff[..], index, x, y, z)))
  {
    hide Mix, TurnLeft, TurnRight, Xor, Node, Leftmost, StacksOnly;
    t1, t2, t3, t5 := x, index, y, z;
    DepthBelowLeaves(z);
    ghost var t := tbuff[..];
    ghost var m, w := FlatMacros(t), FlatAt(t, index, x, y, z);
    t1, t3 := MixStep(t1, t3, t5);
    assert Pair(t1, t3) == Turned(m, w.tree, z);
    FlatStore(tbuff, t2, t1, t3, t5, x, y, z);
    StacksOnlyKeepsMacros(t, tbuff[..]);
    t5 := AddWord(t5, t5);
    t2 := AddWord(t2, 1);
    t1, t3 := FlatLeft(tbuff, t1, t3);
    assert tbuff[..][..256] == tbuff[..256];
    StepLeft(m, w, FlatAt(tbuff[..], t2, t1, t3, t5));
  }

  /** The inner loop: down the left side to a leaf. */
  method FlatGoDown(tbuff: array<word>, x: word, index: word, y: word, z: word)
    returns (t1: word, t2: word, t3: word, t5: word)
    requires tbuff.Length >= FLAT_SIZE
    requires OnPath(FlatMacros(tbuff[..]), FlatAt(tbuff[..], index, x, y, z))
    modifies tbuff
    ensures StacksOnly(old(tbuff[..]), tbuff[..])
    ensures OnPath(FlatMacros(tbuff[..]), FlatAt(tbuff[..], t2, t1, t3, t5)) && t5 >= LEAVES
    ensures Next(FlatMacros(tbuff[..]), FlatAt(tbuff[..], t2, t1, t3, t5))
         == old(Next(FlatMacros(tbuff[..]), FlatAt(tbuff[..], index, x, y, z)))
  {
    hide LeftAncestors, Node, Leftmost, FlatMacros, Next;
    t1, t2, t3, t5 := x, index, y, z;
    while t5 < LEAVES
      invariant StacksOnly(old(tbuff[..]), tbuff[..])
      invariant OnPath(FlatMacros(tbuff[..]), FlatAt(tbuff[..], t2, t1, t3, t5))
      invariant Next(FlatMacros(tbuff[..]), FlatAt(tbuff[..], t2, t1, t3, t5))
             == old(Next(FlatMacros(tbuff[..]), FlatAt(tbuff[..], index, x, y, z)))
      decreases LEAVES - t5
    {
      t1, t2, t3, t5 := FlatGoLeft(tbuff, t1, t2, t3, t5);
    }
  }

  /** Popping without a clamp: the unsigned index wraps below zero. */
  method FlatPop(tbuff: array<word>, index: word) returns (t1: word, t2: word, t3: word, t5: word)
    requires tbuff.Length >= FLAT_SIZE && index <= HEIGHT
    ensures t2 == SubWord(index, 1) && (index > 0 ==> t2 == index - 1)
    ensures index > 0 ==>
              && t5 == AddWord(tbuff[Z_STACK + index - 1], AddWord(tbuff[Z_STACK + index - 1], 1))
              && Pair(t1, t3) == TurnRight(Pair(tbuff[X_STACK + index - 1], tbuff[Y_STACK + index - 1]),
                                           tbuff[..256])
  {
    hide TurnRight, AddWord, MulWord;
    t2 := SubWord(index, 1);
    StackSlot(index);
    t1 := tbuff[AddWord(t2, X_STACK)];
    t5 := tbuff[AddWord(t2, Y_STACK)];
    t1, t3 := FlatRight(tbuff, t1, t5);
    t5 := tbuff[AddWord(t2, Z_STACK)];
    TwicePlusOne(t5);
    t5 := AddWord(MulWord(t5, 2), 1);
  }

  /** Offsets from the decremented index stay inside the array even when it wraps. */
  lemma StackSlot(index: word)
    requires index <= HEIGHT
    ensures forall base :: base in {X_STACK, Y_STACK, Z_STACK} ==>
              AddWord(SubWord(index, 1), base) == base + index - 1
    ensures SubWord(0, 1) == WRAPPED
  {
  }

  lemma TwicePlusOne(z: word)
    ensures AddWord(MulWord(z, 2), 1) == AddWord(z, AddWord(z, 1))
  {
  }

  /** Emission and pop on the flat array move to the next leaf, unless it was the last: there the
      index wraps. */
  method FlatNext(tbuff: array<word>, x: word, index: word, y: word, z: word)
    returns (t1: word, t2: word, t3: word, t5: word)
    requires tbuff.Length >= FLAT_SIZE && z >= LEAVES
    requires OnPath(FlatMacros(tbuff[..]), FlatAt(tbuff[..], index, x, y, z))
    ensures z < 2 * LEAVES - 1 ==>
              && OnPath(FlatMacros(tbuff[..]), FlatAt(tbuff[..], t2, t1, t3, t5))
              && Next(FlatMacros(tbuff[..]), FlatAt(tbuff[..], t2, t1, t3, t5)) == z - LEAVES + 1
              && t5 == AfterLeaf(z - LEAVES)
    ensures z == 2 * LEAVES - 1 ==> t2 == WRAPPED
  {
    hide TurnLeft, TurnRight, Node, LeftAncestors, Leftmost, AddWord, SubWord, AfterLeaf;
    ghost var m, w := FlatMacros(tbuff[..]), FlatAt(tbuff[..], index, x, y, z);
    t1, t2, t3, t5 := FlatPop(tbuff, index);
    assert tbuff[..][..256] == tbuff[..256];
    if z < 2 * LEAVES - 1 {
      CanPop(m, w);
      StackSlot(index);
      StepPop(m, w, FlatAt(tbuff[..], t2, t1, t3, t5));
    } else {
      LastHasNoTurns(m, w);
      StackSlot(0);
    }
  }

  /** Above the last leaf there is nothing to pop. */
  lemma LastHasNoTurns(m: Macros, w: Walker)
    requires OnPath(m, w) && w.z == 2 * LEAVES - 1
    ensures w.index == 0
  {
    Pow2Values();
    NextLeaf(w.z, HEIGHT);
  }

  /** The array holds a generator whose next word is that of leaf n. */
  ghost predicate FlatReady(t: seq<word>, n: nat) {
    |t| >= FLAT_SIZE && OnPath(FlatMacros(t), FlatView(t)) && Next(FlatMacros(t), FlatView(t)) == n
  }

  /** Writing outside the generator's state leaves the walker as it is. */
  lemma FlatFrame(t: seq<word>, u: seq<word>, index: word, x: word, y: word, z: word)
    requires |t| == |u| >= FLAT_SIZE
    requires forall i :: 0 <= i < INDEX ==> u[i] == t[i]
    requires u[308] == t[308]
    ensures FlatAt(u, index, x, y, z) == FlatAt(t, index, x, y, z)
    ensures FlatMacros(u) == FlatMacros(t)
  {
    assert u[..256] == t[..256];
  }

  /** The registers given stand before leaf n. */
  ghost predicate FlatBefore(t: seq<word>, t1: word, t2: word, t3: word, t5: word, n: nat) {
    && |t| >= FLAT_SIZE
    && OnPath(FlatMacros(t), FlatAt(t, t2, t1, t3, t5))
    && Next(FlatMacros(t), FlatAt(t, t2, t1, t3, t5)) == n
  }

  /** Cells a .. b - 1, the stacks and the registers are all that may differ. */
  ghost predicate OnlyCell(t: seq<word>, u: seq<word>, a: int, b: int) {
    && |t| == |u|
    && (forall i :: 0 <= i < |t| && i < X_STACK ==> u[i] == t[i])
    && (forall i :: 308 <= i < |t| && !(a <= i < b) ==> u[i] == t[i])
  }

  /** One round of the outer loop: go down to the leaf, emit its word, pop. */
  method FlatWord(tbuff: array<word>, a: nat, x: word, index: word, y: word, z: word, ghost n: nat)
    returns (t1: word, t2: word, t3: word, t5: word)
    requires FLAT_SIZE <= tbuff.Length && BLOCK <= a < tbuff.Length && n < LEAVES
    requires FlatBefore(tbuff[..], x, index, y, z, n)
    modifies tbuff
    ensures FlatMacros(tbuff[..]) == old(FlatMacros(tbuff[..]))
    ensures OnlyCell(old(tbuff[..]), tbuff[..], a, a + 1)
    ensures tbuff[a] == Leaf(FlatMacros(tbuff[..]), tbuff[308], n)
    ensures n + 1 < LEAVES ==>
              FlatBefore(tbuff[..], t1, t2, t3, t5, n + 1) && t5 == AfterLeaf(n)
    ensures n + 1 == LEAVES ==> t2 == WRAPPED
  {
    hide Leaf, Node, LeftAncestors, Leftmost, OnPath, Next, Xor, AfterLeaf, FlatMacros;
    ghost var t := tbuff[..];
    t1, t2, t3, t5 := FlatGoDown(tbuff, x, index, y, z);
    ghost var u := tbuff[..];
    StacksOnlyKeepsMacros(t, u);
    LeafWord(FlatMacros(u), FlatAt(u, t2, t1, t3, t5));
    XorComm(t1, t3);
    tbuff[a] := XorWord(t3, t1);
    FlatFrame(u, tbuff[..], t2, t1, t3, t5);
    t1, t2, t3, t5 := FlatNext(tbuff, t1, t2, t3, t5);
  }

  /** Cells at .. at + len - 1 hold the words of the leaves from n on. */
  ghost predicate WordsAt(t: seq<word>, at: nat, len: int, m: Macros, tree: word, n: nat) {
    at + len <= |t| && n + len <= LEAVES
    && forall i :: at <= i < at + len ==> t[i] == Leaf(m, tree, n + i - at)
  }

  /** encshare2: the next len words into the array at offset `at`, within the leaves left.  With
      the last of them the index wraps below zero. */
  method Encshare2(tbuff: array<word>, at: nat, len: int, ghost n: nat)
    requires FLAT_SIZE <= tbuff.Length && BLOCK <= at <= tbuff.Length && at + len <= tbuff.Length
    requires len > 0 ==> FlatReady(tbuff[..], n) && n + len <= LEAVES
    modifies tbuff
    ensures FlatMacros(tbuff[..]) == old(FlatMacros(tbuff[..]))
    ensures OnlyCell(old(tbuff[..]), tbuff[..], at, at + len)
    ensures len > 0 ==> WordsAt(tbuff[..], at, len, FlatMacros(tbuff[..]), tbuff[308], n)
    ensures len > 0 && n + len < LEAVES ==>
              FlatReady(tbuff[..], n + len) && tbuff[307] == AfterLeaf(n + len - 1)
    ensures len > 0 && n + len == LEAVES ==> tbuff[304] == WRAPPED
    ensures len <= 0 ==> tbuff[..] == old(tbuff[..])
  {
    hide FlatReady, FlatBefore, FlatMacros, Leaf, AfterLeaf;
    var t2, t1, t3, t5 := tbuff[304], tbuff[305], tbuff[306], tbuff[307];
    ghost var m, tree := FlatMacros(tbuff[..]), tbuff[308];
    var k := 0;
    if len > 0 {
      LoadRegisters(tbuff[..], n);
    }
    while k < len
      invariant 0 <= k && (k <= len || k == 0)
      invariant FlatMacros(tbuff[..]) == m && tbuff[308] == tree
      invariant k > 0 ==> WordsAt(tbuff[..], at, k, m, tree, n)
      invariant OnlyCell(old(tbuff[..]), tbuff[..], at, at + k)
      invariant len > 0 && n + k < LEAVES ==> FlatBefore(tbuff[..], t1, t2, t3, t5, n + k)
      invariant k == 0 ==> tbuff[..] == old(tbuff[..]) && [t2, t1, t3, t5] == old(tbuff[304..308])
      invariant n + k < LEAVES && k > 0 ==> t5 == AfterLeaf(n + k - 1)
      invariant n + k == LEAVES && k > 0 ==> t2 == WRAPPED
    {
      t1, t2, t3, t5 := FlatWord(tbuff, at + k, t1, t2, t3, t5, n + k);
      k := k + 1;
    }
    ghost var t := tbuff[..];
    tbuff[304], tbuff[305], tbuff[306], tbuff[307] := t2, t1, t3, t5;
    StoreRegisters(t, tbuff[..], t1, t2, t3, t5);
    assert k == if len < 0 then 0 else len;
  }

  lemma LoadRegisters(t: seq<word>, n: nat)
    requires FlatReady(t, n)
    ensures |t| >= FLAT_SIZE && n < LEAVES && FlatBefore(t, t[305], t[304], t[306], t[307], n)
  {
  }

  lemma StoreRegisters(t: seq<word>, u: seq<word>, t1: word, t2: word, t3: word, t5: word)
    requires |t| >= FLAT_SIZE && u == t[304 := t2][305 := t1][306 := t3][307 := t5]
    ensures FlatMacros(u) == FlatMacros(t) && FlatView(u) == FlatAt(t, t2, t1, t3, t5)
    ensures forall n: nat :: FlatBefore(t, t1, t2, t3, t5, n) <==> FlatReady(u, n)
  {
    hide OnPath, Next;
    FlatFrame(t, u, t2, t1, t3, t5);
  }

  /** The walker while seeking: the index lives in its cell, the tree number is not stored yet. */
  ghost function Seeking(t: seq<word>, tree: word, x: word, y: word, z: word): Walker
    requires |t| >= FLAT_SIZE
  {
    FlatAt(t, t[INDEX], x, y, z).(tree := tree)
  }

  /** Only the stacks and the index cell differ. */
  ghost predicate SeekCells(t: seq<word>, u: seq<word>) {
    && |t| == |u| >= FLAT_SIZE
    && (forall i :: 0 <= i < X_STACK ==> u[i] == t[i])
    && (forall i :: INDEX < i < |t| ==> u[i] == t[i])
  }

  /** One level of the seek: mix, then turn right, or push and turn left. */
  method FlatSeekStep(data: array<word>, x: word, y: word, z: word, right: bool, ghost tree: word)
    returns (t2: word, t1: word, t4: word)
    requires data.Length >= FLAT_SIZE && z < LEAVES
    requires OnPath(FlatMacros(data[..]), Seeking(data[..], tree, x, y, z))
    modifies data
    ensures SeekCells(old(data[..]), data[..])
    ensures FlatMacros(data[..]) == old(FlatMacros(data[..]))
    ensures OnPath(FlatMacros(data[..]), Seeking(data[..], tree, t2, t1, t4))
    ensures t4 == 2 * z + if right then 1 else 0
  {
    hide Mix, TurnLeft, TurnRight, Xor, Node, Leftmost;
    DepthBelowLeaves(z);
    ghost var t := data[..];
    ghost var m, w := FlatMacros(t), Seeking(t, tree, x, y, z);
    t4 := z;
    t2, t1 := MixStep(x, y, t4);
    assert Pair(t2, t1) == Turned(m, tree, z);
    if right {
      t4 := AddWord(MulWord(t4, 2), 1);
      t2, t1 := FlatRight(data, t2, t1);
      assert data[..][..256] == data[..256];
      StepRight(m, w, Seeking(data[..], tree, t2, t1, t4));
    } else {
      FlatSeekPush(data, t2, t1, t4, tree, x, y);
      assert data[..][..256] == data[..256];
      t2, t1 := FlatLeft(data, t2, t1);
      t4 := MulWord(t4, 2);
      StepLeft(m, w, Seeking(data[..], tree, t2, t1, t4));
    }
  }

  method FlatSeekPush(data: array<word>, x: word, y: word, z: word, ghost tree: word, ghost x0: word, ghost y0: word)
    requires data.Length >= FLAT_SIZE && data[INDEX] < HEIGHT
    modifies data
    ensures SeekCells(old(data[..]), data[..])
    ensures FlatMacros(data[..]) == old(FlatMacros(data[..]))
    ensures Seeking(data[..], tree, x0, y0, z) == Pushed(old(Seeking(data[..], tree, x0, y0, z)), x, y, z)
  {
    ghost var t := data[..];
    FlatStore(data, data[INDEX], x, y, z, x0, y0, z);
    StacksOnlyKeepsMacros(t, data[..]);
    ghost var u := data[..];
    data[INDEX] := AddWord(data[INDEX], 1);
    assert data[..][..256] == u[..256];
    StacksSame(u, data[..]);
  }

  lemma StacksSame(t: seq<word>, u: seq<word>)
    requires |t| == |u| >= FLAT_SIZE && u == t[INDEX := u[INDEX]]
    ensures u[X_STACK..Y_STACK] == t[X_STACK..Y_STACK] && u[Y_STACK..Z_STACK] == t[Y_STACK..Z_STACK]
    ensures u[Z_STACK..INDEX] == t[Z_STACK..INDEX]
  {
  }

  /** encshare3: walk from the root straight to a leaf, bit by bit from the top. */
  method Encshare3(data: array<word>, n1: word, n2: word)
    requires data.Length >= FLAT_SIZE
    modifies data
    ensures FlatReady(data[..], n2 % LEAVES)
    ensures data[307] == LEAVES + n2 % LEAVES && data[308] == n1
    ensures data[..256] == old(data[..256])
  {
    hide Mix, TurnLeft, TurnRight, And, Xor, LeftAncestors, Node, Pow2, OnPath, FlatMacros, Seeking, FlatReady;
    var t2: word, t1: word, t4: word := n1, 0, 1;
    data[INDEX] := 0;
    var i: nat := 32768;
    ghost var t, d := LEAVES + n2 % LEAVES, data[..];
    ghost var b: nat := HEIGHT;
    RootOfWalk(t);
    SeekStart(d, n1);
    while i != 0
      invariant b <= HEIGHT && i == (if b == 0 then 0 else Pow2(b - 1))
      invariant t4 == t / Pow2(b)
      invariant SeekCells(d, data[..])
      invariant OnPath(FlatMacros(data[..]), Seeking(data[..], n1, t2, t1, t4))
      decreases i
    {
      BitAt(n2, b);
      AboveLeaves(t, b);
      AndComm(n2, i);
      t2, t1, t4 := FlatSeekStep(data, t2, t1, t4, And(n2, i) != 0, n1);
      i, b := i / 2, b - 1;
    }
    assert t4 == t;
    ghost var u := data[..];
    data[305], data[306], data[307], data[308] := t2, t1, t4, n1;
    SeekStored(u, data[..], n1, t2, t1, t4);
  }

  lemma SeekStart(t: seq<word>, tree: word)
    requires |t| >= FLAT_SIZE && t[INDEX] == 0
    ensures OnPath(FlatMacros(t), Seeking(t, tree, tree, 0, 1))
  {
    AtRoot(FlatMacros(t), Seeking(t, tree, tree, 0, 1));
  }

  lemma SeekStored(t: seq<word>, u: seq<word>, tree: word, x: word, y: word, z: word)
    requires |t| >= FLAT_SIZE && u == t[305 := x][306 := y][307 := z][308 := tree]
    requires OnPath(FlatMacros(t), Seeking(t, tree, x, y, z)) && z >= LEAVES
    ensures FlatReady(u, z - LEAVES)
  {
    assert u[..256] == t[..256];
    assert FlatView(u) == Seeking(t, tree, x, y, z);
  }

  method FlatClear(dest: array<word>)
    requires dest.Length >= FLAT_SIZE
    modifies dest
    ensures dest[..256] == seq(256, i => 0)
  {
    for i := 0 to 256
      invariant forall k :: 0 <= k < i ==> dest[k] == 0
    {
      dest[i] := 0;
    }
  }

  method FlatWiden(dest: array<word>)
    requires dest.Length >= FLAT_SIZE
    modifies dest
    ensures dest[..256] == Widen(old(dest[..256]))
  {
    for i := 0 to 256
      invariant forall k :: 0 <= k < i ==> dest[k] == AddWord(MulWord(old(dest[k]), 256), k)
      invariant forall k :: i <= k < 256 ==> dest[k] == old(dest[k])
    {
      dest[i] := AddWord(MulWord(dest[i], 256), i);
    }
  }

  /** One pass of swaps; the byte-sized position wraps by itself. */
  method FlatPass(dest: array<word>, src: Key, start: byte) returns (pos: byte)
    requires dest.Length >= FLAT_SIZE
    modifies dest
    ensures Deck(dest[..256], pos) == Pass(src, Deck(old(dest[..256]), start), |dest[..256]|)
  {
    pos := start;
    ghost var d := Deck(dest[..256], start);
    assert d == Pass(src, d, 0);
    ghost var n := |dest[..256]|;
    hide And, AddWord, Pass, Partner;
    for i := 0 to 256
      invariant Deck(dest[..256], pos) == Pass(src, d, i)
    {
      PassStep(src, d, i);
      var tmp := dest[i];
      FlatPartner(src, dest[..256], pos, i);
      pos := LowByte(AddWord(pos, AddWord(tmp, src[i % |src|])));
      dest[i] := dest[pos];
      dest[pos] := tmp;
    }
  }

  lemma FlatPartner(key: Key, F: Table, pos: byte, i: nat)
    requires i < 256
    ensures LowByte(AddWord(pos, AddWord(F[i], key[i % |key|]))) == Partner(key, F, pos, i)
  {
    hide And;
    PartnerOf(key, F, pos, i);
    assert AddWord(F[i], key[i % |key|]) == AddWord(key[i % |key|], F[i]);
  }

  method FlatMask(dest: array<word>)
    requires dest.Length >= FLAT_SIZE
    modifies dest
    ensures dest[..256] == Masked(old(dest[..256]))
  {
    hide Xor;
    for i := 0 to 256
      invariant forall k :: 0 <= k < i ==> dest[k] == XorWord(old(dest[k]), k)
      invariant forall k :: i <= k < 256 ==> dest[k] == old(dest[k])
    {
      dest[i] := XorWord(dest[i], i);
    }
  }

  method FlatRound(dest: array<word>, src: Key, y: nat)
    requires dest.Length >= FLAT_SIZE && y < ROUNDS && dest[..256] == Rounds(src, y)
    modifies dest
    ensures dest[..256] == Rounds(src, y + 1)
  {
    hide Rounds, Passes, Pass, Widen;
    RoundStep(src, y);
    FlatWiden(dest);
    ghost var d := Deck(dest[..256], y);
    var pos: byte := y;
    PassesStart(src, d);
    for x := 0 to SETUP_PASSES
      invariant Deck(dest[..256], pos) == Passes(src, d, x)
    {
      PassesStep(src, d, x);
      pos := FlatPass(dest, src, pos);
    }
  }

  /** encshare4: set the table up and stand before leaf 0 of tree 0. */
  method Encshare4(src: Key, dest: array<word>)
    requires dest.Length >= FLAT_SIZE
    modifies dest
    ensures dest[..256] == Setup(src) && dest[308] == 0
    ensures FlatReady(dest[..], 0) && dest[307] == LEAVES
  {
    FlatClear(dest);
    assert dest[..256] == Rounds(src, 0);
    hide Rounds, Masked, FlatReady;
    for y := 0 to ROUNDS
      invariant dest[..256] == Rounds(src, y)
    {
      FlatRound(dest, src, y);
    }
    FlatMask(dest);
    Encshare3(dest, 0, 0);
  }

  /** The number of 16-word blocks encshare1 draws for len bytes: one even for none. */
  function BlockCount(len: nat): nat {
    if len == 0 then 1 else (len + 62) / 63
  }

  /** Byte i of the pad drawn from leaf n on. */
  function PadByteFrom(m: Macros, tree: word, n: nat, i: nat): byte {
    var offset := i % 63;
    ByteOf(Leaf(m, tree, Ahead(n + 16 * (i / 63), offset / 4)), offset % 4)
  }

  lemma PadFromStart(m: Macros, tree: word)
    ensures forall i: nat :: PadByteFrom(m, tree, 0, i) == PadByte(m, tree, i)
  {
  }

  /** encshare1: exclusive-or the data with 63 bytes of every block, from the leaf where the array
      stands, within the leaves left. */
  method Encshare1(tbuff: array<word>, datap: array<byte>, len: nat, ghost n: nat)
    requires tbuff.Length >= FLAT_SIZE && len <= datap.Length && tbuff as object != datap
    requires FlatReady(tbuff[..], n) && n + 16 * BlockCount(len) <= LEAVES
    modifies tbuff, datap
    ensures FlatMacros(tbuff[..]) == old(FlatMacros(tbuff[..])) && tbuff[308] == old(tbuff[308])
    ensures forall i :: 0 <= i < len ==>
              datap[i] == XorByte(old(datap[i]), PadByteFrom(FlatMacros(tbuff[..]), tbuff[308], n, i))
    ensures forall i :: len <= i < datap.Length ==> datap[i] == old(datap[i])
    ensures n + 16 * BlockCount(len) < LEAVES ==> FlatReady(tbuff[..], n + 16 * BlockCount(len))
  {
    hide FlatReady, FlatMacros, Leaf, ByteOf, XorByte, AfterLeaf, PadByteFrom;
    ghost var m, tree := FlatMacros(tbuff[..]), tbuff[308];
    Encshare2(tbuff, BLOCK, 16, n);
    var p := 0;
    ghost var b: nat := 0;
    for i := 0 to len
      invariant p == i - 63 * b && 0 <= p <= 63 && b + 1 == BlockCount(i)
      invariant FlatMacros(tbuff[..]) == m && tbuff[308] == tree
      invariant WordsAt(tbuff[..], BLOCK, 16, m, tree, n + 16 * b)
      invariant n + 16 * b + 16 < LEAVES ==> FlatReady(tbuff[..], n + 16 * b + 16)
      invariant forall k :: 0 <= k < i ==> datap[k] == XorByte(old(datap[k]), PadByteFrom(m, tree, n, k))
      invariant forall k :: i <= k < datap.Length ==> datap[k] == old(datap[k])
    {
      BlocksGrow(i, len);
      if p == 63 {
        p, b := 0, b + 1;
        Encshare2(tbuff, BLOCK, 16, n + 16 * b);
      }
      BlockByte(tbuff[..], m, tree, n, b, p, i);
      datap[i] := XorByte(datap[i], ByteOf(tbuff[BLOCK + p / 4], p % 4));
      p := p + 1;
    }
  }

  lemma BlocksGrow(i: nat, len: nat)
    requires i < len
    ensures BlockCount(i) <= BlockCount(i + 1) <= BlockCount(len)
    ensures BlockCount(i + 1) == if i > 0 && i % 63 == 0 then BlockCount(i) + 1 else BlockCount(i)
  {
  }

  /** Byte p of block b is pad byte 63 b + p. */
  lemma BlockByte(t: seq<word>, m: Macros, tree: word, n: nat, b: nat, p: nat, i: nat)
    requires WordsAt(t, BLOCK, 16, m, tree, n + 16 * b) && p < 63 && i == 63 * b + p
    ensures BLOCK + p / 4 < |t|
    ensures ByteOf(t[BLOCK + p / 4], p % 4) == PadByteFrom(m, tree, n, i)
  {
    hide Leaf, ByteOf;
    assert i / 63 == b && i % 63 == p;
  }

  /** The data under the pad of a key. */
  ghost predicate Padded(key: Key, data: seq<byte>, out: seq<byte>) {
    |out| == |data|
    && forall i :: 0 <= i < |data| ==> out[i] == XorByte(data[i], PadByte(MacrosOf(Setup(key)), 0, i))
  }

  method CopyBytes(data: seq<byte>) returns (a: array<byte>)
    ensures a[..] == data && fresh(a)
  {
    a := new byte[|data|](i requires 0 <= i < |data| => data[i]);
  }

  /** A fresh run of the structured cipher. */
  method StructuredRun(key: Key, data: seq<byte>) returns (out: array<byte>)
    ensures Padded(key, data, out[..]) && fresh(out)
  {
    hide PadByte, XorByte, MacrosOf, Setup, OnPath, ClampSafe;
    out := CopyBytes(data);
    var L := new CryptKey();
    L.Init(key);
    L.DoCrypt(out, |data|);
  }

  /** A fresh run of the flattened cipher. */
  method FlatRun(key: Key, data: seq<byte>) returns (out: array<byte>)
    requires 16 * BlockCount(|data|) <= LEAVES
    ensures Padded(key, data, out[..]) && fresh(out)
  {
    hide PadByte, XorByte, MacrosOf, Setup, OnPath, FlatReady;
    out := CopyBytes(data);
    var tbuff := new word[FLAT_SIZE];
    Encshare4(key, tbuff);
    assert tbuff[..][..256] == tbuff[..256];
    PadFromStart(MacrosOf(Setup(key)), 0);
    hide PadByteFrom;
    Encshare1(tbuff, out, |data|, 0);
  }

  /** A fresh run of either cipher gives the same bytes, for every key and every length the
      leaves last for. */
  method FreshRunsAgree(key: Key, data: seq<byte>) returns (structured: array<byte>, flat: array<byte>)
    requires 16 * BlockCount(|data|) <= LEAVES
    ensures structured[..] == flat[..] && Padded(key, data, flat[..])
  {
    hide PadByte, XorByte, MacrosOf, Setup;
    structured := StructuredRun(key, data);
    flat := FlatRun(key, data);
  }

  /** Running the cipher on its own output gives the data back. */
  lemma PaddedTwice(key: Key, data: seq<byte>, once: seq<byte>, twice: seq<byte>)
    requires Padded(key, data, once) && Padded(key, once, twice)
    ensures twice == data
  {
    hide PadByte, MacrosOf, Setup, Xor;
    forall i | 0 <= i < |data| ensures twice[i] == data[i] {
      XorCancels(data[i], PadByte(MacrosOf(Setup(key)), 0, i));
    }
  }

  /** The node a generator stands on that was sent to a leaf and then gave n words. */
  ghost function Stand(leaf: nat, n: nat): nat {
    if n == 0 then LEAVES + leaf else AfterLeaf(leaf + n - 1)
  }

  /** A generator, wherever its table and state are kept, that was set up, sent to a leaf and asked
      for n words: the words, the table and, short of the last leaf, the node. */
  ghost predicate AfterWords(key: Key, tree: word, leaf: nat, n: nat, F: seq<word>, w: Walker, out: seq<word>) {
    && F == Setup(key) && |out| == n && leaf + n <= LEAVES
    && (forall k :: 0 <= k < n ==> out[k] == Leaf(MacrosOf(F), tree, leaf + k))
    && (leaf + n < LEAVES ==> w.tree == tree && w.z == Stand(leaf, n) && OnPath(MacrosOf(F), w))
  }

  /** The structured generator that has given n words since it was sent to a leaf. */
  ghost predicate Standing(L: CryptKey, tree: word, leaf: nat, n: nat)
    reads L, L.F, L.xStack, L.yStack, L.zStack
  {
    && L.Shape() && Bounded(L.View()) && L.treeNum == tree && leaf < LEAVES
    && (leaf + n < LEAVES ==>
          && OnPath(L.M(), L.View()) && Next(L.M(), L.View()) == leaf + n && L.z == Stand(leaf, n)
          && (leaf < LEAVES - 1 ==> ClampSafe(L.M(), L.View())))
  }

  method NextWords(L: CryptKey, size: nat, ghost tree: word, ghost leaf: nat, ghost n: nat)
    returns (dest: array<word>)
    requires Standing(L, tree, leaf, n) && leaf + n + size <= LEAVES
    modifies L`index, L`x, L`y, L`z, L.xStack, L.yStack, L.zStack
    ensures Standing(L, tree, leaf, n + size) && dest.Length == size
    ensures forall k :: 0 <= k < size ==> dest[k] == Leaf(L.M(), tree, leaf + n + k)
  {
    hide MacrosOf, OnPath, Leaf, AfterLeaf, Next, ClampSafe, Bounded;
    dest := new word[size];
    L.Encrypt(dest, size);
  }

  /** Set up with a key and sent to a leaf. */
  method SentTo(key: Key, tree: word, leaf: word) returns (L: CryptKey)
    ensures fresh(L) && fresh(L.xStack) && fresh(L.yStack) && fresh(L.zStack)
    ensures Standing(L, tree, leaf % LEAVES, 0) && L.F[..] == Setup(key)
  {
    hide MacrosOf, Setup, OnPath, Leaf, AfterLeaf, Next, ClampSafe, Bounded;
    L := new CryptKey();
    L.Init(key);
    var _ := L.Seek(tree, leaf);
    OnPathIsBounded(L.M(), L.View());
  }

  method StructuredWords(key: Key, tree: word, leaf: word, sizes: seq<nat>) returns (L: CryptKey, out: seq<word>)
    requires leaf % LEAVES + Sum(sizes) <= LEAVES
    ensures L.Shape() && Bounded(L.View())
    ensures AfterWords(key, tree, leaf % LEAVES, Sum(sizes), L.F[..], L.View(), out)
  {
    hide MacrosOf, Setup, OnPath, Leaf, Next, ClampSafe, Bounded, Standing, Stand;
    ghost var at := leaf % LEAVES;
    L := SentTo(key, tree, leaf);
    out := [];
    StandingIs(L, tree, at, 0);
    for i := 0 to |sizes|
      invariant fresh(L) && fresh(L.xStack) && fresh(L.yStack) && fresh(L.zStack) && L.Shape()
      invariant |out| == Sum(sizes[..i]) && at + |out| <= LEAVES
      invariant Standing(L, tree, at, |out|) && L.F[..] == Setup(key)
      invariant forall k :: 0 <= k < |out| ==> out[k] == Leaf(L.M(), tree, at + k)
    {
      SumOfFront(sizes, i + 1);
      assert sizes[..i + 1][..i] == sizes[..i];
      var dest := NextWords(L, sizes[i], tree, at, |out|);
      out := out + dest[..];
    }
    assert sizes[..|sizes|] == sizes;
    StandingIs(L, tree, at, |out|);
  }

  lemma StandingIs(L: CryptKey, tree: word, leaf: nat, n: nat)
    requires Standing(L, tree, leaf, n)
    ensures L.Shape() && Bounded(L.View()) && L.treeNum == tree
    ensures leaf + n < LEAVES ==> L.z == Stand(leaf, n) && OnPath(L.M(), L.View())
  {
  }

  lemma {:induction false} SumOfFront(sizes: seq<nat>, i: nat)
    requires i <= |sizes|
    ensures Sum(sizes[..i]) <= Sum(sizes)
    decreases |sizes|
  {
    if i < |sizes| {
      assert sizes[..|sizes| - 1][..i] == sizes[..i];
      SumOfFront(sizes[..|sizes| - 1], i);
    } else {
      assert sizes[..i] == sizes;
    }
  }

  /** The flattened generator that has given n words since it was sent to a leaf. */
  ghost predicate FlatStanding(t: seq<word>, tree: word, leaf: nat, n: nat) {
    && |t| >= FLAT_SIZE && t[308] == tree
    && (leaf + n < LEAVES ==> FlatReady(t, leaf + n) && t[307] == Stand(leaf, n))
    && (leaf + n == LEAVES ==> t[304] == WRAPPED)
  }

  method FlatNextWords(tbuff: array<word>, size: nat, ghost tree: word, ghost leaf: nat, n: nat)
    requires FlatStanding(tbuff[..], tree, leaf, n) && leaf + n + size <= LEAVES
    requires BLOCK + n + size <= tbuff.Length
    modifies tbuff
    ensures FlatStanding(tbuff[..], tree, leaf, n + size) && tbuff[..256] == old(tbuff[..256])
    ensures forall k :: BLOCK <= k < BLOCK + n ==> tbuff[k] == old(tbuff[k])
    ensures forall k :: BLOCK + n <= k < BLOCK + n + size ==>
              tbuff[k] == Leaf(MacrosOf(tbuff[..256]), tree, leaf + k - BLOCK)
  {
    hide MacrosOf, OnPath, Leaf, AfterLeaf, Next, FlatReady;
    ghost var t := tbuff[..];
    Encshare2(tbuff, BLOCK + n, size, leaf + n);
    assert tbuff[..256] == t[..256] == tbuff[..][..256];
  }

  method FlatWords(key: Key, tree: word, leaf: word, sizes: seq<nat>) returns (tbuff: array<word>)
    requires leaf % LEAVES + Sum(sizes) <= LEAVES
    ensures tbuff.Length == FLAT_SIZE + Sum(sizes)
    ensures AfterWords(key, tree, leaf % LEAVES, Sum(sizes), tbuff[..256], FlatView(tbuff[..]),
                       tbuff[BLOCK..BLOCK + Sum(sizes)])
    ensures leaf % LEAVES + Sum(sizes) == LEAVES ==> tbuff[304] == WRAPPED
  {
    hide MacrosOf, Setup, OnPath, Leaf, Stand, Next;
    ghost var at := leaf % LEAVES;
    var n := Sum(sizes);
    tbuff := new word[FLAT_SIZE + n];
    Encshare4(key, tbuff);
    Encshare3(tbuff, tree, leaf);
    StandAtLeaf(at);
    var done := 0;
    for i := 0 to |sizes|
      invariant tbuff[..256] == Setup(key) && FlatStanding(tbuff[..], tree, at, done)
      invariant done == Sum(sizes[..i]) <= n
      invariant forall k :: BLOCK <= k < BLOCK + done ==> tbuff[k] == Leaf(MacrosOf(tbuff[..256]), tree, at + k - BLOCK)
    {
      SumOfFront(sizes, i + 1);
      assert sizes[..i + 1][..i] == sizes[..i];
      FlatNextWords(tbuff, sizes[i], tree, at, done);
      done := done + sizes[i];
    }
    assert sizes[..|sizes|] == sizes && tbuff[..][..256] == tbuff[..256];
  }

  lemma StandAtLeaf(leaf: nat)
    ensures Stand(leaf, 0) == LEAVES + leaf
  {
  }

  /** Same node, same index, same live stack entries. */
  ghost predicate SameState(w: Walker, v: Walker) {
    && w.z == v.z && w.x == v.x && w.y == v.y && w.index == v.index && w.tree == v.tree
    && 0 <= w.index <= |w.xs| && w.index <= |w.ys| && w.index <= |w.zs|
    && w.index <= |v.xs| && w.index <= |v.ys| && w.index <= |v.zs|
    && w.xs[..w.index] == v.xs[..w.index]
    && w.ys[..w.index] == v.ys[..w.index]
    && w.zs[..w.index] == v.zs[..w.index]
  }

  /** The flattened generator simulates the structured one: set up with one key, sent to one leaf
      and asked for words in any batches up to the last leaf, they give equal words and have equal
      tables, and they have equal registers and stacks exactly as long as a leaf is left.  With the
      last word the flattened index wraps and the structured one does not. */
  method RunBoth(key: Key, tree: word, leaf: word, sizes: seq<nat>)
    returns (L: CryptKey, out: seq<word>, tbuff: array<word>)
    requires leaf % LEAVES + Sum(sizes) <= LEAVES
    ensures L.Shape() && |out| == Sum(sizes) && tbuff.Length == FLAT_SIZE + Sum(sizes)
    ensures out == tbuff[BLOCK..BLOCK + Sum(sizes)]
    ensures forall k :: 0 <= k < |out| ==> out[k] == Leaf(L.M(), tree, leaf % LEAVES + k)
    ensures L.F[..] == tbuff[..256] == Setup(key)
    ensures SameState(L.View(), FlatView(tbuff[..])) <==> leaf % LEAVES + Sum(sizes) < LEAVES
  {
    hide MacrosOf, Setup, OnPath, Leaf, Stand, Bounded;
    L, out := StructuredWords(key, tree, leaf, sizes);
    tbuff := FlatWords(key, tree, leaf, sizes);
    SameOrWrapped(key, tree, leaf % LEAVES, Sum(sizes), L.F[..], L.View(), FlatView(tbuff[..]), out,
                  tbuff[BLOCK..BLOCK + Sum(sizes)]);
  }

  lemma SameOrWrapped(key: Key, tree: word, leaf: nat, n: nat, F: seq<word>, w: Walker, v: Walker,
                      a: seq<word>, b: seq<word>)
    requires AfterWords(key, tree, leaf, n, F, w, a) && AfterWords(key, tree, leaf, n, F, v, b)
    requires Bounded(w) && (leaf + n == LEAVES ==> v.index == WRAPPED)
    ensures a == b && (SameState(w, v) <==> leaf + n < LEAVES)
  {
    hide MacrosOf, OnPath, Leaf, Stand;
    if leaf + n < LEAVES {
      WalkersAgree(MacrosOf(F), w, v);
      OnPathIsBounded(MacrosOf(F), v);
    }
  }
}
