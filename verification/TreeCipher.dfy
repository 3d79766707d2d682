/** What the tree keystream generator computes, stated on values: the mixing macros, the
    node values of the key tree, the words at its leaves, the table set up from a key, and
    the relation between a generator's registers and the walk over the tree. */
module TreeCipher {
  import opened Bits
  import opened TreeWalk

  const HEIGHT: nat := 16
  const LEAVES: nat := 65536
  const TABLE_SIZE: nat := 256
  const SETUP_PASSES: nat := 2
  const NWORDS: nat := 16

  type Table = s: seq<word> | |s| == 256 witness seq(256, _ => 0)

  datatype Pair = Pair(x: word, y: word)

  function Rot8(x: word): word {
    OrWord(MulWord(x, 256), x / 0x100_0000)
  }

  function Rot24(x: word): word {
    OrWord(MulWord(x, 0x100_0000), x / 256)
  }

  function Not(x: word): word {
    0xFFFF_FFFF - x
  }

  function Look(F: Table, x: word): word {
    XorWord(x, F[LowByte(x)])
  }

  /** The macro `d`, applied at every inner node before turning. */
  function Mix(p: Pair, z: word): Pair {
    var x := AddWord(p.x, z);
    var y := AddWord(p.y, x);
    Pair(AddWord(x, y), y)
  }

  /** The macro `f` without its effect on z. */
  function TurnLeft(p: Pair, F: Table): Pair {
    var y := Look(F, Rot24(p.y));
    var x := Rot8(Look(F, p.x));
    var y' := Look(F, Rot24(y));
    Pair(Rot8(Look(F, x)), y')
  }

  /** The macro `g` without its effect on z. */
  function TurnRight(p: Pair, F: Table): Pair {
    var x := Rot24(Look(F, Rot24(Not(p.x))));
    var y := Rot8(Look(F, p.y));
    Pair(Look(F, x), Rot8(Look(F, y)))
  }

  /** What the walk needs of the macros: how a value is mixed at node z and how it turns. */
  datatype Macros = Macros(mix: (Pair, word) -> Pair, left: Pair -> Pair, right: Pair -> Pair)

  /** The macros d, f and g over a table. */
  function MacrosOf(F: Table): Macros {
    Macros((p: Pair, z: word) => Mix(p, z), (p: Pair) => TurnLeft(p, F), (p: Pair) => TurnRight(p, F))
  }

  /** The value at node z of the tree: every node is reached from its parent by mixing and
      turning.  This is the definition both generators are measured against. */
  function Node(m: Macros, tree: word, z: word): Pair
    requires z >= 1
    decreases z
  {
    if z == 1 then Pair(tree, 0)
    else if z % 2 == 0 then m.left(m.mix(Node(m, tree, z / 2), z / 2))
    else m.right(m.mix(Node(m, tree, z / 2), z / 2))
  }

  /** The value at inner node z after mixing, from which either turn starts. */
  function Turned(m: Macros, tree: word, z: word): Pair
    requires z >= 1
  {
    m.mix(Node(m, tree, z), z)
  }

  /** The keystream word at leaf n. */
  function Leaf(m: Macros, tree: word, n: nat): word
    requires n < LEAVES
  {
    var p := Node(m, tree, LEAVES + n);
    XorWord(p.x, p.y)
  }

  /** The registers and stacks of a generator, however they are stored. */
  datatype Walker = Walker(xs: seq<word>, ys: seq<word>, zs: seq<word>,
                           index: int, x: word, y: word, z: word, tree: word)

  predicate Shaped(w: Walker) {
    |w.xs| == |w.ys| == |w.zs| == HEIGHT
  }

  /** Stack slot i holds the mixed value of inner node a. */
  ghost predicate Holds(m: Macros, w: Walker, i: nat, a: nat)
    requires Shaped(w) && i < HEIGHT
  {
    1 <= a < LEAVES && w.zs[i] == a && Pair(w.xs[i], w.ys[i]) == Turned(m, w.tree, a)
  }

  /** The generator stands on node z: x and y are the value of z, and the stack is exactly the
      left turns above z, each with its mixed value. */
  ghost predicate OnPath(m: Macros, w: Walker) {
    && Shaped(w)
    && 1 <= w.z < 2 * LEAVES
    && Pair(w.x, w.y) == Node(m, w.tree, w.z)
    && var s := LeftAncestors(w.z);
       w.index == |s| <= HEIGHT
       && forall i :: 0 <= i < |s| ==> Holds(m, w, i, s[i])
  }

  /** What keeps every stack access inside the stack, wherever the generator stands: entry i was
      pushed at a node of at least 2^i above the leaves. */
  ghost predicate Bounded(w: Walker) {
    && Shaped(w)
    && 0 <= w.index <= HEIGHT && w.z >= Pow2(w.index)
    && forall i :: 0 <= i < w.index ==> Pow2(i) <= w.zs[i] < LEAVES
  }

  lemma OnPathIsBounded(m: Macros, w: Walker)
    requires OnPath(m, w)
    ensures Bounded(w)
  {
    hide Pow2, LeftAncestors;
    TurnsGoDown(w.z);
    var s := LeftAncestors(w.z);
    forall i | 0 <= i < w.index ensures Pow2(i) <= w.zs[i] < LEAVES {
      assert Holds(m, w, i, s[i]);
    }
  }

  lemma BoundedIndex(w: Walker)
    requires Bounded(w)
    ensures Shaped(w) && 0 <= w.index <= HEIGHT && w.z >= 1
  {
  }

  lemma MixedIsTurned(m: Macros, w: Walker, u: Pair)
    requires OnPath(m, w) && u == m.mix(Pair(w.x, w.y), w.z)
    ensures u == Turned(m, w.tree, w.z)
  {
  }

  /** Only on the last leaf does slot 0 matter. */
  lemma UnsafeIsLast(m: Macros, w: Walker)
    requires OnPath(m, w) && !ClampSafe(m, w)
    ensures Next(m, w) == LEAVES - 1
  {
  }

  /** At a node above the leaves there is room for a push. */
  lemma RoomToPush(w: Walker)
    requires Bounded(w) && w.z < LEAVES
    ensures w.index < HEIGHT
  {
    Pow2Values();
  }

  /** On the last leaf the stack is empty and the clamp rereads slot 0, so what is there
      matters: it must be the parent of the last two leaves. */
  ghost predicate ClampSafe(m: Macros, w: Walker)
    requires Shaped(w)
  {
    w.z == 2 * LEAVES - 1 ==> Holds(m, w, 0, LEAVES - 1)
  }

  /** The number of the leaf whose word comes next. */
  ghost function Next(m: Macros, w: Walker): (n: nat)
    requires OnPath(m, w)
    ensures n < LEAVES
  {
    LeftmostIsLeaf(w.z, LEAVES);
    Leftmost(w.z, LEAVES) - LEAVES
  }

  function Min(a: int, b: int): int {
    if a <= b then a else b
  }

  /** The leaf k words after leaf n when the walk stays on the last leaf. */
  function Ahead(n: nat, k: nat): (r: nat)
    ensures r < LEAVES
  {
    Min(n + k, LEAVES - 1)
  }

  lemma AtRoot(m: Macros, w: Walker)
    requires Shaped(w) && w.index == 0 && w.z == 1 && w.x == w.tree && w.y == 0
    ensures OnPath(m, w)
  {
  }

  /** The walker with a triple pushed on its stacks. */
  function Pushed(w: Walker, x: word, y: word, z: word): Walker
    requires Shaped(w) && 0 <= w.index < HEIGHT
  {
    w.(xs := w.xs[w.index := x], ys := w.ys[w.index := y], zs := w.zs[w.index := z],
       index := w.index + 1)
  }

  /** A step to the left keeps the bounds. */
  lemma PushKeepsBounds(w: Walker, v: Walker, x: word, y: word)
    requires Bounded(w) && w.z < LEAVES && w.index < HEIGHT
    requires v == Pushed(w, x, y, w.z).(x := v.x, y := v.y, z := 2 * w.z)
    ensures Bounded(v)
  {
  }

  /** One step down the left side keeps the invariant and does not change the next leaf. */
  lemma StepLeft(m: Macros, w: Walker, v: Walker)
    requires OnPath(m, w) && w.z < LEAVES && w.index < HEIGHT
    requires var u := Turned(m, w.tree, w.z);
             v == Pushed(w, u.x, u.y, w.z).(x := v.x, y := v.y, z := 2 * w.z)
             && Pair(v.x, v.y) == m.left(u)
    ensures OnPath(m, v) && Next(m, v) == Next(m, w)
  {
    var s, t := LeftAncestors(w.z), LeftAncestors(v.z);
    assert t == s + [w.z];
    forall i | 0 <= i < |t| ensures Holds(m, v, i, t[i]) {
      if i < |s| {
        assert Holds(m, w, i, s[i]);
      }
    }
  }

  /** Turning right pushes nothing. */
  lemma StepRight(m: Macros, w: Walker, v: Walker)
    requires OnPath(m, w) && w.z < LEAVES
    requires v == w.(x := v.x, y := v.y, z := v.z)
    requires v.z == 2 * w.z + 1 && Pair(v.x, v.y) == m.right(Turned(m, w.tree, w.z))
    ensures OnPath(m, v)
  {
    assert v.z / 2 == w.z;
    var s := LeftAncestors(w.z);
    assert LeftAncestors(v.z) == s;
    forall i | 0 <= i < |s| ensures Holds(m, v, i, s[i]) {
      assert Holds(m, w, i, s[i]);
    }
  }

  lemma DepthBelowLeaves(z: nat)
    requires 1 <= z < LEAVES
    ensures |LeftAncestors(z)| < HEIGHT
  {
    Pow2Values();
    StackDepth(z, 15);
  }

  /** What the code does after emitting the word of a leaf: pop, with the clamp, and turn
      right from the popped entry. */
  ghost predicate Pops(m: Macros, w: Walker, v: Walker)
    requires Shaped(w) && 0 <= w.index <= HEIGHT
  {
    && Shaped(v)
    && v.tree == w.tree && v.xs == w.xs && v.ys == w.ys && v.zs == w.zs
    && v.index == (if w.index == 0 then 0 else w.index - 1)
    && v.z == AddWord(w.zs[v.index], AddWord(w.zs[v.index], 1))
    && Pair(v.x, v.y) == m.right(Pair(w.xs[v.index], w.ys[v.index]))
  }

  /** Popping keeps the bounds, whatever the clamp makes it reread. */
  lemma PopKeepsBounds(m: Macros, w: Walker, v: Walker)
    requires Bounded(w) && Pops(m, w, v)
    ensures Bounded(v)
  {
    hide AddWord;
    DoubleIsOdd(w.zs[v.index]);
  }

  lemma DoubleIsOdd(z: word)
    ensures AddWord(z, AddWord(z, 1)) >= 1
    ensures z < LEAVES ==> AddWord(z, AddWord(z, 1)) == 2 * z + 1
  {
  }

  lemma TurnsRightTo(m: Macros, w: Walker, v: Walker, a: nat)
    requires OnPath(m, w) && Pops(m, w, v) && Holds(m, w, v.index, a)
    ensures v.z == 2 * a + 1 && Pair(v.x, v.y) == Node(m, v.tree, v.z)
  {
    assert v.z / 2 == a;
  }

  /** The entry on top of the stack is the last left turn, and below it everything stays. */
  lemma PoppedPath(m: Macros, w: Walker, v: Walker)
    requires OnPath(m, w) && w.index > 0 && Pops(m, w, v)
    ensures OnPath(m, v)
    ensures v.z == 2 * LeftAncestors(w.z)[w.index - 1] + 1
  {
    var s, i := LeftAncestors(w.z), w.index - 1;
    assert Holds(m, w, i, s[i]);
    TurnsRightTo(m, w, v, s[i]);
    PopLeftTurn(w.z);
    var t := LeftAncestors(v.z);
    assert t == s[..i];
    forall j | 0 <= j < |t| ensures Holds(m, v, j, t[j]) {
      assert Holds(m, w, j, s[j]);
    }
  }

  /** Popping below the last leaf moves on to the next leaf. */
  lemma StepPop(m: Macros, w: Walker, v: Walker)
    requires OnPath(m, w) && w.z >= LEAVES && w.index > 0 && Pops(m, w, v)
    ensures OnPath(m, v) && ClampSafe(m, v)
    ensures Next(m, w) == w.z - LEAVES && w.z < 2 * LEAVES - 1
    ensures Next(m, v) == w.z - LEAVES + 1 && v.z == AfterLeaf(w.z - LEAVES)
  {
    Pow2Values();
    PoppedPath(m, w, v);
    NextLeaf(w.z, HEIGHT);
    PopKeepsClampSafe(m, w, v);
  }

  lemma PopKeepsClampSafe(m: Macros, w: Walker, v: Walker)
    requires OnPath(m, w) && LEAVES <= w.z && w.index > 0 && Pops(m, w, v)
    requires v.z == 2 * LeftAncestors(w.z)[w.index - 1] + 1 && OnPath(m, v)
    requires Leftmost(v.z, LEAVES) == w.z + 1
    ensures ClampSafe(m, v)
  {
    if v.z == 2 * LEAVES - 1 {
      assert w.z == 2 * LEAVES - 2;
      Pow2Values();
      LastLeavesParent(HEIGHT);
      assert LeftAncestors(w.z)[0] == LEAVES - 1;
      assert Holds(m, w, 0, LEAVES - 1);
    }
  }

  /** The clamp fires exactly on the last leaf and then returns to that leaf. */
  lemma StepClamp(m: Macros, w: Walker, v: Walker)
    requires OnPath(m, w) && ClampSafe(m, w) && w.z >= LEAVES && w.index == 0 && Pops(m, w, v)
    ensures w.z == 2 * LEAVES - 1 && v.z == w.z && Next(m, w) == LEAVES - 1
    ensures OnPath(m, v) && ClampSafe(m, v) && Next(m, v) == LEAVES - 1
  {
    Pow2Values();
    NextLeaf(w.z, HEIGHT);
    assert Holds(m, w, 0, LEAVES - 1);
    TurnsRightTo(m, w, v, LEAVES - 1);
    assert Holds(m, v, 0, LEAVES - 1);
  }

  /** The node a generator stands on after the word of leaf n: the right child of the last left
      turn above the leaf, or the last leaf itself. */
  ghost function AfterLeaf(n: nat): nat
  {
    var s := LeftAncestors(LEAVES + n);
    if s == [] then LEAVES + n else 2 * s[|s| - 1] + 1
  }

  /** A walker's registers and live stack are fixed by the node it stands on: two generators on
      the same node of the same tree are in the same state, however they store it. */
  lemma WalkersAgree(m: Macros, w: Walker, v: Walker)
    requires OnPath(m, w) && OnPath(m, v) && w.z == v.z && w.tree == v.tree
    ensures w.index == v.index && w.x == v.x && w.y == v.y
    ensures w.xs[..w.index] == v.xs[..w.index] && w.ys[..w.index] == v.ys[..w.index]
    ensures w.zs[..w.index] == v.zs[..w.index]
  {
    hide Node, LeftAncestors;
    var s := LeftAncestors(w.z);
    forall i | 0 <= i < w.index
      ensures w.xs[i] == v.xs[i] && w.ys[i] == v.ys[i] && w.zs[i] == v.zs[i]
    {
      assert Holds(m, w, i, s[i]) && Holds(m, v, i, s[i]);
    }
  }

  /** Before the last leaf there is always something to pop. */
  lemma CanPop(m: Macros, w: Walker)
    requires OnPath(m, w) && LEAVES <= w.z < 2 * LEAVES - 1
    ensures w.index > 0
  {
    Pow2Values();
    NextLeaf(w.z, HEIGHT);
  }

  /** A generator standing on a leaf emits the word of that leaf. */
  lemma LeafWord(m: Macros, w: Walker)
    requires OnPath(m, w) && w.z >= LEAVES
    ensures Next(m, w) == w.z - LEAVES && XorWord(w.x, w.y) == Leaf(m, w.tree, Next(m, w))
  {
  }

  /** Both cases together: after the word of a leaf the generator stands before the leaf one
      further on, or still before the last one. */
  lemma StepAfterLeaf(m: Macros, w: Walker, v: Walker)
    requires OnPath(m, w) && ClampSafe(m, w) && w.z >= LEAVES && Pops(m, w, v)
    ensures OnPath(m, v) && ClampSafe(m, v)
    ensures Next(m, v) == Ahead(w.z - LEAVES, 1) && v.z == AfterLeaf(w.z - LEAVES)
  {
    if w.index == 0 {
      StepClamp(m, w, v);
    } else {
      StepPop(m, w, v);
    }
  }

  /** The next `count` words of a generator standing before leaf n. */
  function Words(m: Macros, tree: word, n: nat, count: nat): (r: seq<word>) {
    seq(count, k requires 0 <= k => Leaf(m, tree, Ahead(n, k)))
  }

  /** Asking for a + b words is asking for a words and then for b more. */
  lemma WordsSplit(m: Macros, tree: word, n: nat, a: nat, b: nat)
    ensures Words(m, tree, n, a + b) == Words(m, tree, n, a) + Words(m, tree, Ahead(n, a), b)
  {
    hide Leaf;
    forall k | 0 <= k < b ensures Ahead(n, a + k) == Ahead(Ahead(n, a), k) {
    }
  }
}
