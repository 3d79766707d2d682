/** The stack evaluation of a postfix token list, for any meaning of operands and operators. */
module FilterStack {
  import opened FilterTokens

  /** What operands and operators mean; missing is what an operator yields when the stack is
      too short for it. */
  datatype Meaning<!V> = Meaning(operand: Token -> V, binary: (Op, V, V) -> V, negate: V -> V, missing: Op -> V)

  /** The operand stack, top last, and whether it was ever too short. */
  datatype Machine<V> = Machine(stack: seq<V>, short: bool)

  function Step<V>(m: Meaning<V>, s: Machine<V>, t: Token): Machine<V> {
    var n := |s.stack|;
    if IsOperand(t) then s.(stack := s.stack + [m.operand(t)])
    else if !t.Operator? then s
    else if t.op == Not then
      if n >= 1 then s.(stack := s.stack[..n - 1] + [m.negate(s.stack[n - 1])])
      else Machine(s.stack + [m.missing(t.op)], true)
    else
      if n >= 2 then s.(stack := s.stack[..n - 2] + [m.binary(t.op, s.stack[n - 2], s.stack[n - 1])])
      else Machine(s.stack + [m.missing(t.op)], true)
  }

  function Steps<V>(m: Meaning<V>, s: Machine<V>, tokens: seq<Token>): Machine<V>
    decreases |tokens|
  {
    if tokens == [] then s else Steps(m, Step(m, s, tokens[0]), tokens[1..])
  }

  /** The value of an expression, by recursion over the tree. */
  function Value<V>(m: Meaning<V>, e: Expr): V
    decreases e
  {
    match e
    case Operand(t) => m.operand(t)
    case Bracketed(b) => Value(m, b)
    case Binary(op, l, r) => m.binary(op, Value(m, l), Value(m, r))
    case Negation(b) => m.negate(Value(m, b))
  }

  /** Binary nodes carry binary operators and the leaves are operands. */
  predicate Proper(e: Expr) {
    match e
    case Operand(t) => IsOperand(t)
    case Bracketed(b) => Proper(b)
    case Binary(op, l, r) => op != Not && Proper(l) && Proper(r)
    case Negation(b) => Proper(b)
  }

  lemma {:induction false} WellFormedIsProper(e: Expr)
    requires WellFormed(e)
    ensures Proper(e)
    decreases e
  {
    match e
    case Operand(t) =>
    case Bracketed(b) => WellFormedIsProper(b);
    case Binary(op, l, r) => WellFormedIsProper(l); WellFormedIsProper(r);
    case Negation(b) => WellFormedIsProper(b);
  }

  lemma {:induction false} StepsAppend<V>(m: Meaning<V>, s: Machine<V>, a: seq<Token>, b: seq<Token>)
    ensures Steps(m, s, a + b) == Steps(m, Steps(m, s, a), b)
    decreases |a|
  {
    hide Step;
    if a == [] {
      assert a + b == b;
    } else {
      StepsAppend(m, Step(m, s, a[0]), a[1..], b);
      assert (a + b)[1..] == a[1..] + b;
    }
  }

  lemma StepsOne<V>(m: Meaning<V>, s: Machine<V>, t: Token)
    ensures Steps(m, s, [t]) == Step(m, s, t)
  {
    hide Step;
    assert [t][1..] == [];
  }

  /** Evaluating the postorder of a tree pushes exactly the value of the tree and never finds
      the stack too short, for every meaning and on every stack. */
  lemma {:induction false} PostorderPushesValue<V>(m: Meaning<V>, e: Expr, s: Machine<V>)
    requires Proper(e)
    ensures Steps(m, s, Postfix(e)) == s.(stack := s.stack + [Value(m, e)])
    decreases e
  {
    hide Steps;
    match e
    case Operand(t) => StepsOne(m, s, t);
    case Bracketed(b) => PostorderPushesValue(m, b, s);
    case Negation(b) =>
      PostorderPushesValue(m, b, s);
      var s1 := s.(stack := s.stack + [Value(m, b)]);
      StepsAppend(m, s, Postfix(b), [Operator(Not)]);
      StepsOne(m, s1, Operator(Not));
      assert s1.stack[..|s1.stack| - 1] == s.stack;
    case Binary(op, l, r) =>
      PostorderPushesValue(m, l, s);
      var s1 := s.(stack := s.stack + [Value(m, l)]);
      PostorderPushesValue(m, r, s1);
      var s2 := s.(stack := s1.stack + [Value(m, r)]);
      StepsAppend(m, s, Postfix(l), Postfix(r));
      StepsAppend(m, s, Postfix(l) + Postfix(r), [Operator(op)]);
      StepsOne(m, s2, Operator(op));
      assert s2.stack[..|s2.stack| - 2] == s.stack;
  }

  // ---- postorder determines the tree ----

  /** The tree without its brackets. */
  function Strip(e: Expr): Expr {
    match e
    case Operand(_) => e
    case Bracketed(b) => Strip(b)
    case Binary(op, l, r) => Binary(op, Strip(l), Strip(r))
    case Negation(b) => Negation(Strip(b))
  }

  /** The meaning that builds the tree back. */
  function Rebuild(): Meaning<Expr> {
    Meaning((t: Token) => Operand(t), (op: Op, l: Expr, r: Expr) => Binary(op, l, r),
            (b: Expr) => Negation(b), (op: Op) => Operand(NoneToken))
  }

  lemma {:induction false} RebuildStrips(e: Expr)
    ensures Value(Rebuild(), e) == Strip(e)
    decreases e
  {
    match e
    case Operand(t) =>
    case Bracketed(b) => RebuildStrips(b);
    case Binary(op, l, r) => RebuildStrips(l); RebuildStrips(r);
    case Negation(b) => RebuildStrips(b);
  }

  /** Two trees with the same postorder are the same up to brackets. */
  lemma PostorderDeterminesTree(a: Expr, b: Expr)
    requires Proper(a) && Proper(b) && Postfix(a) == Postfix(b)
    ensures Strip(a) == Strip(b)
  {
    var s: Machine<Expr> := Machine([], false);
    PostorderPushesValue(Rebuild(), a, s);
    PostorderPushesValue(Rebuild(), b, s);
    assert (s.stack + [Value(Rebuild(), a)])[0] == (s.stack + [Value(Rebuild(), b)])[0];
    RebuildStrips(a);
    RebuildStrips(b);
  }
}
