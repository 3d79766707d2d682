/** The conversion of a token list to postfix order. */
module FilterCompiler {
  import opened FilterTokens

  /** The operator stack, top last, and the output so far. */
  datatype Yard = Yard(stack: seq<Token>, out: seq<Token>)

  function Top(y: Yard): Token
    requires y.stack != []
  {
    y.stack[|y.stack| - 1]
  }

  /** Move the top of the stack to the output. */
  function Emit(y: Yard): Yard
    requires y.stack != []
  {
    Yard(y.stack[..|y.stack| - 1], y.out + [Top(y)])
  }

  /** Is there an operator on top that binds at least as tightly? */
  predicate Yields(y: Yard, op: Op) {
    y.stack != [] && Top(y).Operator? && Precedence(Top(y).op) >= Precedence(op)
  }

  function PopTighter(y: Yard, op: Op): Yard
    decreases |y.stack|
  {
    if Yields(y, op) then PopTighter(Emit(y), op) else y
  }

  function PopToBracket(y: Yard): Yard
    decreases |y.stack|
  {
    if y.stack != [] && !Top(y).LeftBracket? then PopToBracket(Emit(y)) else y
  }

  function Push(y: Yard, t: Token): Yard {
    y.(stack := y.stack + [t])
  }

  function DropTop(y: Yard): Yard {
    if y.stack == [] then y else y.(stack := y.stack[..|y.stack| - 1])
  }

  /** What one token does. */
  function Read(y: Yard, t: Token): Yard {
    if Compiled(t) then y.(out := y.out + [t])
    else if t.Operator? then Push(PopTighter(y, t.op), t)
    else if t.LeftBracket? then Push(y, t)
    else if t.RightBracket? then DropTop(PopToBracket(y))
    else y
  }

  function Run(y: Yard, tokens: seq<Token>): Yard
    decreases |tokens|
  {
    if tokens == [] then y else Run(Read(y, tokens[0]), tokens[1..])
  }

  function Flush(y: Yard): seq<Token>
    decreases |y.stack|
  {
    if y.stack == [] then y.out else Flush(Emit(y))
  }

  /** The whole conversion. */
  function Rpn(tokens: seq<Token>): seq<Token> {
    Flush(Run(Yard([], []), tokens))
  }

  lemma {:induction false} RunAppend(y: Yard, a: seq<Token>, b: seq<Token>)
    ensures Run(y, a + b) == Run(Run(y, a), b)
    decreases |a|
  {
    hide Read;
    if a == [] {
      assert a + b == b;
    } else {
      RunAppend(Read(y, a[0]), a[1..], b);
      assert (a + b)[1..] == a[1..] + b;
    }
  }

  lemma RunOne(y: Yard, t: Token)
    ensures Run(y, [t]) == Read(y, t)
  {
    hide Read;
    assert Run(Read(y, t), [t][1..]) == Read(y, t);
  }

  /** convertToRPN */
  method ConvertToRPN(tokenList: seq<Token>) returns (tokens: seq<Token>)
    ensures tokens == Rpn(tokenList)
  {
    hide Read, Rpn, PopTighter, PopToBracket, Flush;
    tokens := [];
    var stack: seq<Token> := [];
    assert tokenList[..0] == [];
    for i := 0 to |tokenList|
      invariant Yard(stack, tokens) == Run(Yard([], []), tokenList[..i])
    {
      var cur := tokenList[i];
      ghost var y := Yard(stack, tokens);
      stack, tokens := ReadToken(stack, tokens, cur);
      RunAppend(Yard([], []), tokenList[..i], [cur]);
      RunOne(y, cur);
      assert tokenList[..i + 1] == tokenList[..i] + [cur];
    }
    assert tokenList[..|tokenList|] == tokenList;
    tokens := FlushStack(stack, tokens);
    RpnIsFlush(tokenList);
  }

  lemma RpnIsFlush(tokenList: seq<Token>)
    ensures Rpn(tokenList) == Flush(Run(Yard([], []), tokenList))
  {
  }

  /** The body of the conversion loop. */
  method ReadToken(stack0: seq<Token>, tokens0: seq<Token>, cur: Token)
    returns (stack: seq<Token>, tokens: seq<Token>)
    ensures Yard(stack, tokens) == Read(Yard(stack0, tokens0), cur)
  {
    stack, tokens := stack0, tokens0;
    if cur.Variable? || cur.Integer? || cur.Str? {
      tokens := tokens + [cur];
    } else if cur.Operator? {
      while |stack| > 0 && stack[|stack| - 1].Operator?
        invariant PopTighter(Yard(stack, tokens), cur.op) == PopTighter(Yard(stack0, tokens0), cur.op)
        decreases |stack|
      {
        if Precedence(stack[|stack| - 1].op) >= Precedence(cur.op) {
          tokens := tokens + [stack[|stack| - 1]];
          stack := stack[..|stack| - 1];
        } else {
          break;
        }
      }
      stack := stack + [cur];
    } else if cur.LeftBracket? {
      stack := stack + [cur];
    } else if cur.RightBracket? {
      while |stack| > 0 && !stack[|stack| - 1].LeftBracket?
        invariant PopToBracket(Yard(stack, tokens)) == PopToBracket(Yard(stack0, tokens0))
        decreases |stack|
      {
        tokens := tokens + [stack[|stack| - 1]];
        stack := stack[..|stack| - 1];
      }
      if |stack| > 0 {
        stack := stack[..|stack| - 1];
      }
    }
  }

  method FlushStack(stack0: seq<Token>, tokens0: seq<Token>) returns (tokens: seq<Token>)
    ensures tokens == Flush(Yard(stack0, tokens0))
  {
    var stack := stack0;
    tokens := tokens0;
    while |stack| > 0
      invariant Flush(Yard(stack, tokens)) == Flush(Yard(stack0, tokens0))
      decreases |stack|
    {
      tokens := tokens + [stack[|stack| - 1]];
      stack := stack[..|stack| - 1];
    }
  }

  // ---- the conversion of a well-formed expression is its postorder ----

  /** The operators still on the stack after the tokens of e: its right spine. */
  function Spine(e: Expr): seq<Token> {
    match e
    case Operand(_) => []
    case Bracketed(_) => []
    case Binary(op, _, r) => [Operator(op)] + Spine(r)
    case Negation(b) => [Operator(Not)] + Spine(b)
  }

  /** What has been put out by then. */
  function Emitted(e: Expr): seq<Token> {
    match e
    case Operand(t) => [t]
    case Bracketed(b) => Postfix(b)
    case Binary(_, l, r) => Postfix(l) + Emitted(r)
    case Negation(b) => Emitted(b)
  }

  function Reverse(s: seq<Token>): seq<Token> {
    if s == [] then [] else Reverse(s[1..]) + [s[0]]
  }

  lemma {:induction false} PostfixSplits(e: Expr)
    ensures Postfix(e) == Emitted(e) + Reverse(Spine(e))
    decreases e
  {
    match e
    case Operand(_) =>
    case Bracketed(_) =>
    case Binary(op, l, r) =>
      PostfixSplits(r);
      assert Spine(e)[1..] == Spine(r);
    case Negation(b) =>
      PostfixSplits(b);
      assert Spine(e)[1..] == Spine(b);
  }

  /** Every operator on the spine binds at least as tightly as the expression's loosest one. */
  lemma {:induction false} SpineTight(e: Expr)
    requires WellFormed(e)
    ensures forall t :: t in Spine(e) ==> t.Operator? && Precedence(t.op) >= Loosest(e)
    decreases e
  {
    match e
    case Operand(_) =>
    case Bracketed(_) =>
    case Binary(op, l, r) => SpineTight(r);
    case Negation(b) => SpineTight(b);
  }

  /** The stack below lets an operator of precedence p stay: its top is not an operator that
      binds as tightly. */
  predicate Holds(stack: seq<Token>, p: nat) {
    stack != [] && stack[|stack| - 1].Operator? ==> Precedence(stack[|stack| - 1].op) < p
  }

  /** A run of operators that bind tightly enough is popped, top first. */
  lemma {:induction false} PopRun(stack: seq<Token>, run: seq<Token>, out: seq<Token>, op: Op)
    requires forall t :: t in run ==> t.Operator? && Precedence(t.op) >= Precedence(op)
    requires Holds(stack, Precedence(op))
    ensures PopTighter(Yard(stack + run, out), op) == Yard(stack, out + Reverse(run))
    decreases |run|
  {
    if run == [] {
      assert stack + run == stack && out + [] == out;
    } else {
      var init, last := run[..|run| - 1], run[|run| - 1];
      PopRun(stack, init, out + [last], op);
      ReverseLast(init, last);
      assert run == init + [last] && last in run;
      PopOne(stack, init, last, out, op);
      assert out + [last] + Reverse(init) == out + ([last] + Reverse(init));
    }
  }

  lemma PopOne(stack: seq<Token>, init: seq<Token>, last: Token, out: seq<Token>, op: Op)
    requires last.Operator? && Precedence(last.op) >= Precedence(op)
    ensures PopTighter(Yard(stack + (init + [last]), out), op) == PopTighter(Yard(stack + init, out + [last]), op)
  {
    var y := Yard(stack + (init + [last]), out);
    assert Top(y) == last;
    assert Emit(y) == Yard(stack + init, out + [last]);
  }

  lemma {:induction false} ReverseLast(s: seq<Token>, t: Token)
    ensures Reverse(s + [t]) == [t] + Reverse(s)
    decreases |s|
  {
    if s == [] {
      assert [] + [t] == [t] && [t][1..] == [];
    } else {
      ReverseLast(s[1..], t);
      assert (s + [t])[1..] == s[1..] + [t];
    }
  }

  lemma {:induction false} PopRunToBracket(stack: seq<Token>, run: seq<Token>, out: seq<Token>)
    requires forall t :: t in run ==> t.Operator?
    ensures PopToBracket(Yard(stack + [LeftBracket] + run, out)) == Yard(stack + [LeftBracket], out + Reverse(run))
    decreases |run|
  {
    var base := stack + [LeftBracket];
    if run == [] {
      assert base + run == base && out + [] == out;
    } else {
      var init, last := run[..|run| - 1], run[|run| - 1];
      var y := Yard(base + run, out);
      assert Top(y) == last && last in run;
      assert Emit(y) == Yard(base + init, out + [last]);
      PopRunToBracket(stack, init, out + [last]);
      ReverseLast(init, last);
      assert run == init + [last];
      assert out + [last] + Reverse(init) == out + ([last] + Reverse(init));
    }
  }

  lemma {:induction false} FlushRun(run: seq<Token>, out: seq<Token>)
    ensures Flush(Yard(run, out)) == out + Reverse(run)
    decreases |run|
  {
    if run == [] {
      assert out + [] == out;
    } else {
      var init, last := run[..|run| - 1], run[|run| - 1];
      assert Emit(Yard(run, out)) == Yard(init, out + [last]);
      FlushRun(init, out + [last]);
      ReverseLast(init, last);
      assert run == init + [last];
      assert out + [last] + Reverse(init) == out + ([last] + Reverse(init));
    }
  }

  /** Reading the tokens of a well-formed expression above a stack that holds it puts out what
      is complete and leaves exactly its spine. */
  lemma {:induction false} ReadExpr(e: Expr, stack: seq<Token>, out: seq<Token>)
    requires WellFormed(e) && Holds(stack, Loosest(e))
    ensures Run(Yard(stack, out), Infix(e)) == Yard(stack + Spine(e), out + Emitted(e))
    decreases e, 1
  {
    match e
    case Operand(t) => ReadOperand(t, stack, out);
    case Bracketed(b) => ReadBracketed(b, stack, out);
    case Negation(b) => ReadNegation(b, stack, out);
    case Binary(op, l, r) => ReadBinary(op, l, r, stack, out);
  }

  lemma ReadOperand(t: Token, stack: seq<Token>, out: seq<Token>)
    requires Compiled(t)
    ensures Run(Yard(stack, out), [t]) == Yard(stack + [], out + [t])
  {
    RunOne(Yard(stack, out), t);
    assert stack + [] == stack;
  }

  /** An opening bracket, an expression and its closing bracket put the expression out. */
  lemma {:induction false} ReadBracketed(b: Expr, stack: seq<Token>, out: seq<Token>)
    requires WellFormed(b)
    ensures Run(Yard(stack, out), Infix(Bracketed(b))) == Yard(stack + [], out + Postfix(b))
    decreases Bracketed(b), 0
  {
    hide Read, Run, Infix, Spine, Emitted, Postfix, Reverse;
    var y := Yard(stack, out);
    var open := Yard(stack + [LeftBracket], out);
    OpenBracket(stack, out);
    ReadExpr(b, stack + [LeftBracket], out);
    SpineTight(b);
    CloseBracket(stack, Spine(b), out + Emitted(b));
    PostfixSplits(b);
    assert out + Emitted(b) + Reverse(Spine(b)) == out + Postfix(b);
    assert stack + [] == stack;
    RunAppend(open, Infix(b), [RightBracket]);
    RunAppend(y, [LeftBracket], Infix(b) + [RightBracket]);
    BracketedInfix(b);
  }

  lemma BracketedInfix(b: Expr)
    ensures Infix(Bracketed(b)) == [LeftBracket] + (Infix(b) + [RightBracket])
  {
  }

  lemma OpenBracket(stack: seq<Token>, out: seq<Token>)
    ensures Run(Yard(stack, out), [LeftBracket]) == Yard(stack + [LeftBracket], out)
  {
    RunOne(Yard(stack, out), LeftBracket);
  }

  lemma CloseBracket(stack: seq<Token>, run: seq<Token>, out: seq<Token>)
    requires forall t :: t in run ==> t.Operator?
    ensures Run(Yard(stack + [LeftBracket] + run, out), [RightBracket]) == Yard(stack, out + Reverse(run))
  {
    RunOne(Yard(stack + [LeftBracket] + run, out), RightBracket);
    PopRunToBracket(stack, run, out);
    assert (stack + [LeftBracket])[..|stack|] == stack;
  }

  /** An operator pops the run above a stack that holds it, and is pushed. */
  lemma ReadOperator(stack: seq<Token>, run: seq<Token>, out: seq<Token>, op: Op)
    requires forall t :: t in run ==> t.Operator? && Precedence(t.op) >= Precedence(op)
    requires Holds(stack, Precedence(op))
    ensures Run(Yard(stack + run, out), [Operator(op)]) == Yard(stack + [Operator(op)], out + Reverse(run))
  {
    RunOne(Yard(stack + run, out), Operator(op));
    PopRun(stack, run, out, op);
  }

  lemma ReadFirstOperator(stack: seq<Token>, out: seq<Token>, op: Op)
    requires Holds(stack, Precedence(op))
    ensures Run(Yard(stack, out), [Operator(op)]) == Yard(stack + [Operator(op)], out)
  {
    ReadOperator(stack, [], out, op);
    assert stack + [] == stack && out + [] == out;
  }

  lemma {:induction false} ReadNegation(b: Expr, stack: seq<Token>, out: seq<Token>)
    requires WellFormed(Negation(b)) && Holds(stack, Precedence(Not))
    ensures Run(Yard(stack, out), Infix(Negation(b))) == Yard(stack + Spine(Negation(b)), out + Emitted(b))
    decreases Negation(b), 0
  {
    hide Read, Run, Infix, Spine, Emitted, Postfix, Reverse;
    var y := Yard(stack, out);
    var n := Operator(Not);
    NegationParts(b);
    ReadFirstOperator(stack, out, Not);
    ReadExpr(b, stack + [n], out);
    RunAppend(y, [n], Infix(b));
    assert stack + [n] + Spine(b) == stack + ([n] + Spine(b));
  }

  lemma {:induction false} ReadBinary(op: Op, l: Expr, r: Expr, stack: seq<Token>, out: seq<Token>)
    requires WellFormed(Binary(op, l, r)) && Holds(stack, Precedence(op))
    ensures Run(Yard(stack, out), Infix(Binary(op, l, r)))
         == Yard(stack + Spine(Binary(op, l, r)), out + Emitted(Binary(op, l, r)))
    decreases Binary(op, l, r), 0
  {
    hide Read, Run, Infix, Spine, Emitted, Postfix, Reverse;
    var y, o := Yard(stack, out), Operator(op);
    BinaryParts(op, l, r);
    ReadExpr(l, stack, out);
    SpineTight(l);
    ReadOperator(stack, Spine(l), out + Emitted(l), op);
    PostfixSplits(l);
    ReadExpr(r, stack + [o], out + Postfix(l));
    assert out + Emitted(l) + Reverse(Spine(l)) == out + Postfix(l);
    RunAppend(Yard(stack + Spine(l), out + Emitted(l)), [o], Infix(r));
    RunAppend(y, Infix(l), [o] + Infix(r));
    assert stack + [o] + Spine(r) == stack + ([o] + Spine(r));
    assert out + Postfix(l) + Emitted(r) == out + (Postfix(l) + Emitted(r));
  }

  lemma BinaryParts(op: Op, l: Expr, r: Expr)
    ensures Infix(Binary(op, l, r)) == Infix(l) + ([Operator(op)] + Infix(r))
    ensures Spine(Binary(op, l, r)) == [Operator(op)] + Spine(r)
    ensures Emitted(Binary(op, l, r)) == Postfix(l) + Emitted(r)
  {
  }

  lemma NegationParts(b: Expr)
    ensures Infix(Negation(b)) == [Operator(Not)] + Infix(b)
    ensures Spine(Negation(b)) == [Operator(Not)] + Spine(b)
  {
  }

  /** The compiler is right: the postfix form of a well-formed expression's tokens is the
      expression's postorder. */
  lemma CompilesToPostorder(e: Expr)
    requires WellFormed(e)
    ensures Rpn(Infix(e)) == Postfix(e)
  {
    ReadExpr(e, [], []);
    FlushRun(Spine(e), Emitted(e));
    PostfixSplits(e);
    assert [] + Spine(e) == Spine(e) && [] + Emitted(e) == Emitted(e);
  }
}
