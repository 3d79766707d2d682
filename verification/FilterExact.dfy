/** When exactly the compiler gives the postorder: the condition of the main theorem is also
    necessary, for every expression tree. */
module FilterExact {
  import opened FilterTokens
  import opened FilterCompiler
  import opened FilterStack

  /** Compiled operands, binary operators, NOT and brackets, put together in any way. */
  predicate Clean(e: Expr) {
    match e
    case Operand(t) => Compiled(t)
    case Bracketed(b) => Clean(b)
    case Binary(op, l, r) => op != Not && Clean(l) && Clean(r)
    case Negation(b) => Clean(b)
  }

  // ---- the output only grows ----

  lemma {:induction false} PopTighterGrows(y: Yard, op: Op)
    ensures y.out <= PopTighter(y, op).out
    decreases |y.stack|
  {
    if Yields(y, op) {
      PopTighterGrows(Emit(y), op);
    }
  }

  lemma {:induction false} PopToBracketGrows(y: Yard)
    ensures y.out <= PopToBracket(y).out
    decreases |y.stack|
  {
    if y.stack != [] && !Top(y).LeftBracket? {
      PopToBracketGrows(Emit(y));
    }
  }

  lemma {:induction false} FlushGrows(y: Yard)
    ensures y.out <= Flush(y)
    decreases |y.stack|
  {
    if y.stack != [] {
      FlushGrows(Emit(y));
    }
  }

  lemma ReadGrows(y: Yard, t: Token)
    ensures y.out <= Read(y, t).out
  {
    PopToBracketGrows(y);
    if t.Operator? {
      PopTighterGrows(y, t.op);
    }
  }

  lemma {:induction false} RunGrows(y: Yard, tokens: seq<Token>)
    ensures y.out <= Run(y, tokens).out
    decreases |tokens|
  {
    hide Read;
    if tokens != [] {
      ReadGrows(y, tokens[0]);
      RunGrows(Read(y, tokens[0]), tokens[1..]);
    }
  }

  /** What is out stays at the front of the final list. */
  lemma OutIsPrefix(y: Yard, tokens: seq<Token>)
    ensures y.out <= Flush(Run(y, tokens))
  {
    RunGrows(y, tokens);
    FlushGrows(Run(y, tokens));
  }

  // ---- a bracket isolates what is inside ----

  /** A yard on top of an open bracket. */
  function Above(base: seq<Token>, out: seq<Token>, y: Yard): Yard {
    Yard(base + [LeftBracket] + y.stack, out + y.out)
  }

  lemma EmitAbove(base: seq<Token>, out: seq<Token>, y: Yard)
    requires y.stack != []
    ensures Top(Above(base, out, y)) == Top(y) && Emit(Above(base, out, y)) == Above(base, out, Emit(y))
  {
    var s := base + [LeftBracket] + y.stack;
    assert s[..|s| - 1] == base + [LeftBracket] + y.stack[..|y.stack| - 1];
    assert out + y.out + [Top(y)] == out + (y.out + [Top(y)]);
  }

  lemma {:induction false} PopTighterAbove(base: seq<Token>, out: seq<Token>, y: Yard, op: Op)
    ensures PopTighter(Above(base, out, y), op) == Above(base, out, PopTighter(y, op))
    decreases |y.stack|
  {
    if y.stack != [] {
      EmitAbove(base, out, y);
      if Yields(y, op) {
        PopTighterAbove(base, out, Emit(y), op);
      }
    }
  }

  lemma {:induction false} PopToBracketAbove(base: seq<Token>, out: seq<Token>, y: Yard)
    requires LeftBracket in y.stack
    ensures PopToBracket(Above(base, out, y)) == Above(base, out, PopToBracket(y))
    ensures PopToBracket(y).stack != []
    decreases |y.stack|
  {
    EmitAbove(base, out, y);
    if !Top(y).LeftBracket? {
      assert y.stack == y.stack[..|y.stack| - 1] + [Top(y)];
      PopToBracketAbove(base, out, Emit(y));
    }
  }

  lemma ReadAbove(base: seq<Token>, out: seq<Token>, y: Yard, t: Token)
    requires t.RightBracket? ==> LeftBracket in y.stack
    ensures Read(Above(base, out, y), t) == Above(base, out, Read(y, t))
  {
    var a := Above(base, out, y);
    if t.Operator? {
      PopTighterAbove(base, out, y, t.op);
      var z := PopTighter(y, t.op);
      assert base + [LeftBracket] + z.stack + [t] == base + [LeftBracket] + (z.stack + [t]);
    } else if t.RightBracket? {
      PopToBracketAbove(base, out, y);
      EmitAbove(base, out, PopToBracket(y));
    } else if t.LeftBracket? {
      assert a.stack + [t] == base + [LeftBracket] + (y.stack + [t]);
    } else {
      assert a.out + [t] == out + (y.out + [t]);
    }
  }

  lemma {:induction false} RunAbove(e: Expr, base: seq<Token>, out: seq<Token>, y: Yard)
    requires Clean(e)
    ensures Run(Above(base, out, y), Infix(e)) == Above(base, out, Run(y, Infix(e)))
    decreases e, 0
  {
    hide Read, Above, Run;
    var a := Above(base, out, y);
    match e
    case Operand(t) =>
      ReadAbove(base, out, y, t);
      RunOne(a, t);
      RunOne(y, t);
    case Negation(b) =>
      var n := Operator(Not);
      ReadAbove(base, out, y, n);
      RunAbove(b, base, out, Read(y, n));
      RunFirst(a, n, Infix(b));
      RunFirst(y, n, Infix(b));
    case Binary(op, l, r) =>
      var o := Operator(op);
      RunAbove(l, base, out, y);
      var z := Run(y, Infix(l));
      ReadAbove(base, out, z, o);
      RunAbove(r, base, out, Read(z, o));
      RunBinary(a, op, l, r);
      RunBinary(y, op, l, r);
    case Bracketed(b) =>
      ReadAbove(base, out, y, LeftBracket);
      var z := Read(y, LeftBracket);
      RunAbove(b, base, out, z);
      var w := Run(z, Infix(b));
      BracketStays(b, y);
      ReadAbove(base, out, w, RightBracket);
      RunBracketed(a, b);
      RunBracketed(y, b);
  }

  lemma {:induction false} BracketStays(b: Expr, y: Yard)
    requires Clean(b)
    ensures LeftBracket in Run(Read(y, LeftBracket), Infix(b)).stack
    decreases b, 1
  {
    RunAbove(b, y.stack, y.out, Yard([], []));
    assert Above(y.stack, y.out, Yard([], [])) == Read(y, LeftBracket);
  }

  lemma RunFirst(y: Yard, t: Token, rest: seq<Token>)
    ensures Run(y, [t] + rest) == Run(Read(y, t), rest)
  {
    hide Read;
    assert ([t] + rest)[1..] == rest;
  }

  lemma RunBinary(y: Yard, op: Op, l: Expr, r: Expr)
    ensures Run(y, Infix(Binary(op, l, r))) == Run(Read(Run(y, Infix(l)), Operator(op)), Infix(r))
  {
    hide Read, Run;
    BinaryParts(op, l, r);
    RunAppend(y, Infix(l), [Operator(op)] + Infix(r));
    RunFirst(Run(y, Infix(l)), Operator(op), Infix(r));
  }

  lemma RunBracketed(y: Yard, b: Expr)
    ensures Run(y, Infix(Bracketed(b))) == Read(Run(Read(y, LeftBracket), Infix(b)), RightBracket)
  {
    hide Read, Run;
    BracketedInfix(b);
    RunFirst(y, LeftBracket, Infix(b) + [RightBracket]);
    RunAppend(Read(y, LeftBracket), Infix(b), [RightBracket]);
    RunOne(Run(Read(y, LeftBracket), Infix(b)), RightBracket);
  }

  // ---- nothing is lost, and a bracket puts out its own conversion ----

  predicate AllOperators(s: seq<Token>) {
    forall i :: 0 <= i < |s| ==> s[i].Operator?
  }

  lemma {:induction false} PopTighterTally(y: Yard, op: Op)
    requires AllOperators(y.stack)
    ensures var z := PopTighter(y, op);
            AllOperators(z.stack) && multiset(z.out) + multiset(z.stack) == multiset(y.out) + multiset(y.stack)
    decreases |y.stack|
  {
    if Yields(y, op) {
      assert y.stack == Emit(y).stack + [Top(y)];
      PopTighterTally(Emit(y), op);
    }
  }

  lemma OperatorTally(y: Yard, op: Op)
    requires AllOperators(y.stack)
    ensures var z := Read(y, Operator(op));
            AllOperators(z.stack) &&
            multiset(z.out) + multiset(z.stack) == multiset(y.out) + multiset(y.stack) + multiset{Operator(op)}
  {
    PopTighterTally(y, op);
  }

  /** Reading an expression adds exactly its own tokens to the output and the stack. */
  lemma {:induction false} Tally(e: Expr, y: Yard)
    requires Clean(e) && AllOperators(y.stack)
    ensures var z := Run(y, Infix(e));
            AllOperators(z.stack) &&
            multiset(z.out) + multiset(z.stack) == multiset(y.out) + multiset(y.stack) + multiset(Postfix(e))
    decreases e, 0
  {
    hide Read, Run;
    match e
    case Operand(t) =>
      RunOne(y, t);
      ReadLeaf(y, t);
    case Negation(b) =>
      OperatorTally(y, Not);
      Tally(b, Read(y, Operator(Not)));
      RunFirst(y, Operator(Not), Infix(b));
    case Binary(op, l, r) =>
      Tally(l, y);
      OperatorTally(Run(y, Infix(l)), op);
      Tally(r, Read(Run(y, Infix(l)), Operator(op)));
      RunBinary(y, op, l, r);
    case Bracketed(b) =>
      Block(b, y);
      RpnTally(b);
  }

  lemma ReadLeaf(y: Yard, t: Token)
    requires Compiled(t)
    ensures Read(y, t) == Yard(y.stack, y.out + [t])
  {
  }

  /** Whatever the stack, a bracket puts out the conversion of what is inside. */
  lemma {:induction false} Block(b: Expr, y: Yard)
    requires Clean(b)
    ensures Run(y, Infix(Bracketed(b))) == Yard(y.stack, y.out + Rpn(Infix(b)))
    decreases b, 2
  {
    hide Read, Run, Flush, Infix;
    var inner := Run(Yard([], []), Infix(b));
    Tally(b, Yard([], []));
    RunAbove(b, y.stack, y.out, Yard([], []));
    RunBracketed(y, b);
    OpenBracket(y.stack, y.out);
    RunOne(y, LeftBracket);
    assert Above(y.stack, y.out, Yard([], [])) == Yard(y.stack + [LeftBracket], y.out);
    CloseAbove(y, inner);
  }

  lemma CloseAbove(y: Yard, inner: Yard)
    requires AllOperators(inner.stack)
    ensures Read(Above(y.stack, y.out, inner), RightBracket) == Yard(y.stack, y.out + Flush(inner))
  {
    hide Read, Run, Flush, Reverse;
    CloseBracket(y.stack, inner.stack, y.out + inner.out);
    RunOne(Above(y.stack, y.out, inner), RightBracket);
    FlushRun(inner.stack, inner.out);
    assert y.out + inner.out + Reverse(inner.stack) == y.out + (inner.out + Reverse(inner.stack));
  }

  lemma {:induction false} RpnTally(b: Expr)
    requires Clean(b)
    ensures multiset(Rpn(Infix(b))) == multiset(Postfix(b))
    decreases b, 1
  {
    var z := Run(Yard([], []), Infix(b));
    Tally(b, Yard([], []));
    FlushRun(z.stack, z.out);
    ReverseTally(z.stack);
  }

  lemma {:induction false} ReverseTally(s: seq<Token>)
    ensures multiset(Reverse(s)) == multiset(s)
  {
    if s != [] {
      ReverseTally(s[1..]);
      assert s == [s[0]] + s[1..];
    }
  }

  // ---- what comes out first ----

  lemma {:induction false} PostfixStarts(e: Expr)
    requires Clean(e)
    ensures Postfix(e) != [] && Compiled(Postfix(e)[0])
    decreases e
  {
    match e
    case Operand(_) =>
    case Bracketed(b) => PostfixStarts(b);
    case Negation(b) => PostfixStarts(b);
    case Binary(_, l, _) => PostfixStarts(l);
  }

  predicate OnlyNots(s: seq<Token>) {
    forall i :: 0 <= i < |s| ==> s[i] == Operator(Not)
  }

  /** Above nothing but NOTs, the first token that comes out is an operand or a NOT. */
  lemma {:induction false} FirstOut(e: Expr, y: Yard) returns (x: Token)
    requires Clean(e) && OnlyNots(y.stack)
    ensures y.out + [x] <= Run(y, Infix(e)).out && (Compiled(x) || x == Operator(Not))
    decreases e, 0
  {
    hide Read, Run;
    match e
    case Operand(t) =>
      RunOne(y, t);
      ReadLeaf(y, t);
      x := t;
    case Bracketed(b) =>
      Block(b, y);
      x := FirstOfRpn(b);
    case Binary(op, l, r) =>
      x := FirstOut(l, y);
      RunBinary(y, op, l, r);
      ReadGrows(Run(y, Infix(l)), Operator(op));
      RunGrows(Read(Run(y, Infix(l)), Operator(op)), Infix(r));
    case Negation(b) =>
      var n := Operator(Not);
      RunFirst(y, n, Infix(b));
      if y.stack == [] {
        ReadNotAlone(y);
        x := FirstOut(b, Read(y, n));
      } else {
        x := n;
        ReadNotPops(y, Not);
        RunGrows(Read(y, n), Infix(b));
      }
  }

  lemma ReadNotAlone(y: Yard)
    requires y.stack == []
    ensures Read(y, Operator(Not)) == Yard([Operator(Not)], y.out)
  {
  }

  /** An operator on top that binds at least as tightly is put out when NOT is read. */
  lemma ReadNotPops(y: Yard, op: Op)
    requires y.stack != [] && Top(y) == Operator(op) && Precedence(op) >= Precedence(Not)
    ensures y.out + [Operator(op)] <= Read(y, Operator(Not)).out
  {
    PopTighterGrows(Emit(y), Not);
  }

  lemma {:induction false} FirstOfRpn(b: Expr) returns (x: Token)
    requires Clean(b)
    ensures [x] <= Rpn(Infix(b)) && (Compiled(x) || x == Operator(Not))
    decreases b, 1
  {
    x := FirstOut(b, Yard([], []));
    FlushGrows(Run(Yard([], []), Infix(b)));
  }

  /** What may follow an expression in a text: nothing, an operator or a closing bracket. */
  predicate Follows(rest: seq<Token>) {
    rest == [] || rest[0].RightBracket? || rest[0].Operator?
  }

  /** An operator that binds most tightly is what comes out next. */
  lemma NextOut(y: Yard, op: Op, rest: seq<Token>)
    requires y.stack != [] && Top(y) == Operator(op) && Precedence(op) == 5 && Follows(rest)
    ensures y.out + [Operator(op)] <= Flush(Run(y, rest))
  {
    var z := Emit(y);
    if rest == [] {
      FlushGrows(z);
    } else {
      PopToBracketGrows(z);
      if rest[0].Operator? {
        PopTighterGrows(z, rest[0].op);
      }
      OutIsPrefix(Read(y, rest[0]), rest[1..]);
    }
  }

  // ---- the condition is necessary ----

  lemma PrefixAt(o: seq<Token>, x: Token, rest: seq<Token>, all: seq<Token>)
    requires o + ([x] + rest) <= all
    ensures |o| < |all| && all[|o|] == x
  {
    assert (o + ([x] + rest))[|o|] == x;
  }

  lemma PrefixDrop(o: seq<Token>, a: seq<Token>, all: seq<Token>)
    requires o + a <= all
    ensures |o| <= |all| && a <= all[|o|..]
  {
    var w := all[|o|..];
    forall i | 0 <= i < |a| ensures w[i] == a[i] {
      assert all[|o| + i] == (o + a)[|o| + i];
    }
  }

  /** Two lists of the same tokens that overlap with a shift: what is shifted in at the front is
      shifted out at the end. */
  lemma Shifted(o: seq<Token>, p: seq<Token>, x: Token, d: seq<Token>, q: seq<Token>, all: seq<Token>)
    requires o + (p + [x]) <= all && o + (d + q) <= all
    requires multiset(p) == multiset(q) && d != []
    ensures x in d
  {
    var n, w := |p|, all[|o|..];
    SameSize(p, q);
    PrefixDrop(o, p + [x], all);
    PrefixDrop(o, d + q, all);
    var s := d + q;
    assert p + [x] == s[..n + 1];
    assert s[n] == (p + [x])[n] == x;
    assert p == (p + [x])[..n] == s[..n];
    if n >= |d| {
      var k := n - |d|;
      assert p == d + q[..k];
      assert q == q[..k] + q[k..];
      assert s[|d| + k] == q[k];
      assert q[k..][0] == q[k] == x;
      Counted(p, d, q[..k], x);
      Counted(q, q[..k], q[k..], x);
      assert multiset(q[k..])[x] >= 1;
    } else {
      assert d[n] == s[n];
    }
  }

  lemma Counted(s: seq<Token>, a: seq<Token>, b: seq<Token>, x: Token)
    requires s == a + b
    ensures multiset(s)[x] == multiset(a)[x] + multiset(b)[x]
  {
    assert multiset(a + b) == multiset(a) + multiset(b);
  }

  lemma SameSize(p: seq<Token>, q: seq<Token>)
    requires multiset(p) == multiset(q)
    ensures |p| == |q|
  {
    assert |p| == |multiset(p)| == |multiset(q)| == |q|;
  }

  /** All operators, all binding less tightly than p. */
  predicate Looser(d: seq<Token>, p: nat) {
    forall i :: 0 <= i < |d| ==> d[i].Operator? && Precedence(d[i].op) < p
  }

  /** If looser operators should come out now, but a tighter one is on top of them, the conversion
      does not come right again. */
  lemma {:induction false} Misaligned(r: Expr, under: seq<Token>, op: Op, o: seq<Token>, d: seq<Token>,
                                      rest: seq<Token>, all: seq<Token>)
    requires Clean(r) && Follows(rest) && d != [] && Looser(d, Precedence(op))
    requires all == Flush(Run(Run(Yard(under + [Operator(op)], o), Infix(r)), rest))
    ensures !(o + (d + Postfix(r)) <= all)
    decreases r
  {
    hide Read, Run, Flush, Infix, Clean;
    var y := Yard(under + [Operator(op)], o);
    CleanParts(r);
    if o + (d + Postfix(r)) <= all {
      assert d + Postfix(r) == [d[0]] + (d[1..] + Postfix(r));
      PrefixAt(o, d[0], d[1..] + Postfix(r), all);
      match r
      case Operand(t) =>
        LeafOut(t, y, rest, all);
        assert false;
      case Binary(op3, a, b) =>
        RunBinaryThen(y, op3, a, b, rest);
        assert o + (d + Postfix(r)) == o + (d + Postfix(a)) + (Postfix(b) + [Operator(op3)]);
        Misaligned(a, under, op, o, d, [Operator(op3)] + (Infix(b) + rest), all);
        assert false;
      case Negation(b) =>
        assert o + (d + Postfix(r)) == o + (d + Postfix(b)) + [Operator(Not)];
        NegationParts(b);
        RunFirst(y, Operator(Not), Infix(b));
        if Precedence(op) >= Precedence(Not) {
          NotPushesOut(b, y, op, rest, all);
        } else {
          RunOne(y, Operator(Not));
          ReadFirstOperator(y.stack, o, Not);
          Misaligned(b, y.stack, Not, o, d, rest, all);
        }
        assert false;
      case Bracketed(b) =>
        MisalignedBracket(b, y, op, d, rest, all);
        assert false;
    }
  }

  lemma CleanParts(e: Expr)
    requires Clean(e)
    ensures match e
            case Operand(t) => Compiled(t)
            case Bracketed(b) => Clean(b)
            case Binary(op, l, r) => op != Not && Clean(l) && Clean(r)
            case Negation(b) => Clean(b)
  {
  }

  lemma RunBinaryThen(y: Yard, op: Op, l: Expr, r: Expr, rest: seq<Token>)
    ensures Run(Run(y, Infix(Binary(op, l, r))), rest)
         == Run(Run(y, Infix(l)), [Operator(op)] + (Infix(r) + rest))
  {
    hide Run, Read, Infix;
    BinaryParts(op, l, r);
    RunAppend(y, Infix(Binary(op, l, r)), rest);
    RunAppend(y, Infix(l), [Operator(op)] + (Infix(r) + rest));
    assert Infix(l) + ([Operator(op)] + Infix(r)) + rest == Infix(l) + ([Operator(op)] + (Infix(r) + rest));
  }

  lemma LeafOut(t: Token, y: Yard, rest: seq<Token>, all: seq<Token>)
    requires Compiled(t) && all == Flush(Run(Run(y, Infix(Operand(t))), rest))
    ensures |y.out| < |all| && all[|y.out|] == t
  {
    hide Read, Run, Flush;
    RunOne(y, t);
    ReadLeaf(y, t);
    OutIsPrefix(Run(y, [t]), rest);
    assert (y.out + [t])[|y.out|] == t;
  }

  lemma NotPushesOut(b: Expr, y: Yard, op: Op, rest: seq<Token>, all: seq<Token>)
    requires y.stack != [] && Top(y) == Operator(op) && Precedence(op) >= Precedence(Not)
    requires all == Flush(Run(Run(Read(y, Operator(Not)), Infix(b)), rest))
    ensures |y.out| < |all| && all[|y.out|] == Operator(op)
  {
    hide Read, Run, Flush;
    ReadNotPops(y, op);
    RunGrows(Read(y, Operator(Not)), Infix(b));
    OutIsPrefix(Run(Read(y, Operator(Not)), Infix(b)), rest);
    assert (y.out + [Operator(op)])[|y.out|] == Operator(op);
  }

  lemma MisalignedBracket(b: Expr, y: Yard, op: Op, d: seq<Token>, rest: seq<Token>, all: seq<Token>)
    requires Clean(b) && Follows(rest) && d != [] && Looser(d, Precedence(op))
    requires y.stack != [] && Top(y) == Operator(op)
    requires all == Flush(Run(Run(y, Infix(Bracketed(b))), rest))
    requires |y.out| < |all| && all[|y.out|] == d[0]
    ensures !(y.out + (d + Postfix(b)) <= all)
  {
    hide Read, Run, Flush, Infix, Clean, Postfix, Rpn;
    var p := Rpn(Infix(b));
    Block(b, y);
    var z := Yard(y.stack, y.out + p);
    OutIsPrefix(z, rest);
    var x := FirstOfRpn(b);
    assert z.out[|y.out|] == p[0] == x;
    assert d[0] == Operator(Not) && Precedence(op) == 5;
    NextOut(z, op, rest);
    RpnTally(b);
    assert y.out + p + [Operator(op)] == y.out + (p + [Operator(op)]);
    if y.out + (d + Postfix(b)) <= all {
      Shifted(y.out, p, Operator(op), d, Postfix(b), all);
      assert false;
    }
  }

  predicate Increasing(s: seq<Token>) {
    AllOperators(s) && forall i, j :: 0 <= i < j < |s| ==> Precedence(s[i].op) < Precedence(s[j].op)
  }

  lemma {:induction false} SpineIncreases(e: Expr)
    requires WellFormed(e)
    ensures Increasing(Spine(e))
    decreases e
  {
    match e
    case Operand(_) =>
    case Bracketed(_) =>
    case Binary(op, l, r) => SpineIncreases(r); SpineTight(r);
    case Negation(b) => SpineIncreases(b); SpineTight(b);
  }

  lemma {:induction false} ReverseAppend(a: seq<Token>, b: seq<Token>)
    ensures Reverse(a + b) == Reverse(b) + Reverse(a)
    decreases |a|
  {
    if a == [] {
      assert a + b == b && Reverse(b) + [] == Reverse(b);
    } else {
      ReverseAppend(a[1..], b);
      assert (a + b)[1..] == a[1..] + b;
    }
  }

  lemma {:induction false} ReverseLooser(s: seq<Token>, p: nat)
    requires Looser(s, p)
    ensures Looser(Reverse(s), p) && |Reverse(s)| == |s|
  {
    if s != [] {
      ReverseLooser(s[1..], p);
    }
  }

  /** How much of a run stays when an operator pops from the top down. */
  function Kept(run: seq<Token>, op: Op): (k: nat)
    requires AllOperators(run)
    ensures k <= |run| && forall i :: k <= i < |run| ==> Precedence(run[i].op) >= Precedence(op)
    ensures k > 0 ==> Precedence(run[k - 1].op) < Precedence(op)
  {
    if run == [] || Precedence(run[|run| - 1].op) < Precedence(op) then |run| else Kept(run[..|run| - 1], op)
  }

  lemma {:induction false} PopPart(stack: seq<Token>, run: seq<Token>, out: seq<Token>, op: Op)
    requires AllOperators(run)
    ensures var k := Kept(run, op);
            PopTighter(Yard(stack + run, out), op) == PopTighter(Yard(stack + run[..k], out + Reverse(run[k..])), op)
    decreases |run|
  {
    hide PopTighter, Precedence, Reverse;
    var k := Kept(run, op);
    if k == |run| {
      ReverseNothing();
      assert run[k..] == [] && run[..k] == run && out + [] == out;
    } else {
      var init, last := run[..|run| - 1], run[|run| - 1];
      assert run == init + [last];
      PopPart(stack, init, out + [last], op);
      PopOne(stack, init, last, out, op);
      hide Kept, AllOperators;
      assert run[k..] == init[k..] + [last] && run[..k] == init[..k];
      ReverseLast(init[k..], last);
      assert out + [last] + Reverse(init[k..]) == out + ([last] + Reverse(init[k..]));
    }
  }

  lemma ReverseNothing()
    ensures Reverse([]) == []
  {
  }

  /** The operator after a left operand pops the operand's whole spine and nothing else. */
  lemma SpinePopped(l: Expr, op: Op, r: Expr, stack: seq<Token>, out: seq<Token>, rest: seq<Token>, all: seq<Token>)
    requires WellFormed(l) && Clean(r) && Follows(rest)
    requires all == Flush(Run(Run(Yard(stack + Spine(l), out + Emitted(l)), [Operator(op)] + Infix(r)), rest))
    requires out + Postfix(l) + Postfix(r) <= all
    ensures (forall t :: t in Spine(l) ==> t.Operator? && Precedence(t.op) >= Precedence(op))
    ensures Holds(stack, Precedence(op))
  {
    hide *;
    var s, o := Spine(l), out + Emitted(l);
    SpineIncreases(l);
    IncreasingOperators(s);
    var k, y := Kept(s, op), Yard(stack + Spine(l), o);
    PopPart(stack, s, o, op);
    RunFirst(y, Operator(op), Infix(r));
    SpineSplits(l, k, out);
    if k > 0 {
      SpineStays(r, y, stack, s, k, op, o + Reverse(s[k..]), rest, all);
      assert false;
    } else {
      ReverseNothing();
      assert s[..k] == [] && stack + s[..k] == stack;
      assert o + Reverse(s[k..]) + [] == o + Reverse(s[k..]);
      NothingMore(r, y, Yard(stack, o + Reverse(s[k..])), op, rest, all);
    }
  }

  lemma IncreasingOperators(s: seq<Token>)
    requires Increasing(s)
    ensures AllOperators(s) && forall i :: 0 <= i < |s| ==> s[i].Operator?
  {
  }

  lemma SpineSplits(l: Expr, k: nat, out: seq<Token>)
    requires k <= |Spine(l)|
    ensures out + Postfix(l) == out + Emitted(l) + Reverse(Spine(l)[k..]) + Reverse(Spine(l)[..k])
  {
    hide Emitted, Spine, Postfix, Reverse;
    var s := Spine(l);
    PostfixSplits(l);
    assert s == s[..k] + s[k..];
    ReverseAppend(s[..k], s[k..]);
    var a, b, c := Emitted(l), Reverse(s[k..]), Reverse(s[..k]);
    assert out + (a + (b + c)) == out + a + b + c;
  }

  /** Part of the spine left below the operator spoils the conversion. */
  lemma SpineStays(r: Expr, y: Yard, stack: seq<Token>, s: seq<Token>, k: nat, op: Op, out: seq<Token>,
                   rest: seq<Token>, all: seq<Token>)
    requires Clean(r) && Follows(rest) && Increasing(s)
    requires 0 < k <= |s| && Precedence(s[k - 1].op) < Precedence(op)
    requires PopTighter(y, op) == PopTighter(Yard(stack + s[..k], out), op)
    requires all == Flush(Run(Run(Read(y, Operator(op)), Infix(r)), rest))
    ensures !(out + Reverse(s[..k]) + Postfix(r) <= all)
  {
    hide Read, Run, Flush, Infix, Clean, Postfix, PopTighter, Precedence, Reverse, Follows;
    StackHolds(stack, s, k, op);
    ReadStays(y, Yard(stack + s[..k], out), op);
    LooserBelow(s, k, op);
    ReverseLooser(s[..k], Precedence(op));
    assert out + Reverse(s[..k]) + Postfix(r) == out + (Reverse(s[..k]) + Postfix(r));
    Misaligned(r, stack + s[..k], op, out, Reverse(s[..k]), rest, all);
  }

  lemma StackHolds(stack: seq<Token>, s: seq<Token>, k: nat, op: Op)
    requires 0 < k <= |s| && s[k - 1].Operator? && Precedence(s[k - 1].op) < Precedence(op)
    ensures Holds(stack + s[..k], Precedence(op))
  {
  }

  lemma LooserBelow(s: seq<Token>, k: nat, op: Op)
    requires Increasing(s) && 0 < k <= |s| && Precedence(s[k - 1].op) < Precedence(op)
    ensures Looser(s[..k], Precedence(op))
  {
    hide Precedence;
  }

  lemma ReadStays(y: Yard, z: Yard, op: Op)
    requires PopTighter(y, op) == PopTighter(z, op) && Holds(z.stack, Precedence(op))
    ensures Read(y, Operator(op)) == Yard(z.stack + [Operator(op)], z.out)
  {
  }

  lemma PopsTop(z: Yard, op: Op)
    requires !Holds(z.stack, Precedence(op))
    ensures z.stack != [] && Top(z).Operator? && z.out + [Top(z)] <= PopTighter(z, op).out
  {
    PopTighterGrows(Emit(z), op);
  }

  /** An operand is next, so no more operators come out. */
  lemma NothingMore(r: Expr, y: Yard, z: Yard, op: Op, rest: seq<Token>, all: seq<Token>)
    requires Clean(r) && PopTighter(y, op) == PopTighter(z, op)
    requires all == Flush(Run(Run(Read(y, Operator(op)), Infix(r)), rest))
    requires z.out + Postfix(r) <= all
    ensures Holds(z.stack, Precedence(op))
  {
    hide Run, Flush, Infix, Clean, Postfix, Precedence, PopTighter;
    PostfixStarts(r);
    var x := Postfix(r)[0];
    assert Postfix(r) == [x] + Postfix(r)[1..];
    PrefixAt(z.out, x, Postfix(r)[1..], all);
    var w := Read(y, Operator(op));
    assert w.out == PopTighter(z, op).out;
    RunGrows(w, Infix(r));
    OutIsPrefix(Run(w, Infix(r)), rest);
    hide Holds, Read;
    if !Holds(z.stack, Precedence(op)) {
      PopsTop(z, op);
      assert false;
    }
  }

  lemma LoosestOnSpine(e: Expr, p: nat)
    requires WellFormed(e) && p <= 6
    requires forall t :: t in Spine(e) ==> t.Operator? && Precedence(t.op) >= p
    ensures Loosest(e) >= p
  {
    if e.Binary? {
      assert Operator(e.op) in Spine(e);
    } else if e.Negation? {
      assert Operator(Not) in Spine(e);
    }
  }

  /** If the final list has the postorder of e where e is read, then e is the tree its text
      denotes, and the stack it is read on lets it stay. */
  lemma {:induction false} Aligned(e: Expr, stack: seq<Token>, out: seq<Token>, rest: seq<Token>, all: seq<Token>)
    requires Clean(e) && Follows(rest)
    requires all == Flush(Run(Run(Yard(stack, out), Infix(e)), rest))
    requires out + Postfix(e) <= all
    ensures WellFormed(e) && Holds(stack, Loosest(e))
    decreases e
  {
    hide Read, Run, Flush, Infix, Clean, Spine, Emitted, Reverse;
    CleanParts(e);
    var y := Yard(stack, out);
    match e
    case Operand(_) =>
    case Bracketed(b) =>
      RunBracketedThen(y, b, rest);
      OpenBracket(stack, out);
      RunOne(y, LeftBracket);
      Aligned(b, stack + [LeftBracket], out, [RightBracket] + rest, all);
    case Negation(b) =>
      NegationParts(b);
      RunFirst(y, Operator(Not), Infix(b));
      assert out + Postfix(e) == out + Postfix(b) + [Operator(Not)];
      NothingMore(b, y, y, Not, rest, all);
      ReadFirstOperator(stack, out, Not);
      RunOne(y, Operator(Not));
      Aligned(b, stack + [Operator(Not)], out, rest, all);
    case Binary(op, l, r) => AlignedBinary(op, l, r, stack, out, rest, all);
  }

  lemma RunBracketedThen(y: Yard, b: Expr, rest: seq<Token>)
    ensures Run(Run(y, Infix(Bracketed(b))), rest) == Run(Run(Read(y, LeftBracket), Infix(b)), [RightBracket] + rest)
  {
    hide Read, Run, Infix;
    RunBracketed(y, b);
    RunFirst(Run(Read(y, LeftBracket), Infix(b)), RightBracket, rest);
  }

  lemma {:induction false} AlignedBinary(op: Op, l: Expr, r: Expr, stack: seq<Token>, out: seq<Token>,
                                         rest: seq<Token>, all: seq<Token>)
    requires Clean(Binary(op, l, r)) && Follows(rest)
    requires all == Flush(Run(Run(Yard(stack, out), Infix(Binary(op, l, r))), rest))
    requires out + Postfix(Binary(op, l, r)) <= all
    ensures WellFormed(Binary(op, l, r)) && Holds(stack, Precedence(op))
    decreases Binary(op, l, r), 0
  {
    hide Read, Run, Flush, Infix, Clean, Spine, Emitted, Reverse;
    CleanParts(Binary(op, l, r));
    var y, o := Yard(stack, out), Operator(op);
    assert out + Postfix(Binary(op, l, r)) == out + Postfix(l) + (Postfix(r) + [o]);
    assert out + Postfix(Binary(op, l, r)) == out + Postfix(l) + Postfix(r) + [o];
    RunBinaryThen(y, op, l, r, rest);
    Aligned(l, stack, out, [o] + (Infix(r) + rest), all);
    ReadExpr(l, stack, out);
    var z := Yard(stack + Spine(l), out + Emitted(l));
    assert [o] + (Infix(r) + rest) == [o] + Infix(r) + rest;
    RunAppend(z, [o] + Infix(r), rest);
    SpinePopped(l, op, r, stack, out, rest, all);
    LoosestOnSpine(l, Precedence(op));
    ReadOperator(stack, Spine(l), out + Emitted(l), op);
    PostfixSplits(l);
    assert out + Emitted(l) + Reverse(Spine(l)) == out + Postfix(l);
    RunAppend(z, [o], Infix(r));
    Aligned(r, stack + [o], out + Postfix(l), rest, all);
  }

  // ---- operands that are not compiled ----

  lemma {:induction false} RunHasNoFloat(y: Yard, tokens: seq<Token>)
    requires Float !in y.stack && Float !in y.out
    ensures Float !in Run(y, tokens).stack && Float !in Run(y, tokens).out
    decreases |tokens|
  {
    hide Read;
    if tokens != [] {
      ReadHasNoFloat(y, tokens[0]);
      RunHasNoFloat(Read(y, tokens[0]), tokens[1..]);
    }
  }

  lemma ReadHasNoFloat(y: Yard, t: Token)
    requires Float !in y.stack && Float !in y.out
    ensures Float !in Read(y, t).stack && Float !in Read(y, t).out
  {
    PopToBracketHasNoFloat(y);
    if t.Operator? {
      PopTighterHasNoFloat(y, t.op);
    }
  }

  lemma {:induction false} PopTighterHasNoFloat(y: Yard, op: Op)
    requires Float !in y.stack && Float !in y.out
    ensures Float !in PopTighter(y, op).stack && Float !in PopTighter(y, op).out
    decreases |y.stack|
  {
    if Yields(y, op) {
      PopTighterHasNoFloat(Emit(y), op);
    }
  }

  lemma {:induction false} PopToBracketHasNoFloat(y: Yard)
    requires Float !in y.stack && Float !in y.out
    ensures Float !in PopToBracket(y).stack && Float !in PopToBracket(y).out
    decreases |y.stack|
  {
    if y.stack != [] && !Top(y).LeftBracket? {
      PopToBracketHasNoFloat(Emit(y));
    }
  }

  lemma {:induction false} FlushHasNoFloat(y: Yard)
    requires Float !in y.stack && Float !in y.out
    ensures Float !in Flush(y)
    decreases |y.stack|
  {
    if y.stack != [] {
      FlushHasNoFloat(Emit(y));
    }
  }

  lemma {:induction false} CleanWithoutFloat(e: Expr)
    requires Proper(e) && Float !in Postfix(e)
    ensures Clean(e)
    decreases e
  {
    match e
    case Operand(_) =>
    case Bracketed(b) => CleanWithoutFloat(b);
    case Negation(b) => CleanWithoutFloat(b);
    case Binary(op, l, r) => CleanWithoutFloat(l); CleanWithoutFloat(r);
  }

  /** The compiler gives the tree's postorder if and only if precedence and left association, with
      the brackets written, make that tree of the text, and no operand is a float.  So NOT is
      compiled as meant exactly after the start, '(', AND, OR and comparisons. */
  lemma CompilesExactly(e: Expr)
    requires Proper(e)
    ensures Rpn(Infix(e)) == Postfix(e) <==> WellFormed(e)
  {
    if WellFormed(e) {
      CompilesToPostorder(e);
    }
    if Rpn(Infix(e)) == Postfix(e) {
      var y := Yard([], []);
      RunHasNoFloat(y, Infix(e));
      FlushHasNoFloat(Run(y, Infix(e)));
      CleanWithoutFloat(e);
      assert Run(Run(y, Infix(e)), []) == Run(y, Infix(e));
      assert [] + Postfix(e) == Postfix(e);
      Aligned(e, [], [], [], Rpn(Infix(e)));
    }
  }

  /** NOT directly after NOT, or after an arithmetic operator, is therefore never compiled as
      meant. */
  lemma MisplacedNot(op: Op, a: Expr, b: Expr)
    requires Proper(a) && Proper(b) && op in {Add, Subtract, Multiply, Divide}
    ensures var e := Negation(Negation(b)); Rpn(Infix(e)) != Postfix(e)
    ensures var e := Binary(op, a, Negation(b)); Rpn(Infix(e)) != Postfix(e)
  {
    CompilesExactly(Negation(Negation(b)));
    CompilesExactly(Binary(op, a, Negation(b)));
  }
}
