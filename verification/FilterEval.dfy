/** The evaluator of server filters with the operators the servers use. */
module FilterEval {
  import opened Bits
  import opened Decimals
  import opened FilterTokens
  import opened FilterCompiler
  import opened FilterStack
  import Glob

  const PERCENT: byte := 37

  type KeyValues = map<seq<byte>, seq<byte>>

  function Decimal(i: int): seq<byte> {
    if i >= 0 then Digits(i) else [45] + Digits(-i)
  }

  /** A string as far as its first NUL. */
  function Terminated(s: seq<byte>): (r: seq<byte>)
    ensures Glob.CString(r)
  {
    if s == [] || s[0] == 0 then [] else [s[0]] + Terminated(s[1..])
  }

  /** Looking a name up; a missing key reads as the empty string. */
  function Lookup(kv: KeyValues, name: seq<byte>): seq<byte> {
    if name in kv then kv[name] else []
  }

  /** resolve_variable: digits, and nothing at all, are a number; anything else is a string. */
  function Resolve(kv: KeyValues, name: seq<byte>): Token {
    var v := Terminated(Lookup(kv, name));
    if AllDigits(v) then Integer(Number(v)) else Str(v)
  }

  function TokenString(t: Token): seq<byte> {
    match t
    case Integer(i) => Decimal(i)
    case Str(s) => s
    case Variable(n) => n
    case _ => []
  }

  function Truth(b: bool): Token {
    Integer(if b then 1 else 0)
  }

  /** Division in C: towards zero. */
  function TruncDiv(a: int, b: int): int
    requires b != 0
  {
    if a >= 0 then (if b > 0 then a / b else -(a / -b))
    else if b > 0 then -(-a / b) else -a / -b
  }

  /** The integer member of a token that was never given one is whatever it happens to be. */
  type Stale = Token -> int

  function IntOf(t: Token, stale: Stale): int {
    if t.Integer? then t.i else stale(t)
  }

  /** The four arithmetic operators: only an integer or float on the left gives a value. */
  function Arithmetic(op: Op, a: Token, b: Token, stale: Stale): Token {
    var r := IntOf(b, stale);
    if op == Divide && r == 0 then NoneToken
    else if a.Float? then Float
    else if !a.Integer? then NoneToken
    else if op == Add then Integer(a.i + r)
    else if op == Subtract then Integer(a.i - r)
    else if op == Multiply then Integer(a.i * r)
    else if op == Divide then Integer(TruncDiv(a.i, r))
    else NoneToken
  }

  /** The comparisons and connectives on two integers. */
  predicate IntCompare(op: Op, i: int, j: int) {
    match op
    case Equals => i == j
    case StrLike => i == j
    case NotEquals => i != j
    case GreaterEquals => i >= j
    case LessEquals => i <= j
    case Less => i < j
    case Greater => i > j
    case And => i != 0 && j != 0
    case Or => i != 0 || j != 0
    case _ => true
  }

  /** The comparisons that look at strings, on the left and the right operand's text.  The
      lengths are compared the other way round than for numbers. */
  predicate TextCompare(op: Op, left: seq<byte>, right: seq<byte>) {
    match op
    case Equals => left == right
    case NotEquals => left != right
    case StrLike => Glob.Matches(Terminated(right), Terminated(left), PERCENT)
    case GreaterEquals => |right| >= |left|
    case LessEquals => |right| <= |left|
    case _ => true
  }

  predicate ComparesText(op: Op) {
    op in {Equals, NotEquals, StrLike, GreaterEquals, LessEquals}
  }

  /** A comparison or connective; on operands it has no rule for it is true. */
  predicate Compare(op: Op, a: Token, b: Token) {
    if a.Integer? && b.Integer? then IntCompare(op, a.i, b.i)
    else if ComparesText(op) && (a.Str? || b.Str?) then TextCompare(op, TokenString(a), TokenString(b))
    else true
  }

  predicate IsArithmetic(op: Op) {
    op in {Add, Subtract, Multiply, Divide}
  }

  function BinaryValue(op: Op, a: Token, b: Token, stale: Stale): Token {
    if IsArithmetic(op) then Arithmetic(op, a, b, stale) else Truth(Compare(op, a, b))
  }

  function NotValue(t: Token, stale: Stale): Token {
    if t.Integer? || t.Float? then Truth(IntOf(t, stale) == 0) else Integer(0)
  }

  function MissingValue(op: Op): Token {
    if IsArithmetic(op) then NoneToken else if op == Not then Integer(0) else Integer(1)
  }

  function OperandValue(kv: KeyValues, t: Token): Token {
    if t.Variable? then Resolve(kv, Terminated(t.name)) else t
  }

  /** The meaning the servers give to filters over a server's keys. */
  function Filter(kv: KeyValues, stale: Stale): Meaning<Token> {
    Meaning((t: Token) => OperandValue(kv, t), (op: Op, a: Token, b: Token) => BinaryValue(op, a, b, stale),
            (t: Token) => NotValue(t, stale), (op: Op) => MissingValue(op))
  }

  predicate Truthy(t: Token) {
    t.Integer? && t.i != 0
  }

  /** The verdict on a postfix list. */
  predicate Verdict(kv: KeyValues, stale: Stale, tokens: seq<Token>) {
    var s := Steps(Filter(kv, stale), Machine([], false), tokens).stack;
    s != [] && Truthy(s[|s| - 1])
  }

  // ---- the evaluator ----

  method StringLike(a: Token, b: Token) returns (r: Token)
    ensures r == Truth(Compare(StrLike, a, b))
  {
    hide Glob.Matches;
    if a.Integer? && b.Integer? {
      r := Truth(a.i == b.i);
    } else if a.Str? || b.Str? {
      var res, matchCount := Glob.Match2(Terminated(TokenString(b)), Terminated(TokenString(a)), PERCENT);
      r := Truth(res == 0);
    } else {
      r := Truth(true);
    }
  }

  /** Looking a variable up adds it, empty, to the map when it was missing. */
  ghost predicate OnlyAddsEmpty(kv: KeyValues, kv': KeyValues) {
    && (forall k :: k in kv ==> k in kv' && kv'[k] == kv[k])
    && (forall k :: k in kv' && k !in kv ==> kv'[k] == [])
  }

  lemma LookupsUnchanged(kv: KeyValues, kv': KeyValues, name: seq<byte>)
    requires OnlyAddsEmpty(kv, kv')
    ensures Lookup(kv', name) == Lookup(kv, name)
    ensures OnlyAddsEmpty(kv, kv'[name := Lookup(kv, name)])
  {
  }

  method Apply(op: Op, stack0: seq<Token>, stale: Stale, ghost kv: KeyValues) returns (stack: seq<Token>)
    ensures stack == Step(Filter(kv, stale), Machine(stack0, false), Operator(op)).stack
  {
    stack := stack0;
    var n := |stack|;
    if op == Not {
      if n >= 1 {
        stack := stack[..n - 1] + [NotValue(stack[n - 1], stale)];
      } else {
        stack := stack + [MissingValue(op)];
      }
    } else if n >= 2 {
      var a, b := stack[n - 2], stack[n - 1];
      var r;
      if op == StrLike {
        r := StringLike(a, b);
      } else {
        r := BinaryValue(op, a, b, stale);
      }
      stack := stack[..n - 2] + [r];
    } else {
      stack := stack + [MissingValue(op)];
    }
  }

  /** evaluate */
  method Evaluate(tokens: seq<Token>, kv: KeyValues, stale: Stale) returns (retval: bool, kv': KeyValues)
    ensures retval == Verdict(kv, stale, tokens)
    ensures OnlyAddsEmpty(kv, kv')
  {
    hide Steps, Step, Resolve;
    var stack: seq<Token> := [];
    kv' := kv;
    ghost var m, s := Filter(kv, stale), Machine<Token>.Machine([], false);
    assert tokens[..0] == [];
    StepsNone(m, s);
    for i := 0 to |tokens|
      invariant s == Steps(m, Machine([], false), tokens[..i]) && s.stack == stack
      invariant OnlyAddsEmpty(kv, kv')
    {
      var t := tokens[i];
      StepsAppend(m, Machine([], false), tokens[..i], [t]);
      StepsOne(m, s, t);
      assert tokens[..i + 1] == tokens[..i] + [t];
      StepCases(m, s, t);
      if IsOperand(t) {
        if t.Variable? {
          var name := Terminated(t.name);
          LookupsUnchanged(kv, kv', name);
          ResolveSame(kv, kv', name);
          var v := Resolve(kv', name);
          kv' := kv'[name := Lookup(kv', name)];
          stack := stack + [v];
        } else {
          stack := stack + [t];
        }
      } else if t.Operator? {
        stack := Apply(t.op, stack, stale, kv);
      }
      s := Step(m, s, t);
    }
    assert tokens[..|tokens|] == tokens;
    retval := false;
    if |stack| > 0 {
      retval := Truthy(stack[|stack| - 1]);
    }
  }

  lemma StepsNone<V>(m: Meaning<V>, s: Machine<V>)
    ensures Steps(m, s, []) == s
  {
  }

  lemma ResolveSame(kv: KeyValues, kv': KeyValues, name: seq<byte>)
    requires OnlyAddsEmpty(kv, kv')
    ensures Resolve(kv', name) == Resolve(kv, name)
  {
    LookupsUnchanged(kv, kv', name);
  }

  /** A step's new stack does not depend on whether the stack was ever too short. */
  lemma StepCases<V>(m: Meaning<V>, s: Machine<V>, t: Token)
    ensures IsOperand(t) ==> Step(m, s, t).stack == s.stack + [m.operand(t)]
    ensures !IsOperand(t) && !t.Operator? ==> Step(m, s, t).stack == s.stack
    ensures Step(m, s, t).stack == Step(m, Machine(s.stack, false), t).stack
  {
  }

  // ---- what compiling and evaluating a filter means ----

  /** For every well-formed expression and all keys, compiling and evaluating gives the truth of
      the expression's own value; the operand stack is never too short and ends with one entry. */
  lemma CompiledVerdict(e: Expr, kv: KeyValues, stale: Stale)
    requires WellFormed(e)
    ensures Verdict(kv, stale, Rpn(Infix(e))) == Truthy(Value(Filter(kv, stale), e))
    ensures Steps(Filter(kv, stale), Machine([], false), Rpn(Infix(e))) == Machine([Value(Filter(kv, stale), e)], false)
  {
    var m, s := Filter(kv, stale), Machine<Token>.Machine([], false);
    CompilesToPostorder(e);
    WellFormedIsProper(e);
    PostorderPushesValue(m, e, s);
    assert s.stack + [Value(m, e)] == [Value(m, e)];
  }

  /** Expressions built from comparisons by AND, OR, NOT and brackets. */
  predicate Formula(e: Expr) {
    match e
    case Operand(_) => false
    case Bracketed(b) => Formula(b)
    case Binary(op, l, r) => if op == And || op == Or then Formula(l) && Formula(r) else op != Not && !IsArithmetic(op)
    case Negation(b) => Formula(b)
  }

  /** The propositional meaning of a formula. */
  predicate IsTrue(e: Expr, kv: KeyValues, stale: Stale)
    requires Formula(e)
  {
    match e
    case Bracketed(b) => IsTrue(b, kv, stale)
    case Negation(b) => !IsTrue(b, kv, stale)
    case Binary(op, l, r) =>
      if op == And then IsTrue(l, kv, stale) && IsTrue(r, kv, stale)
      else if op == Or then IsTrue(l, kv, stale) || IsTrue(r, kv, stale)
      else Compare(op, Value(Filter(kv, stale), l), Value(Filter(kv, stale), r))
  }

  lemma {:induction false} FormulaValue(e: Expr, kv: KeyValues, stale: Stale)
    requires Formula(e)
    ensures Value(Filter(kv, stale), e) == Truth(IsTrue(e, kv, stale))
    decreases e
  {
    match e
    case Bracketed(b) => FormulaValue(b, kv, stale);
    case Negation(b) => FormulaValue(b, kv, stale);
    case Binary(op, l, r) =>
      if op == And || op == Or {
        FormulaValue(l, kv, stale);
        FormulaValue(r, kv, stale);
      }
  }

  /** A filter's verdict is its propositional truth over its comparisons. */
  lemma VerdictIsTruth(e: Expr, kv: KeyValues, stale: Stale)
    requires WellFormed(e) && Formula(e)
    ensures Verdict(kv, stale, Rpn(Infix(e))) == IsTrue(e, kv, stale)
  {
    CompiledVerdict(e, kv, stale);
    FormulaValue(e, kv, stale);
  }

  // ---- the order of strings ----

  /** Comparing texts for order: `>=` accepts when the left text is no longer than the right one,
      `<=` when it is no shorter, and `<` and `>` accept whatever the texts are. */
  lemma TextOrder(op: Op, l: Expr, r: Expr, kv: KeyValues, stale: Stale)
    requires WellFormed(Binary(op, l, r)) && op in {GreaterEquals, LessEquals, Less, Greater}
    requires Value(Filter(kv, stale), l).Str? || Value(Filter(kv, stale), r).Str?
    ensures var x, y := TokenString(Value(Filter(kv, stale), l)), TokenString(Value(Filter(kv, stale), r));
            Verdict(kv, stale, Rpn(Infix(Binary(op, l, r)))) ==
            if op == GreaterEquals then |x| <= |y| else if op == LessEquals then |x| >= |y| else true
  {
    CompiledVerdict(Binary(op, l, r), kv, stale);
  }

  /** Against the order of lengths that the operator is written for: `>=` and `<=` give it exactly
      for texts of one length, `<` and `>` exactly where it holds. */
  lemma TextOrderAsWritten(op: Op, l: Expr, r: Expr, kv: KeyValues, stale: Stale)
    requires WellFormed(Binary(op, l, r)) && op in {GreaterEquals, LessEquals, Less, Greater}
    requires Value(Filter(kv, stale), l).Str? || Value(Filter(kv, stale), r).Str?
    ensures var x, y := TokenString(Value(Filter(kv, stale), l)), TokenString(Value(Filter(kv, stale), r));
            var written := IntCompare(op, |x|, |y|);
            Verdict(kv, stale, Rpn(Infix(Binary(op, l, r)))) == written
            <==> if op == GreaterEquals || op == LessEquals then |x| == |y| else written
  {
    hide Verdict, Rpn, Infix, WellFormed;
    TextOrder(op, l, r, kv, stale);
  }

  /** 'ab' >= 'c' is refused, 'a' >= 'bc' and 'ab' < 'c' are accepted. */
  lemma ShorterIsAtLeast(kv: KeyValues, stale: Stale)
    ensures !Verdict(kv, stale, [Str([97, 98]), Str([99]), Operator(GreaterEquals)])
    ensures Verdict(kv, stale, [Str([97]), Str([98, 99]), Operator(GreaterEquals)])
    ensures Verdict(kv, stale, [Str([97, 98]), Str([99]), Operator(Less)])
  {
    hide Verdict;
    PairVerdict(GreaterEquals, [97, 98], [99], kv, stale);
    PairVerdict(GreaterEquals, [97], [98, 99], kv, stale);
    PairVerdict(Less, [97, 98], [99], kv, stale);
  }

  lemma PairVerdict(op: Op, x: seq<byte>, y: seq<byte>, kv: KeyValues, stale: Stale)
    requires op != Not && !IsArithmetic(op)
    ensures Verdict(kv, stale, [Str(x), Str(y), Operator(op)]) == Compare(op, Str(x), Str(y))
  {
    hide Compare;
    var e := Binary(op, Operand(Str(x)), Operand(Str(y)));
    PostorderPushesValue(Filter(kv, stale), e, Machine([], false));
    assert Postfix(e) == [Str(x), Str(y), Operator(op)];
  }

  /** filterMatches: no tokens at all match everything. */
  method FilterMatches(tokens: seq<Token>, kv: KeyValues, stale: Stale) returns (r: bool, kv': KeyValues)
    ensures r == (tokens == [] || Verdict(kv, stale, tokens))
    ensures OnlyAddsEmpty(kv, kv')
  {
    if tokens == [] {
      return true, kv;
    }
    r, kv' := Evaluate(tokens, kv, stale);
  }
}
