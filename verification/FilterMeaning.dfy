/** What filters mean, operator by operator: which binds tighter, what each comparison and sum
    gives, how the operators are written, and one filter from text to verdict. */
module FilterMeaning {
  import opened Bits
  import opened Decimals
  import opened FilterTokens
  import opened FilterCompiler
  import opened FilterStack
  import opened FilterEval
  import opened FilterLexer
  import Glob

  // ---- which operator binds tighter ----

  const COMPARISONS: set<Op> := {Equals, NotEquals, Greater, GreaterEquals, Less, LessEquals, StrLike}
  const SUMS: set<Op> := {Add, Subtract}
  const PRODUCTS: set<Op> := {Multiply, Divide}

  /** OR binds loosest, then AND, then the comparisons, then + and -, then * and /. */
  predicate Tighter(y: Op, x: Op) {
    || (x == Or && (y == And || y in COMPARISONS || y in SUMS || y in PRODUCTS))
    || (x == And && (y in COMPARISONS || y in SUMS || y in PRODUCTS))
    || (x in COMPARISONS && (y in SUMS || y in PRODUCTS))
    || (x in SUMS && y in PRODUCTS)
  }

  lemma TighterIsHigher(x: Op, y: Op)
    requires x != Not && y != Not
    ensures Tighter(y, x) <==> Precedence(y) > Precedence(x)
  {
  }

  lemma RunCons(y: Yard, t: Token, rest: seq<Token>)
    ensures Run(y, [t] + rest) == Run(Read(y, t), rest)
  {
    hide Read;
    assert ([t] + rest)[1..] == rest;
  }

  lemma RunFive(y: Yard, a: Token, b: Token, c: Token, d: Token, e: Token)
    ensures Run(y, [a, b, c, d, e]) == Read(Read(Read(Read(Read(y, a), b), c), d), e)
  {
    hide Read, Run;
    RunCons(y, a, [b, c, d, e]);
    var y1 := Read(y, a);
    RunCons(y1, b, [c, d, e]);
    var y2 := Read(y1, b);
    RunCons(y2, c, [d, e]);
    var y3 := Read(y2, c);
    RunCons(y3, d, [e]);
    RunOne(Read(y3, d), e);
    assert [a] + [b, c, d, e] == [a, b, c, d, e] && [b] + [c, d, e] == [b, c, d, e];
    assert [c] + [d, e] == [c, d, e] && [d] + [e] == [d, e];
  }

  lemma ReadOperand(s: seq<Token>, out: seq<Token>, t: Token)
    requires Compiled(t)
    ensures Read(Yard(s, out), t) == Yard(s, out + [t])
  {
  }

  lemma ReadFirst(out: seq<Token>, x: Op)
    ensures Read(Yard([], out), Operator(x)) == Yard([Operator(x)], out)
  {
    assert [] + [Operator(x)] == [Operator(x)];
  }

  lemma ReadSecond(out: seq<Token>, x: Op, y: Op)
    ensures Read(Yard([Operator(x)], out), Operator(y)) ==
            if Precedence(x) >= Precedence(y) then Yard([Operator(y)], out + [Operator(x)])
            else Yard([Operator(x), Operator(y)], out)
  {
    var s := Yard([Operator(x)], out);
    if Yields(s, y) {
      var e := Emit(s);
      assert e == Yard([], out + [Operator(x)]) && !Yields(e, y);
      assert PopTighter(s, y) == PopTighter(e, y) == e;
      assert [] + [Operator(y)] == [Operator(y)];
    } else {
      assert [Operator(x)] + [Operator(y)] == [Operator(x), Operator(y)];
    }
  }

  lemma FlushOne(x: Token, out: seq<Token>)
    ensures Flush(Yard([x], out)) == out + [x]
  {
    assert Emit(Yard([x], out)) == Yard([], out + [x]);
  }

  lemma FlushTwo(x: Token, y: Token, out: seq<Token>)
    ensures Flush(Yard([x, y], out)) == out + [y] + [x]
  {
    assert Emit(Yard([x, y], out)) == Yard([x], out + [y]);
    FlushOne(x, out + [y]);
  }

  /** Two operators between three operands: the second goes first exactly when it binds tighter;
      within a level the first goes first. */
  lemma Grouping(a: Token, x: Op, b: Token, y: Op, c: Token)
    requires Compiled(a) && Compiled(b) && Compiled(c) && x != Not && y != Not
    ensures Rpn([a, Operator(x), b, Operator(y), c]) ==
            if Tighter(y, x) then [a, b, c, Operator(y), Operator(x)] else [a, b, Operator(x), c, Operator(y)]
  {
    hide Read, Run, Flush, Tighter, Precedence;
    TighterIsHigher(x, y);
    RunFive(Yard([], []), a, Operator(x), b, Operator(y), c);
    ReadOperand([], [], a);
    assert [] + [a] == [a] && [a] + [b] == [a, b];
    ReadFirst([a], x);
    ReadOperand([Operator(x)], [a], b);
    ReadSecond([a, b], x, y);
    if Tighter(y, x) {
      ReadOperand([Operator(x), Operator(y)], [a, b], c);
      FlushTwo(Operator(x), Operator(y), [a, b] + [c]);
    } else {
      ReadOperand([Operator(y)], [a, b] + [Operator(x)], c);
      FlushOne(Operator(y), [a, b] + [Operator(x)] + [c]);
    }
  }

  /** NOT takes the next operand, and with it only what is multiplied or divided. */
  lemma NotGrouping(a: Token, x: Op, b: Token)
    requires Compiled(a) && Compiled(b) && x != Not
    ensures Rpn([Operator(Not), a, Operator(x), b]) ==
            if x in PRODUCTS then [a, b, Operator(x), Operator(Not)] else [a, Operator(Not), b, Operator(x)]
  {
    hide Read, Run, Flush, Precedence;
    ProductsAreHigher(x);
    RunFour(Yard([], []), Operator(Not), a, Operator(x), b);
    ReadFirst([], Not);
    ReadOperand([Operator(Not)], [], a);
    assert [] + [a] == [a];
    ReadSecond([a], Not, x);
    if x in PRODUCTS {
      ReadOperand([Operator(Not), Operator(x)], [a], b);
      FlushTwo(Operator(Not), Operator(x), [a] + [b]);
    } else {
      ReadOperand([Operator(x)], [a] + [Operator(Not)], b);
      FlushOne(Operator(x), [a] + [Operator(Not)] + [b]);
    }
  }

  lemma ProductsAreHigher(x: Op)
    ensures x in PRODUCTS <==> Precedence(x) > Precedence(Not)
  {
  }

  lemma RunFour(y: Yard, a: Token, b: Token, c: Token, d: Token)
    ensures Run(y, [a, b, c, d]) == Read(Read(Read(Read(y, a), b), c), d)
  {
    hide Read, Run;
    RunCons(y, a, [b, c, d]);
    RunCons(Read(y, a), b, [c, d]);
    RunCons(Read(Read(y, a), b), c, [d]);
    RunOne(Read(Read(Read(y, a), b), c), d);
    assert [a] + [b, c, d] == [a, b, c, d] && [b] + [c, d] == [b, c, d] && [c] + [d] == [c, d];
  }

  /** Two operands compared. */
  predicate Comparison(e: Expr) {
    e.Binary? && e.op in COMPARISONS && e.l.Operand? && e.r.Operand? && Compiled(e.l.t) && Compiled(e.r.t)
  }

  /** The filter `p or q and r` is accepted exactly when p is, or q and r both are. */
  lemma OrOfAnd(p: Expr, q: Expr, r: Expr, kv: KeyValues, stale: Stale)
    requires Comparison(p) && Comparison(q) && Comparison(r)
    ensures Verdict(kv, stale, Rpn(Infix(p) + [Operator(Or)] + Infix(q) + [Operator(And)] + Infix(r))) <==>
            Verdict(kv, stale, Rpn(Infix(p)))
            || (Verdict(kv, stale, Rpn(Infix(q))) && Verdict(kv, stale, Rpn(Infix(r))))
  {
    var c := Binary(And, q, r);
    var e := Binary(Or, p, c);
    ComparisonIsFormula(p);
    ComparisonIsFormula(q);
    ComparisonIsFormula(r);
    hide Verdict, Rpn, Infix;
    assert Loosest(c) == 2;
    assert WellFormed(c) && Formula(c);
    assert WellFormed(e) && Formula(e);
    assert IsTrue(e, kv, stale) == (IsTrue(p, kv, stale) || IsTrue(c, kv, stale));
    hide WellFormed, Formula, Comparison;
    VerdictIsTruth(e, kv, stale);
    VerdictIsTruth(p, kv, stale);
    VerdictIsTruth(q, kv, stale);
    VerdictIsTruth(r, kv, stale);
    InfixOfOrAnd(p, q, r);
  }

  lemma ComparisonIsFormula(e: Expr)
    requires Comparison(e)
    ensures WellFormed(e) && Formula(e) && Loosest(e) == 3
  {
  }

  lemma InfixOfOrAnd(p: Expr, q: Expr, r: Expr)
    ensures Infix(Binary(Or, p, Binary(And, q, r))) ==
            Infix(p) + [Operator(Or)] + Infix(q) + [Operator(And)] + Infix(r)
  {
    var x, y, z := Infix(p), Infix(q), Infix(r);
    assert x + [Operator(Or)] + (y + [Operator(And)] + z) == x + [Operator(Or)] + y + [Operator(And)] + z;
  }

  // ---- what the operators give ----

  /** A comparison or connective of two integers is accepted exactly when it holds of them. */
  lemma IntegerVerdict(op: Op, l: Expr, r: Expr, x: int, y: int, kv: KeyValues, stale: Stale)
    requires WellFormed(Binary(op, l, r))
    requires Value(Filter(kv, stale), l) == Integer(x) && Value(Filter(kv, stale), r) == Integer(y)
    ensures var v := Verdict(kv, stale, Rpn(Infix(Binary(op, l, r))));
            && (op == Equals || op == StrLike ==> v == (x == y))
            && (op == NotEquals ==> v == (x != y))
            && (op == Less ==> v == (x < y))
            && (op == Greater ==> v == (y < x))
            && (op == LessEquals ==> v == !(y < x))
            && (op == GreaterEquals ==> v == !(x < y))
            && (op == And ==> v == !(x == 0 || y == 0))
            && (op == Or ==> v == !(x == 0 && y == 0))
  {
    CompiledVerdict(Binary(op, l, r), kv, stale);
    hide Rpn, Infix, WellFormed, Verdict, Steps;
  }

  /** Two texts are equal for the filter exactly when they are equal, and LIKE takes the right one as
      a mask; an integer is compared with a text by its decimal digits. */
  lemma TextVerdict(op: Op, l: Expr, r: Expr, kv: KeyValues, stale: Stale)
    requires WellFormed(Binary(op, l, r))
    ensures var v := Verdict(kv, stale, Rpn(Infix(Binary(op, l, r))));
            var a, b := Value(Filter(kv, stale), l), Value(Filter(kv, stale), r);
            && (a.Str? && b.Str? && op == Equals ==> v == (a.s == b.s))
            && (a.Str? && b.Str? && op == NotEquals ==> v == (a.s != b.s))
            && (a.Str? && b.Str? && op == StrLike && 0 !in a.s && 0 !in b.s ==> v == Glob.Matches(b.s, a.s, 37))
            && (a.Integer? && a.i >= 0 && b.Str? && op == Equals ==> v == (b.s == Digits(a.i)))
            && (a.Str? && b.Integer? && b.i < 0 && op == Equals ==> v == (a.s == [45] + Digits(-b.i)))
  {
    CompiledVerdict(Binary(op, l, r), kv, stale);
    hide Rpn, Infix, WellFormed, Verdict, Steps, Digits, Glob.Matches;
    var a, b := Value(Filter(kv, stale), l), Value(Filter(kv, stale), r);
    if a.Str? && b.Str? && 0 !in a.s && 0 !in b.s {
      WholeString(a.s);
      WholeString(b.s);
    }
  }

  lemma {:induction false} WholeString(s: seq<byte>)
    requires 0 !in s
    ensures Terminated(s) == s
    decreases |s|
  {
    if s != [] {
      assert s[0] != 0;
      WholeString(s[1..]);
    }
  }

  /** The four arithmetic operators on two integers; division rounds towards zero, and by zero it
      leaves nothing. */
  lemma ArithmeticValue(op: Op, l: Expr, r: Expr, x: int, y: int, kv: KeyValues, stale: Stale)
    requires WellFormed(Binary(op, l, r))
    requires Value(Filter(kv, stale), l) == Integer(x) && Value(Filter(kv, stale), r) == Integer(y)
    ensures var s := Steps(Filter(kv, stale), Machine([], false), Rpn(Infix(Binary(op, l, r)))).stack;
            && |s| == 1
            && (op == Add ==> s[0] == Integer(x + y))
            && (op == Subtract ==> s[0] == Integer(x - y))
            && (op == Multiply ==> s[0] == Integer(x * y))
            && (op == Divide && y == 0 ==> s[0] == NoneToken)
            && (op == Divide && y != 0 ==> s[0].Integer? && Quotient(x, y, s[0].i))
  {
    CompiledVerdict(Binary(op, l, r), kv, stale);
    hide Rpn, Infix, WellFormed, Verdict, Steps;
    if y != 0 {
      TruncDivIs(x, y);
    }
  }

  /** q is x / y without its fraction: what remains is smaller than y and has the sign of x. */
  predicate Quotient(x: int, y: int, q: int) {
    var rest := x - q * y;
    && (if y > 0 then -y < rest < y else y < rest < -y)
    && (if x >= 0 then rest >= 0 else rest <= 0)
  }

  lemma TruncDivIs(x: int, y: int)
    requires y != 0
    ensures Quotient(x, y, TruncDiv(x, y))
  {
    var a, b := if x >= 0 then x else -x, if y > 0 then y else -y;
    var q := a / b;
    assert a == q * b + a % b;
    assert (-q) * y == -(q * y) && q * (-y) == -(q * y);
  }

  /** NOT turns an integer into 1 exactly when it is 0. */
  lemma NotValueOf(e: Expr, x: int, kv: KeyValues, stale: Stale)
    requires WellFormed(Negation(e)) && Value(Filter(kv, stale), e) == Integer(x)
    ensures Verdict(kv, stale, Rpn(Infix(Negation(e)))) <==> x == 0
  {
    CompiledVerdict(Negation(e), kv, stale);
    hide Rpn, Infix, WellFormed, Verdict, Steps;
  }

  /** A variable whose value is a printed number is that number, any other text is itself, and a key
      that is missing counts as 0. */
  lemma VariableValue(name: seq<byte>, kv: KeyValues, stale: Stale)
    requires 0 !in name
    ensures var v := Value(Filter(kv, stale), Operand(Variable(name)));
            && (name !in kv ==> v == Integer(0))
            && (forall n: nat :: name in kv && kv[name] == Digits(n) ==> v == Integer(n))
            && (name in kv && 0 !in kv[name] && (exists i :: 0 <= i < |kv[name]| && !IsDigit(kv[name][i])) ==>
                  v == Str(kv[name]))
  {
    WholeString(name);
    forall n: nat | name in kv && kv[name] == Digits(n)
      ensures Value(Filter(kv, stale), Operand(Variable(name))) == Integer(n)
    {
      WholeString(Digits(n));
      NumberOfDigits(n);
    }
    if name in kv && 0 !in kv[name] {
      WholeString(kv[name]);
    }
  }

  // ---- how the operators are written ----

  function Ascii(s: string): (t: Text)
    ensures |t| == |s|
  {
    seq(|s|, i requires 0 <= i < |s| => s[i] as int % 128)
  }

  lemma One(c: char)
    ensures Ascii([c]) == [c as int % 128]
  {
  }

  lemma Two(c: char, d: char)
    ensures Ascii([c, d]) == [c as int % 128, d as int % 128]
  {
  }

  /** How the comparisons are written. */
  lemma SpeltComparisons()
    ensures Spells(Ascii("=="), Operator(Equals)) && Spells(Ascii("="), Operator(Equals))
    ensures Spells(Ascii("is"), Operator(Equals)) && Spells(Ascii("like"), Operator(StrLike))
    ensures Spells(Ascii("!="), Operator(NotEquals)) && Spells(Ascii("<>"), Operator(NotEquals))
    ensures Spells(Ascii(">"), Operator(Greater)) && Spells(Ascii(">="), Operator(GreaterEquals))
    ensures Spells(Ascii("<"), Operator(Less)) && Spells(Ascii("<="), Operator(LessEquals))
  {
    Two('=', '=');
    One('=');
    Two('i', 's');
    Two('!', '=');
    Two('<', '>');
    One('>');
    Two('>', '=');
    One('<');
    Two('<', '=');
    hide Ascii;
    SpeltLike();
  }

  lemma SpeltLike()
    ensures Spells(Ascii("like"), Operator(StrLike))
  {
  }

  /** How the connectives are written. */
  lemma SpeltConnectives()
    ensures Spells(Ascii("||"), Operator(Or)) && Spells(Ascii("OR"), Operator(Or))
    ensures Spells(Ascii("&&"), Operator(And)) && Spells(Ascii("And"), Operator(And))
    ensures Spells(Ascii("not"), Operator(Not)) && Spells(Ascii("!"), Operator(Not))
  {
    SpeltWords();
    Two('|', '|');
    Two('O', 'R');
    Two('&', '&');
    One('!');
    hide Ascii;
  }

  /** How the arithmetic operators and the brackets are written. */
  lemma SpeltArithmetic()
    ensures Spells(Ascii("+"), Operator(Add)) && Spells(Ascii("-"), Operator(Subtract))
    ensures Spells(Ascii("*"), Operator(Multiply)) && Spells(Ascii("/"), Operator(Divide))
    ensures Spells(Ascii("("), LeftBracket) && Spells(Ascii(")"), RightBracket)
  {
    One('+');
    One('-');
    One('*');
    One('/');
    One('(');
    One(')');
    hide Ascii;
  }

  lemma SpeltWords()
    ensures Spells(Ascii("And"), Operator(And)) && Spells(Ascii("not"), Operator(Not))
  {
  }

  /** How null and texts are written. */
  lemma SpeltOperands()
    ensures Spells(Ascii("NULL"), Integer(0)) && Spells(Ascii("'ab'"), Str(Ascii("ab")))
  {
    hide Number;
    Two('a', 'b');
    assert Ascii("'ab'") == [39, 97, 98, 39];
    assert [39] + [97, 98] + [39] == [39, 97, 98, 39];
  }

  /** The filter `numplayers>0` accepts exactly the servers with a player. */
  lemma SomePlayers(n: nat, kv: KeyValues, stale: Stale)
    requires Ascii("numplayers") in kv && kv[Ascii("numplayers")] == Digits(n)
    ensures Verdict(kv, stale, Rpn(Lex(Ascii("numplayers>0"), NoneToken))) <==> n > 0
  {
    hide Lex, Rpn, Verdict, Digits;
    var name := Ascii("numplayers");
    var e := Binary(Greater, Operand(Variable(name)), Operand(Integer(0)));
    PlayersName();
    PlayersText();
    hide Ascii;
    AtLeastOneText(name);
    assert Infix(e) == [Variable(name), Operator(Greater), Integer(0)];
    FilterTextMeansExpression(e, AtLeastOne(name), [], kv, stale);
    VariableValue(name, kv, stale);
    CompiledVerdict(e, kv, stale);
    IntegerVerdict(Greater, e.l, e.r, n, 0, kv, stale);
  }

  function AtLeastOne(name: Text): seq<Piece> {
    [Piece(Variable(name), name, []), Piece(Operator(Greater), [62], []), Piece(Integer(0), [48], [])]
  }

  lemma AtLeastOneText(name: Text)
    requires IsName(name)
    ensures [] + TextOf(AtLeastOne(name)) == name + [62, 48]
    ensures Separated(AtLeastOne(name))
    ensures TokensOf(AtLeastOne(name)) == [Variable(name), Operator(Greater), Integer(0)]
  {
    ZeroIsSpelt();
    ThreeTexts(AtLeastOne(name));
    hide IsName, TextOf;
    var ps := AtLeastOne(name);
    assert Spells(ps[0].s, ps[0].t) && Spells(ps[1].s, ps[1].t) && Stops(ps[0].s, ps[0].t, ps[1].s);
    hide Spells;
    assert name + ([] + ([62] + ([] + ([48] + [])))) == name + [62, 48];
    assert [] + (name + [62, 48]) == name + [62, 48];
  }

  lemma ThreeTexts(ps: seq<Piece>)
    requires |ps| == 3
    ensures TextOf(ps) == ps[0].s + (ps[0].gap + (ps[1].s + (ps[1].gap + (ps[2].s + ps[2].gap))))
  {
    FirstPiece(ps);
    FirstPiece(ps[1..]);
    FirstPiece(ps[1..][1..]);
    assert ps[1..][1..][1..] == [] && TextOf([]) == [];
    hide TextOf;
    assert ps[2].gap + [] == ps[2].gap;
  }

  lemma PlayersText()
    ensures Ascii("numplayers>0") == Ascii("numplayers") + [62, 48]
  {
  }

  lemma ZeroIsSpelt()
    ensures Spells([48], Integer(0))
  {
    var z: Text := [48];
    assert z[..0] == [] && Number(z[..0]) == 0;
    assert Number(z) == 0;
  }

  lemma PlayersName()
    ensures IsName(Ascii("numplayers")) && 0 !in Ascii("numplayers")
  {
    PlayersBytes();
    hide Ascii, StartsNoCase, IsNameChar, IsDigit;
    var s := Ascii("numplayers");
    LowerCaseName(s);
    NotAKeyword(s);
  }

  lemma PlayersBytes()
    ensures Ascii("numplayers") == [110, 117, 109, 112, 108, 97, 121, 101, 114, 115]
  {
  }

  lemma LowerCaseName(s: Text)
    requires s != [] && forall i :: 0 <= i < |s| ==> 97 <= s[i] <= 122
    ensures (forall i :: 0 <= i < |s| ==> IsNameChar(s[i])) && !IsDigit(s[0]) && 0 !in s
  {
  }

  lemma NotAKeyword(s: Text)
    requires |s| > 2 && s[0] == 110 && s[1] == 117 && s[2] == 109
    ensures !StartsNoCase(s, IS) && !StartsNoCase(s, OR) && !StartsNoCase(s, AND)
    ensures !StartsNoCase(s, NULL) && !StartsNoCase(s, LIKE) && !StartsNoCase(s, NOT)
  {
    assert Glob.ToLower(s[0]) == 110;
    assert Glob.ToLower(s[1]) != NOT[1] && Glob.ToLower(s[2]) != NULL[2];
  }

  // ---- odd operands ----

  /** Arithmetic on a text leaves nothing, and AND and OR accept when an operand is a text. */
  lemma TextOperands(op: Op, l: Expr, r: Expr, x: seq<byte>, kv: KeyValues, stale: Stale)
    requires WellFormed(Binary(op, l, r)) && Value(Filter(kv, stale), l) == Str(x)
    ensures var v := Verdict(kv, stale, Rpn(Infix(Binary(op, l, r))));
            && (op in SUMS || op in PRODUCTS ==> !v)
            && (op == And || op == Or ==> v)
  {
    CompiledVerdict(Binary(op, l, r), kv, stale);
    hide Rpn, Infix, WellFormed, Verdict, Steps;
  }

  /** An operator that finds the stack too short: NOT and arithmetic refuse, the others accept. */
  lemma LoneOperator(op: Op, kv: KeyValues, stale: Stale)
    ensures Verdict(kv, stale, [Operator(op)]) <==> op != Not && op !in SUMS && op !in PRODUCTS
  {
    StepsOne(Filter(kv, stale), Machine([], false), Operator(op));
  }

  /** Dots and underscores belong to names, and a dot between digits makes them a float, which adds
      the token before it once more. */
  lemma DotsAndDigits(last: Token)
    ensures LexTurn(Ascii("a.b_1 "), last) == Turn([Variable(Ascii("a.b_1"))], Variable(Ascii("a.b_1")), 5)
    ensures LexTurn(Ascii("1.5 "), last) == Turn([last], last, 3)
  {
    DottedName(last);
    FloatLiteral(last);
  }

  lemma DottedName(last: Token)
    ensures LexTurn(Ascii("a.b_1 "), last) == Turn([Variable(Ascii("a.b_1"))], Variable(Ascii("a.b_1")), 5)
  {
    var x: Text := [97, 46, 98, 95, 49];
    assert Ascii("a.b_1") == x && Ascii("a.b_1 ") == x + [32];
    hide Ascii, LexTurn, IsName;
    DottedIsName(x);
    TurnVariable(x, [32], last);
  }

  lemma DottedIsName(x: Text)
    requires |x| == 5 && x[0] == 97 && x[1] == 46 && x[2] == 98 && x[3] == 95 && x[4] == 49
    ensures IsName(x)
  {
    OtherLetters(x);
    hide IsKeywordPrefix;
  }

  lemma OtherLetters(x: Text)
    requires |x| > 1 && x[0] == 97 && x[1] == 46
    ensures !IsKeywordPrefix(x)
  {
    assert Glob.ToLower(x[0]) == 97 && Glob.ToLower(x[1]) != AND[1];
  }

  lemma FloatLiteral(last: Token)
    ensures LexTurn(Ascii("1.5 "), last) == Turn([last], last, 3)
  {
    var s: Text := [49, 46, 53, 32];
    assert Ascii("1.5 ") == s;
    hide Ascii;
    OtherStart(s);
    FloatLength(s);
    hide MultiChar, NumberLength, Number, DigitsIn;
    assert s[..3][1] == 46;
    assert HasFloatMark(s[..3]);
  }

  lemma FloatLength(s: Text)
    requires s == [49, 46, 53, 32]
    ensures NumberLength(s) == 3
  {
    assert s[1..] == [46, 53, 32] && s[1..][1..] == [53, 32] && s[1..][1..][1..] == [32];
    assert NumberLength(s[1..][1..][1..]) == 0;
    assert NumberLength(s[1..][1..]) == 1;
  }
}
