/** Tokens and expressions of server filters. */
module FilterTokens {
  import opened Bits

  datatype Op =
    | Equals | NotEquals | Greater | GreaterEquals | Less | LessEquals
    | Or | And | Add | Subtract | Multiply | Divide | StrLike | Not

  /** A token; NoneToken is what the default constructor makes, and a float never carries a
      value that is used. */
  datatype Token =
    | NoneToken
    | Variable(name: seq<byte>)
    | Integer(i: int)
    | Str(s: seq<byte>)
    | Float
    | LeftBracket
    | RightBracket
    | Operator(op: Op)

  predicate IsOperand(t: Token) {
    t.Variable? || t.Integer? || t.Str? || t.Float?
  }

  /** The operands the compiler passes on: floats are not among them. */
  predicate Compiled(t: Token) {
    t.Variable? || t.Integer? || t.Str?
  }

  function Precedence(op: Op): (p: nat)
    ensures 1 <= p <= 5
  {
    match op
    case Or => 1
    case And => 2
    case Equals => 3
    case NotEquals => 3
    case Greater => 3
    case GreaterEquals => 3
    case Less => 3
    case LessEquals => 3
    case StrLike => 3
    case Not => 4
    case Add => 4
    case Subtract => 4
    case Multiply => 5
    case Divide => 5
  }

  /** Expressions, with the brackets of the text kept. */
  datatype Expr =
    | Operand(t: Token)
    | Binary(op: Op, l: Expr, r: Expr)
    | Negation(e: Expr)
    | Bracketed(e: Expr)

  /** The precedence of the operator that binds last; brackets and operands bind tightest. */
  function Loosest(e: Expr): nat {
    match e
    case Operand(_) => 6
    case Bracketed(_) => 6
    case Binary(op, _, _) => Precedence(op)
    case Negation(_) => Precedence(Not)
  }

  /** The tree is the one its text denotes: operators associate to the left, the operand of NOT
      binds tighter than NOT.  In particular NOT stands only at the start, after '(' or after
      AND, OR or a comparison. */
  predicate WellFormed(e: Expr) {
    match e
    case Operand(t) => Compiled(t)
    case Bracketed(b) => WellFormed(b)
    case Binary(op, l, r) =>
      && op != Not
      && Loosest(l) >= Precedence(op) && Loosest(r) > Precedence(op)
      && WellFormed(l) && WellFormed(r)
    case Negation(b) => Loosest(b) > Precedence(Not) && WellFormed(b)
  }

  /** The tokens of the text. */
  function Infix(e: Expr): seq<Token> {
    match e
    case Operand(t) => [t]
    case Bracketed(b) => [LeftBracket] + Infix(b) + [RightBracket]
    case Binary(op, l, r) => Infix(l) + [Operator(op)] + Infix(r)
    case Negation(b) => [Operator(Not)] + Infix(b)
  }

  /** Postorder. */
  function Postfix(e: Expr): seq<Token> {
    match e
    case Operand(t) => [t]
    case Bracketed(b) => Postfix(b)
    case Binary(op, l, r) => Postfix(l) + Postfix(r) + [Operator(op)]
    case Negation(b) => Postfix(b) + [Operator(Not)]
  }
}
