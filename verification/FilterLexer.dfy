/** From the text of a filter to its tokens. */
module FilterLexer {
  import opened Bits
  import opened Decimals
  import opened FilterTokens
  import opened FilterCompiler
  import opened FilterEval
  import FilterStack
  import Glob

  type Text = seq<byte>

  predicate IsAlnum(c: byte) {
    IsDigit(c) || 65 <= c <= 90 || 97 <= c <= 122
  }

  /** Characters of a variable name: letters, digits, '.' and '_'. */
  predicate IsNameChar(c: byte) {
    IsAlnum(c) || c == 46 || c == 95
  }

  predicate IsQuote(c: byte) {
    c == 39 || c == 34
  }

  /** Digits, and the two characters taken to mark a float. */
  predicate IsNumberChar(c: byte) {
    IsDigit(c) || IsFloatMark(c)
  }

  predicate IsFloatMark(c: byte) {
    c == 102 || c == 46
  }

  /** strncmp with a literal. */
  predicate Starts(s: Text, lit: Text) {
    |lit| <= |s| && forall i :: 0 <= i < |lit| ==> s[i] == lit[i]
  }

  /** strnicmp with a literal in lower case. */
  predicate StartsNoCase(s: Text, lit: Text) {
    |lit| <= |s| && forall i :: 0 <= i < |lit| ==> Glob.ToLower(s[i]) == lit[i]
  }

  const IS: Text := [105, 115]
  const OR: Text := [111, 114]
  const AND: Text := [97, 110, 100]
  const NULL: Text := [110, 117, 108, 108]
  const LIKE: Text := [108, 105, 107, 101]
  const NOT: Text := [110, 111, 116]

  /** A token and how many characters it takes. */
  datatype Found = Nothing | Found(t: Token, n: nat)

  /** checkMultiCharToken, in the order of its tests. */
  function MultiChar(s: Text): (f: Found)
    ensures f.Found? ==> 1 <= f.n <= |s|
  {
    if Starts(s, [61, 61]) then Found(Operator(Equals), 2)
    else if StartsNoCase(s, IS) then Found(Operator(Equals), 2)
    else if Starts(s, [61]) then Found(Operator(Equals), 1)
    else if Starts(s, [33, 61]) || Starts(s, [60, 62]) then Found(Operator(NotEquals), 2)
    else if Starts(s, [62, 61]) then Found(Operator(GreaterEquals), 2)
    else if Starts(s, [60, 61]) then Found(Operator(LessEquals), 2)
    else if Starts(s, [60]) then Found(Operator(Less), 1)
    else if Starts(s, [62]) then Found(Operator(Greater), 1)
    else if Starts(s, [124, 124]) || StartsNoCase(s, OR) then Found(Operator(Or), 2)
    else if Starts(s, [38, 38]) then Found(Operator(And), 2)
    else if StartsNoCase(s, AND) then Found(Operator(And), 3)
    else if Starts(s, [40]) then Found(LeftBracket, 1)
    else if Starts(s, [41]) then Found(RightBracket, 1)
    else if StartsNoCase(s, NULL) then Found(Integer(0), 4)
    else if StartsNoCase(s, LIKE) then Found(Operator(StrLike), 4)
    else if StartsNoCase(s, NOT) then Found(Operator(Not), 3)
    else if Starts(s, [33]) then Found(Operator(Not), 1)
    else Nothing
  }

  /** The operators that are one plain character. */
  function SingleChar(c: byte): Found {
    if c == 45 then Found(Operator(Subtract), 1)
    else if c == 43 then Found(Operator(Add), 1)
    else if c == 47 then Found(Operator(Divide), 1)
    else if c == 42 then Found(Operator(Multiply), 1)
    else Nothing
  }

  function NameLength(s: Text): (n: nat)
    ensures n <= |s|
  {
    if s == [] || !IsNameChar(s[0]) then 0 else 1 + NameLength(s[1..])
  }

  /** How far the text runs before the delimiter or its end. */
  function QuoteLength(s: Text, delim: byte): (n: nat)
    ensures n <= |s|
  {
    if s == [] || s[0] == delim then 0 else 1 + QuoteLength(s[1..], delim)
  }

  function NumberLength(s: Text): (n: nat)
    ensures n <= |s|
  {
    if s == [] || !IsNumberChar(s[0]) then 0 else 1 + NumberLength(s[1..])
  }

  function DigitsIn(s: Text): (d: Text)
    ensures AllDigits(d)
  {
    if s == [] then []
    else if IsDigit(s[|s| - 1]) then DigitsIn(s[..|s| - 1]) + [s[|s| - 1]]
    else DigitsIn(s[..|s| - 1])
  }

  predicate HasFloatMark(s: Text) {
    exists i :: 0 <= i < |s| && IsFloatMark(s[i])
  }

  /** What one turn of the lexer's loop does: the tokens it adds, the token variable after it and
      how many characters it moves on.  A float literal adds whatever the token variable held. */
  datatype Turn = Turn(add: seq<Token>, last: Token, n: nat)

  function LexTurn(s: Text, last: Token): (t: Turn)
    requires s != []
    ensures t.n >= 1
  {
    var m := MultiChar(s);
    if IsSpace(s[0]) then Turn([], last, 1)
    else if m.Found? then Turn([m.t], m.t, m.n)
    else if IsQuote(s[0]) then
      var k := QuoteLength(s[1..], s[0]);
      Turn([Str(s[1..1 + k])], Str(s[1..1 + k]), k + 2)
    else if SingleChar(s[0]).Found? then Turn([SingleChar(s[0]).t], SingleChar(s[0]).t, 1)
    else if IsDigit(s[0]) then
      var k := NumberLength(s);
      if HasFloatMark(s[..k]) then Turn([last], last, k)
      else var v := Integer(Number(DigitsIn(s[..k]))); Turn([v], v, k)
    else
      var k := NameLength(s);
      if k == 0 then Turn([], last, 1) else Turn([Variable(s[..k])], Variable(s[..k]), k)
  }

  function Drop(s: Text, n: nat): Text {
    if n >= |s| then [] else s[n..]
  }

  /** All tokens of the text.  Every turn moves on, so this is total. */
  function Lex(s: Text, last: Token): seq<Token>
    decreases |s|
  {
    if s == [] then []
    else
      var t := LexTurn(s, last);
      t.add + Lex(Drop(s, t.n), t.last)
  }

  // ---- the lexer ----

  method ReadString(filter: Text, idx0: nat) returns (str: Text, idx: nat)
    requires idx0 < |filter|
    ensures var k := QuoteLength(filter[idx0 + 1..], filter[idx0]);
            str == filter[idx0 + 1..idx0 + 1 + k] && idx == idx0 + 1 + k
  {
    var delim := filter[idx0];
    str := [];
    idx := idx0 + 1;
    while idx < |filter|
      invariant idx0 + 1 <= idx <= |filter| && str == filter[idx0 + 1..idx]
      invariant QuoteLength(filter[idx0 + 1..], delim) == idx - idx0 - 1 + QuoteLength(filter[idx..], delim)
    {
      assert filter[idx..][1..] == filter[idx + 1..];
      if filter[idx] == delim {
        break;
      }
      str := str + [filter[idx]];
      idx := idx + 1;
    }
  }

  method ReadVariable(filter: Text, idx0: nat) returns (str: Text, idx: nat)
    requires idx0 <= |filter|
    ensures var k := NameLength(filter[idx0..]);
            str == filter[idx0..][..k] && idx == idx0 + k
  {
    str := [];
    idx := idx0;
    while idx < |filter|
      invariant idx0 <= idx <= |filter| && str == filter[idx0..idx]
      invariant NameLength(filter[idx0..]) == idx - idx0 + NameLength(filter[idx..])
    {
      assert filter[idx..][1..] == filter[idx + 1..];
      if !IsNameChar(filter[idx]) {
        break;
      }
      str := str + [filter[idx]];
      idx := idx + 1;
    }
    assert filter[idx0..][..idx - idx0] == filter[idx0..idx];
  }

  method ReadInteger(filter: Text, idx0: nat) returns (isFloat: bool, value: nat, idx: nat)
    requires idx0 <= |filter|
    ensures var k := NumberLength(filter[idx0..]); var s := filter[idx0..][..k];
            idx == idx0 + k && isFloat == HasFloatMark(s) && (!isFloat ==> value == Number(DigitsIn(s)))
  {
    hide DigitsIn, HasFloatMark, Number;
    NothingRead();
    var str: Text := [];
    isFloat := false;
    idx := idx0;
    assert filter[idx0..idx0] == [];
    while idx < |filter|
      invariant idx0 <= idx <= |filter| && str == DigitsIn(filter[idx0..idx])
      invariant isFloat == HasFloatMark(filter[idx0..idx])
      invariant NumberLength(filter[idx0..]) == idx - idx0 + NumberLength(filter[idx..])
    {
      assert filter[idx..][1..] == filter[idx + 1..];
      assert filter[idx0..idx + 1] == filter[idx0..idx] + [filter[idx]];
      MarkAppend(filter[idx0..idx], filter[idx]);
      DigitsAppend(filter[idx0..idx], filter[idx]);
      if IsFloatMark(filter[idx]) {
        isFloat := true;
      } else if !IsDigit(filter[idx]) {
        break;
      } else {
        str := str + [filter[idx]];
      }
      idx := idx + 1;
    }
    assert filter[idx0..][..idx - idx0] == filter[idx0..idx];
    value := ToInt(str);
  }

  lemma NothingRead()
    ensures DigitsIn([]) == [] && !HasFloatMark([])
  {
  }

  lemma MarkAppend(s: Text, c: byte)
    ensures HasFloatMark(s + [c]) == (HasFloatMark(s) || IsFloatMark(c))
  {
    if HasFloatMark(s) {
      var i :| 0 <= i < |s| && IsFloatMark(s[i]);
      assert (s + [c])[i] == s[i];
    }
    if IsFloatMark(c) {
      assert (s + [c])[|s|] == c;
    }
  }

  lemma DigitsAppend(s: Text, c: byte)
    ensures DigitsIn(s + [c]) == if IsDigit(c) then DigitsIn(s) + [c] else DigitsIn(s)
  {
    assert (s + [c])[..|s + [c]| - 1] == s;
  }

  /** atoi on digits. */
  method ToInt(s: Text) returns (v: nat)
    requires AllDigits(s)
    ensures v == Number(s)
  {
    v := 0;
    assert s[..0] == [];
    for i := 0 to |s|
      invariant AllDigits(s[..i]) && v == Number(s[..i])
    {
      assert s[..i + 1][..i] == s[..i];
      v := 10 * v + (s[i] - 48);
    }
    assert s[..|s|] == s;
  }

  /** filterToTokenList: lex the text, then convert. */
  method FilterToTokenList(filter: Text) returns (rpn: seq<Token>)
    ensures rpn == Rpn(Lex(filter, NoneToken))
  {
    hide MultiChar, Rpn, NameLength, QuoteLength, NumberLength, DigitsIn, Number, HasFloatMark;
    var tokens: seq<Token> := [];
    var token := NoneToken;
    var i := 0;
    assert filter[0..] == filter;
    while i < |filter|
      invariant tokens + Lex(Drop(filter, i), token) == Lex(filter, NoneToken)
      decreases |filter| - i
    {
      ghost var turn := LexTurn(filter[i..], token);
      LexUnfold(filter, i, token, tokens);
      tokens, token, i := LexStep(filter, i, tokens, token);
    }
    assert tokens + [] == tokens;
    rpn := ConvertToRPN(tokens);
  }

  lemma LexUnfold(filter: Text, i: nat, last: Token, tokens: seq<Token>)
    requires i < |filter|
    ensures var t := LexTurn(filter[i..], last);
            tokens + Lex(Drop(filter, i), last) == (tokens + t.add) + Lex(Drop(filter, i + t.n), t.last)
  {
    hide LexTurn;
    var t := LexTurn(filter[i..], last);
    var d := Drop(filter[i..], t.n);
    assert Lex(filter[i..], last) == t.add + Lex(d, t.last);
    hide Lex;
    assert d == Drop(filter, i + t.n) && Drop(filter, i) == filter[i..];
    assert tokens + (t.add + Lex(d, t.last)) == tokens + t.add + Lex(d, t.last);
  }

  /** The body of the lexer's loop; i is where the next turn starts. */
  method LexStep(filter: Text, i: nat, tokens0: seq<Token>, token0: Token)
    returns (tokens: seq<Token>, token: Token, next: nat)
    requires i < |filter|
    ensures var t := LexTurn(filter[i..], token0);
            tokens == tokens0 + t.add && token == t.last && next == i + t.n
  {
    hide MultiChar, NameLength, QuoteLength, NumberLength, DigitsIn, Number, HasFloatMark;
    tokens, token, next := tokens0, token0, i + 1;
    var c := filter[i];
    ghost var s := filter[i..];
    assert s[1..] == filter[i + 1..] && s[0] == c;
    if IsSpace(c) {
      return;
    }
    var m := MultiChar(filter[i..]);
    var o := SingleChar(c);
    if m.Found? {
      token, next := m.t, i + m.n;
      tokens := tokens + [token];
    } else if IsQuote(c) {
      var str, idx := ReadString(filter, i);
      assert s[1..idx - i] == filter[i + 1..idx];
      token, next := Str(str), idx + 1;
      tokens := tokens + [token];
    } else if o.Found? {
      token := o.t;
      tokens := tokens + [token];
    } else if IsDigit(c) {
      var isFloat, value, idx := ReadInteger(filter, i);
      if !isFloat {
        token := Integer(value);
      }
      tokens, next := tokens + [token], idx;
    } else {
      var str, idx := ReadVariable(filter, i);
      if str == [] {
        return;
      }
      token, next := Variable(str), idx;
      tokens := tokens + [token];
    }
  }

  // ---- text that spells a list of tokens ----

  /** The word, in any mixture of cases. */
  predicate IsWord(s: Text, lit: Text) {
    |s| == |lit| && StartsNoCase(s, lit)
  }

  /** The text s spells the token t, in any of the ways the lexer knows. */
  predicate Spells(s: Text, t: Token) {
    match t
    case Operator(op) => SpellsOperator(s, op)
    case LeftBracket => s == [40]
    case RightBracket => s == [41]
    case Integer(i) => SpellsInteger(s, i)
    case Str(x) => |s| == |x| + 2 && IsQuote(s[0]) && s == [s[0]] + x + [s[0]] && s[0] !in x
    case Variable(x) => s == x && IsName(x)
    case _ => false
  }

  predicate SpellsOperator(s: Text, op: Op) {
    match op
    case Equals => s == [61, 61] || s == [61] || IsWord(s, IS)
    case NotEquals => s == [33, 61] || s == [60, 62]
    case Greater => s == [62]
    case GreaterEquals => s == [62, 61]
    case Less => s == [60]
    case LessEquals => s == [60, 61]
    case Or => s == [124, 124] || IsWord(s, OR)
    case And => s == [38, 38] || IsWord(s, AND)
    case Add => s == [43]
    case Subtract => s == [45]
    case Multiply => s == [42]
    case Divide => s == [47]
    case StrLike => IsWord(s, LIKE)
    case Not => IsWord(s, NOT) || s == [33]
  }

  /** A non-negative integer: some digits, or the word null for 0. */
  predicate SpellsInteger(s: Text, i: int) {
    (s != [] && AllDigits(s) && Number(s) == i) || (IsWord(s, NULL) && i == 0)
  }

  predicate IsKeywordPrefix(s: Text) {
    StartsNoCase(s, IS) || StartsNoCase(s, OR) || StartsNoCase(s, AND)
    || StartsNoCase(s, NULL) || StartsNoCase(s, LIKE) || StartsNoCase(s, NOT)
  }

  /** A variable name: name characters, not beginning with a digit or a keyword. */
  predicate IsName(x: Text) {
    x != [] && (forall i :: 0 <= i < |x| ==> IsNameChar(x[i])) && !IsDigit(x[0]) && !IsKeywordPrefix(x)
  }

  /** A token with its spelling and the white space after it. */
  datatype Piece = Piece(t: Token, s: Text, gap: Text)

  predicate AllSpace(s: Text) {
    forall i :: 0 <= i < |s| ==> IsSpace(s[i])
  }

  /** The character c right after the spelling s of t would make the token longer. */
  predicate Joins(s: Text, t: Token, c: byte) {
    match t
    case Variable(_) => IsNameChar(c)
    case Integer(_) => AllDigits(s) && IsNumberChar(c)
    case Operator(_) =>
      (s == [61] && c == 61) || (s == [60] && (c == 61 || c == 62)) || (s == [62] && c == 61) || (s == [33] && c == 61)
    case _ => false
  }

  /** The text after the spelling s of t does not make the token longer. */
  predicate Stops(s: Text, t: Token, rest: Text) {
    rest == [] || !Joins(s, t, rest[0])
  }

  /** Every token is spelled, and white space stands at least where the next spelling would make
      the token longer. */
  predicate Separated(ps: seq<Piece>) {
    forall i :: 0 <= i < |ps| ==>
      && Spells(ps[i].s, ps[i].t) && AllSpace(ps[i].gap)
      && (i + 1 < |ps| && ps[i].gap == [] ==> Stops(ps[i].s, ps[i].t, ps[i + 1].s))
  }

  function TextOf(ps: seq<Piece>): Text {
    if ps == [] then [] else ps[0].s + ps[0].gap + TextOf(ps[1..])
  }

  function TokensOf(ps: seq<Piece>): seq<Token> {
    seq(|ps|, i requires 0 <= i < |ps| => ps[i].t)
  }

  /** Nothing follows that could belong to a name. */
  predicate NameStops(rest: Text) {
    rest == [] || !IsNameChar(rest[0])
  }

  lemma {:induction false} NameEnds(x: Text, rest: Text)
    requires (forall i :: 0 <= i < |x| ==> IsNameChar(x[i])) && NameStops(rest)
    ensures NameLength(x + rest) == |x|
    decreases |x|
  {
    if x == [] {
      assert x + rest == rest;
    } else {
      NameEnds(x[1..], rest);
      assert (x + rest)[1..] == x[1..] + rest;
    }
  }

  lemma {:induction false} QuoteEnds(x: Text, q: byte, rest: Text)
    requires q !in x
    ensures QuoteLength(x + [q] + rest, q) == |x|
    decreases |x|
  {
    if x == [] {
      assert ([] + [q] + rest)[0] == q;
    } else {
      assert x[0] != q && q !in x[1..];
      QuoteEnds(x[1..], q, rest);
      assert (x + [q] + rest)[1..] == x[1..] + [q] + rest;
    }
  }

  lemma {:induction false} NumberEnds(x: Text, rest: Text)
    requires AllDigits(x) && (rest == [] || !IsNumberChar(rest[0]))
    ensures NumberLength(x + rest) == |x|
    decreases |x|
  {
    if x == [] {
      assert x + rest == rest;
    } else {
      NumberEnds(x[1..], rest);
      assert (x + rest)[1..] == x[1..] + rest;
    }
  }

  lemma {:induction false} DigitsAreDigits(x: Text)
    requires AllDigits(x)
    ensures DigitsIn(x) == x && !HasFloatMark(x)
    decreases |x|
  {
    if x != [] {
      DigitsAreDigits(x[..|x| - 1]);
    }
  }

  /** No keyword begins a name, even where the name is shorter than the keyword. */
  lemma NotKeyword(x: Text, rest: Text, lit: Text)
    requires NameStops(rest) && !StartsNoCase(x, lit) && (forall i :: 0 <= i < |lit| ==> 97 <= lit[i] <= 122)
    ensures !StartsNoCase(x + rest, lit)
  {
    if |lit| <= |x| {
      var i :| 0 <= i < |lit| && Glob.ToLower(x[i]) != lit[i];
      assert (x + rest)[i] == x[i];
    } else if |lit| <= |x + rest| {
      assert (x + rest)[|x|] == rest[0];
    }
  }

  lemma NameIsNotMultiChar(x: Text, rest: Text)
    requires IsName(x) && NameStops(rest)
    ensures MultiChar(x + rest) == Nothing
  {
    assert (x + rest)[0] == x[0] && IsNameChar(x[0]);
    NotKeyword(x, rest, IS);
    NotKeyword(x, rest, OR);
    NotKeyword(x, rest, AND);
    NotKeyword(x, rest, NULL);
    NotKeyword(x, rest, LIKE);
    NotKeyword(x, rest, NOT);
  }

  /** Only letters and the characters ! & ( ) < = > | begin a token of that kind. */
  lemma OtherStart(s: Text)
    requires s != []
    requires !(97 <= Glob.ToLower(s[0]) <= 122)
    requires s[0] !in {33, 38, 40, 41, 60, 61, 62, 124}
    ensures MultiChar(s) == Nothing
  {
  }

  lemma TurnVariable(x: Text, rest: Text, last: Token)
    requires IsName(x) && NameStops(rest)
    ensures LexTurn(x + rest, last) == Turn([Variable(x)], Variable(x), |x|)
  {
    NameIsNotMultiChar(x, rest);
    NameEnds(x, rest);
    hide MultiChar, NameLength;
    var s := x + rest;
    assert s[0] == x[0] && IsNameChar(x[0]);
    assert s[..|x|] == x;
  }

  lemma TurnString(x: Text, q: byte, rest: Text, last: Token)
    requires IsQuote(q) && q !in x
    ensures LexTurn([q] + x + [q] + rest, last) == Turn([Str(x)], Str(x), |x| + 2)
  {
    var s := [q] + x + [q] + rest;
    OtherStart(s);
    QuoteEnds(x, q, rest);
    hide MultiChar, QuoteLength;
    assert s[1..] == x + [q] + rest;
    assert s[1..1 + |x|] == x;
  }

  lemma TurnNumber(x: Text, rest: Text, last: Token)
    requires x != [] && AllDigits(x) && (rest == [] || !IsNumberChar(rest[0]))
    ensures LexTurn(x + rest, last) == Turn([Integer(Number(x))], Integer(Number(x)), |x|)
  {
    hide MultiChar, NumberLength, DigitsIn, Number, HasFloatMark, LexTurn;
    var s := x + rest;
    assert s[0] == x[0] && IsDigit(x[0]);
    OtherStart(s);
    NumberEnds(x, rest);
    DigitsAreDigits(x);
    assert s[..|x|] == x;
    DigitTurn(s, last);
  }

  lemma DigitTurn(s: Text, last: Token)
    requires s != [] && IsDigit(s[0]) && MultiChar(s) == Nothing
    requires !HasFloatMark(s[..NumberLength(s)]) && NumberLength(s) >= 1
    ensures var k := NumberLength(s); var v := Integer(Number(DigitsIn(s[..k])));
            LexTurn(s, last) == Turn([v], v, k)
  {
    hide MultiChar, NumberLength, DigitsIn, Number, HasFloatMark;
  }

  lemma TurnSingle(c: byte, rest: Text, last: Token)
    requires SingleChar(c).Found?
    ensures LexTurn([c] + rest, last) == Turn([SingleChar(c).t], SingleChar(c).t, 1)
  {
    OtherStart([c] + rest);
    hide MultiChar;
  }

  /** A spelling that the multi-character test recognises. */
  lemma TurnMulti(s: Text, rest: Text, t: Token, last: Token)
    requires s != [] && MultiChar(s + rest) == Found(t, |s|) && !IsSpace(s[0])
    ensures LexTurn(s + rest, last) == Turn([t], t, |s|)
  {
    hide MultiChar;
    assert (s + rest)[0] == s[0];
  }

  lemma WordPrefix(s: Text, rest: Text, lit: Text)
    requires IsWord(s, lit)
    ensures StartsNoCase(s + rest, lit)
  {
    forall i | 0 <= i < |lit| ensures Glob.ToLower((s + rest)[i]) == lit[i] {
      assert (s + rest)[i] == s[i];
    }
  }

  /** A word operator is recognised whatever its cases. */
  lemma MultiWord(s: Text, rest: Text, lit: Text)
    requires IsWord(s, lit) && lit in {IS, OR, AND, NULL, LIKE, NOT}
    ensures MultiChar(s + rest) == Found(WordToken(lit), |s|)
  {
    WordPrefix(s, rest, lit);
    var u := s + rest;
    assert u[0] == s[0] && u[1] == s[1];
    assert Glob.ToLower(u[0]) == lit[0] && Glob.ToLower(u[1]) == lit[1];
  }

  function WordToken(lit: Text): Token {
    if lit == IS then Operator(Equals) else if lit == OR then Operator(Or)
    else if lit == AND then Operator(And) else if lit == NULL then Integer(0)
    else if lit == LIKE then Operator(StrLike) else Operator(Not)
  }

  /** Spellings of one or two symbols. */
  lemma MultiSymbol(s: Text, rest: Text, op: Op)
    requires SpellsOperator(s, op) && 1 <= |s| <= 2 && !IsAlnum(s[0]) && !SingleChar(s[0]).Found?
    requires Stops(s, Operator(op), rest)
    ensures MultiChar(s + rest) == Found(Operator(op), |s|)
  {
    var u := s + rest;
    assert u[0] == s[0];
    if |s| == 2 {
      assert u[1] == s[1];
    } else if rest != [] {
      assert u[1] == rest[0];
    }
  }

  lemma WordStart(s: Text, lit: Text)
    requires IsWord(s, lit) && lit in {IS, OR, AND, NULL, LIKE, NOT}
    ensures s != [] && !IsSpace(s[0])
  {
    assert Glob.ToLower(s[0]) == lit[0];
  }

  lemma TurnWord(s: Text, rest: Text, lit: Text, last: Token)
    requires IsWord(s, lit) && lit in {IS, OR, AND, NULL, LIKE, NOT}
    ensures LexTurn(s + rest, last) == Turn([WordToken(lit)], WordToken(lit), |s|)
  {
    WordStart(s, lit);
    MultiWord(s, rest, lit);
    TurnMulti(s, rest, WordToken(lit), last);
  }

  lemma TurnOperator(s: Text, op: Op, rest: Text, last: Token)
    requires SpellsOperator(s, op) && Stops(s, Operator(op), rest)
    ensures LexTurn(s + rest, last) == Turn([Operator(op)], Operator(op), |s|)
  {
    hide LexTurn, MultiChar;
    if |s| == 1 && SingleChar(s[0]).Found? {
      TurnSingle(s[0], rest, last);
      assert s == [s[0]];
    } else if IsWord(s, IS) && op == Equals {
      TurnWord(s, rest, IS, last);
    } else if IsWord(s, OR) && op == Or {
      TurnWord(s, rest, OR, last);
    } else if IsWord(s, AND) && op == And {
      TurnWord(s, rest, AND, last);
    } else if op == StrLike {
      TurnWord(s, rest, LIKE, last);
    } else if IsWord(s, NOT) && op == Not {
      TurnWord(s, rest, NOT, last);
    } else {
      MultiSymbol(s, rest, op);
      TurnMulti(s, rest, Operator(op), last);
    }
  }

  lemma TurnBracket(s: Text, t: Token, rest: Text, last: Token)
    requires (s == [40] && t == LeftBracket) || (s == [41] && t == RightBracket)
    ensures LexTurn(s + rest, last) == Turn([t], t, |s|)
  {
    assert (s + rest)[0] == s[0];
    TurnMulti(s, rest, t, last);
  }

  lemma SpellingNotEmpty(s: Text, t: Token)
    requires Spells(s, t)
    ensures s != []
  {
  }

  /** A spelled token at the start of the text is lexed as that token, unless what follows makes
      it longer. */
  lemma TurnStops(s: Text, t: Token, rest: Text, last: Token)
    requires Spells(s, t) && Stops(s, t, rest)
    ensures LexTurn(s + rest, last) == Turn([t], t, |s|)
  {
    SpellingNotEmpty(s, t);
    hide LexTurn, MultiChar, Number;
    match t
    case Operator(op) => TurnOperator(s, op, rest, last);
    case LeftBracket => TurnBracket(s, t, rest, last);
    case RightBracket => TurnBracket(s, t, rest, last);
    case Variable(x) => TurnVariable(x, rest, last);
    case Str(x) =>
      TurnString(x, s[0], rest, last);
      assert s + rest == [s[0]] + x + [s[0]] + rest;
    case Integer(i) =>
      if IsWord(s, NULL) && i == 0 {
        TurnWord(s, rest, NULL, last);
      } else {
        TurnNumber(s, rest, last);
      }
  }

  lemma {:induction false} NameGoesOn(x: Text, rest: Text)
    requires (forall i :: 0 <= i < |x| ==> IsNameChar(x[i])) && !NameStops(rest)
    ensures NameLength(x + rest) > |x|
    decreases |x|
  {
    if x == [] {
      assert x + rest == rest;
    } else {
      NameGoesOn(x[1..], rest);
      assert (x + rest)[1..] == x[1..] + rest;
    }
  }

  lemma {:induction false} NumberGoesOn(x: Text, rest: Text)
    requires AllDigits(x) && rest != [] && IsNumberChar(rest[0])
    ensures NumberLength(x + rest) > |x|
    decreases |x|
  {
    if x == [] {
      assert x + rest == rest;
    } else {
      NumberGoesOn(x[1..], rest);
      assert (x + rest)[1..] == x[1..] + rest;
    }
  }

  /** A character that joins the token makes the turn another one. */
  lemma TurnJoins(s: Text, t: Token, rest: Text, last: Token)
    requires Spells(s, t) && !Stops(s, t, rest)
    ensures LexTurn(s + rest, last) != Turn([t], t, |s|)
  {
    SpellingNotEmpty(s, t);
    var u := s + rest;
    assert u[0] == s[0] && u[|s|] == rest[0];
    match t
    case Variable(x) =>
      NameGoesOn(x, rest);
      hide MultiChar, NameLength;
      NamesNotMulti(u);
    case Integer(i) =>
      OtherStart(u);
      NumberGoesOn(s, rest);
      hide MultiChar, NumberLength, DigitsIn, HasFloatMark, Number;
    case Operator(op) =>
      assert Starts(u, [s[0], rest[0]]);
      SymbolsJoin(u);
      hide MultiChar;
  }

  /** No keyword or symbol is read as a variable. */
  lemma NamesNotMulti(u: Text)
    ensures MultiChar(u).Found? ==> !MultiChar(u).t.Variable?
  {
  }

  lemma SymbolsJoin(u: Text)
    requires |u| >= 2
    requires (u[0] in {33, 60, 61, 62} && u[1] == 61) || (u[0] == 60 && u[1] == 62)
    ensures MultiChar(u).Found? && MultiChar(u).n == 2
  {
  }

  /** A spelled token at the start of the text is lexed as that token exactly when what follows
      does not join it. */
  lemma TurnSpelled(s: Text, t: Token, rest: Text, last: Token)
    requires Spells(s, t)
    ensures s != []
    ensures LexTurn(s + rest, last) == Turn([t], t, |s|) <==> Stops(s, t, rest)
  {
    SpellingNotEmpty(s, t);
    hide Spells, LexTurn;
    if Stops(s, t, rest) {
      TurnStops(s, t, rest, last);
    } else {
      TurnJoins(s, t, rest, last);
    }
  }

  lemma {:induction false} LexSpace(gap: Text, rest: Text, last: Token)
    requires AllSpace(gap)
    ensures Lex(gap + rest, last) == Lex(rest, last)
    decreases |gap|
  {
    if gap == [] {
      assert gap + rest == rest;
    } else {
      var s := gap + rest;
      assert s[0] == gap[0] && Drop(s, 1) == gap[1..] + rest;
      LexSpace(gap[1..], rest, last);
      hide MultiChar;
      assert LexTurn(s, last) == Turn([], last, 1);
    }
  }

  lemma LexOnePiece(p: Piece, tail: Text, last: Token)
    requires Spells(p.s, p.t) && AllSpace(p.gap) && Stops(p.s, p.t, p.gap + tail)
    ensures Lex(p.s + (p.gap + tail), last) == [p.t] + Lex(tail, p.t)
  {
    hide Spells, LexTurn, Stops;
    var rest := p.gap + tail;
    LexSpace(p.gap, tail, p.t);
    TurnSpelled(p.s, p.t, rest, last);
    assert Drop(p.s + rest, |p.s|) == rest;
  }

  /** Text that spells tokens, with white space where two would join, lexes to exactly those
      tokens. */
  lemma {:induction false} LexPieces(ps: seq<Piece>, last: Token)
    requires Separated(ps)
    ensures Lex(TextOf(ps), last) == TokensOf(ps)
    decreases |ps|
  {
    if ps == [] {
      LexNothing(last);
    } else {
      var p, tail := ps[0], TextOf(ps[1..]);
      assert Spells(p.s, p.t) && AllSpace(p.gap);
      StopsAfterFirst(ps);
      FirstPiece(ps);
      hide *;
      LexPieces(ps[1..], p.t);
      LexOnePiece(p, tail, last);
    }
  }

  lemma FirstPiece(ps: seq<Piece>)
    requires ps != []
    ensures TextOf(ps) == ps[0].s + (ps[0].gap + TextOf(ps[1..]))
    ensures TokensOf(ps) == [ps[0].t] + TokensOf(ps[1..])
  {
  }

  lemma LexNothing(last: Token)
    ensures Lex([], last) == []
  {
  }

  lemma StopsAfterFirst(ps: seq<Piece>)
    requires Separated(ps) && ps != []
    ensures Separated(ps[1..]) && Stops(ps[0].s, ps[0].t, ps[0].gap + TextOf(ps[1..]))
  {
    hide Spells, Joins;
    var p, tail := ps[0], TextOf(ps[1..]);
    if p.gap != [] {
      assert (p.gap + tail)[0] == p.gap[0];
      SpaceStops(p.s, p.t, p.gap[0]);
    } else if |ps| > 1 {
      var q := ps[1];
      assert ps[1..][0] == q;
      SpellingNotEmpty(q.s, q.t);
      assert (p.gap + tail)[0] == q.s[0];
    }
  }

  lemma SpaceStops(s: Text, t: Token, c: byte)
    requires IsSpace(c)
    ensures !Joins(s, t, c)
  {
  }

  // ---- from an expression to its text and back to its value ----

  /** A filter text spelling the tokens of a well-formed expression is accepted exactly when the
      expression's value is true, for all keys, spellings and white space between tokens. */
  lemma FilterTextMeansExpression(e: Expr, ps: seq<Piece>, lead: Text, kv: KeyValues, stale: Stale)
    requires WellFormed(e) && Separated(ps) && TokensOf(ps) == Infix(e) && AllSpace(lead)
    ensures Verdict(kv, stale, Rpn(Lex(lead + TextOf(ps), NoneToken)))
         == Truthy(FilterStack.Value(Filter(kv, stale), e))
  {
    hide Lex, Verdict, Rpn;
    LexSpace(lead, TextOf(ps), NoneToken);
    LexPieces(ps, NoneToken);
    CompiledVerdict(e, kv, stale);
  }

  /** The leaves of an expression that some text spells. */
  predicate Writable(t: Token) {
    match t
    case Integer(i) => i >= 0
    case Str(x) => 39 !in x || 34 !in x
    case Variable(x) => IsName(x)
    case _ => true
  }

  predicate AllWritable(e: Expr) {
    match e
    case Operand(t) => Writable(t)
    case Bracketed(b) => AllWritable(b)
    case Binary(_, l, r) => AllWritable(l) && AllWritable(r)
    case Negation(b) => AllWritable(b)
  }

  function OperatorText(op: Op): Text {
    match op
    case Equals => [61, 61]
    case NotEquals => [33, 61]
    case Greater => [62]
    case GreaterEquals => [62, 61]
    case Less => [60]
    case LessEquals => [60, 61]
    case Or => [124, 124]
    case And => [38, 38]
    case Add => [43]
    case Subtract => [45]
    case Multiply => [42]
    case Divide => [47]
    case StrLike => LIKE
    case Not => NOT
  }

  predicate Spellable(t: Token) {
    Writable(t) && (Compiled(t) || t.Operator? || t.LeftBracket? || t.RightBracket?)
  }

  function Spelling(t: Token): (s: Text)
    requires Spellable(t)
    ensures Spells(s, t)
  {
    match t
    case Operator(op) => OperatorText(op)
    case LeftBracket => [40]
    case RightBracket => [41]
    case Integer(i) => NumberOfDigits(i); Digits(i)
    case Str(x) => if 39 !in x then [39] + x + [39] else [34] + x + [34]
    case Variable(x) => x
  }

  /** A space where t and the token after it would join, and nothing elsewhere. */
  function Gap(t: Token, next: Token): Text
    requires Spellable(t) && Spellable(next)
  {
    if Stops(Spelling(t), t, Spelling(next)) then [] else [32]
  }

  predicate AllSpellable(ts: seq<Token>) {
    forall i :: 0 <= i < |ts| ==> Spellable(ts[i])
  }

  /** Token i with the white space after it. */
  function PieceAt(ts: seq<Token>, i: nat): Piece
    requires AllSpellable(ts) && i < |ts|
  {
    Piece(ts[i], Spelling(ts[i]), if i + 1 < |ts| then Gap(ts[i], ts[i + 1]) else [])
  }

  /** The tokens with as little white space as the lexer allows. */
  function Pieces(ts: seq<Token>): seq<Piece>
    requires AllSpellable(ts)
  {
    seq(|ts|, i requires 0 <= i < |ts| => PieceAt(ts, i))
  }

  lemma PiecesSeparated(ts: seq<Token>)
    requires AllSpellable(ts)
    ensures Separated(Pieces(ts)) && TokensOf(Pieces(ts)) == ts
  {
    hide Spellable, Spells, Stops, Spelling;
  }

  lemma {:induction false} InfixSpellable(e: Expr)
    requires WellFormed(e) && AllWritable(e)
    ensures AllSpellable(Infix(e))
    decreases e
  {
    match e
    case Operand(t) =>
    case Bracketed(b) => InfixSpellable(b);
    case Binary(op, l, r) => InfixSpellable(l); InfixSpellable(r);
    case Negation(b) => InfixSpellable(b);
  }

  /** Write an expression down, then lex, convert and evaluate the text: the verdict is the truth
      of the expression's value. */
  method WriteAndJudge(e: Expr, kv: KeyValues, stale: Stale) returns (text: Text, verdict: bool)
    requires WellFormed(e) && AllWritable(e)
    ensures verdict == Truthy(FilterStack.Value(Filter(kv, stale), e))
  {
    hide Lex, Verdict, Rpn, TextOf;
    InfixSpellable(e);
    var ps := Pieces(Infix(e));
    PiecesSeparated(Infix(e));
    text := TextOf(ps);
    var rpn := FilterToTokenList(text);
    assert [] + TextOf(ps) == TextOf(ps);
    FilterTextMeansExpression(e, ps, [], kv, stale);
    var kv';
    verdict, kv' := Evaluate(rpn, kv, stale);
  }
}
