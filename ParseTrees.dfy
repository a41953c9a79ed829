/**
 * Parse trees: how the parser read its tokens.
 *
 * A parse tree keeps every token the parser consumed for a construct, punctuation included,
 * and `Yield` lists them in input order. `Erase` forgets the punctuation and the grouping and
 * gives the syntax tree the parser returns. `WellNested` is the grammar of Monkey together with
 * its precedence rules: every node's punctuation has the expected token types, and every
 * operand binds at least as tightly as its operator demands. A parse that reports no error
 * builds a well-nested tree whose yield is exactly the tokens it read, so the lemmas at the end,
 * which recover the tree from its yield, say which syntax tree a given token sequence parses to.
 *
 * A construct that failed to parse is `Broken`, and the tokens an infix parse function read
 * before it gave up are kept as the `Trailing` part of the operand it left behind: both record
 * tokens that leave no trace in the syntax tree, and neither is well nested.
 */
module ParseTrees {
  import opened Options
  import opened KotlinInt
  import opened Tokens
  import opened Ast
  import opened Precedences

  datatype Tree =
    | Atom(e: Expression)
    | Group(open: Token, inner: Tree, close: Token)
    | TPrefix(token: Token, operand: Tree)
    | TBinary(token: Token, left: Tree, right: Tree)
    | TCall(token: Token, callee: Tree, arguments: seq<Tree>, commas: seq<Token>, close: Token)
    | TIndex(token: Token, target: Tree, index: Tree, close: Token)
    | TIf(token: Token, open: Token, condition: Tree, close: Token, consequence: BlockTree, alternative: Option<ElseTree>)
    | TFunction(token: Token, open: Token, parameters: seq<Token>, commas: seq<Token>, close: Token, body: BlockTree)
    | TArray(token: Token, elements: seq<Tree>, commas: seq<Token>, close: Token)
    | THash(token: Token, pairs: seq<PairTree>, close: Token)
    | Trailing(operand: Tree, rest: seq<Token>)
    | Broken(tokens: seq<Token>)

  /** `key : value`, with the `,` that follows it unless it is the last pair. */
  datatype PairTree = PairTree(key: Tree, colon: Token, value: Tree, comma: Option<Token>)

  datatype ElseTree = ElseTree(token: Token, block: BlockTree)

  /** `{` statements, closed by `}` or by the end of the input. */
  datatype BlockTree = BlockTree(open: Token, statements: seq<StatementTree>, close: Token)

  datatype StatementTree =
    | TLet(token: Token, name: Token, assign: Token, value: Tree, semicolon: Option<Token>)
    | TReturn(token: Token, value: Tree, semicolon: Option<Token>)
    | TExpression(token: Token, value: Tree, semicolon: Option<Token>)
    | TBroken(tokens: seq<Token>)

  datatype ProgramTree = ProgramTree(statements: seq<StatementTree>, eof: Token)

  // ---------------------------------------------------------------- the tokens of a tree

  function AtomToken(e: Expression): Token
  {
    if e.IdentifierExpr? then e.id.token else e.token
  }

  function OptionalToken(t: Option<Token>): seq<Token>
  {
    if t.Some? then [t.value] else []
  }

  /** The tokens a tree was read from, in input order. */
  function Yield(t: Tree): seq<Token>
    decreases t, 1
  {
    match t
    case Atom(e) => [AtomToken(e)]
    case Group(open, inner, close) => [open] + Yield(inner) + [close]
    case TPrefix(token, operand) => [token] + Yield(operand)
    case TBinary(token, left, right) => Yield(left) + [token] + Yield(right)
    case TCall(token, callee, arguments, commas, close) =>
      Yield(callee) + [token] + YieldList(arguments, commas) + [close]
    case TIndex(token, target, index, close) => Yield(target) + [token] + Yield(index) + [close]
    case TIf(token, open, condition, close, consequence, alternative) =>
      [token, open] + Yield(condition) + [close] + YieldBlock(consequence) + YieldElse(alternative)
    case TFunction(token, open, parameters, commas, close, body) =>
      [token, open] + Separated(parameters, commas) + [close] + YieldBlock(body)
    case TArray(token, elements, commas, close) => [token] + YieldList(elements, commas) + [close]
    case THash(token, pairs, close) => [token] + YieldPairs(pairs) + [close]
    case Trailing(operand, rest) => Yield(operand) + rest
    case Broken(tokens) => tokens
  }

  /** Trees separated by commas: the first, then each comma followed by the next tree. */
  function YieldList(items: seq<Tree>, commas: seq<Token>): seq<Token>
    decreases items, 0
  {
    if |items| == 0 then []
    else if |items| == 1 || |commas| == 0 then YieldList(items[..|items| - 1], commas) + Yield(items[|items| - 1])
    else YieldList(items[..|items| - 1], commas[..|commas| - 1]) + [commas[|commas| - 1]] + Yield(items[|items| - 1])
  }

  /** Tokens separated by commas, as in a parameter list. */
  function Separated(names: seq<Token>, commas: seq<Token>): seq<Token>
  {
    if |names| == 0 then []
    else if |names| == 1 || |commas| == 0 then Separated(names[..|names| - 1], commas) + [names[|names| - 1]]
    else Separated(names[..|names| - 1], commas[..|commas| - 1]) + [commas[|commas| - 1], names[|names| - 1]]
  }

  function YieldPair(p: PairTree): seq<Token>
    decreases p, 1
  {
    Yield(p.key) + [p.colon] + Yield(p.value) + OptionalToken(p.comma)
  }

  function YieldPairs(ps: seq<PairTree>): seq<Token>
    decreases ps, 0
  {
    if |ps| == 0 then [] else YieldPairs(ps[..|ps| - 1]) + YieldPair(ps[|ps| - 1])
  }

  function YieldElse(alternative: Option<ElseTree>): seq<Token>
    decreases alternative, 0
  {
    if alternative.None? then [] else [alternative.value.token] + YieldBlock(alternative.value.block)
  }

  function YieldBlock(b: BlockTree): seq<Token>
    decreases b, 0
  {
    [b.open] + YieldStatements(b.statements) + [b.close]
  }

  function YieldStatement(s: StatementTree): seq<Token>
    decreases s, 1
  {
    match s
    case TLet(token, name, assign, value, semicolon) => [token, name, assign] + Yield(value) + OptionalToken(semicolon)
    case TReturn(token, value, semicolon) => [token] + Yield(value) + OptionalToken(semicolon)
    case TExpression(_, value, semicolon) => Yield(value) + OptionalToken(semicolon)
    case TBroken(tokens) => tokens
  }

  function YieldStatements(ss: seq<StatementTree>): seq<Token>
    decreases ss, 0
  {
    if |ss| == 0 then [] else YieldStatements(ss[..|ss| - 1]) + YieldStatement(ss[|ss| - 1])
  }

  function YieldProgram(p: ProgramTree): seq<Token>
  {
    YieldStatements(p.statements) + [p.eof]
  }

  // ---------------------------------------------------------------- the syntax tree of a tree

  /** The identifier expression a token names. */
  function Variable(x: Token): Expression
  {
    IdentifierExpr(Identifier(x, x.literal))
  }

  /** The syntax tree a parse tree stands for: punctuation and parentheses leave no trace in it. */
  function Erase(t: Tree): Expression
    decreases t, 1
  {
    match t
    case Atom(e) => e
    case Group(_, inner, _) => Erase(inner)
    case TPrefix(token, operand) => PrefixExpr(token, token.literal, Erase(operand))
    case TBinary(token, left, right) => BinaryExpr(token, Erase(left), token.literal, Erase(right))
    case TCall(token, callee, arguments, _, _) => CallExpr(token, Erase(callee), EraseList(arguments))
    case TIndex(token, target, index, _) => IndexExpr(token, Erase(target), Erase(index))
    case TIf(token, _, condition, _, consequence, alternative) =>
      IfExpr(token, Erase(condition), EraseBlock(consequence), EraseElse(alternative))
    case TFunction(token, _, parameters, _, _, body) => FunctionLiteral(token, Names(parameters), EraseBlock(body))
    case TArray(token, elements, _, _) => ArrayLiteral(token, EraseList(elements))
    case THash(token, pairs, _) => HashLiteral(token, ErasePairs(pairs))
    case Trailing(operand, _) => Erase(operand)
    // a broken construct is dropped from every list it occurs in, so this value is never kept
    case Broken(_) => Variable(Token(Illegal, ""))
  }

  /** The elements that parsed, in order; broken ones are dropped. */
  function EraseList(items: seq<Tree>): (r: seq<Expression>)
    ensures |r| <= |items|
    ensures (forall i :: 0 <= i < |items| ==> !items[i].Broken?) ==>
              |r| == |items| && forall i :: 0 <= i < |items| ==> r[i] == Erase(items[i])
    decreases items, 0
  {
    if |items| == 0 then []
    else
      var last := items[|items| - 1];
      EraseList(items[..|items| - 1]) + (if last.Broken? then [] else [Erase(last)])
  }

  /** Each parameter token as an identifier whose value is the token's literal, in order. */
  function Names(names: seq<Token>): (r: seq<Identifier>)
    ensures |r| == |names| && forall i :: 0 <= i < |names| ==> r[i] == Identifier(names[i], names[i].literal)
  {
    if |names| == 0 then [] else Names(names[..|names| - 1]) + [Identifier(names[|names| - 1], names[|names| - 1].literal)]
  }

  function ErasePair(p: PairTree): HashPair
    decreases p, 1
  {
    HashPair(Erase(p.key), Erase(p.value))
  }

  /** The pairs in source order. */
  function ErasePairs(ps: seq<PairTree>): (r: seq<HashPair>)
    ensures |r| == |ps| && forall i :: 0 <= i < |ps| ==> r[i] == ErasePair(ps[i])
    decreases ps, 0
  {
    if |ps| == 0 then [] else ErasePairs(ps[..|ps| - 1]) + [ErasePair(ps[|ps| - 1])]
  }

  function EraseElse(alternative: Option<ElseTree>): Option<Block>
    decreases alternative, 0
  {
    if alternative.None? then None else Some(EraseBlock(alternative.value.block))
  }

  function EraseBlock(b: BlockTree): Block
    decreases b, 0
  {
    Block(b.open, EraseStatements(b.statements))
  }

  function EraseStatement(s: StatementTree): Statement
    decreases s, 1
  {
    match s
    case TLet(token, name, _, value, _) => LetStatement(token, Identifier(name, name.literal), Erase(value))
    case TReturn(token, value, _) => ReturnStatement(token, Erase(value))
    case TExpression(token, value, _) => ExpressionStatement(token, Erase(value))
    // dropped by EraseStatements, so this value is never kept
    case TBroken(_) => ExpressionStatement(Token(Illegal, ""), Variable(Token(Illegal, "")))
  }

  /** The statements that parsed, in order; broken ones are dropped. */
  function EraseStatements(ss: seq<StatementTree>): (r: seq<Statement>)
    ensures |r| <= |ss|
    ensures (forall i :: 0 <= i < |ss| ==> !ss[i].TBroken?) ==>
              |r| == |ss| && forall i :: 0 <= i < |ss| ==> r[i] == EraseStatement(ss[i])
    decreases ss, 0
  {
    if |ss| == 0 then []
    else
      var last := ss[|ss| - 1];
      EraseStatements(ss[..|ss| - 1]) + (if last.TBroken? then [] else [EraseStatement(last)])
  }

  function EraseProgram(p: ProgramTree): Program
  {
    Program(EraseStatements(p.statements))
  }

  // ---------------------------------------------------------------- one more item

  /** A statement appended to a sequence adds its tokens at the end, and its syntax unless it is broken. */
  lemma StatementsSnoc(ss: seq<StatementTree>, s: StatementTree)
    ensures YieldStatements(ss + [s]) == YieldStatements(ss) + YieldStatement(s)
    ensures EraseStatements(ss + [s]) == EraseStatements(ss) + (if s.TBroken? then [] else [EraseStatement(s)])
  {
    assert (ss + [s])[..|ss|] == ss;
  }

  /** Appending a statement that parsed leaves what follows each earlier statement as it was. */
  lemma {:induction false} AfterSnoc(ss: seq<StatementTree>, s: StatementTree, i: nat, close: Token)
    requires i < |ss| && !s.TBroken?
    ensures After(ss + [s], i, close) == After(ss, i, s.token)
    decreases |ss| - i
  {
    if i + 1 < |ss| && ss[i + 1].TBroken? && |ss[i + 1].tokens| == 0 {
      AfterSnoc(ss, s, i + 1, close);
    }
  }

  /** One more statement keeps a statement sequence separated, when it starts where the last one stopped. */
  lemma EndsSeparatedSnoc(ss: seq<StatementTree>, s: StatementTree, close: Token)
    requires !s.TBroken? && EndsSeparated(ss, s.token) && Follows(s, close)
    ensures EndsSeparated(ss + [s], close)
  {
    forall i | 0 <= i < |ss| + 1
      ensures Follows((ss + [s])[i], After(ss + [s], i, close))
    {
      if i < |ss| {
        AfterSnoc(ss, s, i, close);
      }
    }
  }

  /** A list of one element yields that element's tokens, and its syntax unless it is broken. */
  lemma ListSingle(t: Tree)
    ensures YieldList([t], []) == Yield(t)
    ensures EraseList([t]) == (if t.Broken? then [] else [Erase(t)])
    ensures WellNested(t) ==> WellNestedList([t], [])
  {
    assert [t][..0] == [];
  }

  /** An element appended to a non-empty list adds a comma and its tokens, and its syntax unless it is broken. */
  lemma ListSnoc(items: seq<Tree>, commas: seq<Token>, t: Tree, comma: Token)
    requires |items| > 0
    ensures YieldList(items + [t], commas + [comma]) == YieldList(items, commas) + [comma] + Yield(t)
    ensures EraseList(items + [t]) == EraseList(items) + (if t.Broken? then [] else [Erase(t)])
  {
    assert (items + [t])[..|items|] == items && (commas + [comma])[..|commas|] == commas;
  }

  /** A well-nested element after a comma keeps a list well nested. */
  lemma ListNestedSnoc(items: seq<Tree>, commas: seq<Token>, t: Tree, comma: Token)
    requires WellNestedList(items, commas) && |items| > 0 && WellNested(t) && comma.kind == Comma
    ensures WellNestedList(items + [t], commas + [comma])
  {
  }

  /** A parameter appended to a non-empty parameter list adds a comma and its name. */
  lemma SeparatedSnoc(names: seq<Token>, commas: seq<Token>, name: Token, comma: Token)
    requires |names| > 0
    ensures Separated(names + [name], commas + [comma]) == Separated(names, commas) + [comma, name]
  {
    assert (names + [name])[..|names|] == names && (commas + [comma])[..|commas|] == commas;
  }

  /** A parameter appended to a function literal's list adds its identifier at the end. */
  lemma NamesSnoc(names: seq<Token>, name: Token)
    ensures Names(names + [name]) == Names(names) + [Identifier(name, name.literal)]
  {
    assert (names + [name])[..|names|] == names;
  }

  /** A pair appended to a hash literal adds its tokens and its syntax at the end. */
  lemma PairsSnoc(ps: seq<PairTree>, p: PairTree)
    ensures YieldPairs(ps + [p]) == YieldPairs(ps) + YieldPair(p)
    ensures ErasePairs(ps + [p]) == ErasePairs(ps) + [ErasePair(p)]
  {
    assert (ps + [p])[..|ps|] == ps;
  }

  /** A well-nested pair after one that ends with a comma keeps the pairs well nested. */
  lemma PairsNestedSnoc(ps: seq<PairTree>, p: PairTree)
    requires WellNestedPairs(ps) && WellNestedPair(p) && (|ps| > 0 ==> ps[|ps| - 1].comma.Some?)
    ensures WellNestedPairs(ps + [p])
  {
  }

  // ---------------------------------------------------------------- the grammar

  /** How tightly the outermost construct of a tree binds (8 for atoms, groups and literals). */
  function Bound(t: Tree): nat
  {
    match t
    case TPrefix(_, _) => PrefixLevel.Rank()
    case TBinary(token, _, _) => PrecedenceOf(token.kind).Rank()
    case TCall(_, _, _, _, _) => CallLevel.Rank()
    case TIndex(_, _, _, _) => IndexLevel.Rank()
    case Trailing(operand, _) => Bound(operand)
    case _ => 8
  }

  /** An expression read from one token: an identifier, an integer, a boolean or a string. */
  predicate IsLiteral(e: Expression)
  {
    match e
    case IdentifierExpr(id) => id.token.kind == Ident && id.value == id.token.literal
    case IntegerLiteral(token, value) => token.kind == Int && ToIntOrNull(token.literal) == Some(value)
    case BooleanLiteral(token, value) => token.kind == (if value then True else False)
    case StringLiteral(token, value) => token.kind == String && value == token.literal
    case _ => false
  }

  /** `n` items have a comma between each two of them. */
  predicate Separates(commas: seq<Token>, n: nat)
  {
    |commas| == (if n == 0 then 0 else n - 1) && forall c :: c in commas ==> c.kind == Comma
  }

  /**
   * Every node has its punctuation, and every operand binds at least as tightly as its operator
   * requires: the operand of a prefix operator is at PREFIX level or tighter; the left operand
   * of a binary operator binds at least as tightly as the operator (left associativity) and the
   * right one strictly tighter; the target of a call or an index is at CALL level or tighter.
   */
  ghost predicate WellNested(t: Tree)
    decreases t, 1
  {
    match t
    case Atom(e) => IsLiteral(e)
    case Group(open, inner, close) => open.kind == LParen && close.kind == RParen && WellNested(inner)
    case TPrefix(token, operand) =>
      (token.kind == Bang || token.kind == Minus)
      && WellNested(operand) && Bound(operand) >= PrefixLevel.Rank()
    case TBinary(token, left, right) =>
      IsBinaryOperator(token.kind)
      && WellNested(left) && WellNested(right)
      && Bound(left) >= Bound(t) && Bound(right) > Bound(t)
    case TCall(token, callee, arguments, commas, close) =>
      token.kind == LParen && close.kind == RParen
      && WellNested(callee) && Bound(callee) >= CallLevel.Rank() && WellNestedList(arguments, commas)
    case TIndex(token, target, index, close) =>
      token.kind == LBracket && close.kind == RBracket
      && WellNested(target) && Bound(target) >= CallLevel.Rank() && WellNested(index)
    case TIf(token, open, condition, close, consequence, alternative) =>
      token.kind == If && open.kind == LParen && close.kind == RParen
      && WellNested(condition) && WellNestedBlock(consequence) && WellNestedElse(alternative)
    case TFunction(token, open, parameters, commas, close, body) =>
      token.kind == Function && open.kind == LParen && close.kind == RParen
      && Separates(commas, |parameters|) && WellNestedBlock(body)
    case TArray(token, elements, commas, close) =>
      token.kind == LBracket && close.kind == RBracket && WellNestedList(elements, commas)
    case THash(token, pairs, close) => token.kind == LBrace && close.kind == RBrace && WellNestedPairs(pairs)
    case Trailing(_, _) => false
    case Broken(_) => false
  }

  ghost predicate WellNestedList(items: seq<Tree>, commas: seq<Token>)
    decreases items, 0
  {
    Separates(commas, |items|) && forall i :: 0 <= i < |items| ==> WellNested(items[i])
  }

  ghost predicate WellNestedPair(p: PairTree)
    decreases p, 1
  {
    p.colon.kind == Colon && WellNested(p.key) && WellNested(p.value)
    && (p.comma.Some? ==> p.comma.value.kind == Comma)
  }

  /** Every pair but the last is followed by a comma; the last may be. */
  ghost predicate WellNestedPairs(ps: seq<PairTree>)
    decreases ps, 0
  {
    (forall i :: 0 <= i < |ps| ==> WellNestedPair(ps[i]))
    && forall i :: 0 <= i < |ps| - 1 ==> ps[i].comma.Some?
  }

  ghost predicate WellNestedElse(alternative: Option<ElseTree>)
    decreases alternative, 0
  {
    alternative.Some? ==> alternative.value.token.kind == Else && WellNestedBlock(alternative.value.block)
  }

  ghost predicate WellNestedBlock(b: BlockTree)
    decreases b, 0
  {
    b.open.kind == LBrace && (b.close.kind == RBrace || b.close.kind == Eof)
    && (forall i :: 0 <= i < |b.statements| ==> WellNestedStatement(b.statements[i]))
    && EndsSeparated(b.statements, b.close)
  }

  predicate OptionalSemicolon(t: Option<Token>)
  {
    t.Some? ==> t.value.kind == Semicolon
  }

  /** An expression statement is not a let or return statement. */
  ghost predicate WellNestedStatement(s: StatementTree)
    decreases s, 1
  {
    match s
    case TLet(token, name, assign, value, semicolon) =>
      token.kind == Let && name.kind == Ident && assign.kind == Assign
      && WellNested(value) && OptionalSemicolon(semicolon)
    case TReturn(token, value, semicolon) =>
      token.kind == Return && WellNested(value) && OptionalSemicolon(semicolon)
    case TExpression(token, value, semicolon) =>
      token.kind != Let && token.kind != Return
      && WellNested(value) && |Yield(value)| > 0 && Yield(value)[0] == token && OptionalSemicolon(semicolon)
    case TBroken(_) => false
  }

  /** A statement that parsed and has no `;` of its own. */
  predicate Unterminated(s: StatementTree)
  {
    !s.TBroken? && s.semicolon.None?
  }

  /**
   * A statement ends where it does because of the token after it: its `;`, or, without one, a
   * token that is not `;` and has no infix precedence, so its expression cannot go on.
   */
  predicate Follows(s: StatementTree, next: Token)
  {
    Unterminated(s) ==> PrecedenceOf(next.kind) == Lowest && next.kind != Semicolon
  }

  /** The first token after statement `i`: that of the next statement that has one, or `close`. */
  function After(ss: seq<StatementTree>, i: nat, close: Token): Token
    requires i < |ss|
    decreases |ss| - i
  {
    if i + 1 == |ss| then close
    else match ss[i + 1]
      case TBroken(tokens) => if |tokens| > 0 then tokens[0] else After(ss, i + 1, close)
      case _ => ss[i + 1].token
  }

  /** Every statement of a sequence closed by `close` is followed as `Follows` demands. */
  predicate EndsSeparated(ss: seq<StatementTree>, close: Token)
  {
    forall i :: 0 <= i < |ss| ==> Follows(ss[i], After(ss, i, close))
  }

  ghost predicate WellNestedProgram(p: ProgramTree)
  {
    p.eof.kind == Eof && (forall i :: 0 <= i < |p.statements| ==> WellNestedStatement(p.statements[i]))
    && EndsSeparated(p.statements, p.eof)
  }

  // ---------------------------------------------------------------- what WellNested rules out

  /**
   * Without parentheses, a sum is never the operand of a product: `a * b + c` can only be
   * `((a * b) + c)`, and `a * (b + c)` needs its group.
   */
  lemma ProductOverSum(star: Token, plus: Token, a: Tree, b: Tree, c: Tree)
    requires PrecedenceOf(star.kind) == Product && PrecedenceOf(plus.kind) == Sum
    ensures !WellNested(TBinary(star, a, TBinary(plus, b, c)))
    ensures !WellNested(TBinary(star, TBinary(plus, a, b), c))
  {
    assert Bound(TBinary(star, a, TBinary(plus, b, c))) == 4;
    assert Bound(TBinary(plus, b, c)) == 3;
  }

  /** With its group, a sum is the right operand of a product: `a * (b + c)`. */
  lemma GroupedSum(star: Token, plus: Token, lp: Token, rp: Token, a: Tree, b: Tree, c: Tree)
    requires PrecedenceOf(star.kind) == Product && PrecedenceOf(plus.kind) == Sum
    requires lp.kind == LParen && rp.kind == RParen
    requires WellNested(a) && WellNested(b) && WellNested(c) && Bound(a) >= 4 && Bound(b) >= 3 && Bound(c) > 3
    ensures WellNested(TBinary(star, a, Group(lp, TBinary(plus, b, c), rp)))
  {
    var sum := TBinary(plus, b, c);
    assert Bound(sum) == 3 && WellNested(sum);
    assert Bound(Group(lp, sum, rp)) == 8 && WellNested(Group(lp, sum, rp));
  }

  /** Operators of equal precedence associate to the left: `a - b - c` is `((a - b) - c)`. */
  lemma LeftAssociative(op1: Token, op2: Token, a: Tree, b: Tree, c: Tree)
    requires IsBinaryOperator(op1.kind) && PrecedenceOf(op1.kind) == PrecedenceOf(op2.kind)
    ensures !WellNested(TBinary(op1, a, TBinary(op2, b, c)))
    ensures WellNested(TBinary(op2, TBinary(op1, a, b), c)) <==>
            WellNested(a) && WellNested(b) && WellNested(c) && IsBinaryOperator(op2.kind)
            && Bound(a) >= Bound(TBinary(op1, a, b)) && Bound(b) > Bound(TBinary(op1, a, b))
            && Bound(c) > Bound(TBinary(op1, a, b))
  {
  }

  /** A prefix operator takes only its operand's call or index: `-a * b` is `((-a) * b)`. */
  lemma PrefixBindsTighter(minus: Token, op: Token, a: Tree, b: Tree)
    requires IsBinaryOperator(op.kind)
    ensures !WellNested(TPrefix(minus, TBinary(op, a, b)))
  {
  }

  /** Calls and indexes apply to a prefix or binary expression only through parentheses. */
  lemma CallsBindTightest(token: Token, lp: Token, rp: Token, t: Tree, args: seq<Tree>, commas: seq<Token>, index: Tree)
    requires t.TPrefix? || t.TBinary?
    requires lp.kind == LParen && rp.kind == RParen
    ensures !WellNested(TCall(token, t, args, commas, rp)) && !WellNested(TIndex(token, t, index, rp))
    ensures WellNested(t) && token.kind == LParen && WellNestedList(args, commas) ==>
              WellNested(TCall(token, Group(lp, t, rp), args, commas, rp))
  {
  }

  /**
   * A statement without `;` ends only before a token that cannot continue it: `a - b` at the
   * end of the input is one statement `(a - b)`, never `a` followed by `(-b)`.
   */
  lemma StatementSplit(a: Token, minus: Token, b: Token, eof: Token)
    requires a.kind == Ident && minus.kind == Minus && b.kind == Ident && eof.kind == Eof
    ensures WellNestedProgram(ProgramTree([TExpression(a, TBinary(minus, Atom(Variable(a)), Atom(Variable(b))), None)], eof))
    ensures !WellNestedProgram(ProgramTree([TExpression(a, Atom(Variable(a)), None),
                                            TExpression(minus, TPrefix(minus, Atom(Variable(b))), None)], eof))
  {
    var split := [TExpression(a, Atom(Variable(a)), None), TExpression(minus, TPrefix(minus, Atom(Variable(b))), None)];
    var sum := TBinary(minus, Atom(Variable(a)), Atom(Variable(b)));
    assert Yield(Atom(Variable(a))) == [a] && Yield(Atom(Variable(b))) == [b];
    assert IsLiteral(Variable(a)) && IsLiteral(Variable(b));
    assert WellNested(Atom(Variable(a))) && WellNested(Atom(Variable(b)));
    assert PrecedenceOf(minus.kind) == Sum && IsBinaryOperator(minus.kind);
    assert Bound(sum) == 3 && Bound(Atom(Variable(b))) == 8;
    assert WellNested(sum) && Yield(sum) == [a, minus, b];
    assert WellNestedStatement(TExpression(a, sum, None));
    assert After(split, 0, eof) == minus;
  }

  // ---------------------------------------------------------------- the tree a yield determines

  lemma YieldNonEmpty(t: Tree)
    requires WellNested(t)
    ensures |Yield(t)| >= 1
  {
  }

  /** A well-nested tree that starts and ends with an identifier is an atom or a binary operation. */
  lemma IdentifierEnds(t: Tree)
    requires WellNested(t) && |Yield(t)| >= 1
    requires Yield(t)[0].kind == Ident && Yield(t)[|Yield(t)| - 1].kind == Ident
    ensures t.Atom? || t.TBinary?
  {
  }

  /** The parts of a well-nested binary operation and where its operator sits in its yield. */
  lemma BinaryParts(t: Tree)
    requires WellNested(t) && t.TBinary?
    ensures WellNested(t.left) && WellNested(t.right) && IsBinaryOperator(t.token.kind)
    ensures Bound(t.left) >= Bound(t) && Bound(t.right) > Bound(t) && Bound(t) == PrecedenceOf(t.token.kind).Rank()
    ensures 1 <= |Yield(t.left)| && |Yield(t.left)| + 2 <= |Yield(t)|
    ensures Yield(t)[|Yield(t.left)|] == t.token
    ensures Yield(t.left) == Yield(t)[..|Yield(t.left)|] && Yield(t.right) == Yield(t)[|Yield(t.left)| + 1..]
  {
    YieldNonEmpty(t.left);
    YieldNonEmpty(t.right);
    var w := Yield(t);
    assert w == Yield(t.left) + [t.token] + Yield(t.right);
  }

  /** A well-nested tree that yields a single identifier is that identifier. */
  lemma SingleIdentifier(t: Tree, x: Token)
    requires WellNested(t) && Yield(t) == [x] && x.kind == Ident
    ensures t == Atom(Variable(x))
  {
    IdentifierEnds(t);
    if t.TBinary? {
      BinaryParts(t);
    }
  }

  /** A well-nested tree that yields `x op y`, for identifiers and a binary operator, is that operation. */
  lemma ThreeTokens(t: Tree, x: Token, op: Token, y: Token)
    requires WellNested(t) && Yield(t) == [x, op, y]
    requires x.kind == Ident && y.kind == Ident && IsBinaryOperator(op.kind)
    ensures t == TBinary(op, Atom(Variable(x)), Atom(Variable(y)))
  {
    IdentifierEnds(t);
    BinaryParts(t);
    assert |Yield(t.left)| == 1;
    SingleIdentifier(t.left, x);
    SingleIdentifier(t.right, y);
  }

  /**
   * `x op1 y op2 z` has one reading: the second operator takes `y` when it binds strictly more
   * tightly than the first, and otherwise the first operation is its left operand. So `a * b + c`
   * is `((a * b) + c)`, `a + b * c` is `(a + (b * c))` and `a - b - c` is `((a - b) - c)`.
   */
  lemma TwoOperators(t: Tree, x: Token, op1: Token, y: Token, op2: Token, z: Token)
    requires WellNested(t) && Yield(t) == [x, op1, y, op2, z]
    requires x.kind == Ident && y.kind == Ident && z.kind == Ident
    requires IsBinaryOperator(op1.kind) && IsBinaryOperator(op2.kind)
    ensures Erase(t) ==
      if PrecedenceOf(op2.kind).Rank() > PrecedenceOf(op1.kind).Rank()
      then BinaryExpr(op1, Variable(x), op1.literal, BinaryExpr(op2, Variable(y), op2.literal, Variable(z)))
      else BinaryExpr(op2, BinaryExpr(op1, Variable(x), op1.literal, Variable(y)), op2.literal, Variable(z))
  {
    IdentifierEnds(t);
    BinaryParts(t);
    var k := |Yield(t.left)|;
    assert k == 1 || k == 3;
    if k == 1 {
      SecondBindsTighter(t, x, op1, y, op2, z);
    } else {
      FirstBindsTighter(t, x, op1, y, op2, z);
    }
  }

  lemma SecondBindsTighter(t: Tree, x: Token, op1: Token, y: Token, op2: Token, z: Token)
    requires WellNested(t) && t.TBinary? && t.token == op1 && Yield(t.left) == [x] && Yield(t.right) == [y, op2, z]
    requires x.kind == Ident && y.kind == Ident && z.kind == Ident && IsBinaryOperator(op2.kind)
    ensures PrecedenceOf(op2.kind).Rank() > PrecedenceOf(op1.kind).Rank()
    ensures Erase(t) == BinaryExpr(op1, Variable(x), op1.literal, BinaryExpr(op2, Variable(y), op2.literal, Variable(z)))
  {
    SingleIdentifier(t.left, x);
    ThreeTokens(t.right, y, op2, z);
    assert Bound(t.right) == PrecedenceOf(op2.kind).Rank();
    assert Erase(t.right) == BinaryExpr(op2, Variable(y), op2.literal, Variable(z));
    assert Erase(t) == BinaryExpr(op1, Erase(t.left), op1.literal, Erase(t.right));
  }

  lemma FirstBindsTighter(t: Tree, x: Token, op1: Token, y: Token, op2: Token, z: Token)
    requires WellNested(t) && t.TBinary? && t.token == op2 && Yield(t.left) == [x, op1, y] && Yield(t.right) == [z]
    requires x.kind == Ident && y.kind == Ident && z.kind == Ident && IsBinaryOperator(op1.kind)
    ensures PrecedenceOf(op2.kind).Rank() <= PrecedenceOf(op1.kind).Rank()
    ensures Erase(t) == BinaryExpr(op2, BinaryExpr(op1, Variable(x), op1.literal, Variable(y)), op2.literal, Variable(z))
  {
    ThreeTokens(t.left, x, op1, y);
    SingleIdentifier(t.right, z);
    assert Bound(t.left) == PrecedenceOf(op1.kind).Rank();
    assert Erase(t.left) == BinaryExpr(op1, Variable(x), op1.literal, Variable(y));
    assert Erase(t) == BinaryExpr(op2, Erase(t.left), op2.literal, Erase(t.right));
  }
}
