/**
 * The syntax tree produced by the parser, and its `text` rendering: prefix, binary and index
 * expressions are printed fully parenthesised, so the text shows how an expression was grouped.
 */
module Ast {
  import opened Options
  import opened KotlinInt
  import opened Tokens

  /** An identifier with the token it was read from (used for names, parameters and variables). */
  datatype Identifier = Identifier(token: Token, value: string)

  datatype Expression =
    | IdentifierExpr(id: Identifier)
    | IntegerLiteral(token: Token, intValue: int32)
    | BooleanLiteral(token: Token, boolValue: bool)
    | StringLiteral(token: Token, strValue: string)
    | PrefixExpr(token: Token, operator: string, right: Expression)
    | BinaryExpr(token: Token, left: Expression, operator: string, right: Expression)
    | IfExpr(token: Token, condition: Expression, consequence: Block, alternative: Option<Block>)
    | FunctionLiteral(token: Token, parameters: seq<Identifier>, body: Block)
    | CallExpr(token: Token, callee: Expression, arguments: seq<Expression>)
    | ArrayLiteral(token: Token, elements: seq<Expression>)
    | HashLiteral(token: Token, pairs: seq<HashPair>)
    | IndexExpr(token: Token, left: Expression, index: Expression)

  datatype HashPair = HashPair(key: Expression, value: Expression)

  datatype Statement =
    | LetStatement(token: Token, name: Identifier, value: Expression)
    | ReturnStatement(token: Token, value: Expression)
    | ExpressionStatement(token: Token, expression: Expression)

  datatype Block = Block(token: Token, statements: seq<Statement>)

  datatype Program = Program(statements: seq<Statement>)

  // ---------------------------------------------------------------- text

  /** `parts` joined with `sep` between consecutive elements (Kotlin `joinToString(sep)`). */
  function Join(parts: seq<string>, sep: string): (r: string)
    ensures |parts| == 0 ==> r == ""
    ensures |parts| == 1 ==> r == parts[0]
  {
    if |parts| == 0 then ""
    else if |parts| == 1 then parts[0]
    else parts[0] + sep + Join(parts[1..], sep)
  }

  function IdentifierText(id: Identifier): string { id.token.literal }

  function IdentifiersText(ids: seq<Identifier>): seq<string>
  {
    if |ids| == 0 then [] else [IdentifierText(ids[0])] + IdentifiersText(ids[1..])
  }

  /** The text of an expression; identifiers and literals print the token they were read from. */
  function ExprText(e: Expression): string
    decreases e, 1
  {
    match e
    case IdentifierExpr(id) => IdentifierText(id)
    case IntegerLiteral(token, _) => token.literal
    case BooleanLiteral(token, _) => token.literal
    case StringLiteral(token, _) => token.literal
    case PrefixExpr(_, op, right) => "(" + op + ExprText(right) + ")"
    case BinaryExpr(_, left, op, right) => "(" + ExprText(left) + " " + op + " " + ExprText(right) + ")"
    case IfExpr(_, condition, consequence, alternative) =>
      "if " + ExprText(condition) + " " + BlockText(consequence)
      + (if alternative.Some? then " else " + BlockText(alternative.value) else "")
    case FunctionLiteral(token, parameters, body) =>
      token.literal + "(" + Join(IdentifiersText(parameters), ", ") + ") " + BlockText(body)
    case CallExpr(_, callee, arguments) => ExprText(callee) + "(" + Join(ExprsText(arguments), ", ") + ")"
    case ArrayLiteral(_, elements) => "[" + Join(ExprsText(elements), ", ") + "]"
    case HashLiteral(_, pairs) => "{" + Join(PairsText(pairs), ", ") + "}"
    case IndexExpr(_, left, index) => "(" + ExprText(left) + "[" + ExprText(index) + "])"
  }

  function ExprsText(es: seq<Expression>): (r: seq<string>)
    ensures |r| == |es| && forall i :: 0 <= i < |es| ==> r[i] == ExprText(es[i])
    decreases es, 0
  {
    if |es| == 0 then [] else [ExprText(es[0])] + ExprsText(es[1..])
  }

  function PairText(p: HashPair): string
    decreases p, 0
  {
    ExprText(p.key) + ":" + ExprText(p.value)
  }

  /** Each pair's text, in order: the key's text, `:`, then the value's text. */
  function PairsText(ps: seq<HashPair>): (r: seq<string>)
    ensures |r| == |ps| && forall i :: 0 <= i < |ps| ==> r[i] == PairText(ps[i])
    decreases ps, 0
  {
    if |ps| == 0 then [] else [PairText(ps[0])] + PairsText(ps[1..])
  }

  function StatementText(s: Statement): string
    decreases s, 1
  {
    match s
    case LetStatement(token, name, value) =>
      token.literal + " " + IdentifierText(name) + " = " + ExprText(value) + ";"
    case ReturnStatement(token, value) => token.literal + " " + ExprText(value) + ";"
    case ExpressionStatement(_, expression) => ExprText(expression)
  }

  function StatementsText(ss: seq<Statement>): (r: seq<string>)
    ensures |r| == |ss| && forall i :: 0 <= i < |ss| ==> r[i] == StatementText(ss[i])
    decreases ss, 0
  {
    if |ss| == 0 then [] else [StatementText(ss[0])] + StatementsText(ss[1..])
  }

  /** A block prints its statements separated by `"; "`, always followed by one `;`. */
  function BlockText(b: Block): string
    decreases b, 0
  {
    Join(StatementsText(b.statements), "; ") + ";"
  }

  /** A program prints its statements with nothing between them. */
  function ProgramText(p: Program): string
  {
    Join(StatementsText(p.statements), "")
  }

  // ---------------------------------------------------------------- sizes

  /** The number of syntax-tree nodes, the measure by which evaluation terminates. */
  function ExprSize(e: Expression): (n: nat)
    ensures n >= 1
    decreases e, 1
  {
    match e
    case PrefixExpr(_, _, right) => 1 + ExprSize(right)
    case BinaryExpr(_, left, _, right) => 1 + ExprSize(left) + ExprSize(right)
    case IfExpr(_, condition, consequence, alternative) =>
      1 + ExprSize(condition) + BlockSize(consequence)
      + (if alternative.Some? then BlockSize(alternative.value) else 0)
    case FunctionLiteral(_, _, body) => 1 + BlockSize(body)
    case CallExpr(_, callee, arguments) => 1 + ExprSize(callee) + ExprsSize(arguments)
    case ArrayLiteral(_, elements) => 1 + ExprsSize(elements)
    case HashLiteral(_, pairs) => 1 + PairsSize(pairs)
    case IndexExpr(_, left, index) => 1 + ExprSize(left) + ExprSize(index)
    case _ => 1
  }

  function ExprsSize(es: seq<Expression>): nat
    decreases es, 0
  {
    if |es| == 0 then 0 else ExprSize(es[0]) + ExprsSize(es[1..])
  }

  function PairsSize(ps: seq<HashPair>): nat
    decreases ps, 0
  {
    if |ps| == 0 then 0 else PairSize(ps[0]) + PairsSize(ps[1..])
  }

  function PairSize(p: HashPair): nat
    decreases p, 0
  {
    1 + ExprSize(p.key) + ExprSize(p.value)
  }

  function StatementSize(s: Statement): (n: nat)
    ensures n >= 1
    decreases s, 1
  {
    match s
    case LetStatement(_, _, value) => 1 + ExprSize(value)
    case ReturnStatement(_, value) => 1 + ExprSize(value)
    case ExpressionStatement(_, expression) => 1 + ExprSize(expression)
  }

  function StatementsSize(ss: seq<Statement>): nat
    decreases ss, 0
  {
    if |ss| == 0 then 0 else StatementSize(ss[0]) + StatementsSize(ss[1..])
  }

  function BlockSize(b: Block): nat
    decreases b, 0
  {
    1 + StatementsSize(b.statements)
  }

  // ---------------------------------------------------------------- properties of the text

  /**
   * Operators print fully parenthesised: the text of a prefix, binary or index expression is
   * wrapped in one pair of parentheses around the texts of its operands.
   */
  lemma OperatorsParenthesised(e: Expression)
    requires e.PrefixExpr? || e.BinaryExpr? || e.IndexExpr?
    ensures var t := ExprText(e); |t| >= 2 && t[0] == '(' && t[|t| - 1] == ')'
    ensures e.PrefixExpr? ==> ExprText(e) == "(" + e.operator + ExprText(e.right) + ")"
  {
  }

  /** Every block text ends in `;`, the empty block included. */
  lemma BlockTextEndsWithSemicolon(b: Block)
    ensures var t := BlockText(b); |t| > 0 && t[|t| - 1] == ';'
  {
  }

  /** The statement of the syntax-tree test renders as `let myVar = anotherVar;`. */
  lemma LetTextExample()
    ensures ProgramText(Program([
      LetStatement(Token(Let, "let"),
                   Identifier(Token(Ident, "myVar"), "myVar"),
                   IdentifierExpr(Identifier(Token(Ident, "anotherVar"), "anotherVar")))]))
      == "let myVar = anotherVar;"
  {
  }

  /** The body of `fn(x) { x + 2; }` renders as `(x + 2);`. */
  lemma FunctionBodyTextExample()
    ensures BlockText(Block(Token(LBrace, "{"), [
      ExpressionStatement(Token(Ident, "x"),
        BinaryExpr(Token(Plus, "+"), IdentifierExpr(Identifier(Token(Ident, "x"), "x")), "+",
                   IntegerLiteral(Token(Int, "2"), 2)))]))
      == "(x + 2);"
  {
  }

  /** Joining more parts adds the separator and the new part at the end. */
  lemma {:induction false} JoinSnoc(parts: seq<string>, part: string, sep: string)
    requires |parts| > 0
    ensures Join(parts + [part], sep) == Join(parts, sep) + sep + part
  {
    if |parts| > 1 {
      JoinSnoc(parts[1..], part, sep);
      assert (parts + [part])[1..] == parts[1..] + [part];
    } else {
      assert (parts + [part])[1..] == [part];
    }
  }

  /** With no separator, joining is concatenation, so the join of two lists is the two joins. */
  lemma {:induction false} JoinConcat(a: seq<string>, b: seq<string>)
    ensures Join(a + b, "") == Join(a, "") + Join(b, "")
  {
    if |a| == 0 {
      assert a + b == b;
    } else if |a| == 1 {
      if |b| > 0 {
        assert (a + b)[1..] == b;
      }
    } else {
      JoinConcat(a[1..], b);
      assert (a + b)[1..] == a[1..] + b;
    }
  }

  lemma StatementsTextConcat(a: seq<Statement>, b: seq<Statement>)
    ensures StatementsText(a + b) == StatementsText(a) + StatementsText(b)
    decreases |a|
  {
    if |a| > 0 {
      assert (a + b)[0] == a[0] && (a + b)[1..] == a[1..] + b;
      StatementsTextConcat(a[1..], b);
    } else {
      assert a + b == b;
    }
  }

  /** A program's text is its statements' texts one after the other, with nothing between. */
  lemma ProgramTextConcat(p: Program, q: Program)
    ensures ProgramText(Program(p.statements + q.statements)) == ProgramText(p) + ProgramText(q)
  {
    StatementsTextConcat(p.statements, q.statements);
    JoinConcat(StatementsText(p.statements), StatementsText(q.statements));
  }

  /** The two statements `3 + 4; -5 * 5` of the parser test render as `(3 + 4)((-5) * 5)`. */
  lemma ProgramTextExample(p: Program)
    requires p == Program([
      ExpressionStatement(Token(Int, "3"),
        BinaryExpr(Token(Plus, "+"), IntegerLiteral(Token(Int, "3"), 3), "+", IntegerLiteral(Token(Int, "4"), 4))),
      ExpressionStatement(Token(Minus, "-"),
        BinaryExpr(Token(Asterisk, "*"),
                   PrefixExpr(Token(Minus, "-"), "-", IntegerLiteral(Token(Int, "5"), 5)), "*",
                   IntegerLiteral(Token(Int, "5"), 5)))])
    ensures ProgramText(p) == "(3 + 4)((-5) * 5)"
  {
    assert StatementText(p.statements[0]) == "(3 + 4)";
    assert StatementText(p.statements[1]) == "((-5) * 5)";
    assert StatementsText(p.statements) == ["(3 + 4)", "((-5) * 5)"];
    assert Join(["(3 + 4)", "((-5) * 5)"][1..], "") == "((-5) * 5)";
  }

  /** An array renders its elements separated by `", "` between brackets: `[1, 2]`. */
  lemma ArrayTextExample(e: Expression)
    requires e == ArrayLiteral(Token(LBracket, "["), [IntegerLiteral(Token(Int, "1"), 1), IntegerLiteral(Token(Int, "2"), 2)])
    ensures ExprText(e) == "[1, 2]"
  {
    assert ExprsText(e.elements) == ["1", "2"];
    assert Join(["1", "2"][1..], ", ") == "2";
  }

  /**
   * An index binds tighter than `*`: `a * [1, 2][b]` renders as `(a * ([1, 2][b]))`, whatever
   * expressions render as `a`, `[1, 2]` and `b`.
   */
  lemma IndexTextExample(e: Expression, left: Expression, arr: Expression, index: Expression)
    requires ExprText(left) == "a" && ExprText(arr) == "[1, 2]" && ExprText(index) == "b"
    requires e == BinaryExpr(Token(Asterisk, "*"), left, "*", IndexExpr(Token(LBracket, "["), arr, index))
    ensures ExprText(e) == "(a * ([1, 2][b]))"
  {
    IndexText(e.right);
    IndexPieces(ExprText(arr), ExprText(index));
    BinaryText(e);
    ProductPieces(ExprText(left), ExprText(e.right));
  }

  lemma IndexPieces(arr: string, index: string)
    requires arr == "[1, 2]" && index == "b"
    ensures "(" + arr + "[" + index + "])" == "([1, 2][b])"
  {
  }

  lemma ProductPieces(left: string, right: string)
    requires left == "a" && right == "([1, 2][b])"
    ensures "(" + left + " " + "*" + " " + right + ")" == "(a * ([1, 2][b]))"
  {
  }

  lemma IndexText(e: Expression)
    requires e.IndexExpr?
    ensures ExprText(e) == "(" + ExprText(e.left) + "[" + ExprText(e.index) + "])"
  {
  }

  lemma BinaryText(e: Expression)
    requires e.BinaryExpr?
    ensures ExprText(e) == "(" + ExprText(e.left) + " " + e.operator + " " + ExprText(e.right) + ")"
  {
  }

  /** A hash renders its pairs as `key:value`, separated by `", "`: `{one:1, two:2}`. */
  lemma HashTextExample(e: Expression)
    requires e == HashLiteral(Token(LBrace, "{"), [
      HashPair(StringLiteral(Token(String, "one"), "one"), IntegerLiteral(Token(Int, "1"), 1)),
      HashPair(StringLiteral(Token(String, "two"), "two"), IntegerLiteral(Token(Int, "2"), 2))])
    ensures ExprText(e) == "{one:1, two:2}"
  {
    assert PairText(e.pairs[0]) == "one:1";
    assert PairText(e.pairs[1]) == "two:2";
    assert PairsText(e.pairs) == ["one:1", "two:2"];
    assert Join(["one:1", "two:2"][1..], ", ") == "two:2";
    assert Join(["one:1", "two:2"], ", ") == "one:1, two:2";
    assert ExprText(e) == "{" + Join(PairsText(e.pairs), ", ") + "}";
  }
}
