/**
 * The Pratt parser: an object holding the lexer, the current and the next token and the list
 * of error messages, with one method per parse function.
 *
 * Every method keeps `Valid()`, only appends to `errors`, and either consumes input or leaves
 * the current token where it was (`Moved`); a parse that gives up always reports why. The
 * parser also keeps, as a ghost, the tokens it has moved past, and each parse method returns,
 * as a ghost, the parse tree it built: the tree's yield is exactly the tokens the method read,
 * its erasure is the syntax tree returned, and when the method adds no error the tree is
 * well nested, so the syntax tree is the one Monkey's grammar and precedence rules give.
 */
module Parsing {
  import opened Options
  import opened KotlinInt
  import opened Tokens
  import opened Lexing
  import opened Ast
  import opened Precedences
  import opened ParseTrees

  function NoPrefixError(t: TokenType): string
  {
    "no prefix parse function for " + t.Value() + " found"
  }

  function IntegerError(literal: string): string
  {
    "could not parse " + literal + " as integer"
  }

  function ExpectError(expected: TokenType, got: TokenType): string
  {
    "expected next token to be " + expected.Value() + ", got " + got.Value() + " instead"
  }

  function Min(a: int, b: int): int { if a < b then a else b }

  // The node an infix parse function builds on its left operand: how it reads after the
  // operand, what it erases to, how tightly it binds and when it is well nested.

  lemma BinaryRead(base: seq<Token>, token: Token, left: Tree, right: Tree)
    requires |Yield(left)| > 0
    ensures base + Yield(left) + [token] + Yield(right) == base + Yield(TBinary(token, left, right))
    ensures Yield(TBinary(token, left, right))[0] == Yield(left)[0]
  {
  }

  lemma BinaryNode(token: Token, left: Tree, right: Tree)
    ensures Bound(TBinary(token, left, right)) == PrecedenceOf(token.kind).Rank()
    ensures Erase(TBinary(token, left, right)) == BinaryExpr(token, Erase(left), token.literal, Erase(right))
  {
  }

  lemma BinaryNest(token: Token, left: Tree, right: Tree, peekRank: nat)
    requires IsBinaryOperator(token.kind)
    ensures WellNested(left) && Min(PrecedenceOf(token.kind).Rank(), 6) <= Bound(left)
            && WellNested(right) && Bound(right) > Min(PrecedenceOf(token.kind).Rank(), 4)
            && peekRank <= PrecedenceOf(token.kind).Rank() ==>
      WellNested(TBinary(token, left, right)) && Min(peekRank, 6) <= Bound(TBinary(token, left, right))
  {
    InfixTable(token.kind);
  }

  lemma CallRead(base: seq<Token>, token: Token, callee: Tree, arguments: seq<Tree>, commas: seq<Token>, close: Token)
    requires |Yield(callee)| > 0
    ensures base + Yield(callee) + [token] + YieldList(arguments, commas) + [close]
            == base + Yield(TCall(token, callee, arguments, commas, close))
    ensures Yield(TCall(token, callee, arguments, commas, close))[0] == Yield(callee)[0]
  {
  }

  lemma CallNode(token: Token, callee: Tree, arguments: seq<Tree>, commas: seq<Token>, close: Token)
    requires token.kind == LParen
    ensures Bound(TCall(token, callee, arguments, commas, close)) == PrecedenceOf(token.kind).Rank()
    ensures Erase(TCall(token, callee, arguments, commas, close)) == CallExpr(token, Erase(callee), EraseList(arguments))
  {
    InfixTable(token.kind);
  }

  lemma CallNest(token: Token, callee: Tree, arguments: seq<Tree>, commas: seq<Token>, close: Token, peekRank: nat)
    requires token.kind == LParen
    ensures close.kind == RParen && WellNested(callee) && Min(PrecedenceOf(token.kind).Rank(), 6) <= Bound(callee)
            && WellNestedList(arguments, commas) ==>
      WellNested(TCall(token, callee, arguments, commas, close))
      && Min(peekRank, 6) <= Bound(TCall(token, callee, arguments, commas, close))
  {
    InfixTable(token.kind);
  }

  lemma IndexRead(base: seq<Token>, token: Token, target: Tree, index: Tree, close: Token)
    requires |Yield(target)| > 0
    ensures base + Yield(target) + [token] + Yield(index) + [close] == base + Yield(TIndex(token, target, index, close))
    ensures Yield(TIndex(token, target, index, close))[0] == Yield(target)[0]
  {
  }

  lemma IndexNode(token: Token, target: Tree, index: Tree, close: Token)
    requires token.kind == LBracket
    ensures Bound(TIndex(token, target, index, close)) == PrecedenceOf(token.kind).Rank()
    ensures Erase(TIndex(token, target, index, close)) == IndexExpr(token, Erase(target), Erase(index))
  {
    InfixTable(token.kind);
  }

  lemma IndexNest(token: Token, target: Tree, index: Tree, close: Token, peekRank: nat)
    requires token.kind == LBracket
    ensures close.kind == RBracket && WellNested(target) && Min(PrecedenceOf(token.kind).Rank(), 6) <= Bound(target)
            && WellNested(index) ==>
      WellNested(TIndex(token, target, index, close)) && Min(peekRank, 6) <= Bound(TIndex(token, target, index, close))
  {
    InfixTable(token.kind);
  }

  lemma TrailingRead(base: seq<Token>, operand: Tree, token: Token, rest: seq<Token>)
    requires |Yield(operand)| > 0
    ensures base + Yield(operand) + [token] + rest == base + Yield(Trailing(operand, [token] + rest))
    ensures Yield(Trailing(operand, [token] + rest))[0] == Yield(operand)[0]
  {
  }

  /** Error lists only grow, so one that is back at its earlier value did not change in between. */
  lemma Between(a: seq<string>, b: seq<string>)
    requires a <= b && b <= a
    ensures a == b
  {
  }

  // The tokens read so far, step by step, regrouped as the yield of what was read.

  lemma Concat2(p: seq<Token>, a: seq<Token>, b: seq<Token>)
    ensures p + a + b == p + (a + b)
  {
  }

  lemma Concat3(p: seq<Token>, a: seq<Token>, b: seq<Token>, c: seq<Token>)
    ensures p + a + b + c == p + (a + b + c)
  {
  }

  lemma Concat4(p: seq<Token>, a: seq<Token>, b: seq<Token>, c: seq<Token>, d: seq<Token>)
    ensures p + a + b + c + d == p + (a + b + c + d)
  {
  }

  lemma Concat5(p: seq<Token>, a: seq<Token>, b: seq<Token>, c: seq<Token>, d: seq<Token>, e: seq<Token>)
    ensures p + a + b + c + d + e == p + (a + b + c + d + e)
  {
  }

  lemma Two(p: seq<Token>, a: Token, b: Token)
    ensures p + [a] + [b] == p + [a, b]
  {
  }

  /** A let statement read token by token, then its value and optional semicolon. */
  lemma LetRead(p: seq<Token>, token: Token, name: Token, assign: Token, value: Tree, semicolon: Option<Token>)
    ensures p + [token] + [name] + [assign] + (Yield(value) + OptionalToken(semicolon))
            == p + YieldStatement(TLet(token, name, assign, value, semicolon))
  {
    ThreeThen(p, token, name, assign, Yield(value) + OptionalToken(semicolon));
  }

  /** An if expression read up to the `)` of its condition, then its branches. */
  lemma IfRead(p: seq<Token>, token: Token, open: Token, condition: Tree, close: Token,
               consequence: BlockTree, alternative: Option<ElseTree>)
    ensures p + ([token, open] + Yield(condition) + [close] + (YieldBlock(consequence) + YieldElse(alternative)))
            == p + Yield(TIf(token, open, condition, close, consequence, alternative))
  {
    var head := [token, open] + Yield(condition) + [close];
    Concat2(head, YieldBlock(consequence), YieldElse(alternative));
  }

  lemma ThreeThen(p: seq<Token>, a: Token, b: Token, c: Token, ys: seq<Token>)
    ensures p + [a] + [b] + [c] + ys == p + ([a, b, c] + ys)
  {
  }

  lemma PairRead(p: seq<Token>, trees: seq<PairTree>, pair: PairTree, read: seq<Token>)
    requires read == YieldPair(pair)
    ensures p + YieldPairs(trees) + read == p + YieldPairs(trees + [pair])
    ensures ErasePairs(trees + [pair]) == ErasePairs(trees) + [ErasePair(pair)]
  {
    PairsSnoc(trees, pair);
  }

  /** An `if`, a function, an array or a hash literal starts with its own token and binds like an atom. */
  lemma FormRead(t: Tree)
    requires t.TIf? || t.TFunction? || t.TArray? || t.THash?
    ensures |Yield(t)| > 0 && Yield(t)[0] == t.token && Bound(t) == 8
  {
  }

  lemma BlockRead(p: seq<Token>, open: Token, statements: seq<StatementTree>, close: Token)
    ensures p + [open] + YieldStatements(statements) + [close] == p + YieldBlock(BlockTree(open, statements, close))
    ensures EraseBlock(BlockTree(open, statements, close)) == Block(open, EraseStatements(statements))
  {
  }

  lemma HashRead(p: seq<Token>, token: Token, pairs: seq<PairTree>, close: Token)
    ensures p + [token] + YieldPairs(pairs) + [close] == p + Yield(THash(token, pairs, close))
    ensures Erase(THash(token, pairs, close)) == HashLiteral(token, ErasePairs(pairs))
  {
  }

  lemma Nothing(p: seq<Token>)
    ensures p + [] == p
  {
  }

  /** A pair of tokens after the tokens read: a comma and the parameter after it. */
  lemma TwoMore(p: seq<Token>, ys: seq<Token>, a: Token, b: Token)
    ensures p + ys + [a] + [b] == p + (ys + [a, b])
  {
  }

  class Parser {
    const lexer: Lexer
    var cur: Token
    var peek: Token
    var errors: seq<string>
    /** The tokens that were current before `cur`, in input order. */
    ghost var passed: seq<Token>

    /**
     * The lexer is consistent, and once EOF is reached it stays: an EOF current token has an
     * EOF next token, and an EOF next token means the lexer is past the end of the input.
     */
    ghost predicate Valid()
      reads this, lexer
    {
      lexer.Valid()
      && (cur.kind == Eof ==> cur == Token(Eof, "") && peek.kind == Eof)
      && (peek.kind == Eof ==> peek == Token(Eof, "") && lexer.position > |lexer.input|)
    }

    /** How much input is left: it drops with every token consumed before EOF. */
    ghost function Measure(): nat
      reads this, lexer
    {
      var rest := if lexer.position <= |lexer.input| + 1 then |lexer.input| + 1 - lexer.position else 0;
      2 * rest + (if cur.kind == Eof then 0 else 1) + (if peek.kind == Eof then 0 else 1)
    }

    /**
     * Between two states of a parse: errors were only appended, and either input was consumed
     * or the current token is still the same one.
     */
    twostate predicate Moved()
      reads this, lexer
    {
      Valid() && old(errors) <= errors
      && (Measure() < old(Measure()) || (cur == old(cur) && Measure() == old(Measure())))
    }

    /** Since the earlier state, the parser read exactly `ts`: the then current token and those after it. */
    twostate predicate Consumed(ts: seq<Token>)
      reads this
    {
      passed + [cur] == old(passed) + ts
    }

    function PeekRank(): nat
      reads this
    {
      PrecedenceOf(peek.kind).Rank()
    }

    /** A parser over `lexer`; it reads the first two tokens. */
    constructor(lexer: Lexer)
      requires lexer.Valid()
      modifies lexer
      ensures this.lexer == lexer && Valid() && errors == [] && passed == []
      ensures cur == Scan(lexer.input, old(lexer.position)).token
      ensures peek == Scan(lexer.input, Scan(lexer.input, old(lexer.position)).next).token
    {
      this.lexer := lexer;
      var first := lexer.NextToken();
      ScanProgress(lexer.input, old(lexer.position));
      var second := lexer.NextToken();
      ScanProgress(lexer.input, Scan(lexer.input, old(lexer.position)).next);
      cur := first;
      peek := second;
      errors := [];
      passed := [];
      new;
      if first.kind == Eof {
        EofIsSticky(lexer.input, old(lexer.position));
      }
    }


    method NextToken()
      requires Valid()
      modifies this, lexer
      ensures Valid() && Moved() && errors == old(errors)
      ensures cur == old(peek) && peek == Scan(lexer.input, old(lexer.position)).token
      ensures passed == old(passed) + [old(cur)]
      ensures old(cur).kind != Eof ==> Measure() < old(Measure())
    {
      ScanProgress(lexer.input, lexer.position);
      passed := passed + [cur];
      cur := peek;
      peek := lexer.NextToken();
    }

    /** Consume the next token if it has type `t`; otherwise report what was found instead. */
    method ExpectPeek(t: TokenType) returns (ok: bool)
      requires Valid()
      modifies this, lexer
      ensures Moved()
      ensures ok <==> old(peek).kind == t
      ensures ok ==> cur == old(peek) && errors == old(errors) && passed == old(passed) + [old(cur)]
      ensures ok && t != Eof ==> Measure() < old(Measure())
      ensures !ok ==> errors == old(errors) + [ExpectError(t, old(peek).kind)]
      ensures !ok ==> cur == old(cur) && peek == old(peek) && passed == old(passed) && unchanged(lexer)
    {
      if peek.kind == t {
        NextToken();
        return true;
      }
      errors := errors + [ExpectError(t, peek.kind)];
      return false;
    }

    // ---------------------------------------------------------------- program and statements

    /**
     * Parse statements until EOF. The program holds the statements that parsed, in source
     * order; a statement that fails is left out, and the parse goes on after its last token.
     */
    method ParseProgram() returns (program: Program, ghost tree: ProgramTree)
      requires Valid()
      modifies this, lexer
      ensures Valid() && old(errors) <= errors && cur.kind == Eof
      ensures Consumed(YieldProgram(tree)) && tree.eof == cur && program == EraseProgram(tree)
      ensures errors == old(errors) ==> WellNestedProgram(tree)
    {
      var statements: seq<Statement> := [];
      ghost var trees: seq<StatementTree> := [];
      assert YieldStatements(trees) == [];
      Nothing(passed);
      while cur.kind != Eof
        invariant Valid() && old(errors) <= errors
        invariant passed == old(passed) + YieldStatements(trees) && statements == EraseStatements(trees)
        invariant errors == old(errors) ==> forall i :: 0 <= i < |trees| ==> WellNestedStatement(trees[i])
        invariant errors == old(errors) ==> EndsSeparated(trees, cur)
        decreases Measure()
      {
        var s, st := ParseStatementStep();
        if s.Some? {
          statements := statements + [s.value];
        }
        if errors == old(errors) {
          EndsSeparatedSnoc(trees, st, cur);
        }
        StatementsSnoc(trees, st);
        Concat2(old(passed), YieldStatements(trees), YieldStatement(st));
        trees := trees + [st];
      }
      Concat2(old(passed), YieldStatements(trees), [cur]);
      program, tree := Program(statements), ProgramTree(trees, cur);
    }

    /** A statement and the move past its last token: one step of a program or a block. */
    method ParseStatementStep() returns (r: Option<Statement>, ghost tree: StatementTree)
      requires Valid() && cur.kind != Eof
      modifies this, lexer
      ensures Valid() && old(errors) <= errors && Measure() < old(Measure())
      ensures passed == old(passed) + YieldStatement(tree)
      ensures r.None? <==> tree.TBroken?
      ensures r.Some? ==> r.value == EraseStatement(tree)
      ensures r.Some? ==> tree.token == old(cur)
      ensures errors == old(errors) ==> WellNestedStatement(tree) && Follows(tree, cur)
      decreases Measure(), 10
    {
      r, tree := ParseStatement();
      NextToken();
    }

    /** A statement; one that fails to parse is a broken tree holding the tokens it read. */
    method ParseStatement() returns (r: Option<Statement>, ghost tree: StatementTree)
      requires Valid()
      modifies this, lexer
      ensures Moved() && Consumed(YieldStatement(tree))
      ensures r.None? <==> tree.TBroken?
      ensures r.None? ==> |errors| > |old(errors)|
      ensures r.Some? ==> r.value == EraseStatement(tree)
      ensures errors == old(errors) ==> WellNestedStatement(tree) && Follows(tree, peek)
      ensures r.Some? ==> tree.token == old(cur)
      ensures r.Some? && old(cur).kind == Let ==> r.value.LetStatement?
      ensures r.Some? && old(cur).kind == Return ==> r.value.ReturnStatement?
      ensures r.Some? && old(cur).kind !in {Let, Return} ==> r.value.ExpressionStatement?
      ensures r.Some? && tree.TExpression? ==>
        tree.token == old(cur) && |Yield(tree.value)| > 0 && Yield(tree.value)[0] == tree.token
      decreases Measure(), 9
    {
      if cur.kind == Let {
        r, tree := ParseLetStatement();
      } else if cur.kind == Return {
        r, tree := ParseReturnStatement();
      } else {
        r, tree := ParseExpressionStatement();
      }
    }

    /** `let <identifier> = <expression>` with an optional `;`. */
    method ParseLetStatement() returns (r: Option<Statement>, ghost tree: StatementTree)
      requires Valid() && cur.kind == Let
      modifies this, lexer
      ensures Moved() && Consumed(YieldStatement(tree))
      ensures r.None? <==> tree.TBroken?
      ensures r.None? ==> |errors| > |old(errors)|
      ensures r.Some? ==> tree.TLet? && tree.token == old(cur) && tree.name == old(peek) && r.value == EraseStatement(tree)
      ensures r.Some? ==> r.value.name == Identifier(old(peek), old(peek).literal)
      ensures r.Some? && errors == old(errors) ==> WellNestedStatement(tree) && Follows(tree, peek)
      ensures old(peek).kind != Ident ==> r.None? && errors == old(errors) + [ExpectError(Ident, old(peek).kind)]
      decreases Measure(), 8
    {
      var token := cur;
      r, tree := None, TBroken([token]);
      var ok := ExpectPeek(Ident);
      if ok {
        var name := cur;
        Two(old(passed), token, name);
        tree := TBroken([token, name]);
        ok := ExpectPeek(Assign);
        if ok {
          ghost var assign := cur;
          NextToken();
          var value, valueTree, semicolon := ParseValue();
          if value.Some? {
            LetRead(old(passed), token, name, assign, valueTree, semicolon);
            r := Some(LetStatement(token, Identifier(name, name.literal), value.value));
            tree := TLet(token, name, assign, valueTree, semicolon);
          } else {
            ThreeThen(old(passed), token, name, assign, Yield(valueTree));
            tree := TBroken([token, name, assign] + Yield(valueTree));
          }
        }
      }
    }

    /** `return <expression>` with an optional `;`. */
    method ParseReturnStatement() returns (r: Option<Statement>, ghost tree: StatementTree)
      requires Valid() && cur.kind == Return
      modifies this, lexer
      ensures Moved() && Consumed(YieldStatement(tree))
      ensures r.None? <==> tree.TBroken?
      ensures r.None? ==> |errors| > |old(errors)|
      ensures r.Some? ==> tree.TReturn? && tree.token == old(cur) && r.value == EraseStatement(tree)
      ensures r.Some? && errors == old(errors) ==> WellNestedStatement(tree) && Follows(tree, peek)
      decreases Measure(), 8
    {
      var token := cur;
      NextToken();
      var value, valueTree, semicolon := ParseValue();
      if value.Some? {
        Concat2(old(passed), [token], Yield(valueTree) + OptionalToken(semicolon));
        r := Some(ReturnStatement(token, value.value));
        tree := TReturn(token, valueTree, semicolon);
      } else {
        Concat2(old(passed), [token], Yield(valueTree));
        r, tree := None, TBroken([token] + Yield(valueTree));
      }
    }

    /** An expression at the lowest precedence, with an optional `;`. */
    method ParseExpressionStatement() returns (r: Option<Statement>, ghost tree: StatementTree)
      requires Valid()
      modifies this, lexer
      ensures Moved() && Consumed(YieldStatement(tree))
      ensures r.None? <==> tree.TBroken?
      ensures r.None? ==> |errors| > |old(errors)|
      ensures r.Some? ==> tree.TExpression? && tree.token == old(cur) && r.value == EraseStatement(tree)
      ensures r.Some? ==> |Yield(tree.value)| > 0 && Yield(tree.value)[0] == tree.token
      ensures r.Some? && errors == old(errors) ==> Follows(tree, peek)
      ensures r.Some? && errors == old(errors) && old(cur).kind != Let && old(cur).kind != Return ==>
        WellNestedStatement(tree)
      decreases Measure(), 8
    {
      var token := cur;
      var value, valueTree, semicolon := ParseValue();
      if value.Some? {
        r := Some(ExpressionStatement(token, value.value));
        tree := TExpression(token, valueTree, semicolon);
      } else {
        r, tree := None, TBroken(Yield(valueTree));
      }
    }

    /**
     * The expression of a statement, at the lowest precedence, and the `;` that may follow it;
     * the expression's tokens start with the current one.
     */
    method ParseValue() returns (r: Option<Expression>, ghost tree: Tree, ghost semicolon: Option<Token>)
      requires Valid()
      modifies this, lexer
      ensures Moved() && Consumed(Yield(tree) + OptionalToken(semicolon))
      ensures r.None? ==> |errors| > |old(errors)| && Consumed(Yield(tree))
      ensures r.Some? ==> Erase(tree) == r.value && |Yield(tree)| > 0 && Yield(tree)[0] == old(cur)
      ensures r.Some? && errors == old(errors) ==> WellNested(tree) && OptionalSemicolon(semicolon)
      ensures r.Some? && errors == old(errors) && semicolon.None? ==>
        PrecedenceOf(peek.kind) == Lowest && peek.kind != Semicolon
      decreases Measure(), 7
    {
      r, tree := ParseExpression(Lowest);
      semicolon := None;
      if r.Some? && peek.kind == Semicolon {
        NextToken();
        semicolon := Some(cur);
        Concat2(old(passed), Yield(tree), [cur]);
      } else {
        Nothing(Yield(tree));
      }
    }

    /** `{` statements up to the matching `}` or the end of the input; statements that fail are left out. */
    method ParseBlockStatement() returns (block: Block, ghost tree: BlockTree)
      requires Valid() && cur.kind == LBrace
      modifies this, lexer
      ensures Moved() && Consumed(YieldBlock(tree)) && block == EraseBlock(tree)
      ensures tree.open == old(cur) && tree.close == cur && (cur.kind == RBrace || cur.kind == Eof)
      ensures errors == old(errors) ==> WellNestedBlock(tree)
      decreases Measure(), 7
    {
      var token := cur;
      var statements: seq<Statement> := [];
      ghost var trees: seq<StatementTree> := [];
      NextToken();
      Nothing(passed);
      while cur.kind != RBrace && cur.kind != Eof
        invariant Valid() && old(errors) <= errors && Measure() < old(Measure())
        invariant passed == old(passed) + [token] + YieldStatements(trees) && statements == EraseStatements(trees)
        invariant errors == old(errors) ==> forall i :: 0 <= i < |trees| ==> WellNestedStatement(trees[i])
        invariant errors == old(errors) ==> EndsSeparated(trees, cur)
        decreases Measure()
      {
        var s, st := ParseStatementStep();
        if s.Some? {
          statements := statements + [s.value];
        }
        if errors == old(errors) {
          EndsSeparatedSnoc(trees, st, cur);
        }
        StatementsSnoc(trees, st);
        Concat2(old(passed) + [token], YieldStatements(trees), YieldStatement(st));
        trees := trees + [st];
      }
      BlockRead(old(passed), token, trees, cur);
      block, tree := Block(token, statements), BlockTree(token, trees, cur);
    }

    // ---------------------------------------------------------------- expressions

    /**
     * The Pratt loop: a prefix parse function for the current token, then infix parse
     * functions for as long as the next operator binds more tightly than `precedence`.
     */
    method ParseExpression(precedence: Precedence) returns (r: Option<Expression>, ghost tree: Tree)
      requires Valid()
      modifies this, lexer
      ensures Moved() && Consumed(Yield(tree))
      ensures r.None? <==> tree.Broken?
      ensures r.None? ==> |errors| > |old(errors)| && errors[|errors| - 1] == NoPrefixError(old(cur).kind)
      ensures r.None? && HasPrefixFn(old(cur).kind) ==> |errors| > |old(errors)| + 1
      ensures !HasPrefixFn(old(cur).kind) ==>
        r.None? && errors == old(errors) + [NoPrefixError(old(cur).kind)] && cur == old(cur)
      ensures r.Some? ==> Erase(tree) == r.value && Bound(tree) > Min(precedence.Rank(), 4)
      ensures r.Some? ==> |Yield(tree)| > 0 && Yield(tree)[0] == old(cur)
      ensures r.Some? && errors == old(errors) ==>
        WellNested(tree) && PeekRank() <= precedence.Rank() && Min(PeekRank(), 6) <= Bound(tree)
      decreases Measure(), 6
    {
      if !HasPrefixFn(cur.kind) {
        errors := errors + [NoPrefixError(cur.kind)];
        return None, Broken([cur]);
      }
      var token := cur;
      var prefix;
      prefix, tree := ParsePrefixFn();
      if prefix.None? {
        errors := errors + [NoPrefixError(token.kind)];
        return None, Broken(Yield(tree));
      }
      assert Bound(tree) > Min(precedence.Rank(), 4) by { assert PrefixLevel.Rank() == 5; }
      r, tree := ParseInfixes(precedence, prefix.value, tree, errors == old(errors), old(passed));
    }

    /**
     * The loop of `ParseExpression`, from the operand its prefix parse function gave. When an
     * infix parse function gives up, the operand so far is the result and the tokens that
     * function read trail it.
     */
    method ParseInfixes(precedence: Precedence, left: Expression, ghost leftTree: Tree, ghost clean: bool,
                        ghost base: seq<Token>)
      returns (r: Option<Expression>, ghost tree: Tree)
      requires Valid() && Erase(leftTree) == left && Bound(leftTree) > Min(precedence.Rank(), 4)
      requires passed + [cur] == base + Yield(leftTree) && !leftTree.Broken? && |Yield(leftTree)| > 0
      requires clean ==> WellNested(leftTree) && Min(PeekRank(), 6) <= Bound(leftTree)
      modifies this, lexer
      ensures Moved() && r.Some? && !tree.Broken? && passed + [cur] == base + Yield(tree)
      ensures |Yield(tree)| > 0 && Yield(tree)[0] == Yield(leftTree)[0]
      ensures Erase(tree) == r.value && Bound(tree) > Min(precedence.Rank(), 4)
      ensures clean && errors == old(errors) ==>
        WellNested(tree) && PeekRank() <= precedence.Rank() && Min(PeekRank(), 6) <= Bound(tree)
      decreases Measure(), 5
    {
      var e := left;
      tree := leftTree;
      while peek.kind != Semicolon && precedence.Rank() < PeekRank()
        invariant Moved()
        invariant Erase(tree) == e && Bound(tree) > Min(precedence.Rank(), 4) && !tree.Broken?
        invariant passed + [cur] == base + Yield(tree) && |Yield(tree)| > 0 && Yield(tree)[0] == Yield(leftTree)[0]
        invariant clean && errors == old(errors) ==> WellNested(tree) && Min(PeekRank(), 6) <= Bound(tree)
        decreases Measure()
      {
        ghost var before := errors;
        var next;
        ghost var nextTree;
        next, nextTree := ParseInfixStep(precedence, e, tree, clean && errors == old(errors), base);
        if next.None? {
          return Some(e), nextTree;
        }
        if errors == old(errors) {
          Between(before, errors);
        }
        e, tree := next.value, nextTree;
      }
      return Some(e), tree;
    }

    /** One round of the loop of `ParseInfixes`: the peeked operator becomes current and its infix parse function runs. */
    method ParseInfixStep(precedence: Precedence, left: Expression, ghost leftTree: Tree, ghost clean: bool,
                          ghost base: seq<Token>)
      returns (r: Option<Expression>, ghost tree: Tree)
      requires Valid() && peek.kind != Semicolon && precedence.Rank() < PeekRank()
      requires Erase(leftTree) == left && Bound(leftTree) > Min(precedence.Rank(), 4) && !leftTree.Broken?
      requires passed + [cur] == base + Yield(leftTree) && |Yield(leftTree)| > 0
      requires clean ==> WellNested(leftTree) && Min(PeekRank(), 6) <= Bound(leftTree)
      modifies this, lexer
      ensures Moved() && Measure() < old(Measure()) && passed + [cur] == base + Yield(tree)
      ensures |Yield(tree)| > 0 && Yield(tree)[0] == Yield(leftTree)[0]
      ensures r.None? ==> |errors| > |old(errors)| && tree.Trailing? && tree.operand == leftTree
      ensures r.Some? ==> !tree.Broken? && Erase(tree) == r.value && Bound(tree) > Min(precedence.Rank(), 4)
      ensures r.Some? && clean && errors == old(errors) ==> WellNested(tree) && Min(PeekRank(), 6) <= Bound(tree)
      decreases Measure(), 4
    {
      InfixTable(peek.kind);
      NextToken();
      r, tree := ParseInfixFn(left, leftTree, base);
    }

    /** Dispatch on the current token to its prefix parse function. */
    method ParsePrefixFn() returns (r: Option<Expression>, ghost tree: Tree)
      requires Valid() && HasPrefixFn(cur.kind)
      modifies this, lexer
      ensures Moved() && Consumed(Yield(tree))
      ensures r.None? ==> |errors| > |old(errors)|
      ensures r.Some? ==> !tree.Broken? && Erase(tree) == r.value && |Yield(tree)| > 0 && Yield(tree)[0] == old(cur)
      ensures r.Some? ==> Bound(tree) >= PrefixLevel.Rank()
      ensures r.Some? && errors == old(errors) ==> WellNested(tree) && Min(PeekRank(), 6) <= Bound(tree)
      decreases Measure(), 5
    {
      if cur.kind in {Ident, Int, True, False, String} {
        r, tree := ParseAtom();
      } else if cur.kind in {Bang, Minus, LParen} {
        r, tree := ParseCompound();
      } else {
        r, tree := ParseLiteralForm();
      }
    }

    /** The prefix parse functions that read only the current token. */
    method ParseAtom() returns (r: Option<Expression>, ghost tree: Tree)
      requires Valid() && cur.kind in {Ident, Int, True, False, String}
      modifies this, lexer
      ensures Moved() && Consumed(Yield(tree))
      ensures cur == old(cur) && passed == old(passed)
      ensures r.Some? ==> tree == Atom(r.value) && IsLiteral(r.value)
      ensures r.None? ==> |errors| > |old(errors)|
      ensures r.Some? ==> !tree.Broken? && Erase(tree) == r.value && |Yield(tree)| > 0 && Yield(tree)[0] == old(cur)
      ensures r.Some? ==> Bound(tree) >= PrefixLevel.Rank()
      ensures r.Some? && errors == old(errors) ==> WellNested(tree) && Min(PeekRank(), 6) <= Bound(tree)
      decreases Measure(), 4
    {
      match cur.kind {
        case Ident =>
          r := Some(IdentifierExpr(Identifier(cur, cur.literal)));
          tree := Atom(r.value);
        case Int =>
          r := ParseIntegerLiteral();
          tree := if r.Some? then Atom(r.value) else Broken([cur]);
        case True =>
          r := Some(BooleanLiteral(cur, true));
          tree := Atom(r.value);
        case False =>
          r := Some(BooleanLiteral(cur, false));
          tree := Atom(r.value);
        case String =>
          r := Some(StringLiteral(cur, cur.literal));
          tree := Atom(r.value);
      }
    }

    /** The prefix parse functions of the prefix operators and of parentheses. */
    method ParseCompound() returns (r: Option<Expression>, ghost tree: Tree)
      requires Valid() && cur.kind in {Bang, Minus, LParen}
      modifies this, lexer
      ensures Moved() && Consumed(Yield(tree))
      ensures r.None? ==> |errors| > |old(errors)|
      ensures r.Some? ==> !tree.Broken? && Erase(tree) == r.value && |Yield(tree)| > 0 && Yield(tree)[0] == old(cur)
      ensures r.Some? ==> Bound(tree) >= PrefixLevel.Rank()
      ensures r.Some? && errors == old(errors) ==> WellNested(tree) && Min(PeekRank(), 6) <= Bound(tree)
      decreases Measure(), 4
    {
      if cur.kind == LParen {
        r, tree := ParseGroupedExpression();
      } else {
        r, tree := ParsePrefixExpression();
      }
    }

    /** The prefix parse functions of if expressions and of function, array and hash literals. */
    method ParseLiteralForm() returns (r: Option<Expression>, ghost tree: Tree)
      requires Valid() && cur.kind in {If, Function, LBracket, LBrace}
      modifies this, lexer
      ensures Moved() && Consumed(Yield(tree))
      ensures r.None? ==> |errors| > |old(errors)|
      ensures r.Some? ==> !tree.Broken? && Erase(tree) == r.value && |Yield(tree)| > 0 && Yield(tree)[0] == old(cur)
      ensures r.Some? ==> Bound(tree) >= PrefixLevel.Rank()
      ensures r.Some? && errors == old(errors) ==> WellNested(tree) && Min(PeekRank(), 6) <= Bound(tree)
      decreases Measure(), 4
    {
      match cur.kind {
        case If =>
          r, tree := ParseIfExpression();
        case Function =>
          r, tree := ParseFunctionLiteral();
        case LBracket =>
          r, tree := ParseArrayLiteral();
        case LBrace =>
          r, tree := ParseHashLiteral();
      }
      if r.Some? {
        FormRead(tree);
      }
    }

    /** Dispatch on the operator just consumed to its infix parse function. */
    method ParseInfixFn(left: Expression, ghost leftTree: Tree, ghost base: seq<Token>)
      returns (r: Option<Expression>, ghost tree: Tree)
      requires Valid() && HasInfixFn(cur.kind) && Erase(leftTree) == left && |Yield(leftTree)| > 0
      requires passed == base + Yield(leftTree)
      modifies this, lexer
      ensures Moved() && passed + [cur] == base + Yield(tree)
      ensures |Yield(tree)| > 0 && Yield(tree)[0] == Yield(leftTree)[0]
      ensures r.None? ==> |errors| > |old(errors)| && tree.Trailing? && tree.operand == leftTree
      ensures r.Some? ==> !tree.Broken? && Erase(tree) == r.value && Bound(tree) == PrecedenceOf(old(cur).kind).Rank()
      ensures r.Some? && errors == old(errors) && WellNested(leftTree)
              && Min(PrecedenceOf(old(cur).kind).Rank(), 6) <= Bound(leftTree) ==>
        WellNested(tree) && Min(PeekRank(), 6) <= Bound(tree)
      decreases Measure(), 4
    {
      if cur.kind == LParen {
        r, tree := ParseCallExpression(left, leftTree, base);
      } else if cur.kind == LBracket {
        r, tree := ParseIndexExpression(left, leftTree, base);
      } else {
        r, tree := ParseBinaryExpression(left, leftTree, base);
      }
    }

    method ParseIntegerLiteral() returns (r: Option<Expression>)
      requires Valid() && cur.kind == Int
      modifies this
      ensures Valid() && cur == old(cur) && peek == old(peek) && passed == old(passed)
      ensures ToIntOrNull(cur.literal).Some? ==>
        r == Some(IntegerLiteral(cur, ToIntOrNull(cur.literal).value)) && errors == old(errors)
      ensures ToIntOrNull(cur.literal).None? ==>
        r.None? && errors == old(errors) + [IntegerError(cur.literal)]
    {
      var value := ToIntOrNull(cur.literal);
      if value.None? {
        errors := errors + [IntegerError(cur.literal)];
        return None;
      }
      return Some(IntegerLiteral(cur, value.value));
    }

    /** `!` or `-` applied to an operand parsed at PREFIX precedence. */
    method ParsePrefixExpression() returns (r: Option<Expression>, ghost tree: Tree)
      requires Valid() && (cur.kind == Bang || cur.kind == Minus)
      modifies this, lexer
      ensures Moved() && Consumed(Yield(tree))
      ensures r.None? ==> |errors| > |old(errors)|
      ensures r.Some? ==> tree.TPrefix? && tree.token == old(cur) && Erase(tree) == r.value
      ensures r.Some? && errors == old(errors) ==> WellNested(tree) && PeekRank() <= PrefixLevel.Rank()
      decreases Measure(), 3
    {
      var token := cur;
      NextToken();
      var right, rightTree := ParseExpression(PrefixLevel);
      Concat2(old(passed), [token], Yield(rightTree));
      if right.Some? {
        r, tree := Some(PrefixExpr(token, token.literal, right.value)), TPrefix(token, rightTree);
        assert Bound(rightTree) >= PrefixLevel.Rank();
        assert WellNested(rightTree) ==> WellNested(tree);
      } else {
        r, tree := None, Broken([token] + Yield(rightTree));
      }
    }

    /** A binary operator: its right operand is parsed at the operator's own precedence. */
    method ParseBinaryExpression(left: Expression, ghost leftTree: Tree, ghost base: seq<Token>)
      returns (r: Option<Expression>, ghost tree: Tree)
      requires Valid() && IsBinaryOperator(cur.kind) && Erase(leftTree) == left && |Yield(leftTree)| > 0
      requires passed == base + Yield(leftTree)
      modifies this, lexer
      ensures Moved() && passed + [cur] == base + Yield(tree)
      ensures |Yield(tree)| > 0 && Yield(tree)[0] == Yield(leftTree)[0]
      ensures r.None? ==> |errors| > |old(errors)| && tree.Trailing? && tree.operand == leftTree
      ensures r.Some? ==> tree.TBinary? && tree.token == old(cur) && tree.left == leftTree && Erase(tree) == r.value
      ensures r.Some? ==> Bound(tree) == PrecedenceOf(old(cur).kind).Rank()
      ensures r.Some? && errors == old(errors) && WellNested(leftTree)
              && Min(PrecedenceOf(old(cur).kind).Rank(), 6) <= Bound(leftTree) ==>
        WellNested(tree) && Min(PeekRank(), 6) <= Bound(tree)
      decreases Measure(), 3
    {
      var token := cur;
      var precedence := PrecedenceOf(cur.kind);
      InfixTable(token.kind);
      NextToken();
      var right, rightTree := ParseExpression(precedence);
      if right.Some? {
        BinaryRead(base, token, leftTree, rightTree);
        BinaryNode(token, leftTree, rightTree);
        if errors == old(errors) && WellNested(leftTree) && Min(precedence.Rank(), 6) <= Bound(leftTree) {
          assert WellNested(rightTree) && Bound(rightTree) > Min(precedence.Rank(), 4) && PeekRank() <= precedence.Rank();
          BinaryNest(token, leftTree, rightTree, PeekRank());
        }
        r, tree := Some(BinaryExpr(token, left, token.literal, right.value)), TBinary(token, leftTree, rightTree);
      } else {
        TrailingRead(base, leftTree, token, Yield(rightTree));
        r, tree := None, Trailing(leftTree, [token] + Yield(rightTree));
      }
    }

    /** `(` expression `)`: the parentheses only group. */
    method ParseGroupedExpression() returns (r: Option<Expression>, ghost tree: Tree)
      requires Valid() && cur.kind == LParen
      modifies this, lexer
      ensures Moved() && Consumed(Yield(tree))
      ensures r.None? ==> |errors| > |old(errors)|
      ensures r.Some? ==> tree.Group? && tree.open == old(cur) && Erase(tree) == r.value
      ensures r.Some? ==> cur.kind == RParen
      ensures r.Some? && errors == old(errors) ==> WellNested(tree)
      decreases Measure(), 3
    {
      ghost var open := cur;
      NextToken();
      var e, inner := ParseExpression(Lowest);
      var ok := ExpectPeek(RParen);
      if ok {
        Concat3(old(passed), [open], Yield(inner), [cur]);
        if e.Some? {
          r, tree := e, Group(open, inner, cur);
        } else {
          r, tree := None, Broken([open] + Yield(inner) + [cur]);
        }
      } else {
        Concat2(old(passed), [open], Yield(inner));
        r, tree := None, Broken([open] + Yield(inner));
      }
    }

    /** `if (` condition `)` block, optionally followed by `else` block. */
    method ParseIfExpression() returns (r: Option<Expression>, ghost tree: Tree)
      requires Valid() && cur.kind == If
      modifies this, lexer
      ensures Moved() && Consumed(Yield(tree))
      ensures r.None? ==> |errors| > |old(errors)|
      ensures r.Some? ==> tree.TIf? && tree.token == old(cur) && Erase(tree) == r.value
      ensures r.Some? && errors == old(errors) ==> WellNested(tree)
      ensures old(peek).kind != LParen ==> r.None? && errors == old(errors) + [ExpectError(LParen, old(peek).kind)]
      decreases Measure(), 3
    {
      var token := cur;
      ghost var open := peek;
      var condition, conditionTree := ParseCondition();
      r, tree := None, conditionTree;
      if condition.Some? {
        ghost var close := cur;
        var consequence, alternative, ok, consequenceTree, alternativeTree, read := ParseBranches();
        Concat4(old(passed), [token, open], Yield(conditionTree), [close], read);
        if ok {
          IfRead(old(passed), token, open, conditionTree, close, consequenceTree, alternativeTree);
          r := Some(IfExpr(token, condition.value, consequence, alternative));
          tree := TIf(token, open, conditionTree, close, consequenceTree, alternativeTree);
        } else {
          tree := Broken([token, open] + Yield(conditionTree) + [close] + read);
        }
      }
    }

    /**
     * The branches of an if expression, past the `)` that closes its condition: `{`, the
     * consequence block, then the optional alternative. `read` is what was read after the `)`.
     */
    method ParseBranches()
      returns (consequence: Block, alternative: Option<Block>, ok: bool,
               ghost consequenceTree: BlockTree, ghost alternativeTree: Option<ElseTree>, ghost read: seq<Token>)
      requires Valid()
      modifies this, lexer
      ensures Moved() && passed + [cur] == old(passed) + [old(cur)] + read
      ensures !ok ==> |errors| > |old(errors)|
      ensures ok ==> read == YieldBlock(consequenceTree) + YieldElse(alternativeTree)
      ensures ok ==> consequence == EraseBlock(consequenceTree) && alternative == EraseElse(alternativeTree)
      ensures ok && errors == old(errors) ==> WellNestedBlock(consequenceTree) && WellNestedElse(alternativeTree)
      decreases Measure(), 2
    {
      consequence, alternative, consequenceTree, alternativeTree, read := Block(cur, []), None, BlockTree(cur, [], cur), None, [];
      ok := ExpectPeek(LBrace);
      if !ok {
        Nothing(old(passed) + [old(cur)]);
        return;
      }
      var block, blockTree := ParseBlockStatement();
      ghost var more;
      alternative, ok, alternativeTree, more := ParseAlternative();
      Concat2(old(passed) + [old(cur)], YieldBlock(blockTree), more);
      consequence, consequenceTree, read := block, blockTree, YieldBlock(blockTree) + more;
    }

    /**
     * The condition of an if expression: `(`, an expression, `)`, which becomes current. When
     * it fails, the tree is broken and holds the tokens read.
     */
    method ParseCondition() returns (r: Option<Expression>, ghost tree: Tree)
      requires Valid()
      modifies this, lexer
      ensures Moved()
      ensures r.None? ==> |errors| > |old(errors)| && tree.Broken? && Consumed(Yield(tree))
      ensures r.Some? ==> old(peek).kind == LParen && cur.kind == RParen && Erase(tree) == r.value
      ensures r.Some? ==> passed == old(passed) + [old(cur), old(peek)] + Yield(tree)
      ensures r.Some? && errors == old(errors) ==> WellNested(tree)
      ensures old(peek).kind != LParen ==> r.None? && errors == old(errors) + [ExpectError(LParen, old(peek).kind)]
      decreases Measure(), 2
    {
      var token := cur;
      r, tree := None, Broken([token]);
      var ok := ExpectPeek(LParen);
      if ok {
        var open := cur;
        var e, t := ParseEnclosed(RParen);
        Two(old(passed), token, open);
        if e.Some? {
          r, tree := e, t;
        } else {
          Concat2(old(passed), [token, open], Yield(t));
          tree := Broken([token, open] + Yield(t));
        }
      }
    }

    /**
     * Past the current token, an expression that must be followed by `end`, which becomes
     * current: the shared middle of an if condition and an index.
     */
    method ParseEnclosed(end: TokenType) returns (r: Option<Expression>, ghost tree: Tree)
      requires Valid() && cur.kind != Eof
      modifies this, lexer
      ensures Moved() && Measure() < old(Measure())
      ensures r.None? ==> |errors| > |old(errors)| && passed + [cur] == old(passed) + [old(cur)] + Yield(tree)
      ensures r.Some? ==> cur.kind == end && Erase(tree) == r.value
      ensures r.Some? ==> passed == old(passed) + [old(cur)] + Yield(tree)
      ensures r.Some? && errors == old(errors) ==> WellNested(tree)
      decreases Measure(), 1
    {
      NextToken();
      var e, t := ParseExpression(Lowest);
      r, tree := None, t;
      if e.Some? {
        var ok := ExpectPeek(end);
        if ok {
          r := e;
        }
      }
    }

    /**
     * The optional `else` block of an if expression: none unless the next token is `else`, which
     * must then be followed by `{`. `read` is what was read after the current token.
     */
    method ParseAlternative() returns (alternative: Option<Block>, ok: bool, ghost tree: Option<ElseTree>, ghost read: seq<Token>)
      requires Valid()
      modifies this, lexer
      ensures Moved() && passed + [cur] == old(passed) + [old(cur)] + read
      ensures !ok ==> |errors| > |old(errors)|
      ensures ok ==> read == YieldElse(tree) && alternative == EraseElse(tree)
      ensures ok && errors == old(errors) ==> WellNestedElse(tree)
      ensures old(peek).kind != Else ==> ok && alternative.None? && tree.None? && cur == old(cur) && errors == old(errors)
      ensures old(peek).kind == Else && ok ==> alternative.Some?
      decreases Measure(), 1
    {
      alternative, ok, tree, read := None, true, None, [];
      Nothing(passed + [cur]);
      if peek.kind == Else {
        NextToken();
        ghost var elseToken := cur;
        read := [elseToken];
        ok := ExpectPeek(LBrace);
        if ok {
          var b, bt := ParseBlockStatement();
          Concat2(old(passed) + [old(cur)], [elseToken], YieldBlock(bt));
          alternative, tree, read := Some(b), Some(ElseTree(elseToken, bt)), [elseToken] + YieldBlock(bt);
        }
      }
    }

    /** `fn (` parameters `)` block. */
    method ParseFunctionLiteral() returns (r: Option<Expression>, ghost tree: Tree)
      requires Valid() && cur.kind == Function
      modifies this, lexer
      ensures Moved() && Consumed(Yield(tree))
      ensures r.None? ==> |errors| > |old(errors)|
      ensures r.Some? ==> tree.TFunction? && tree.token == old(cur) && Erase(tree) == r.value
      ensures r.Some? && errors == old(errors) ==> WellNested(tree)
      decreases Measure(), 3
    {
      var token := cur;
      r, tree := None, Broken([token]);
      var ok := ExpectPeek(LParen);
      if ok {
        ghost var open := cur;
        var parameters, names, commas := ParseFunctionParameters();
        Two(old(passed), token, open);
        ghost var heading := Separated(names, commas);
        if parameters.None? {
          Concat2(old(passed), [token, open], heading);
          tree := Broken([token, open] + heading);
        } else {
          ghost var close := cur;
          ok := ExpectPeek(LBrace);
          if !ok {
            Concat3(old(passed), [token, open], heading, [close]);
            tree := Broken([token, open] + heading + [close]);
          } else {
            var body, bodyTree := ParseBlockStatement();
            Concat4(old(passed), [token, open], heading, [close], YieldBlock(bodyTree));
            r := Some(FunctionLiteral(token, parameters.value, body));
            tree := TFunction(token, open, names, commas, close, bodyTree);
          }
        }
      }
    }

    /**
     * Comma-separated parameters up to `)`, which becomes current. Any token is taken as a
     * parameter name, and each parameter is an identifier whose value is its token's literal.
     */
    method ParseFunctionParameters() returns (r: Option<seq<Identifier>>, ghost names: seq<Token>, ghost commas: seq<Token>)
      requires Valid() && cur.kind == LParen
      modifies this, lexer
      ensures Moved() && Measure() < old(Measure())
      ensures r.None? ==> |errors| > |old(errors)| && passed + [cur] == old(passed) + [old(cur)] + Separated(names, commas)
      ensures r.Some? ==> cur.kind == RParen && errors == old(errors)
      ensures r.Some? ==> passed == old(passed) + [old(cur)] + Separated(names, commas)
      ensures r.Some? ==> r.value == Names(names) && Separates(commas, |names|)
      ensures old(peek).kind == RParen ==> r == Some([])
    {
      if peek.kind == RParen {
        NextToken();
        Nothing(passed);
        return Some([]), [], [];
      }
      NextToken();
      assert Separated([cur], []) == [cur];
      var parameters;
      parameters, names, commas := ParseMoreParameters(old(passed) + [old(cur)], [Identifier(cur, cur.literal)], [cur], []);
      var ok := ExpectPeek(RParen);
      if !ok {
        return None, names, commas;
      }
      return Some(parameters), names, commas;
    }

    /** The loop of `ParseFunctionParameters`: parameters follow as long as a comma is peeked. */
    method ParseMoreParameters(ghost start: seq<Token>, first: seq<Identifier>, ghost firstNames: seq<Token>,
                               ghost firstCommas: seq<Token>)
      returns (parameters: seq<Identifier>, ghost names: seq<Token>, ghost commas: seq<Token>)
      requires Valid() && passed + [cur] == start + Separated(firstNames, firstCommas)
      requires first == Names(firstNames) && Separates(firstCommas, |firstNames|) && |firstNames| > 0
      modifies this, lexer
      ensures Moved() && errors == old(errors) && peek.kind != Comma
      ensures passed + [cur] == start + Separated(names, commas)
      ensures parameters == Names(names) && Separates(commas, |names|) && |names| > 0
    {
      parameters, names, commas := first, firstNames, firstCommas;
      while peek.kind == Comma
        invariant Moved() && errors == old(errors)
        invariant passed + [cur] == start + Separated(names, commas)
        invariant parameters == Names(names) && Separates(commas, |names|) && |names| > 0
        decreases Measure()
      {
        parameters, names, commas := ParseNextParameter(start, parameters, names, commas);
      }
    }

    /** One round of the loop of `ParseFunctionParameters`: a comma, then the next parameter. */
    method ParseNextParameter(ghost start: seq<Token>, parameters: seq<Identifier>, ghost names: seq<Token>,
                              ghost commas: seq<Token>)
      returns (longer: seq<Identifier>, ghost longerNames: seq<Token>, ghost longerCommas: seq<Token>)
      requires Valid() && peek.kind == Comma && passed + [cur] == start + Separated(names, commas)
      requires parameters == Names(names) && Separates(commas, |names|) && |names| > 0
      modifies this, lexer
      ensures Moved() && Measure() < old(Measure()) && errors == old(errors)
      ensures passed + [cur] == start + Separated(longerNames, longerCommas)
      ensures longer == Names(longerNames) && Separates(longerCommas, |longerNames|) && |longerNames| > 0
    {
      NextToken();
      ghost var comma := cur;
      NextToken();
      longer := parameters + [Identifier(cur, cur.literal)];
      NamesSnoc(names, cur);
      SeparatedSnoc(names, commas, cur, comma);
      TwoMore(start, Separated(names, commas), comma, cur);
      longerNames, longerCommas := names + [cur], commas + [comma];
    }

    /**
     * Comma-separated expressions up to `end`, which becomes current. An element that fails to
     * parse is dropped from the list (its error is reported); the others keep their order. The
     * list fails only when `end` is missing.
     */
    method ParseExpressionList(end: TokenType) returns (r: Option<seq<Expression>>, ghost items: seq<Tree>, ghost commas: seq<Token>)
      requires Valid() && (cur.kind == LParen || cur.kind == LBracket)
      modifies this, lexer
      ensures Moved() && Measure() < old(Measure())
      ensures r.None? ==> |errors| > |old(errors)| && passed + [cur] == old(passed) + [old(cur)] + YieldList(items, commas)
      ensures r.Some? ==> cur.kind == end && passed == old(passed) + [old(cur)] + YieldList(items, commas)
      ensures r.Some? ==> r.value == EraseList(items) && Separates(commas, |items|)
      ensures r.Some? && errors == old(errors) ==> WellNestedList(items, commas)
      ensures old(peek).kind == end ==> r == Some([]) && items == [] && errors == old(errors)
      decreases Measure(), 2
    {
      if peek.kind == end {
        NextToken();
        Nothing(passed);
        return Some([]), [], [];
      }
      var elements;
      elements, items, commas := ParseFirstElement();
      while peek.kind == Comma
        invariant Moved() && Measure() < old(Measure())
        invariant passed + [cur] == old(passed) + [old(cur)] + YieldList(items, commas)
        invariant elements == EraseList(items) && Separates(commas, |items|) && |items| > 0
        invariant errors == old(errors) ==> WellNestedList(items, commas)
        decreases Measure()
      {
        ghost var before := errors;
        elements, items, commas := ParseNextElement(old(passed) + [old(cur)], elements, items, commas);
        if errors == old(errors) {
          Between(before, errors);
        }
      }
      var ok := ExpectPeek(end);
      if !ok {
        return None, items, commas;
      }
      return Some(elements), items, commas;
    }

    /** Past the opening token, the first element of a list; it is dropped when it does not parse. */
    method ParseFirstElement() returns (elements: seq<Expression>, ghost items: seq<Tree>, ghost commas: seq<Token>)
      requires Valid() && cur.kind != Eof
      modifies this, lexer
      ensures Moved() && Measure() < old(Measure())
      ensures passed + [cur] == old(passed) + [old(cur)] + YieldList(items, commas)
      ensures elements == EraseList(items) && Separates(commas, |items|) && |items| == 1
      ensures errors == old(errors) ==> WellNestedList(items, commas)
      decreases Measure(), 1
    {
      NextToken();
      var e, t := ParseExpression(Lowest);
      elements := if e.Some? then [e.value] else [];
      items, commas := [t], [];
      ListSingle(t);
    }

    /**
     * Past the `,` that is the next token, one more element of a list: it is appended to the
     * list when it parses, and dropped when it does not.
     */
    method ParseNextElement(ghost start: seq<Token>, elements: seq<Expression>, ghost items: seq<Tree>, ghost commas: seq<Token>)
      returns (longer: seq<Expression>, ghost longerItems: seq<Tree>, ghost longerCommas: seq<Token>)
      requires Valid() && peek.kind == Comma
      requires passed + [cur] == start + YieldList(items, commas)
      requires elements == EraseList(items) && Separates(commas, |items|) && |items| > 0
      modifies this, lexer
      ensures Moved() && Measure() < old(Measure())
      ensures passed + [cur] == start + YieldList(longerItems, longerCommas)
      ensures longer == EraseList(longerItems) && Separates(longerCommas, |longerItems|)
      ensures |longerItems| == |items| + 1 && longerItems[..|items|] == items
      ensures errors == old(errors) && WellNestedList(items, commas) ==> WellNestedList(longerItems, longerCommas)
      decreases Measure(), 1
    {
      NextToken();
      var comma := cur;
      NextToken();
      var e, t := ParseExpression(Lowest);
      longer := if e.Some? then elements + [e.value] else elements;
      if errors == old(errors) && WellNestedList(items, commas) {
        ListNestedSnoc(items, commas, t, comma);
      }
      ListSnoc(items, commas, t, comma);
      Concat3(start, YieldList(items, commas), [comma], Yield(t));
      longerItems, longerCommas := items + [t], commas + [comma];
    }

    /** A call: the arguments follow the `(` just consumed. */
    method ParseCallExpression(callee: Expression, ghost calleeTree: Tree, ghost base: seq<Token>)
      returns (r: Option<Expression>, ghost tree: Tree)
      requires Valid() && cur.kind == LParen && Erase(calleeTree) == callee && |Yield(calleeTree)| > 0
      requires passed == base + Yield(calleeTree)
      modifies this, lexer
      ensures Moved() && passed + [cur] == base + Yield(tree)
      ensures |Yield(tree)| > 0 && Yield(tree)[0] == Yield(calleeTree)[0]
      ensures r.None? ==> |errors| > |old(errors)| && tree.Trailing? && tree.operand == calleeTree
      ensures r.Some? ==> tree.TCall? && tree.token == old(cur) && tree.callee == calleeTree && Erase(tree) == r.value
      ensures r.Some? ==> Bound(tree) == PrecedenceOf(old(cur).kind).Rank()
      ensures r.Some? && errors == old(errors) && WellNested(calleeTree)
              && Min(PrecedenceOf(old(cur).kind).Rank(), 6) <= Bound(calleeTree) ==>
        WellNested(tree) && Min(PeekRank(), 6) <= Bound(tree)
      decreases Measure(), 3
    {
      var token := cur;
      var arguments, items, commas := ParseExpressionList(RParen);
      if arguments.Some? {
        CallRead(base, token, calleeTree, items, commas, cur);
        CallNode(token, calleeTree, items, commas, cur);
        CallNest(token, calleeTree, items, commas, cur, PeekRank());
        r, tree := Some(CallExpr(token, callee, arguments.value)), TCall(token, calleeTree, items, commas, cur);
      } else {
        TrailingRead(base, calleeTree, token, YieldList(items, commas));
        r, tree := None, Trailing(calleeTree, [token] + YieldList(items, commas));
      }
    }

    /** `[` elements `]`. */
    method ParseArrayLiteral() returns (r: Option<Expression>, ghost tree: Tree)
      requires Valid() && cur.kind == LBracket
      modifies this, lexer
      ensures Moved() && Consumed(Yield(tree))
      ensures r.None? ==> |errors| > |old(errors)|
      ensures r.Some? ==> tree.TArray? && tree.token == old(cur) && Erase(tree) == r.value
      ensures r.Some? && errors == old(errors) ==> WellNested(tree)
      decreases Measure(), 3
    {
      var token := cur;
      var elements, items, commas := ParseExpressionList(RBracket);
      if elements.Some? {
        Concat3(old(passed), [token], YieldList(items, commas), [cur]);
        r, tree := Some(ArrayLiteral(token, elements.value)), TArray(token, items, commas, cur);
      } else {
        Concat2(old(passed), [token], YieldList(items, commas));
        r, tree := None, Broken([token] + YieldList(items, commas));
      }
    }

    /** An index: the index expression follows the `[` just consumed and ends with `]`. */
    method ParseIndexExpression(left: Expression, ghost leftTree: Tree, ghost base: seq<Token>)
      returns (r: Option<Expression>, ghost tree: Tree)
      requires Valid() && cur.kind == LBracket && Erase(leftTree) == left && |Yield(leftTree)| > 0
      requires passed == base + Yield(leftTree)
      modifies this, lexer
      ensures Moved() && passed + [cur] == base + Yield(tree)
      ensures |Yield(tree)| > 0 && Yield(tree)[0] == Yield(leftTree)[0]
      ensures r.None? ==> |errors| > |old(errors)| && tree.Trailing? && tree.operand == leftTree
      ensures r.Some? ==> tree.TIndex? && tree.token == old(cur) && tree.target == leftTree && Erase(tree) == r.value
      ensures r.Some? ==> Bound(tree) == PrecedenceOf(old(cur).kind).Rank()
      ensures r.Some? && errors == old(errors) && WellNested(leftTree)
              && Min(PrecedenceOf(old(cur).kind).Rank(), 6) <= Bound(leftTree) ==>
        WellNested(tree) && Min(PeekRank(), 6) <= Bound(tree)
      decreases Measure(), 3
    {
      var token := cur;
      var index, indexTree := ParseEnclosed(RBracket);
      if index.Some? {
        IndexRead(base, token, leftTree, indexTree, cur);
        IndexNode(token, leftTree, indexTree, cur);
        IndexNest(token, leftTree, indexTree, cur, PeekRank());
        r, tree := Some(IndexExpr(token, left, index.value)), TIndex(token, leftTree, indexTree, cur);
      } else {
        TrailingRead(base, leftTree, token, Yield(indexTree));
        r, tree := None, Trailing(leftTree, [token] + Yield(indexTree));
      }
    }

    /**
     * `{` key `:` value pairs separated by `,` `}`; the pairs keep their source order, and a
     * comma may follow the last one.
     */
    method ParseHashLiteral() returns (r: Option<Expression>, ghost tree: Tree)
      requires Valid() && cur.kind == LBrace
      modifies this, lexer
      ensures Moved() && Consumed(Yield(tree))
      ensures r.None? ==> |errors| > |old(errors)|
      ensures r.Some? ==> tree.THash? && tree.token == old(cur) && Erase(tree) == r.value
      ensures r.Some? && errors == old(errors) ==> WellNested(tree)
      ensures old(peek).kind == RBrace ==> r == Some(HashLiteral(old(cur), [])) && errors == old(errors)
      decreases Measure(), 3
    {
      var token := cur;
      var pairs: seq<HashPair> := [];
      ghost var trees: seq<PairTree> := [];
      Nothing(passed + [cur]);
      while peek.kind != RBrace
        invariant Moved() && cur.kind != Eof
        invariant passed + [cur] == old(passed) + [token] + YieldPairs(trees) && pairs == ErasePairs(trees)
        invariant errors == old(errors) ==> WellNestedPairs(trees)
        invariant |trees| > 0 && trees[|trees| - 1].comma.None? ==> peek.kind == RBrace
        invariant old(peek).kind == RBrace ==> trees == [] && peek == old(peek) && errors == old(errors)
        decreases Measure()
      {
        ghost var before := errors;
        var pair, pairTree, read := ParsePair();
        Concat3(old(passed), [token], YieldPairs(trees), read);
        if pair.None? {
          return None, Broken([token] + YieldPairs(trees) + read);
        }
        if errors == old(errors) {
          Between(before, errors);
          PairsNestedSnoc(trees, pairTree);
        }
        PairRead(old(passed) + [token], trees, pairTree, read);
        pairs, trees := pairs + [pair.value], trees + [pairTree];
      }
      // the loop ends only before `}`, so this expectation always holds
      var ok := ExpectPeek(RBrace);
      assert ok;
      HashRead(old(passed), token, trees, cur);
      return Some(HashLiteral(token, pairs)), THash(token, trees, cur);
    }

    /**
     * Past the current token, one `key : value` pair of a hash literal, and the `,` that must
     * follow it unless `}` does. `read` is what was read after the current token.
     */
    method ParsePair() returns (r: Option<HashPair>, ghost tree: PairTree, ghost read: seq<Token>)
      requires Valid() && cur.kind != Eof
      modifies this, lexer
      ensures Moved() && passed + [cur] == old(passed) + [old(cur)] + read
      ensures r.None? ==> |errors| > |old(errors)|
      ensures r.Some? ==> Measure() < old(Measure()) && cur.kind != Eof && read == YieldPair(tree)
      ensures r.Some? ==> r.value == ErasePair(tree) && (tree.comma.None? ==> peek.kind == RBrace)
      ensures r.Some? && errors == old(errors) ==> WellNestedPair(tree)
      decreases Measure(), 2
    {
      ghost var first := cur;
      NextToken();
      var key, keyTree := ParseExpression(Lowest);
      r, tree, read := None, PairTree(keyTree, first, keyTree, None), Yield(keyTree);
      if key.Some? {
        ghost var colon := peek;
        var ok := ExpectPeek(Colon);
        if ok {
          var value, valueTree, comma := ParsePairValue();
          Concat4(old(passed) + [first], Yield(keyTree), [colon], Yield(valueTree), OptionalToken(comma));
          read := Yield(keyTree) + [colon] + Yield(valueTree) + OptionalToken(comma);
          if value.Some? {
            r, tree := Some(HashPair(key.value, value.value)), PairTree(keyTree, colon, valueTree, comma);
          }
        }
      }
    }

    /**
     * Past the current `:`, the value of a pair and, unless `}` is next, the `,` after it. The
     * result is none when either is missing.
     */
    method ParsePairValue() returns (r: Option<Expression>, ghost tree: Tree, ghost comma: Option<Token>)
      requires Valid() && cur.kind != Eof
      modifies this, lexer
      ensures Moved() && Measure() < old(Measure())
      ensures passed + [cur] == old(passed) + [old(cur)] + Yield(tree) + OptionalToken(comma)
      ensures r.None? ==> |errors| > |old(errors)|
      ensures r.Some? ==> Erase(tree) == r.value && cur.kind != Eof && (comma.None? ==> peek.kind == RBrace)
      ensures r.Some? && errors == old(errors) ==> WellNested(tree) && (comma.Some? ==> comma.value.kind == Comma)
      decreases Measure(), 1
    {
      NextToken();
      r, tree := ParseExpression(Lowest);
      comma := None;
      Nothing(old(passed) + [old(cur)] + Yield(tree));
      if r.Some? && peek.kind != RBrace {
        var ok := ExpectPeek(Comma);
        if ok {
          comma := Some(cur);
        } else {
          r := None;
        }
      }
    }
  }
}
