/**
 * Operator precedence of the Pratt parser: the precedence levels, the precedence of each
 * token in infix position, and which tokens have prefix and infix parse functions.
 */
module Precedences {
  import opened Tokens
  import opened Ast

  datatype Precedence = Lowest | Equals | LessGreater | Sum | Product | PrefixLevel | CallLevel | IndexLevel
  {
    /** The position in the declaration order, which is how Kotlin compares enum values. */
    function Rank(): (r: nat)
      ensures r <= 7
    {
      match this
      case Lowest => 0
      case Equals => 1
      case LessGreater => 2
      case Sum => 3
      case Product => 4
      case PrefixLevel => 5
      case CallLevel => 6
      case IndexLevel => 7
    }
  }

  /** The precedence of a token in infix position; tokens without one are LOWEST. */
  function PrecedenceOf(t: TokenType): Precedence
  {
    match t
    case Eq => Equals
    case NotEq => Equals
    case Lt => LessGreater
    case Gt => LessGreater
    case Plus => Sum
    case Minus => Sum
    case Asterisk => Product
    case Slash => Product
    case LParen => CallLevel
    case LBracket => IndexLevel
    case _ => Lowest
  }

  /** Token types that start an expression (the prefix parse functions). */
  predicate HasPrefixFn(t: TokenType)
  {
    t in {Ident, Int, True, False, String, Bang, Minus, LParen, If, Function, LBracket, LBrace}
  }

  predicate IsBinaryOperator(t: TokenType)
  {
    t in {Plus, Minus, Asterisk, Slash, Eq, NotEq, Lt, Gt}
  }

  /** Token types that extend an expression to their left (the infix parse functions). */
  predicate HasInfixFn(t: TokenType)
  {
    IsBinaryOperator(t) || t == LParen || t == LBracket
  }

  /**
   * Exactly the tokens with an infix parse function have a precedence above LOWEST, so the
   * parse loop always finds a function for the operator it is about to consume.
   */
  lemma InfixTable(t: TokenType)
    ensures PrecedenceOf(t).Rank() > 0 <==> HasInfixFn(t)
    ensures IsBinaryOperator(t) ==> 1 <= PrecedenceOf(t).Rank() <= 4
    ensures t == LParen ==> PrecedenceOf(t) == CallLevel
    ensures t == LBracket ==> PrecedenceOf(t) == IndexLevel
  {
  }

  /** Multiplicative operators bind tighter than additive ones, which bind tighter than comparisons. */
  lemma PrecedenceOrder()
    ensures PrecedenceOf(Eq).Rank() < PrecedenceOf(Lt).Rank() < PrecedenceOf(Plus).Rank()
    ensures PrecedenceOf(Plus).Rank() < PrecedenceOf(Asterisk).Rank() < PrefixLevel.Rank()
    ensures PrefixLevel.Rank() < PrecedenceOf(LParen).Rank() < PrecedenceOf(LBracket).Rank()
  {
    assert PrecedenceOf(Eq) == Equals && PrecedenceOf(Lt) == LessGreater && PrecedenceOf(Plus) == Sum;
    assert PrecedenceOf(Asterisk) == Product && PrecedenceOf(LParen) == CallLevel && PrecedenceOf(LBracket) == IndexLevel;
  }

  /** `==` and `!=` share a level, as do `<` and `>`, `+` and `-`, `*` and `/`. */
  lemma PrecedencePairs()
    ensures PrecedenceOf(Eq) == PrecedenceOf(NotEq) && PrecedenceOf(Lt) == PrecedenceOf(Gt)
    ensures PrecedenceOf(Plus) == PrecedenceOf(Minus) && PrecedenceOf(Asterisk) == PrecedenceOf(Slash)
  {
    assert PrecedenceOf(Eq) == Equals && PrecedenceOf(NotEq) == Equals;
    assert PrecedenceOf(Lt) == LessGreater && PrecedenceOf(Gt) == LessGreater;
    assert PrecedenceOf(Plus) == Sum && PrecedenceOf(Minus) == Sum;
    assert PrecedenceOf(Asterisk) == Product && PrecedenceOf(Slash) == Product;
  }
}
