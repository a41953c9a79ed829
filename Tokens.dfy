/** Tokens of the Monkey language: their types with their display values, and keyword lookup. */
module Tokens {

  datatype TokenType =
    | Illegal | Eof
      // keywords
    | Function | Let | If | Else | Return | True | False
      // identifiers and literals
    | Ident | Int | String
      // delimiters
    | Comma | Semicolon | Colon | LParen | RParen | LBrace | RBrace | LBracket | RBracket
      // operators
    | Assign | Plus | Minus | Asterisk | Slash | Eq | NotEq | Lt | Gt | Bang
  {
    /**
     * The display value of a token type: its upper-case name for the named kinds, the
     * operator or delimiter itself for the others. Parser error messages print it.
     */
    function Value(): string
    {
      match this
      case Illegal => "ILLEGAL"
      case Eof => "EOF"
      case Function => "FUNCTION"
      case Let => "LET"
      case If => "IF"
      case Else => "ELSE"
      case Return => "RETURN"
      case True => "TRUE"
      case False => "FALSE"
      case Ident => "IDENT"
      case Int => "INT"
      case String => "STRING"
      case Comma => ","
      case Semicolon => ";"
      case Colon => ":"
      case LParen => "("
      case RParen => ")"
      case LBrace => "{"
      case RBrace => "}"
      case LBracket => "["
      case RBracket => "]"
      case Assign => "="
      case Plus => "+"
      case Minus => "-"
      case Asterisk => "*"
      case Slash => "/"
      case Eq => "=="
      case NotEq => "!="
      case Lt => "<"
      case Gt => ">"
      case Bang => "!"
    }

    /** Operators and delimiters: the token types whose lexeme is fixed and equals their value. */
    predicate IsSymbol()
    {
      !(Illegal? || Eof? || Ident? || Int? || String? || IsKeyword())
    }

    predicate IsKeyword()
    {
      Function? || Let? || If? || Else? || Return? || True? || False?
    }
  }

  datatype Token = Token(kind: TokenType, literal: string)

  /** The reserved words and the token type each one lexes to. */
  const Keywords: map<string, TokenType> :=
    map["fn" := Function, "let" := Let, "if" := If, "else" := Else,
        "return" := Return, "true" := True, "false" := False]

  /** The token type of a word: its keyword type, or `Ident` when it is not reserved. */
  function LookupIdent(ident: string): (t: TokenType)
    ensures t == Ident <==> ident !in Keywords
    ensures t != Ident ==> t.IsKeyword()
    ensures ident in Keywords ==> t == Keywords[ident]
  {
    if ident in Keywords then Keywords[ident] else Ident
  }

  /** Token-type display values are distinct, so an error message names one token type. */
  lemma ValueInjective(a: TokenType, b: TokenType)
    requires a.Value() == b.Value()
    ensures a == b
  {
    NamedValue(a);
    NamedValue(b);
  }

  /** The token type a display value names, if any. */
  function Named(v: string): (t: TokenType)
  {
    match v
    case "ILLEGAL" => Illegal
    case "EOF" => Eof
    case "FUNCTION" => Function
    case "LET" => Let
    case "IF" => If
    case "ELSE" => Else
    case "RETURN" => Return
    case "TRUE" => True
    case "FALSE" => False
    case "IDENT" => Ident
    case "INT" => Int
    case "STRING" => String
    case "," => Comma
    case ";" => Semicolon
    case ":" => Colon
    case "(" => LParen
    case ")" => RParen
    case "{" => LBrace
    case "}" => RBrace
    case "[" => LBracket
    case "]" => RBracket
    case "=" => Assign
    case "+" => Plus
    case "-" => Minus
    case "*" => Asterisk
    case "/" => Slash
    case "==" => Eq
    case "!=" => NotEq
    case "<" => Lt
    case ">" => Gt
    case _ => Bang
  }

  /** `Named` reads a display value back. */
  lemma NamedValue(t: TokenType)
    ensures Named(t.Value()) == t
  {
    if t.Illegal? || t.Eof? || t.IsKeyword() || t.Ident? || t.Int? || t.String? {
      NamedWord(t);
    } else if t.Comma? || t.Semicolon? || t.Colon? || t.LParen? || t.RParen? || t.LBrace? || t.RBrace? {
      NamedDelimiter(t);
    } else {
      NamedOperator(t);
    }
  }

  lemma NamedWord(t: TokenType)
    requires t.Illegal? || t.Eof? || t.IsKeyword() || t.Ident? || t.Int? || t.String?
    ensures Named(t.Value()) == t
  {
  }

  lemma NamedDelimiter(t: TokenType)
    requires t.Comma? || t.Semicolon? || t.Colon? || t.LParen? || t.RParen? || t.LBrace? || t.RBrace?
    ensures Named(t.Value()) == t
  {
  }

  lemma NamedOperator(t: TokenType)
    requires !(t.Illegal? || t.Eof? || t.IsKeyword() || t.Ident? || t.Int? || t.String?)
    requires !(t.Comma? || t.Semicolon? || t.Colon? || t.LParen? || t.RParen? || t.LBrace? || t.RBrace?)
    ensures Named(t.Value()) == t
  {
  }

  /** Every keyword type comes from exactly one reserved word. */
  lemma KeywordsInjective(w1: string, w2: string)
    requires w1 in Keywords && w2 in Keywords && Keywords[w1] == Keywords[w2]
    ensures w1 == w2
  {
  }

  /** Every keyword type is reached by some reserved word. */
  lemma KeywordsCover(t: TokenType)
    requires t.IsKeyword()
    ensures exists w :: w in Keywords && LookupIdent(w) == t
  {
    if t == Function { assert LookupIdent("fn") == t; }
    else if t == Let { assert LookupIdent("let") == t; }
    else if t == If { assert LookupIdent("if") == t; }
    else if t == Else { assert LookupIdent("else") == t; }
    else if t == Return { assert LookupIdent("return") == t; }
    else if t == True { assert LookupIdent("true") == t; }
    else { assert LookupIdent("false") == t; }
  }
}
