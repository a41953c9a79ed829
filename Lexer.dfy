/**
 * The lexer: a cursor over the input text that hands out one token per call.
 *
 * `Scan` is the reference definition of one call of `nextToken` as a pure function of the
 * input and the cursor position; the `Lexer` class keeps the source's mutable cursor
 * (`position`, `readPosition`, `ch`) and each of its methods is proved against it.
 */
module Lexing {
  import opened Options
  import opened Tokens

  // ---------------------------------------------------------------- character classes

  predicate IsLetter(c: char) { 'a' <= c <= 'z' || 'A' <= c <= 'Z' || c == '_' }

  predicate IsDigit(c: char) { '0' <= c <= '9' }

  predicate IsWhitespace(c: char) { c == ' ' || c == '\t' || c == '\n' || c == '\r' }

  /** The character at `i`, or none past the end (Kotlin `getOrNull`). */
  function CharAt(input: string, i: nat): (r: Option<char>)
    ensures r.Some? <==> i < |input|
    ensures r.Some? ==> r.value == input[i]
  {
    if i < |input| then Some(input[i]) else None
  }

  // ---------------------------------------------------------------- reference definition

  /** The first position at or after `i` that does not hold whitespace. */
  function SkipFrom(input: string, i: nat): (r: nat)
    ensures r >= i
    ensures r > i ==> r <= |input|
    ensures r < |input| ==> !IsWhitespace(input[r])
    ensures forall k :: i <= k < r ==> IsWhitespace(input[k])
    decreases |input| - i
  {
    if i < |input| && IsWhitespace(input[i]) then SkipFrom(input, i + 1) else i
  }

  /** The end of the run of characters satisfying `p` that starts at `i`. */
  function RunEnd(input: string, i: nat, p: char -> bool): (r: nat)
    requires i <= |input|
    ensures i <= r <= |input|
    ensures forall k :: i <= k < r ==> p(input[k])
    ensures r < |input| ==> !p(input[r])
    decreases |input| - i
  {
    if i < |input| && p(input[i]) then RunEnd(input, i + 1, p) else i
  }

  /** The position of the first `"` at or after `i`, or the end of the input. */
  function StringEnd(input: string, i: nat): (r: nat)
    requires i <= |input|
    ensures i <= r <= |input|
    ensures forall k :: i <= k < r ==> input[k] != '"'
    ensures r < |input| ==> input[r] == '"'
    decreases |input| - i
  {
    if i == |input| || input[i] == '"' then i else StringEnd(input, i + 1)
  }

  /** Token types of the characters that form a token on their own. */
  function SingleCharType(c: char): TokenType
  {
    match c
    case ',' => Comma
    case ';' => Semicolon
    case ':' => Colon
    case '(' => LParen
    case ')' => RParen
    case '{' => LBrace
    case '}' => RBrace
    case '[' => LBracket
    case ']' => RBracket
    case '=' => Assign
    case '+' => Plus
    case '-' => Minus
    case '!' => Bang
    case '/' => Slash
    case '*' => Asterisk
    case '<' => Lt
    case '>' => Gt
    case _ => Illegal
  }

  /** One call of `nextToken`: the token produced and the cursor position after it. */
  datatype Step = Step(token: Token, next: nat)

  /**
   * The token at cursor position `pos`: whitespace is skipped; letters and digits are read
   * greedily; `==` and `!=` take one character of lookahead; a string runs to the next `"`
   * (or the end of the input); any other character is a token by itself, ILLEGAL when it
   * is not a delimiter or operator. Past the end of the input the token is EOF.
   */
  function Scan(input: string, pos: nat): Step
  {
    var p := SkipFrom(input, pos);
    if p >= |input| then Step(Token(Eof, ""), p + 1)
    else
      var c := input[p];
      if IsLetter(c) then
        var e := RunEnd(input, p, IsLetter);
        Step(Token(LookupIdent(input[p..e]), input[p..e]), e)
      else if IsDigit(c) then
        var e := RunEnd(input, p, IsDigit);
        Step(Token(Int, input[p..e]), e)
      else if c == '=' && p + 1 < |input| && input[p + 1] == '=' then
        Step(Token(Eq, "=="), p + 2)
      else if c == '!' && p + 1 < |input| && input[p + 1] == '=' then
        Step(Token(NotEq, "!="), p + 2)
      else if c == '"' then
        var e := StringEnd(input, p + 1);
        Step(Token(String, input[p + 1..e]), e + 1)
      else
        Step(Token(SingleCharType(c), [c]), p + 1)
  }

  /** All the tokens of `input` from `pos` on, up to and including the first EOF. */
  function Tokenize(input: string, pos: nat): (ts: seq<Token>)
    ensures |ts| > 0 && ts[|ts| - 1].kind == Eof
    ensures forall i :: 0 <= i < |ts| - 1 ==> ts[i].kind != Eof
    decreases |input| + 1 - pos
  {
    var st := Scan(input, pos);
    if st.token.kind == Eof then [st.token]
    else
      ScanProgress(input, pos);
      [st.token] + Tokenize(input, st.next)
  }

  // ---------------------------------------------------------------- properties of Scan

  /** Every call moves the cursor forward; only EOF is produced at or past the end. */
  lemma ScanProgress(input: string, pos: nat)
    ensures Scan(input, pos).next > pos
    ensures Scan(input, pos).token.kind != Eof ==> pos < |input| && Scan(input, pos).next <= |input| + 1
    ensures Scan(input, pos).token.kind == Eof <==> SkipFrom(input, pos) >= |input|
  {
  }

  /** Leading whitespace does not matter: scanning from after it gives the same step. */
  lemma {:induction false} WhitespaceIrrelevant(input: string, pos: nat)
    ensures Scan(input, pos) == Scan(input, SkipFrom(input, pos))
  {
    SkipFromIdempotent(input, pos);
  }

  lemma {:induction false} SkipFromIdempotent(input: string, i: nat)
    ensures SkipFrom(input, SkipFrom(input, i)) == SkipFrom(input, i)
    decreases |input| - i
  {
    if i < |input| && IsWhitespace(input[i]) {
      SkipFromIdempotent(input, i + 1);
    }
  }

  /** Once the end of the input is reached, every further call yields EOF again. */
  lemma EofIsSticky(input: string, pos: nat)
    requires Scan(input, pos).token.kind == Eof
    ensures Scan(input, Scan(input, pos).next).token == Token(Eof, "")
  {
  }

  /**
   * The literal of every token but STRING and EOF is exactly the text it was read from,
   * starting at the first non-blank character; the cursor ends right after it.
   */
  lemma LiteralIsSourceText(input: string, pos: nat)
    requires Scan(input, pos).token.kind !in {Eof, String}
    ensures var p := SkipFrom(input, pos);
      var st := Scan(input, pos);
      p + |st.token.literal| == st.next <= |input| && input[p..st.next] == st.token.literal
  {
  }

  /**
   * A STRING token holds the characters between the opening quote and the next quote (or
   * the end of the input), none of which is a quote; the cursor ends after the closing quote.
   */
  lemma StringLiteralVerbatim(input: string, pos: nat)
    requires Scan(input, pos).token.kind == String
    ensures var p := SkipFrom(input, pos);
      var st := Scan(input, pos);
      p < |input| && input[p] == '"' && st.next == p + 2 + |st.token.literal|
      && input[p + 1..p + 1 + |st.token.literal|] == st.token.literal
      && (forall k :: 0 <= k < |st.token.literal| ==> st.token.literal[k] != '"')
      && (st.next <= |input| ==> input[st.next - 1] == '"')
  {
    var p := SkipFrom(input, pos);
    assert p < |input| && input[p] == '"';
    var e := StringEnd(input, p + 1);
    var literal := input[p + 1..e];
    assert Scan(input, pos) == Step(Token(String, literal), e + 1);
    forall k | 0 <= k < |literal|
      ensures literal[k] != '"'
    {
      assert literal[k] == input[p + 1 + k];
    }
  }

  /**
   * Identifiers, keywords and integers are read greedily: the token is non-empty, made of
   * the one character class, and the character after it is not of that class.
   */
  lemma MaximalMunch(input: string, pos: nat)
    requires Scan(input, pos).token.kind in {Ident, Int} || Scan(input, pos).token.kind.IsKeyword()
    ensures var st := Scan(input, pos);
      var lit := st.token.literal;
      var isWord := st.token.kind != Int;
      |lit| > 0
      && (forall k :: 0 <= k < |lit| ==> if isWord then IsLetter(lit[k]) else IsDigit(lit[k]))
      && (st.next < |input| ==> if isWord then !IsLetter(input[st.next]) else !IsDigit(input[st.next]))
      && (isWord ==> st.token.kind == LookupIdent(lit))
  {
  }

  /** Operator and delimiter tokens carry their type's display value as their literal. */
  lemma SymbolLiterals(input: string, pos: nat)
    requires Scan(input, pos).token.kind.IsSymbol()
    ensures Scan(input, pos).token.literal == Scan(input, pos).token.kind.Value()
  {
  }

  /** A character that starts no token is reported as ILLEGAL with itself as the literal. */
  lemma IllegalCharacter(input: string, pos: nat)
    requires Scan(input, pos).token.kind == Illegal
    ensures var p := SkipFrom(input, pos);
      p < |input| && Scan(input, pos).token.literal == [input[p]]
      && !IsLetter(input[p]) && !IsDigit(input[p]) && !IsWhitespace(input[p])
      && input[p] !in "\",;:(){}[]=+-!/*<>"
  {
  }

  /** A character that lexes as a one-character delimiter or operator at position `k`. */
  predicate IsSymbolAt(s: string, k: nat)
    requires k < |s|
  {
    SingleCharType(s[k]) != Illegal
    && ((s[k] == '=' || s[k] == '!') ==> k + 1 == |s| || s[k + 1] != '=')
  }

  /** The one-character tokens of a text made only of delimiters and operators. */
  function SymbolTokens(s: string): seq<Token>
  {
    if s == [] then [] else [Token(SingleCharType(s[0]), [s[0]])] + SymbolTokens(s[1..])
  }

  /** One step of `Tokenize`: a token other than EOF is followed by the tokens after it. */
  lemma TokenizeStep(s: string, i: nat)
    requires Scan(s, i).token.kind != Eof
    ensures Tokenize(s, i) == [Scan(s, i).token] + Tokenize(s, Scan(s, i).next)
  {
  }

  lemma ScanSymbol(s: string, i: nat)
    requires i < |s| && IsSymbolAt(s, i)
    ensures Scan(s, i) == Step(Token(SingleCharType(s[i]), [s[i]]), i + 1)
  {
    assert !IsWhitespace(s[i]) && !IsLetter(s[i]) && !IsDigit(s[i]) && s[i] != '"';
    assert SkipFrom(s, i) == i;
  }

  /** A run of delimiters and operators with no blank between them lexes one token per character. */
  lemma {:induction false} SymbolRun(s: string, i: nat)
    requires i <= |s|
    requires forall k :: i <= k < |s| ==> IsSymbolAt(s, k)
    ensures Tokenize(s, i) == SymbolTokens(s[i..]) + [Token(Eof, "")]
    decreases |s| - i
  {
    if i < |s| {
      var token := Token(SingleCharType(s[i]), [s[i]]);
      ScanSymbol(s, i);
      TokenizeStep(s, i);
      SymbolRun(s, i + 1);
      assert s[i..][0] == s[i] && s[i..][1..] == s[i + 1..];
      assert SymbolTokens(s[i..]) == [token] + SymbolTokens(s[i + 1..]);
    } else {
      assert Scan(s, i).token.kind == Eof;
    }
  }

  /** The first token test of the lexer: each symbol of `=+(){},;` is a token on its own. */
  lemma SymbolsExample(s: string)
    requires s == "=+(){},;"
    ensures Tokenize(s, 0) ==
      [Token(Assign, "="), Token(Plus, "+"), Token(LParen, "("), Token(RParen, ")"),
       Token(LBrace, "{"), Token(RBrace, "}"), Token(Comma, ","), Token(Semicolon, ";"),
       Token(Eof, "")]
  {
    SymbolsExampleChars(s);
    SymbolRun(s, 0);
    assert s[0..] == s;
    SymbolsExampleTokens();
  }

  lemma SymbolsExampleTokens()
    ensures SymbolTokens("=+(){},;") ==
      [Token(Assign, "="), Token(Plus, "+"), Token(LParen, "("), Token(RParen, ")"),
       Token(LBrace, "{"), Token(RBrace, "}"), Token(Comma, ","), Token(Semicolon, ";")]
  {
    var s := "=+(){},;";
    SymbolTokensAt(s);
    var ts := SymbolTokens(s);
    assert ts[0] == Token(Assign, "=") && ts[1] == Token(Plus, "+");
    assert ts[2] == Token(LParen, "(") && ts[3] == Token(RParen, ")");
    assert ts[4] == Token(LBrace, "{") && ts[5] == Token(RBrace, "}");
    assert ts[6] == Token(Comma, ",") && ts[7] == Token(Semicolon, ";");
  }

  /** The `k`-th symbol token is the `k`-th character, with the type it has on its own. */
  lemma {:induction false} SymbolTokensAt(s: string)
    ensures |SymbolTokens(s)| == |s|
    ensures forall k :: 0 <= k < |s| ==> SymbolTokens(s)[k] == Token(SingleCharType(s[k]), [s[k]])
  {
    if s != [] {
      SymbolTokensAt(s[1..]);
    }
  }

  lemma SymbolsExampleChars(s: string)
    requires s == "=+(){},;"
    ensures forall k :: 0 <= k < |s| ==> IsSymbolAt(s, k)
  {
    assert IsSymbolAt(s, 0) && IsSymbolAt(s, 1) && IsSymbolAt(s, 2) && IsSymbolAt(s, 3);
    assert IsSymbolAt(s, 4) && IsSymbolAt(s, 5) && IsSymbolAt(s, 6) && IsSymbolAt(s, 7);
  }

  /** `==` and `!=` take one character of lookahead; alone, `=` and `!` are one token. */
  lemma LookaheadExamples()
    ensures Scan("  != 9", 0) == Step(Token(NotEq, "!="), 4)
    ensures Scan("!x", 0) == Step(Token(Bang, "!"), 1)
    ensures Scan("== 10", 0) == Step(Token(Eq, "=="), 2)
    ensures Scan("=5", 0) == Step(Token(Assign, "="), 1)
  {
  }

  /** Keywords and identifiers are read greedily, then looked up. */
  lemma WordExamples()
    ensures Scan("let five", 0) == Step(Token(Let, "let"), 3)
    ensures Scan("let five", 3) == Step(Token(Ident, "five"), 8)
  {
    var s := "let five";
    assert s[0..3] == "let" && s[4..8] == "five";
  }

  /** Integers are runs of digits; the characters after the run stay for the next call. */
  lemma IntExample()
    ensures Scan(" 10;", 0) == Step(Token(Int, "10"), 3)
  {
    var s := " 10;";
    assert s[1..3] == "10";
  }

  /** A string token holds the text between the quotes, whitespace included. */
  lemma StringExample()
    ensures Scan("\"foo bar\";", 0) == Step(Token(String, "foo bar"), 9)
  {
    var t := "\"foo bar\";";
    assert StringEnd(t, 1) == 8 by {
      assert StringEnd(t, 8) == 8;
      assert StringEnd(t, 7) == 8 && StringEnd(t, 6) == 8 && StringEnd(t, 5) == 8;
      assert StringEnd(t, 4) == 8 && StringEnd(t, 3) == 8 && StringEnd(t, 2) == 8;
    }
    assert t[1..8] == "foo bar";
  }

  /** An unterminated string runs to the end of the input. */
  lemma UnterminatedStringExample()
    ensures Scan("\"ab", 0) == Step(Token(String, "ab"), 4)
  {
    var t := "\"ab";
    assert StringEnd(t, 1) == 3 by {
      assert StringEnd(t, 3) == 3;
      assert StringEnd(t, 2) == 3;
    }
    assert t[1..3] == "ab";
  }

  /** Unknown characters are ILLEGAL; blank input ends in EOF past the blanks. */
  lemma IllegalAndEofExamples()
    ensures Scan("@", 0) == Step(Token(Illegal, "@"), 1)
    ensures Scan(" \t\n", 0) == Step(Token(Eof, ""), 4)
  {
  }

  // ---------------------------------------------------------------- the lexer object

  class Lexer {
    const input: string
    var position: nat
    var readPosition: nat
    var ch: Option<char>

    /** The cursor invariant: `ch` is the character at `position`, read one ahead. */
    ghost predicate Valid()
      reads this
    {
      readPosition == position + 1 && ch == CharAt(input, position)
    }

    constructor(input: string)
      ensures this.input == input && position == 0 && Valid()
    {
      this.input := input;
      position := 0;
      readPosition := 0;
      ch := None;
      new;
      ReadChar();
    }

    /** Advance the cursor by one character. */
    method ReadChar()
      modifies this
      ensures ch == CharAt(input, old(readPosition))
      ensures position == old(readPosition) && readPosition == old(readPosition) + 1
    {
      ch := CharAt(input, readPosition);
      position := readPosition;
      readPosition := readPosition + 1;
    }

    /** The character after the current one, without moving. */
    function PeekChar(): (r: Option<char>)
      reads this
      requires Valid()
      ensures r == CharAt(input, position + 1)
    {
      CharAt(input, readPosition)
    }

    method SkipWhitespace()
      requires Valid()
      modifies this
      ensures Valid() && position == SkipFrom(input, old(position))
    {
      while ch.Some? && IsWhitespace(ch.value)
        invariant Valid()
        invariant old(position) <= position <= SkipFrom(input, old(position))
        invariant SkipFrom(input, position) == SkipFrom(input, old(position))
        decreases |input| - position
      {
        ReadChar();
      }
    }

    /** Read the run of characters satisfying `p` from the cursor on and return it. */
    method Read(p: char -> bool) returns (literal: string)
      requires Valid() && position <= |input|
      modifies this
      ensures Valid() && position == RunEnd(input, old(position), p)
      ensures literal == input[old(position)..position]
    {
      var start := position;
      while ch.Some? && p(ch.value)
        invariant Valid() && start <= position <= RunEnd(input, start, p)
        invariant RunEnd(input, position, p) == RunEnd(input, start, p)
        decreases |input| - position
      {
        ReadChar();
      }
      literal := input[start..position];
    }

    /** The cursor is on an opening quote: read up to the closing quote and return the text between. */
    method ReadString() returns (literal: string)
      requires Valid() && position < |input|
      modifies this
      ensures Valid() && position == StringEnd(input, old(position) + 1)
      ensures literal == input[old(position) + 1..position]
    {
      var start := position + 1;
      while true
        invariant Valid() && start - 1 <= position < |input|
        invariant StringEnd(input, position + 1) == StringEnd(input, start)
        decreases |input| - position
      {
        ReadChar();
        if ch == Some('"') || ch.None? {
          break;
        }
      }
      literal := input[start..position];
    }

    /** The next token of the input; the cursor moves past it. */
    method NextToken() returns (token: Token)
      requires Valid()
      modifies this
      ensures Valid() && Scan(input, old(position)) == Step(token, position)
    {
      SkipWhitespace();
      var c := ch;
      if c.Some? && IsLetter(c.value) {
        var literal := Read(IsLetter);
        return Token(LookupIdent(literal), literal);
      }
      if c.Some? && IsDigit(c.value) {
        var literal := Read(IsDigit);
        return Token(Int, literal);
      }
      if c.None? {
        token := Token(Eof, "");
      } else if c.value == '=' {
        var peek := PeekChar();
        if peek == Some('=') {
          ReadChar();
          token := Token(Eq, "==");
        } else {
          token := Token(Assign, "=");
        }
      } else if c.value == '!' {
        var peek := PeekChar();
        if peek == Some('=') {
          ReadChar();
          token := Token(NotEq, "!=");
        } else {
          token := Token(Bang, "!");
        }
      } else if c.value == '"' {
        var literal := ReadString();
        token := Token(String, literal);
      } else {
        token := Token(SingleCharType(c.value), [c.value]);
      }
      ReadChar();
    }
  }
}
