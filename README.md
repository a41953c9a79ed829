# Monkey interpreter, modelled in Dafny

This project models the core of a tree-walking interpreter for the Monkey language, written in
Kotlin. The core has four stages:

- **Tokens and lexer** (`Tokens`, `Lexing`): the token types, the keyword table and the lexer.
  The lexer is a class whose position and current character advance over the input. A pure
  scanner, `Scan`, specifies it, and `Tokenize` is the whole token stream.
- **Syntax tree and parser** (`Ast`, `Precedences`, `ParseTrees`, `Parsing`):
  - The syntax tree and its canonical text.
  - The binding powers of the Pratt parser.
  - Parse trees (`ParseTrees`): a ghost tree for each construct that also keeps its punctuation
    (parentheses, commas, colons, semicolons, braces). `Yield` gives the tokens a tree was read
    from, in order, and `Erase` gives the syntax tree it stands for. `WellNested` says that every
    operand binds as tightly as the precedence table requires. In a well-nested program or
    block, a statement without its own `;` is followed by a token that is not `;` and has no
    infix precedence, so its expression could not have gone on.
  - The parser itself. It is a class over a lexer, with a current and a next token and a growing
    list of error messages. A ghost trail `passed` records every token it has consumed. Each
    parse method returns, beside its result, a ghost tree whose yield is exactly the tokens the
    method consumed and whose erasure is its result. When no error was recorded, that tree is
    well nested.
  - For the expression shapes of one identifier, `x op y` and `x op1 y op2 z`, the yield of a
    well-nested tree pins the tree down (`ParseTrees.SingleIdentifier`, `ThreeTokens`,
    `TwoOperators`): `a * b + c` can only be `((a * b) + c)` and `a - b - c` only
    `((a - b) - c)`. So on those shapes what the parser builds from a token stream without
    errors follows the precedence table and associates to the left. Between statements,
    `ParseTrees.StatementSplit` shows that `a - b` at the end of the input is one statement
    `(a - b)`, not `a` followed by `(-b)`. Uniqueness is not proved for longer token streams.
- **Values, environments and builtins** (`KotlinInt`, `Objects`, `Environments`, `Builtins`):
  - Runtime values with Kotlin's 32-bit `Int` arithmetic and their printed form.
  - Chained environments. They live in a store of scopes that an `Environments` object updates
    in place.
  - The six builtin functions.
- **Evaluator** (`Operators`, `Semantics`, `Interpreter`):
  - The operators on computed values.
  - The evaluator, as functions that thread the store of environments.
  - The loops of `evalProgram`, `evalBlockStatement` and `extendFunctionEnv`, as methods over
    an `Environments` object. Each is proved to do what the functions do.

`EvalProperties` proves general laws of evaluation:

- errors short-circuit;
- return values end blocks;
- lookups follow the environment chain;
- parameters are bound by position;
- more fuel never changes a result.

`EvalExamples` works through programs from the evaluator's behaviour: closures, nested returns,
hash keys, builtins and arithmetic.

A run of the evaluator has a `fuel` bound on call depth. It stands for the host stack, which a
deeply recursive Monkey program exhausts in the original. Running out of fuel is the outcome
`Halted(OutOfFuel)`. Kotlin's `ArithmeticException` on a division by zero is
`Halted(DivideByZero)`.

The model follows these behaviours of the code, which are easy to miss:

- A program's result can be a return value. `evalProgram` (`src/main/kotlin/Evaluator.kt:61-70`)
  unwraps one level of return value. A `return` statement (`src/main/kotlin/Evaluator.kt:6-10`)
  wraps whatever its expression gives, and that can already be a return value. So
  `return if (true) { return 5; };` ends with `Return(5)`; see
  `EvalExamples.ProgramMayEndWithReturn`.
- A return value is not checked for when it is an operand. `1 + if (true) { return 2; }` is the
  error "type mismatch: INTEGER + RETURN"; see `EvalExamples.ReturnAsOperand`.
- Integer division by zero is not an error value. The Kotlin division throws and ends the
  run.
- `"a" == "a"` is an error ("unknown operator: STRING == STRING"), not `true`. Two strings have
  only `+`.
- `let` evaluates to the value it binds. A `let` inside an `if` block binds in the enclosing
  environment, because blocks open no scope; see `EvalExamples.LetInBlockIsVisibleAfter`.
- `push` requires an integer as its second argument. Its wrong-arity message says `want=1`.
- Among duplicate hash keys the last one wins.
- When an integer literal fails to parse, the parser records two errors. It records the integer
  error, and then the "no prefix parse function" error that every failed prefix parse adds.
- A function parameter may be any token, not only an identifier.

## Model

| member | source | states |
|---|---|---|
| Tokens.LookupIdent | src/main/kotlin/Token.kt:42-54 | a word is an identifier exactly when it is not one of the seven keywords, and otherwise its keyword token type |
| Tokens.ValueInjective | src/main/kotlin/Token.kt:3-38 | no two token types share a printed value |
| Tokens.NamedValue | src/main/kotlin/Token.kt:3-38 | every token type's printed value names it back |
| Tokens.KeywordsInjective | src/main/kotlin/Token.kt:42-50 | no two keywords map to the same token type |
| Tokens.KeywordsCover | src/main/kotlin/Token.kt:42-54 | every keyword token type is produced by looking up some word |
| KotlinInt.Wrap32 | src/main/kotlin/Evaluator.kt:180-192 | 32-bit wrap-around: the result is congruent to the exact value modulo 2^32, and equal to it when it fits |
| KotlinInt.Wrap32Unique | src/main/kotlin/Evaluator.kt:180-192 | the 32-bit value congruent to an integer is unique |
| KotlinInt.TruncDivSpec | src/main/kotlin/Evaluator.kt:185 | JVM division: quotient times divisor plus remainder is the dividend; the remainder is smaller than the divisor and has the dividend's sign |
| KotlinInt.TruncDivProduct | src/main/kotlin/Evaluator.kt:185 | the quotient's magnitude is the magnitudes' floor quotient, and quotient times divisor has the dividend's sign |
| KotlinInt.TruncDivInRange | src/main/kotlin/Evaluator.kt:185 | the quotient fits in 32 bits except for MinInt / -1 |
| KotlinInt.IntToStringRoundTrip | src/main/kotlin/Object.kt:21-26 | an integer's decimal text reads back with `toIntOrNull` as the same integer |
| KotlinInt.DigitsAccepted | src/main/kotlin/Parser.kt:157-164 | a digit string is accepted by `toIntOrNull` exactly when its value fits in an `Int`, and then gives that value |
| Lexing.CharAt | src/main/kotlin/Lexer.kt:80-84 | the character at a position, none exactly past the end |
| Lexing.SkipFrom | src/main/kotlin/Lexer.kt:90-92 | the first non-whitespace position: everything skipped is whitespace and what follows is not |
| Lexing.RunEnd | src/main/kotlin/Lexer.kt:94-98 | the end of the longest run of characters with a property |
| Lexing.StringEnd | src/main/kotlin/Lexer.kt:69-78 | the position of the closing quote, or the end of the input when there is none |
| Lexing.Tokenize | src/main/kotlin/Lexer.kt:13-67 | the token stream ends with exactly one EOF token |
| Lexing.ScanProgress | src/main/kotlin/Lexer.kt:13-67 | every token advances the position; EOF comes exactly when only whitespace is left |
| Lexing.WhitespaceIrrelevant | src/main/kotlin/Lexer.kt:13-14 | leading whitespace does not change the next token |
| Lexing.SkipFromIdempotent | src/main/kotlin/Lexer.kt:90-92 | skipping whitespace twice is skipping it once |
| Lexing.EofIsSticky | src/main/kotlin/Lexer.kt:28 | after EOF the lexer keeps returning EOF with an empty literal |
| Lexing.LiteralIsSourceText | src/main/kotlin/Lexer.kt:13-67 | every token but EOF and strings has as its literal exactly the source text it consumed |
| Lexing.StringLiteralVerbatim | src/main/kotlin/Lexer.kt:62 | a string token holds the text between the quotes verbatim, contains no quote, and its closing quote is consumed |
| Lexing.MaximalMunch | src/main/kotlin/Lexer.kt:18-25 | identifiers, keywords and integers take the longest run of letters or digits, and words go through the keyword table |
| Lexing.SymbolLiterals | src/main/kotlin/Lexer.kt:30-61 | a symbol token's literal is its token type's value |
| Lexing.IllegalCharacter | src/main/kotlin/Lexer.kt:63 | an ILLEGAL token is exactly one character that starts no other token |
| Lexing.TokenizeStep | src/main/kotlin/Lexer.kt:13-67 | the stream is the next token followed by the stream after it |
| Lexing.ScanSymbol | src/main/kotlin/Lexer.kt:30-61 | a one-character symbol gives its token and advances by one |
| Lexing.SymbolRun | src/main/kotlin/Lexer.kt:30-61 | a run of one-character symbols gives one token per character, then EOF |
| Lexing.SymbolsExample | src/main/kotlin/Lexer.kt:13-67 | `=+(){},;` gives its eight tokens and EOF |
| Lexing.LookaheadExamples | src/main/kotlin/Lexer.kt:38-57 | `!=` and `==` take two characters, `!` and `=` alone take one |
| Lexing.WordExamples | src/main/kotlin/Lexer.kt:18-21 | `let five` gives the keyword then the identifier |
| Lexing.IntExample | src/main/kotlin/Lexer.kt:22-25 | ` 10;` gives INT `10` |
| Lexing.StringExample | src/main/kotlin/Lexer.kt:62 | a quoted string gives its contents |
| Lexing.UnterminatedStringExample | src/main/kotlin/Lexer.kt:69-78 | an unterminated string runs to the end of the input |
| Lexing.IllegalAndEofExamples | src/main/kotlin/Lexer.kt:28 | `@` is ILLEGAL; input of only whitespace gives EOF |
| Lexing.Lexer.constructor | src/main/kotlin/Lexer.kt:5-11 | a new lexer has read the first character |
| Lexing.Lexer.ReadChar | src/main/kotlin/Lexer.kt:80-84 | the read position moves to the next character, none past the end |
| Lexing.Lexer.PeekChar | src/main/kotlin/Lexer.kt:86-88 | the character after the current one, without moving |
| Lexing.Lexer.SkipWhitespace | src/main/kotlin/Lexer.kt:90-92 | the position moves to where `SkipFrom` says |
| Lexing.Lexer.Read | src/main/kotlin/Lexer.kt:94-98 | the literal is the longest run from the position, and the position moves past it |
| Lexing.Lexer.ReadString | src/main/kotlin/Lexer.kt:69-78 | the literal is the text up to the closing quote or the end |
| Lexing.Lexer.NextToken | src/main/kotlin/Lexer.kt:13-67 | the token and the new position are what `Scan` gives from the old position |
| Ast.Join | src/main/kotlin/Ast.kt:5-8 | joining no parts gives the empty string; one part gives that part |
| Ast.ExprsText | src/main/kotlin/Ast.kt:107-127 | the text of a list is each expression's text, in order |
| Ast.StatementsText | src/main/kotlin/Ast.kt:34-39 | the text of a statement list is each statement's text, in order |
| Ast.PairsText | src/main/kotlin/Ast.kt:129-136 | the text of a hash's pairs is each pair's `key:value` text, in order |
| Ast.StatementsTextConcat | src/main/kotlin/Ast.kt:34-39 | the text of two statement lists run together is the concatenation of their texts |
| Ast.JoinSnoc | src/main/kotlin/Ast.kt:120-127 | appending a part appends the separator and that part |
| Ast.JoinConcat | src/main/kotlin/Ast.kt:5-8 | joining two lists without a separator concatenates their texts |
| Ast.ProgramTextConcat | src/main/kotlin/Ast.kt:5-8 | the text of two programs run together is the concatenation of their texts |
| Ast.OperatorsParenthesised | src/main/kotlin/Ast.kt:66-79 | prefix, binary and index expressions print in parentheses |
| Ast.BlockTextEndsWithSemicolon | src/main/kotlin/Ast.kt:34-39 | a block's text ends with `;` |
| Ast.LetTextExample | src/main/kotlin/Ast.kt:15-22 | `let myVar = anotherVar;` prints as written |
| Ast.FunctionBodyTextExample | src/main/kotlin/Ast.kt:29-39 | a body statement prints with a trailing `;` |
| Ast.ProgramTextExample | src/main/kotlin/Ast.kt:66-79 | `3 + 4; -5 * 5` prints as `(3 + 4)((-5) * 5)` |
| Ast.ArrayTextExample | src/main/kotlin/Ast.kt:120-127 | an array prints its elements with `, ` between brackets |
| Ast.IndexTextExample | src/main/kotlin/Ast.kt:138-141 | `a * [1, 2][b]` prints as `(a * ([1, 2][b]))` |
| Ast.HashTextExample | src/main/kotlin/Ast.kt:129-136 | a hash prints its `key:value` pairs with `, ` between braces |
| Precedences.InfixTable | src/main/kotlin/Parser.kt:16-27 | a token has a precedence above the lowest exactly when it has an infix parse function; `(` is CALL and `[` is INDEX |
| Precedences.PrecedenceOrder | src/main/kotlin/Parser.kt:5-27 | EQUALS < LESSGREATER < SUM < PRODUCT < PREFIX < CALL < INDEX, as the operators `==`, `<`, `+`, `*`, `(` and `[` see them |
| Precedences.PrecedencePairs | src/main/kotlin/Parser.kt:17-27 | `==`/`!=`, `<`/`>`, `+`/`-` and `*`/`/` each share a level |
| ParseTrees.EraseList | src/main/kotlin/Parser.kt:256-271 | the elements of a list are those that parsed, in order; with no broken element, one per tree |
| ParseTrees.Names | src/main/kotlin/Parser.kt:237-254 | each parameter is the identifier named by its token's literal, in order |
| ParseTrees.ErasePairs | src/main/kotlin/Parser.kt:293-311 | one pair per pair tree, in order |
| ParseTrees.EraseStatements | src/main/kotlin/Parser.kt:68-75 | the statements are those that parsed, in order; with no broken statement, one per tree |
| ParseTrees.StatementsSnoc | src/main/kotlin/Parser.kt:70-73 | one more statement adds its tokens at the end, and its syntax unless it failed |
| ParseTrees.AfterSnoc | src/main/kotlin/Parser.kt:70-73 | appending a statement that parsed leaves the token after each earlier statement as it was, the last one's becoming the new statement's first token |
| ParseTrees.EndsSeparatedSnoc | src/main/kotlin/Parser.kt:70-73 | a statement that starts where the previous one stopped, and stops before a token that cannot continue it, keeps the statements separated as the parser separates them |
| ParseTrees.ListSnoc | src/main/kotlin/Parser.kt:264-268 | one more element adds a comma and its tokens at the end, and its expression unless it failed |
| ParseTrees.ListNestedSnoc | src/main/kotlin/Parser.kt:264-268 | a comma and a well-nested element keep a list well nested |
| ParseTrees.SeparatedSnoc | src/main/kotlin/Parser.kt:246-250 | one more parameter adds a comma and its token at the end |
| ParseTrees.NamesSnoc | src/main/kotlin/Parser.kt:246-250 | one more parameter adds its identifier at the end |
| ParseTrees.PairsSnoc | src/main/kotlin/Parser.kt:296-308 | one more pair adds its tokens and its key and value at the end |
| ParseTrees.PairsNestedSnoc | src/main/kotlin/Parser.kt:296-308 | a pair after a comma keeps the pairs well nested |
| ParseTrees.ProductOverSum | src/main/kotlin/Parser.kt:137-150 | a product never has an unparenthesised sum as an operand |
| ParseTrees.GroupedSum | src/main/kotlin/Parser.kt:200-205 | with its parentheses, a sum can be the right operand of a product |
| ParseTrees.LeftAssociative | src/main/kotlin/Parser.kt:137-150 | operators of one level nest to the left and never to the right |
| ParseTrees.PrefixBindsTighter | src/main/kotlin/Parser.kt:176-184 | a prefix operator never applies to an unparenthesised binary expression |
| ParseTrees.CallsBindTightest | src/main/kotlin/Parser.kt:273-291 | calls and indexing apply to an operator expression only through parentheses |
| ParseTrees.YieldNonEmpty | src/main/kotlin/Parser.kt:137-150 | every well-nested expression was read from at least one token |
| ParseTrees.IdentifierEnds | src/main/kotlin/Parser.kt:137-150 | a well-nested expression that begins and ends with an identifier is an identifier or a binary operation |
| ParseTrees.BinaryParts | src/main/kotlin/Parser.kt:186-198 | a binary operation's tokens are its left operand's, its operator, then its right operand's |
| ParseTrees.SingleIdentifier | src/main/kotlin/Parser.kt:152-155 | the only well-nested tree read from one identifier is that identifier |
| ParseTrees.ThreeTokens | src/main/kotlin/Parser.kt:137-150 | the only well-nested tree read from `x op y` is that operation |
| ParseTrees.TwoOperators | src/main/kotlin/Parser.kt:137-150 | `x op1 y op2 z` has one well-nested reading: `op2` takes `y` exactly when it binds strictly tighter than `op1`, otherwise the operations nest to the left |
| ParseTrees.SecondBindsTighter | src/main/kotlin/Parser.kt:144-148 | when `op1`'s right operand is `y op2 z`, `op2` binds strictly tighter |
| ParseTrees.StatementSplit | src/main/kotlin/Parser.kt:115-123 | `a - b` followed by EOF is one well-nested statement `(a - b)`; `a` followed by the statement `(-b)` is not well nested, since `a` would stop before `-`, which has infix precedence |
| ParseTrees.FirstBindsTighter | src/main/kotlin/Parser.kt:144-148 | when `x op1 y` is `op2`'s left operand, `op2` binds no tighter than `op1` |
| Parsing.Parser.constructor | src/main/kotlin/Parser.kt:63-66 | a new parser has read the lexer's first two tokens, has no errors and has consumed nothing |
| Parsing.Parser.NextToken | src/main/kotlin/Parser.kt:79-82 | the next token becomes current, the lexer's next token becomes next, and the old current token is consumed |
| Parsing.Parser.ExpectPeek | src/main/kotlin/Parser.kt:317-325 | advances exactly when the next token has the expected type; otherwise records exactly "expected next token to be …" and changes nothing else |
| Parsing.Parser.ParseProgram | src/main/kotlin/Parser.kt:68-75 | reads every token up to EOF; the statement trees yield exactly those tokens, and the program's statements are, in order, those of the trees that parsed, failed ones dropped; without errors every statement is well nested and each one without `;` is followed by a token that cannot continue it |
| Parsing.Parser.ParseStatementStep | src/main/kotlin/Parser.kt:71-72 | one statement and the token after it: consumes its tree's tokens, shrinks the input, and keeps the statement exactly when it parsed; the tree starts at the old current token, and without errors the new current token cannot continue a statement that has no `;` |
| Parsing.Parser.ParseStatement | src/main/kotlin/Parser.kt:84-90 | `let`, `return` or an expression statement by the current token; consumes exactly its tree's tokens; no statement exactly when the tree is broken, and then an error was recorded; otherwise the statement is the tree's syntax and starts at the current token; without errors a statement without `;` stops before a token that is not `;` and has no infix precedence |
| Parsing.Parser.ParseLetStatement | src/main/kotlin/Parser.kt:92-104 | reads `let`, the name, `=`, the value and an optional `;`; the name is the identifier of the token after `let` and the value is the parsed expression; a name that is not an identifier records exactly the expected-identifier error; without errors a statement without `;` stops before a token that cannot continue it |
| Parsing.Parser.ParseReturnStatement | src/main/kotlin/Parser.kt:106-113 | reads `return`, the value and an optional `;`; the statement's value is the parsed expression; failure records an error; without errors a statement without `;` stops before a token that cannot continue it |
| Parsing.Parser.ParseExpressionStatement | src/main/kotlin/Parser.kt:115-123 | reads an expression and an optional `;`; the statement's token is the expression's first token and its value the parsed expression; without errors a statement without `;` stops before a token that cannot continue it |
| Parsing.Parser.ParseValue | src/main/kotlin/Parser.kt:99-102 | an expression at LOWEST precedence, then a `;` if one follows; its result is the tree's syntax and the tree starts at the current token; without errors and without `;`, the next token is not `;` and has LOWEST precedence |
| Parsing.Parser.ParseBlockStatement | src/main/kotlin/Parser.kt:125-135 | reads `{`, statements and the closing `}` or EOF; the block's statements are, in order, those that parsed, failed ones dropped; without errors each statement without `;` is followed by a token that cannot continue it |
| Parsing.Parser.ParseExpression | src/main/kotlin/Parser.kt:137-150 | consumes exactly its tree's tokens and gives the tree's syntax; without a prefix parse function it records exactly "no prefix parse function" and reads nothing; a failed prefix parse records its own error and then that one; without errors the tree is well nested and stops before an operator that binds no tighter than `precedence` |
| Parsing.Parser.ParseInfixes | src/main/kotlin/Parser.kt:144-149 | applies infix operators while the next one binds tighter; a failed operand still returns the left expression; the tree yields the operand's tokens and everything read after them |
| Parsing.Parser.ParseInfixStep | src/main/kotlin/Parser.kt:145-147 | one infix operator on the left expression: it consumes input, and on failure the left operand is kept with the tokens read after it |
| Parsing.Parser.ParsePrefixFn | src/main/kotlin/Parser.kt:36-49 | dispatches on the prefix table; consumes exactly its tree's tokens, which start at the current token; the result binds at least as tightly as a prefix expression |
| Parsing.Parser.ParseAtom | src/main/kotlin/Parser.kt:152-174 | an identifier, integer, boolean or string is read from the current token alone |
| Parsing.Parser.ParseCompound | src/main/kotlin/Parser.kt:42-44 | `!`, `-` and `(` dispatch to the prefix and grouped parsers, with the prefix table's guarantees |
| Parsing.Parser.ParseLiteralForm | src/main/kotlin/Parser.kt:45-48 | `if`, `fn`, `[` and `{` dispatch to their parsers, with the prefix table's guarantees |
| Parsing.Parser.ParseInfixFn | src/main/kotlin/Parser.kt:50-61 | dispatches on the infix table; the tree yields the left operand's tokens then what it read; the result has the operator's precedence |
| Parsing.Parser.ParseIntegerLiteral | src/main/kotlin/Parser.kt:157-164 | the literal's `Int` value, or exactly the error "could not parse … as integer" |
| Parsing.Parser.ParsePrefixExpression | src/main/kotlin/Parser.kt:176-184 | reads the operator and an operand parsed at PREFIX precedence; the node's token is the operator |
| Parsing.Parser.ParseBinaryExpression | src/main/kotlin/Parser.kt:186-198 | the left operand, the operator, then a right operand parsed at the operator's own precedence, so equal levels associate to the left; a failed right operand keeps the left |
| Parsing.Parser.ParseGroupedExpression | src/main/kotlin/Parser.kt:200-205 | reads `(`, an expression and `)`; the result is the inner expression, with no node of its own |
| Parsing.Parser.ParseIfExpression | src/main/kotlin/Parser.kt:207-223 | reads `if`, the parenthesised condition, the consequence block and an optional `else` block; the result is built from exactly those parses; a missing `(` records exactly the expected-token error |
| Parsing.Parser.ParseCondition | src/main/kotlin/Parser.kt:209-212 | reads `(`, the condition and `)`, and ends on `)`; a missing `(` records exactly the expected-token error |
| Parsing.Parser.ParseBranches | src/main/kotlin/Parser.kt:213-221 | reads the consequence block and the optional alternative; both are the blocks read |
| Parsing.Parser.ParseAlternative | src/main/kotlin/Parser.kt:215-221 | without `else` there is no alternative and nothing is consumed; after `else` it is the block read, which must start with `{` |
| Parsing.Parser.ParseFunctionLiteral | src/main/kotlin/Parser.kt:225-235 | reads `fn`, the parameter list and the body block; the literal's parameters and body are exactly those |
| Parsing.Parser.ParseFunctionParameters | src/main/kotlin/Parser.kt:237-254 | the parameters are the tokens between the parentheses, in order, each named by its literal and separated by commas; `()` gives none; success ends at `)` |
| Parsing.Parser.ParseMoreParameters | src/main/kotlin/Parser.kt:246-250 | reads `, name` while a comma follows, appending the names in order |
| Parsing.Parser.ParseNextParameter | src/main/kotlin/Parser.kt:247-249 | reads one `, name` and appends that name |
| Parsing.Parser.ParseExpressionList | src/main/kotlin/Parser.kt:256-271 | the elements are the expressions between the brackets that parsed, in order, separated by commas; an immediately closed list is empty; success ends at the closing token |
| Parsing.Parser.ParseFirstElement | src/main/kotlin/Parser.kt:261-263 | reads the first element of a list |
| Parsing.Parser.ParseNextElement | src/main/kotlin/Parser.kt:264-268 | reads `, element` and appends it, keeping the earlier elements |
| Parsing.Parser.ParseCallExpression | src/main/kotlin/Parser.kt:273-277 | a call whose callee is the expression already parsed and whose arguments are the parsed list, in order |
| Parsing.Parser.ParseArrayLiteral | src/main/kotlin/Parser.kt:279-283 | an array whose elements are the parsed list, in order |
| Parsing.Parser.ParseIndexExpression | src/main/kotlin/Parser.kt:285-291 | an index on the expression already parsed, by the expression read between `[` and `]` |
| Parsing.Parser.ParseEnclosed | src/main/kotlin/Parser.kt:287-289 | an expression that must be followed by the closing token; success ends on that token, failure records an error |
| Parsing.Parser.ParseHashLiteral | src/main/kotlin/Parser.kt:293-311 | reads `{`, `key: value` pairs separated by commas and `}`; the pairs are those read, in order; `{}` gives the empty hash without errors |
| Parsing.Parser.ParsePair | src/main/kotlin/Parser.kt:297-305 | reads a key, `:`, a value and a comma unless `}` follows; the pair is the key and value read |
| Parsing.Parser.ParsePairValue | src/main/kotlin/Parser.kt:300-305 | reads a value and then a comma unless `}` follows |
| Objects.AsKey | src/main/kotlin/Object.kt:14-40 | exactly integers, booleans and strings are hashable |
| Objects.KeyRoundTrip | src/main/kotlin/Object.kt:14-40 | hash keys and hashable values correspond one to one |
| Objects.InspectAll | src/main/kotlin/Object.kt:55-64 | an array's element texts are each element's printed form |
| Objects.InspectIntegerRoundTrip | src/main/kotlin/Object.kt:21-26 | an integer's printed form reads back as the integer |
| Objects.InspectReturn | src/main/kotlin/Object.kt:77-82 | a return value prints as what it carries, however deeply wrapped |
| Objects.InspectScalarExamples | src/main/kotlin/Object.kt:21-96 | negative integers print with their sign; errors print after `ERROR: ` |
| Objects.InspectArrayExample | src/main/kotlin/Object.kt:55-64 | an array prints as its bracketed, comma-separated elements |
| Objects.InspectHashExample | src/main/kotlin/Object.kt:66-75 | a hash prints one `$` per pair |
| Environments.Extend | src/main/kotlin/Environment.kt:1-3 | a new environment is added and the existing ones are kept |
| Environments.Chain | src/main/kotlin/Environment.kt:5-7 | the chain starts at the environment and stays in the store |
| Environments.LookupIsFirstBinding | src/main/kotlin/Environment.kt:5-7 | `get` finds the innermost binding along the outer chain, and fails exactly when no environment on the chain binds the name |
| Environments.LookupAfterBind | src/main/kotlin/Environment.kt:9-12 | after `set`, `get` in that environment gives the new value |
| Environments.LookupOtherAfterBind | src/main/kotlin/Environment.kt:9-12 | `set` changes no other name, seen from any environment |
| Environments.LookupOffChain | src/main/kotlin/Environment.kt:9-12 | `set` is invisible from environments whose chain does not pass through it |
| Environments.Shadowing | src/main/kotlin/Environment.kt:5-7 | an inner binding hides outer ones |
| Environments.LookupInExtended | src/main/kotlin/Environment.kt:1-7 | a new empty environment sees exactly what its outer one sees |
| Environments.LookupUnchangedByExtend | src/main/kotlin/Environment.kt:1-7 | creating an environment changes no existing lookup |
| Environments.Environments.constructor | src/main/kotlin/Environment.kt:1-3 | the global environment alone, empty and without an outer one |
| Environments.Environments.New | src/main/kotlin/Environment.kt:1-3 | adds an empty environment with the given outer one |
| Environments.Environments.Get | src/main/kotlin/Environment.kt:5-7 | the value `Lookup` gives, walking outward |
| Environments.Environments.Set | src/main/kotlin/Environment.kt:9-12 | binds in that environment only, returns the value, and `get` then finds it |
| Builtins.LookupBuiltin | src/main/kotlin/BuiltIns.kt:2-43 | exactly six names are builtins |
| Builtins.PutsOutput | src/main/kotlin/BuiltIns.kt:40-43 | `puts` prints each argument's printed form, one line each |
| Builtins.UnsupportedArgument | src/main/kotlin/BuiltIns.kt:2-30 | `first`, `rest`, `last` of a non-array and `len` of neither string nor array are "argument to `…` not supported" |
| Builtins.ArityErrors | src/main/kotlin/BuiltIns.kt:2-43 | wrong argument counts give "wrong number of arguments"; `puts` takes any number and gives null |
| Builtins.FirstRestSplit | src/main/kotlin/BuiltIns.kt:10-23 | `first` and `rest` of a non-empty array put it back together; of an empty one they give null and `[]` |
| Builtins.PushThenLast | src/main/kotlin/BuiltIns.kt:24-39 | after `push`, `last` is the pushed value, `len` grew by one, and `rest` ends with it |
| Builtins.LenCounts | src/main/kotlin/BuiltIns.kt:2-9 | `len` counts characters or elements |
| Builtins.PushTypes | src/main/kotlin/BuiltIns.kt:31-39 | `push` succeeds exactly on an array and an integer, otherwise names both types |
| Builtins.PushArityMessage | src/main/kotlin/BuiltIns.kt:31-39 | `push`'s arity message says want=1 |
| Builtins.ApplyBuiltinRefsBelow | src/main/kotlin/BuiltIns.kt:2-43 | builtins build results only from their arguments |
| Builtins.BuiltinTableInjective | src/main/kotlin/BuiltIns.kt:2-43 | distinct builtin names are distinct functions |
| Operators.Prefix | src/main/kotlin/Evaluator.kt:146-152 | a prefix operator gives an integer, a boolean or an error |
| Operators.Binary | src/main/kotlin/Evaluator.kt:154-163 | a binary operator gives an integer, boolean, string or error value, or throws |
| Operators.BangIsNotTruthy | src/main/kotlin/Evaluator.kt:173-178 | `!v` is the opposite of `v`'s truthiness |
| Operators.NegateTwice | src/main/kotlin/Evaluator.kt:210-212 | negation is its own inverse on `Int`, and fixes MinInt |
| Operators.NegateNonInteger | src/main/kotlin/Evaluator.kt:210-212 | `-` of a non-integer is "unknown operator: -TYPE" |
| Operators.ArithmeticInRange | src/main/kotlin/Evaluator.kt:180-192 | `+`, `-`, `*` are exact when the result fits |
| Operators.Commutative | src/main/kotlin/Evaluator.kt:180-192 | `+` and `*` commute, wrap-around included |
| Operators.Overflow | src/main/kotlin/Evaluator.kt:180-192 | MaxInt + 1 is MinInt |
| Operators.Division | src/main/kotlin/Evaluator.kt:185 | division throws exactly on a zero divisor, truncates toward zero, and MinInt / -1 is MinInt |
| Operators.ComparisonDuality | src/main/kotlin/Evaluator.kt:186-189 | `<` mirrors `>`, and `!=` negates `==` |
| Operators.EqualityIsStructural | src/main/kotlin/Evaluator.kt:154-163 | `==` and `!=` on anything but two strings are structural equality |
| Operators.StringsHaveOnlyPlus | src/main/kotlin/Evaluator.kt:194-199 | two strings concatenate with `+`; any other operator is "unknown operator: STRING op STRING" |
| Operators.TypeMismatch | src/main/kotlin/Evaluator.kt:154-163 | mixed types under any operator but `==`/`!=` are a type mismatch |
| Operators.OnlyDivisionThrows | src/main/kotlin/Evaluator.kt:154-192 | only integer division by zero throws |
| Operators.ArrayIndex | src/main/kotlin/Evaluator.kt:122-126 | an index in range gives that element, any other gives null |
| Operators.HashIndex | src/main/kotlin/Evaluator.kt:128-131 | a hash is indexed by key, null when absent, error when unhashable |
| Operators.IndexRefsBelow | src/main/kotlin/Evaluator.kt:114-120 | indexing gives part of the indexed value |
| Semantics.EvalIdentifier | src/main/kotlin/Evaluator.kt:214-218 | a name resolves to a value of the store |
| Semantics.Eval | src/main/kotlin/Evaluator.kt:1-59 | evaluation only adds environments and binds in the current chain, and its value refers only to existing environments |
| Semantics.EvalExpressions | src/main/kotlin/Evaluator.kt:83-89 | one non-error value per expression, or exactly the one error that stopped the list |
| Semantics.EvalPairs | src/main/kotlin/Evaluator.kt:133-144 | a hash literal gives a hash or an error |
| Semantics.ApplyFunction | src/main/kotlin/Evaluator.kt:91-99 | a call leaves every existing environment as it was; only the new one changes |
| Semantics.FunctionEnv | src/main/kotlin/Evaluator.kt:101-108 | the call environment is new, its outer one is the closure, and no other environment changes |
| Semantics.BindParameters | src/main/kotlin/Evaluator.kt:103-107 | binding parameters changes only the call environment |
| Semantics.EvalStatement | src/main/kotlin/Evaluator.kt:11-15 | after a `let` that succeeds, the name is bound to its value in the current environment |
| Semantics.EvalBlock | src/main/kotlin/Evaluator.kt:72-81 | a block's result refers only to existing environments |
| Semantics.EvalProgram | src/main/kotlin/Evaluator.kt:61-70 | a program's result refers only to existing environments |
| Interpreter.ExtendFunctionEnv | src/main/kotlin/Evaluator.kt:101-108 | the loop leaves the environments as `FunctionEnv` describes |
| Interpreter.RunProgram | src/main/kotlin/Evaluator.kt:61-70 | the loop gives `EvalProgram`'s result and leaves its environments |
| Interpreter.RunBlock | src/main/kotlin/Evaluator.kt:72-81 | the loop gives `EvalBlock`'s result and leaves its environments |
| EvalProperties.BlockSequencing | src/main/kotlin/Evaluator.kt:72-81 | a block runs its first statements, then the rest unless a return or error stopped it |
| EvalProperties.ProgramIsUnwrappedBlock | src/main/kotlin/Evaluator.kt:61-81 | a program is a block whose final return value is unwrapped |
| EvalProperties.ReturnEndsBlock | src/main/kotlin/Evaluator.kt:6-10 | a `return` statement ends the block with its value wrapped |
| EvalProperties.ErrorsShortCircuit | src/main/kotlin/Evaluator.kt:19-50 | an error in the left operand, the prefix operand, the callee, the indexed value or the condition is the whole expression's result; so is an error in the right operand or the index once the part before it evaluated cleanly |
| EvalProperties.ErrorStopsList | src/main/kotlin/Evaluator.kt:83-89 | no expression after an error in a list is evaluated |
| EvalProperties.CleanPairsInsert | src/main/kotlin/Evaluator.kt:133-144 | when every key evaluates to a hashable value and every value evaluates without error, a hash literal is its pairs inserted left to right, so a later equal key wins |
| EvalProperties.UnusableKeyInLiteral | src/main/kotlin/Evaluator.kt:136-138 | the first key that evaluates to an unhashable value ends the literal with exactly "unusable as hash key: T" |
| EvalProperties.CleanPairsValid | src/main/kotlin/Evaluator.kt:133-144 | evaluating clean pairs keeps the store well formed and the environment in it |
| EvalProperties.Conditional | src/main/kotlin/Evaluator.kt:165-170 | truthy runs the consequence, falsy the alternative or gives null |
| EvalProperties.IdentifierResolution | src/main/kotlin/Evaluator.kt:214-218 | a name is its innermost binding, else a builtin, else "identifier not found" |
| EvalProperties.LastParameterWins | src/main/kotlin/Evaluator.kt:101-108 | a parameter with an argument is bound to it unless a later parameter of the same name also has one: with duplicate names the last binding wins |
| EvalProperties.ParameterBound | src/main/kotlin/Evaluator.kt:101-108 | for distinct parameter names, each parameter with an argument is bound to it; one without is left unbound |
| EvalProperties.BindingsOfFrame | src/main/kotlin/Evaluator.kt:101-108 | binding parameters touches only names of parameters with arguments |
| EvalProperties.SelfCallNeverReturns | src/main/kotlin/Evaluator.kt:91-99 | `fn() { f() }` bound to `f` never returns |
| EvalProperties.UnboundedRecursionExhaustsFuel | src/main/kotlin/Evaluator.kt:91-99 | `let f = fn() { f() }; f()` runs out of fuel whatever the bound |
| EvalProperties.EvalFuel | src/main/kotlin/Evaluator.kt:1-59 | more fuel never changes a result that did not run out |
| EvalProperties.ProgramFuel | src/main/kotlin/Evaluator.kt:61-70 | a program's result is the same for any larger bound |
| EvalExamples.IntegerLiterals | src/main/kotlin/Evaluator.kt:83-89 | a list of integer literals evaluates to their values |
| EvalExamples.Arithmetic | src/main/kotlin/Evaluator.kt:180-192 | `(5 + 10 * 2 + 15 / 3) * 2 + -10` is 50 |
| EvalExamples.ArithmeticSum | src/main/kotlin/Evaluator.kt:180-192 | `5 + 10 * 2 + 15 / 3` is 30 |
| EvalExamples.NegatedLiteral | src/main/kotlin/Evaluator.kt:210-212 | `-n` is the integer `-n` for every `Int` but the smallest |
| EvalExamples.Closure | src/main/kotlin/Evaluator.kt:91-108 | `newAdder(2)(2)` is 4: the inner function sees the outer call's parameter |
| EvalExamples.DefineNewAdder | src/main/kotlin/Evaluator.kt:11-18 | `let newAdder = fn(x) {…}` binds a function closing over the global environment |
| EvalExamples.ThreeStatements | src/main/kotlin/Evaluator.kt:61-70 | a program of three statements none of which returns or fails has the last one's value |
| EvalExamples.RunStep | src/main/kotlin/Evaluator.kt:61-70 | a statement that neither returns nor fails hands its value and environments on to the rest of the program |
| EvalExamples.ApplyOneParameter | src/main/kotlin/Evaluator.kt:91-108 | a one-parameter call runs the body in a fresh environment inside the closure, binding the argument, and unwraps a return value |
| EvalExamples.CallOneArgument | src/main/kotlin/Evaluator.kt:19-25 | a call evaluates the callee, then the argument, then applies the function |
| EvalExamples.ArrayLiteralIndex | src/main/kotlin/Evaluator.kt:26-37 | indexing an array literal gives the element or null |
| EvalExamples.LetHasItsValue | src/main/kotlin/Evaluator.kt:11-15 | `let a = 5;` evaluates to 5 |
| EvalExamples.NestedReturn | src/main/kotlin/Evaluator.kt:72-81 | a return inside nested blocks ends the program with its value |
| EvalExamples.ProgramMayEndWithReturn | src/main/kotlin/Evaluator.kt:61-70 | a return value returned from the top level stays wrapped |
| EvalExamples.ReturnAsOperand | src/main/kotlin/Evaluator.kt:44-50 | an integer and a return value under any operator but `==`/`!=` give `type mismatch: INTEGER op RETURN` |
| EvalExamples.LetInBlockIsVisibleAfter | src/main/kotlin/Evaluator.kt:165-170 | a `let` in an `if` block is visible after it |
| EvalExamples.UnusableHashKey | src/main/kotlin/Evaluator.kt:128-131 | a function as a hash index is "unusable as hash key: FUNCTION" |
| EvalExamples.FunctionLiteralValue | src/main/kotlin/Evaluator.kt:16-18 | a function literal closes over the environment it is evaluated in |
| EvalExamples.StringLiteralValue | src/main/kotlin/Evaluator.kt:54 | a string literal evaluates to its text |
| EvalExamples.OnePairHash | src/main/kotlin/Evaluator.kt:133-144 | a one-pair hash literal maps the key's hash key to the value |
| EvalExamples.BinaryOperands | src/main/kotlin/Evaluator.kt:44-50 | a binary expression applies the operator to its operands' values, left first |
| EvalExamples.IndexOperands | src/main/kotlin/Evaluator.kt:26-32 | an index expression indexes the left value by the index value |
| EvalExamples.LaterKeyWins | src/main/kotlin/Evaluator.kt:133-144 | of two equal keys, the later value is kept |
| EvalExamples.LenOfString | src/main/kotlin/BuiltIns.kt:2-9 | `len("four")` is 4 |

## Left out

- Unique parse trees: that a token stream has only one well-nested program tree is proved for the expression shapes of `SingleIdentifier`, `ThreeTokens` and `TwoOperators` and for the statement split of `StatementSplit`, not for every input; a general proof is a much larger induction over yields than this model carries.
- The REPL (`Repl.kt`) and its console input and output are not part of this model. `puts` is
  modelled by `Builtins.PutsOutput`, the lines it would print; the call itself gives `null`.
- Strings are sequences of Dafny characters. Kotlin's `length` counts UTF-16 code units, so
  `len` can differ for characters outside the Basic Multilingual Plane.
- The host stack is a `fuel` bound on call depth. A program that overflows the JVM stack runs out
  of fuel here instead, at a depth that need not match.
- Environments are not heap objects that a function value shares by reference. They are scopes
  in a store, indexed by number, and a closure holds its scope's index. The functional evaluator
  threads the store as a value. Only the loops of `evalProgram`, `evalBlockStatement` and
  `extendFunctionEnv` update an `Environments` object in place. The recursive `eval` itself is
  not written as a method.
- The lexer's positions are unbounded, not Kotlin `Int`s, so inputs longer than 2^31 characters
  are not modelled.
- Some `?: return null` branches of the parser cannot be reached: `curToken` is never null after
  construction, and every token with a precedence has an infix function. They are not modelled.
- Semantics.Eval: its contract states how the store evolves and that the result is well scoped.
  The value computed for each kind of expression is stated by the lemmas of `EvalProperties`
  and `Operators`.
- Operators.Prefix and Operators.Binary state only the kinds of value they give. The operator
  laws are the lemmas that follow them.
