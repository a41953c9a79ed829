/**
 * Programs evaluated end to end, from the interpreter's own test programs and from the corners
 * of its semantics: closures, nested returns, errors, indexing, and what a `return` or a `let`
 * inside an `if` does.
 */
module EvalExamples {
  import opened Options
  import opened KotlinInt
  import T = Tokens
  import opened Ast
  import opened Objects
  import opened Environments
  import opened Operators
  import opened Semantics

  // ---------------------------------------------------------------- building syntax trees

  function Id(name: string): Identifier
  {
    Identifier(T.Token(T.TokenType.Ident, name), name)
  }

  function Var(name: string): Expression
  {
    IdentifierExpr(Id(name))
  }

  function Num(literal: string, n: int32): Expression
  {
    IntegerLiteral(T.Token(T.TokenType.Int, literal), n)
  }

  function Text(s: string): Expression
  {
    StringLiteral(T.Token(T.TokenType.String, s), s)
  }

  function Op(left: Expression, kind: T.TokenType, op: string, right: Expression): Expression
  {
    BinaryExpr(T.Token(kind, op), left, op, right)
  }

  function Body(statements: seq<Statement>): Block
  {
    Block(T.Token(T.LBrace, "{"), statements)
  }

  function Fn(parameters: seq<Identifier>, body: seq<Statement>): Expression
  {
    FunctionLiteral(T.Token(T.TokenType.Function, "fn"), parameters, Body(body))
  }

  function Call(callee: Expression, arguments: seq<Expression>): Expression
  {
    CallExpr(T.Token(T.LParen, "("), callee, arguments)
  }

  function Let(name: string, value: Expression): Statement
  {
    LetStatement(T.Token(T.Let, "let"), Id(name), value)
  }

  function Ret(value: Expression): Statement
  {
    ReturnStatement(T.Token(T.TokenType.Return, "return"), value)
  }

  function True(): Expression
  {
    BooleanLiteral(T.Token(T.TokenType.True, "true"), true)
  }

  function If(condition: Expression, consequence: seq<Statement>): Expression
  {
    IfExpr(T.Token(T.If, "if"), condition, Body(consequence), None)
  }

  /** The first token of an expression written without parentheses. */
  function FirstToken(e: Expression): T.Token
  {
    match e
    case IdentifierExpr(id) => id.token
    case BinaryExpr(_, left, _, _) => FirstToken(left)
    case CallExpr(_, callee, _) => FirstToken(callee)
    case IndexExpr(_, left, _) => FirstToken(left)
    case _ => e.token
  }

  /** An expression statement, with the statement's first token as the parser records it. */
  function Expr(e: Expression): Statement
  {
    ExpressionStatement(FirstToken(e), e)
  }

  /** One argument that evaluates to a value other than an error is the whole argument list. */
  lemma SingleArgument(e: Expression, env: EnvRef, store: Store, fuel: nat)
    requires ValidStore(store) && env < |store|
    requires Eval(e, env, store, fuel).Done? && !Eval(e, env, store, fuel).value.Error?
    ensures EvalExpressions([e], env, store, fuel) ==
            Done([Eval(e, env, store, fuel).value], Eval(e, env, store, fuel).store)
  {
    var v := Eval(e, env, store, fuel);
    assert [e][0] == e && [e][1..] == [];
    assert EvalExpressions([], env, v.store, fuel) == Done([], v.store);
    var rest := EvalExpressions([e][1..], env, v.store, fuel);
    assert rest == Done([], v.store);
    assert [v.value] + rest.value == [v.value];
    assert EvalExpressions([e], env, store, fuel) == Done([v.value] + rest.value, rest.store);
  }

  /** A block of one statement has that statement's outcome. */
  lemma OneStatementBlock(st: Statement, env: EnvRef, store: Store, fuel: nat)
    requires ValidStore(store) && env < |store|
    ensures EvalBlock(Body([st]), env, store, fuel) == EvalStatement(st, env, store, fuel)
  {
    var o := EvalStatement(st, env, store, fuel);
    assert [st][0] == st && [st][1..] == [];
    if o.Done? {
      assert EvalStatements([], env, o.store, fuel, o.value) == o;
    }
  }

  /** An `if` whose condition is truthy has its consequence's outcome. */
  lemma IfTruthy(condition: Expression, consequence: seq<Statement>, env: EnvRef, store: Store, fuel: nat)
    requires ValidStore(store) && env < |store|
    requires Eval(condition, env, store, fuel).Done?
    requires !Eval(condition, env, store, fuel).value.Error? && IsTruthy(Eval(condition, env, store, fuel).value)
    ensures Eval(If(condition, consequence), env, store, fuel) ==
            EvalBlock(Body(consequence), env, Eval(condition, env, store, fuel).store, fuel)
  {
    assert Eval(If(condition, consequence), env, store, fuel) == EvalIf(If(condition, consequence), env, store, fuel);
  }

  /** An operator between two integer literals is the integer operator on their values. */
  lemma IntegerOperation(a: string, m: int32, kind: T.TokenType, op: string, b: string, n: int32,
                         env: EnvRef, store: Store, fuel: nat)
    requires ValidStore(store) && env < |store|
    ensures Eval(Op(Num(a, m), kind, op, Num(b, n)), env, store, fuel) ==
            match IntegerBinary(op, m, n)
            case Ok(v) => Done(v, store)
            case Throws(halt) => Halted(halt)
  {
    var e := Op(Num(a, m), kind, op, Num(b, n));
    assert Eval(Num(a, m), env, store, fuel) == Done(Integer(m), store);
    assert Eval(Num(b, n), env, store, fuel) == Done(Integer(n), store);
    assert Eval(e, env, store, fuel) == EvalBinary(e, env, store, fuel);
  }

  /** An operator between two expressions that evaluate to integers is the integer operator. */
  lemma IntegerOperands(left: Expression, kind: T.TokenType, op: string, right: Expression, m: int32, n: int32,
                        env: EnvRef, store: Store, fuel: nat)
    requires ValidStore(store) && env < |store|
    requires Eval(left, env, store, fuel) == Done(Integer(m), store)
    requires Eval(right, env, store, fuel) == Done(Integer(n), store)
    ensures Eval(Op(left, kind, op, right), env, store, fuel) ==
            match IntegerBinary(op, m, n)
            case Ok(v) => Done(v, store)
            case Throws(halt) => Halted(halt)
  {
    var e := Op(left, kind, op, right);
    assert Eval(e, env, store, fuel) == EvalBinary(e, env, store, fuel);
  }

  /** An operator between two expressions that evaluate to values other than errors. */
  lemma BinaryOperands(left: Expression, kind: T.TokenType, op: string, right: Expression, l: Value, r: Value,
                       env: EnvRef, store: Store, fuel: nat)
    requires ValidStore(store) && env < |store|
    requires Eval(left, env, store, fuel) == Done(l, store) && !l.Error?
    requires Eval(right, env, store, fuel) == Done(r, store) && !r.Error?
    requires Binary(op, l, r).Ok?
    ensures Eval(Op(left, kind, op, right), env, store, fuel) == Done(Binary(op, l, r).value, store)
  {
    var e := Op(left, kind, op, right);
    assert Eval(e, env, store, fuel) == EvalBinary(e, env, store, fuel);
  }

  /** Indexing between two expressions that evaluate to values other than errors. */
  lemma IndexOperands(left: Expression, index: Expression, l: Value, i: Value,
                      env: EnvRef, store: Store, fuel: nat)
    requires ValidStore(store) && env < |store|
    requires Eval(left, env, store, fuel) == Done(l, store) && !l.Error?
    requires Eval(index, env, store, fuel) == Done(i, store) && !i.Error?
    ensures Eval(At(left, index), env, store, fuel) == Done(Index(l, i), store)
  {
    var e := At(left, index);
    assert Eval(e, env, store, fuel) == EvalIndex(e, env, store, fuel);
  }

  /** A pair whose key and value evaluate without error adds its entry and goes on. */
  lemma PairStep(ps: seq<HashPair>, key: HashKey, k: Value, v: Value, env: EnvRef, store: Store, fuel: nat,
                 acc: map<HashKey, Value>)
    requires ValidStore(store) && env < |store| && RefsBelow(Hash(acc), |store|) && |ps| > 0
    requires Eval(ps[0].key, env, store, fuel) == Done(k, store) && !k.Error? && AsKey(k) == Some(key)
    requires Eval(ps[0].value, env, store, fuel) == Done(v, store) && !v.Error?
    ensures RefsBelow(Hash(acc[key := v]), |store|)
    ensures EvalPairs(ps, env, store, fuel, acc) == EvalPairs(ps[1..], env, store, fuel, acc[key := v])
  {
  }

  /** `if (c) { return v; }` with a truthy condition is the return value of `v`. */
  lemma ReturnInIf(condition: Expression, value: Expression, c: Value, v: Value,
                   env: EnvRef, store: Store, fuel: nat)
    requires ValidStore(store) && env < |store|
    requires Eval(condition, env, store, fuel) == Done(c, store) && !c.Error? && IsTruthy(c)
    requires Eval(value, env, store, fuel) == Done(v, store) && !v.Error?
    ensures Eval(If(condition, [Ret(value)]), env, store, fuel) == Done(Return(v), store)
  {
    assert EvalStatement(Ret(value), env, store, fuel) == Done(Return(v), store);
    OneStatementBlock(Ret(value), env, store, fuel);
    IfTruthy(condition, [Ret(value)], env, store, fuel);
  }

  /** A call with one argument, where callee and argument evaluate without error. */
  lemma CallOneArgument(callee: Expression, arg: Expression, f: Value, a: Value,
                        env: EnvRef, store: Store, fuel: nat)
    requires ValidStore(store) && env < |store|
    requires Eval(callee, env, store, fuel) == Done(f, store) && !f.Error?
    requires Eval(arg, env, store, fuel) == Done(a, store) && !a.Error?
    ensures RefsBelow(f, |store|) && AllRefsBelow([a], |store|)
    ensures Eval(Call(callee, [arg]), env, store, fuel) == ApplyFunction(f, [a], store, fuel)
  {
    SingleArgument(arg, env, store, fuel);
    var e := Call(callee, [arg]);
    assert Eval(e, env, store, fuel) == EvalCall(e, env, store, fuel);
  }

  /**
   * Applying a function of one parameter, whose body is one statement, to one argument: the
   * statement runs in a new environment inside the closure, binding the parameter.
   */
  lemma ApplyOneParameter(x: string, st: Statement, closure: EnvRef, a: Value, store: Store, fuel: nat)
    requires ValidStore(store) && closure < |store| && RefsBelow(a, |store|) && fuel >= 1
    ensures ValidStore(Bind(Extend(store, Some(closure)), |store|, x, a))
    ensures var s := Bind(Extend(store, Some(closure)), |store|, x, a);
            var o := EvalStatement(st, |store|, s, fuel - 1);
            ApplyFunction(Function([Id(x)], Body([st]), closure), [a], store, fuel) ==
            if o.Halted? then o else Done(Unwrap(o.value), o.store)
  {
    ExtendKeepsValid(store, Some(closure));
    var s0 := Extend(store, Some(closure));
    RefsBelowGrow(a, |store|, |s0|);
    BindKeepsValid(s0, |store|, x, a);
    assert [Id(x)][1..] == [] && [a][1..] == [];
    assert BindParameters(s0, |store|, [Id(x)], [a]) == Bind(s0, |store|, x, a);
    OneStatementBlock(st, |store|, Bind(s0, |store|, x, a), fuel - 1);
  }

  /** A program statement with an ordinary value passes that value and its store on to the rest. */
  lemma RunStep(ss: seq<Statement>, env: EnvRef, store: Store, fuel: nat, last: Value, v: Value, after: Store)
    requires ValidStore(store) && env < |store| && RefsBelow(last, |store|) && |ss| > 0
    requires EvalStatement(ss[0], env, store, fuel) == Done(v, after) && !v.Return? && !v.Error?
    ensures ValidStore(after) && env < |after| && RefsBelow(v, |after|)
    ensures RunStatements(ss, env, store, fuel, last) == RunStatements(ss[1..], env, after, fuel, v)
  {
  }

  /** A program of three statements, none of which gives a return value or an error, has the last one's value. */
  lemma ThreeStatements(ss: seq<Statement>, env: EnvRef, s0: Store, fuel: nat,
                        v1: Value, s1: Store, v2: Value, s2: Store, v3: Value, s3: Store)
    requires ValidStore(s0) && env < |s0| && |ss| == 3
    requires EvalStatement(ss[0], env, s0, fuel) == Done(v1, s1) && !v1.Return? && !v1.Error?
    requires ValidStore(s1) && env < |s1|
    requires EvalStatement(ss[1], env, s1, fuel) == Done(v2, s2) && !v2.Return? && !v2.Error?
    requires ValidStore(s2) && env < |s2|
    requires EvalStatement(ss[2], env, s2, fuel) == Done(v3, s3) && !v3.Return? && !v3.Error?
    ensures EvalProgram(Program(ss), env, s0, fuel) == Done(v3, s3)
  {
    RunStep(ss, env, s0, fuel, Null, v1, s1);
    assert ss[1..][0] == ss[1] && ss[1..][1..] == ss[2..];
    RunStep(ss[1..], env, s1, fuel, v1, v2, s2);
    assert ss[2..][0] == ss[2] && ss[2..][1..] == [];
    RunStep(ss[2..], env, s2, fuel, v2, v3, s3);
  }

  /** `5 + 10 * 2 + 15 / 3` is 30: `*` and `/` before `+`, and `/` is exact here. */
  lemma ArithmeticSum(e: Expression, fuel: nat)
    requires e == Op(Op(Num("5", 5), T.Plus, "+", Op(Num("10", 10), T.Asterisk, "*", Num("2", 2))),
                     T.Plus, "+", Op(Num("15", 15), T.Slash, "/", Num("3", 3)))
    ensures Eval(e, 0, GlobalStore, fuel) == Done(Integer(30), GlobalStore)
  {
    var g := GlobalStore;
    IntegerOperation("10", 10, T.Asterisk, "*", "2", 2, 0, g, fuel);
    IntegerOperation("15", 15, T.Slash, "/", "3", 3, 0, g, fuel);
    assert TruncDiv(15, 3) == 5;
    assert Eval(Num("5", 5), 0, g, fuel) == Done(Integer(5), g);
    IntegerOperands(e.left.left, T.Plus, "+", e.left.right, 5, 20, 0, g, fuel);
    IntegerOperands(e.left, T.Plus, "+", e.right, 25, 5, 0, g, fuel);
  }

  /** `-n` for a literal `n` is the negative integer. */
  lemma NegatedLiteral(literal: string, n: int32, env: EnvRef, store: Store, fuel: nat)
    requires ValidStore(store) && env < |store| && n != MinInt as int32
    ensures Eval(PrefixExpr(T.Token(T.Minus, "-"), "-", Num(literal, n)), env, store, fuel) == Done(Integer(-n), store)
  {
    var e := PrefixExpr(T.Token(T.Minus, "-"), "-", Num(literal, n));
    assert Eval(Num(literal, n), env, store, fuel) == Done(Integer(n), store);
    assert Eval(e, env, store, fuel) == EvalPrefix(e, env, store, fuel);
    NegateTwice(n);
  }

  /** `(5 + 10 * 2 + 15 / 3) * 2 + -10` is 50. */
  lemma Arithmetic(e: Expression, fuel: nat)
    requires e == Op(Op(Op(Op(Num("5", 5), T.Plus, "+", Op(Num("10", 10), T.Asterisk, "*", Num("2", 2))),
                           T.Plus, "+", Op(Num("15", 15), T.Slash, "/", Num("3", 3))),
                        T.Asterisk, "*", Num("2", 2)),
                     T.Plus, "+", PrefixExpr(T.Token(T.Minus, "-"), "-", Num("10", 10)))
    ensures Eval(e, 0, GlobalStore, fuel) == Done(Integer(50), GlobalStore)
  {
    var g := GlobalStore;
    ArithmeticSum(e.left.left, fuel);
    assert Eval(Num("2", 2), 0, g, fuel) == Done(Integer(2), g);
    IntegerOperands(e.left.left, T.Asterisk, "*", e.left.right, 30, 2, 0, g, fuel);
    NegatedLiteral("10", 10, 0, g, fuel);
    IntegerOperands(e.left, T.Plus, "+", e.right, 60, -10, 0, g, fuel);
  }

  // ---------------------------------------------------------------- closures

  function Sum(): Expression { Op(Var("x"), T.Plus, "+", Var("y")) }
  function Adder(): Expression { Fn([Id("y")], [Expr(Sum())]) }
  function NewAdder(): Expression { Fn([Id("x")], [Expr(Adder())]) }

  /** `let newAdder = fn(x) { fn(y) { x + y }; };` binds `newAdder` in the global environment. */
  lemma DefineNewAdder(fuel: nat)
    ensures EvalStatement(Let("newAdder", NewAdder()), 0, GlobalStore, fuel) ==
            Done(Function([Id("x")], Body([Expr(Adder())]), 0),
                 Bind(GlobalStore, 0, "newAdder", Function([Id("x")], Body([Expr(Adder())]), 0)))
  {
  }

  /** `newAdder(2)` gives a function of `y` that closes over the new environment 1, where `x` is 2. */
  lemma CallNewAdder(s1: Store, fuel: nat)
    requires s1 == Bind(GlobalStore, 0, "newAdder", Function([Id("x")], Body([Expr(Adder())]), 0))
    requires fuel >= 1
    ensures ValidStore(s1)
    ensures EvalStatement(Let("addTwo", Call(Var("newAdder"), [Num("2", 2)])), 0, s1, fuel) ==
            Done(Function([Id("y")], Body([Expr(Sum())]), 1),
                 Bind(Bind(Extend(s1, Some(0)), 1, "x", Integer(2)), 0, "addTwo",
                      Function([Id("y")], Body([Expr(Sum())]), 1)))
    ensures var s3 := Bind(Bind(Extend(s1, Some(0)), 1, "x", Integer(2)), 0, "addTwo",
                           Function([Id("y")], Body([Expr(Sum())]), 1));
            ValidStore(s3) && |s3| == 2 && s3[1].vars == map["x" := Integer(2)] && "addTwo" in s3[0].vars
            && s3[0].vars["addTwo"] == Function([Id("y")], Body([Expr(Sum())]), 1)
  {
    var two := Integer(2);
    var newAdder := Function([Id("x")], Body([Expr(Adder())]), 0);
    ApplyOneParameter("x", Expr(Adder()), 0, two, s1, fuel);
    var s2 := Bind(Extend(s1, Some(0)), 1, "x", two);
    var addTwo := Function([Id("y")], Body([Expr(Sum())]), 1);
    assert EvalStatement(Expr(Adder()), 1, s2, fuel - 1) == Done(addTwo, s2);
    assert Eval(Var("newAdder"), 0, s1, fuel) == Done(newAdder, s1);
    assert Eval(Num("2", 2), 0, s1, fuel) == Done(two, s1);
    CallOneArgument(Var("newAdder"), Num("2", 2), newAdder, two, 0, s1, fuel);
  }

  /** `addTwo(2)` adds `y`, bound in the new environment 2, to `x`, found in environment 1. */
  lemma CallAddTwo(s3: Store, fuel: nat)
    requires ValidStore(s3) && |s3| == 2 && s3[1].vars == map["x" := Integer(2)]
    requires "addTwo" in s3[0].vars && s3[0].vars["addTwo"] == Function([Id("y")], Body([Expr(Sum())]), 1)
    requires fuel >= 1
    ensures EvalStatement(Expr(Call(Var("addTwo"), [Num("2", 2)])), 0, s3, fuel) ==
            Done(Integer(4), Bind(Extend(s3, Some(1)), 2, "y", Integer(2)))
  {
    var two := Integer(2);
    var addTwo := Function([Id("y")], Body([Expr(Sum())]), 1);
    ApplyOneParameter("y", Expr(Sum()), 1, two, s3, fuel);
    var s4 := Bind(Extend(s3, Some(1)), 2, "y", two);
    assert Lookup(s4, 2, "x") == Some(two) by {
      assert "x" !in s4[2].vars && s4[2].outer == Some(1) && s4[1].vars["x"] == two;
    }
    assert Eval(Var("y"), 2, s4, fuel - 1) == Done(two, s4);
    assert Eval(Var("x"), 2, s4, fuel - 1) == Done(two, s4);
    IntegerOperands(Var("x"), T.Plus, "+", Var("y"), 2, 2, 2, s4, fuel - 1);
    assert EvalStatement(Expr(Sum()), 2, s4, fuel - 1) == Done(Integer(4), s4);
    assert Eval(Var("addTwo"), 0, s3, fuel) == Done(addTwo, s3);
    assert Eval(Num("2", 2), 0, s3, fuel) == Done(two, s3);
    CallOneArgument(Var("addTwo"), Num("2", 2), addTwo, two, 0, s3, fuel);
  }

  /**
   * `let newAdder = fn(x) { fn(y) { x + y }; }; let addTwo = newAdder(2); addTwo(2);` is 4:
   * the inner function keeps the environment in which `x` was bound to 2.
   */
  lemma Closure(p: Program, fuel: nat)
    requires p == Program([
      Let("newAdder", NewAdder()),
      Let("addTwo", Call(Var("newAdder"), [Num("2", 2)])),
      Expr(Call(Var("addTwo"), [Num("2", 2)]))])
    requires fuel >= 1
    ensures EvalProgram(p, 0, GlobalStore, fuel).Done?
    ensures EvalProgram(p, 0, GlobalStore, fuel).value == Integer(4)
  {
    var newAdder := Function([Id("x")], Body([Expr(Adder())]), 0);
    var s1 := Bind(GlobalStore, 0, "newAdder", newAdder);
    DefineNewAdder(fuel);
    CallNewAdder(s1, fuel);
    var addTwo := Function([Id("y")], Body([Expr(Sum())]), 1);
    var s3 := Bind(Bind(Extend(s1, Some(0)), 1, "x", Integer(2)), 0, "addTwo", addTwo);
    CallAddTwo(s3, fuel);
    assert p.statements[2] == Expr(Call(Var("addTwo"), [Num("2", 2)]));
    ThreeStatements(p.statements, 0, GlobalStore, fuel, newAdder, s1, addTwo, s3,
                    Integer(4), Bind(Extend(s3, Some(1)), 2, "y", Integer(2)));
  }

  // ---------------------------------------------------------------- literals and indexing

  function IntegerValues(es: seq<Expression>): (vs: seq<Value>)
    requires forall i :: 0 <= i < |es| ==> es[i].IntegerLiteral?
    ensures |vs| == |es| && forall i :: 0 <= i < |es| ==> vs[i] == Integer(es[i].intValue)
  {
    if |es| == 0 then [] else [Integer(es[0].intValue)] + IntegerValues(es[1..])
  }

  /** Integer literals evaluate to their integers, in order, and change no environment. */
  lemma {:induction false} IntegerLiterals(es: seq<Expression>, env: EnvRef, store: Store, fuel: nat)
    requires ValidStore(store) && env < |store|
    requires forall i :: 0 <= i < |es| ==> es[i].IntegerLiteral?
    ensures EvalExpressions(es, env, store, fuel) == Done(IntegerValues(es), store)
  {
    if |es| > 0 {
      IntegerLiterals(es[1..], env, store, fuel);
      assert Eval(es[0], env, store, fuel) == Done(Integer(es[0].intValue), store);
    }
  }

  /**
   * An array literal of integers indexed by an integer literal is that element of the array,
   * and `null` outside it: `[1, 2, 3][3]` is `null`.
   */
  lemma ArrayLiteralIndex(es: seq<Expression>, i: int32, env: EnvRef, store: Store, fuel: nat)
    requires ValidStore(store) && env < |store|
    requires forall j :: 0 <= j < |es| ==> es[j].IntegerLiteral?
    ensures Eval(At(ArrayLiteral(T.Token(T.LBracket, "["), es), Num("i", i)), env, store, fuel) ==
            Done(if 0 <= i as int < |es| then Integer(es[i].intValue) else Null, store)
  {
    var arr := ArrayLiteral(T.Token(T.LBracket, "["), es);
    var vs := IntegerValues(es);
    IntegerLiterals(es, env, store, fuel);
    assert vs != [] ==> !vs[0].Error?;
    assert Eval(arr, env, store, fuel) == EvalArray(arr, env, store, fuel);
    assert Eval(Num("i", i), env, store, fuel) == Done(Integer(i), store);
    IndexOperands(arr, Num("i", i), Arr(vs), Integer(i), env, store, fuel);
    ArrayIndex(vs, i);
  }

  // ---------------------------------------------------------------- statements and returns

  /** `let a = 5;` is a program whose value is 5: a `let` has the value it binds. */
  lemma LetHasItsValue(p: Program, fuel: nat)
    requires p == Program([Let("a", Num("5", 5))])
    ensures EvalProgram(p, 0, GlobalStore, fuel) ==
            Done(Integer(5), Bind(GlobalStore, 0, "a", Integer(5)))
  {
    var s1 := Bind(GlobalStore, 0, "a", Integer(5));
    assert EvalStatement(p.statements[0], 0, GlobalStore, fuel) == Done(Integer(5), s1);
    assert p.statements[1..] == [];
    assert RunStatements([], 0, s1, fuel, Integer(5)) == Done(Integer(5), s1);
  }

  /**
   * `if (10 > 1) { if (10 > 1) { return 10; } return 1; }` is 10: the inner `return` ends the
   * inner block, then the outer block, then the program.
   */
  lemma NestedReturn(p: Program, fuel: nat)
    requires p == Program([Expr(If(Op(Num("10", 10), T.Gt, ">", Num("1", 1)),
                                   [Expr(If(Op(Num("10", 10), T.Gt, ">", Num("1", 1)), [Ret(Num("10", 10))])),
                                    Ret(Num("1", 1))]))])
    ensures EvalProgram(p, 0, GlobalStore, fuel) == Done(Integer(10), GlobalStore)
  {
    var test := Op(Num("10", 10), T.Gt, ">", Num("1", 1));
    IntegerOperation("10", 10, T.Gt, ">", "1", 1, 0, GlobalStore, fuel);
    var inner := If(test, [Ret(Num("10", 10))]);
    assert EvalStatement(Ret(Num("10", 10)), 0, GlobalStore, fuel) == Done(Return(Integer(10)), GlobalStore);
    OneStatementBlock(Ret(Num("10", 10)), 0, GlobalStore, fuel);
    IfTruthy(test, [Ret(Num("10", 10))], 0, GlobalStore, fuel);
    assert Eval(inner, 0, GlobalStore, fuel) == Done(Return(Integer(10)), GlobalStore);
    var outer := [Expr(inner), Ret(Num("1", 1))];
    assert EvalStatements(outer, 0, GlobalStore, fuel, Null) == Done(Return(Integer(10)), GlobalStore);
    IfTruthy(test, outer, 0, GlobalStore, fuel);
    assert Eval(If(test, outer), 0, GlobalStore, fuel) == Done(Return(Integer(10)), GlobalStore);
    assert EvalStatement(p.statements[0], 0, GlobalStore, fuel) == Done(Return(Integer(10)), GlobalStore);
  }

  /**
   * `return if (true) { return 5; };` ends with a value that is still a return value: the
   * block's `Return` is wrapped again by the `return` statement, and the program removes only
   * one of the two.
   */
  lemma ProgramMayEndWithReturn(p: Program, fuel: nat)
    requires p == Program([Ret(If(True(), [Ret(Num("5", 5))]))])
    ensures EvalProgram(p, 0, GlobalStore, fuel) == Done(Return(Integer(5)), GlobalStore)
  {
    assert Eval(True(), 0, GlobalStore, fuel) == Done(Bool(true), GlobalStore);
    assert EvalStatement(Ret(Num("5", 5)), 0, GlobalStore, fuel) == Done(Return(Integer(5)), GlobalStore);
    OneStatementBlock(Ret(Num("5", 5)), 0, GlobalStore, fuel);
    IfTruthy(True(), [Ret(Num("5", 5))], 0, GlobalStore, fuel);
    assert EvalStatements([Ret(Num("5", 5))], 0, GlobalStore, fuel, Null) == Done(Return(Integer(5)), GlobalStore);
    assert Eval(If(True(), [Ret(Num("5", 5))]), 0, GlobalStore, fuel) == Done(Return(Integer(5)), GlobalStore);
    assert EvalStatement(p.statements[0], 0, GlobalStore, fuel) == Done(Return(Return(Integer(5))), GlobalStore);
  }

  /** An integer and a return value meet only in a type mismatch. */
  lemma IntegerReturnMismatch(op: string, n: int32, v: Value)
    requires op != "==" && op != "!="
    ensures Binary(op, Integer(n), Return(v)) == Ok(Error("type mismatch: INTEGER " + op + " RETURN"))
  {
    var x := "type mismatch: " + IntegerType.Name() + " ";
    assert x == "type mismatch: INTEGER ";
    var y := " " + ReturnType.Name();
    assert y == " RETURN";
    assert "type mismatch: " + IntegerType.Name() + " " + op + " " + ReturnType.Name() == x + op + y;
  }

  /**
   * A return value is an operand like any other: `1 + if (true) { return 2; }` is the error
   * "type mismatch: INTEGER + RETURN", since the `if` gives a return value that the operator
   * receives as it is.
   */
  lemma ReturnAsOperand(left: Expression, kind: T.TokenType, op: string, condition: Expression, value: Expression,
                        n: int32, c: Value, v: Value, env: EnvRef, store: Store, fuel: nat)
    requires ValidStore(store) && env < |store| && op != "==" && op != "!="
    requires Eval(left, env, store, fuel) == Done(Integer(n), store)
    requires Eval(condition, env, store, fuel) == Done(c, store) && !c.Error? && IsTruthy(c)
    requires Eval(value, env, store, fuel) == Done(v, store) && !v.Error?
    ensures Eval(Op(left, kind, op, If(condition, [Ret(value)])), env, store, fuel) ==
            Done(Error("type mismatch: INTEGER " + op + " RETURN"), store)
  {
    ReturnInIf(condition, value, c, v, env, store, fuel);
    IntegerReturnMismatch(op, n, v);
    BinaryOperands(left, kind, op, If(condition, [Ret(value)]), Integer(n), Return(v), env, store, fuel);
  }

  /** `if (true) { let a = 1; }; a` is 1: a block makes no environment of its own. */
  lemma LetInBlockIsVisibleAfter(p: Program, fuel: nat)
    requires p == Program([Expr(If(True(), [Let("a", Num("1", 1))])), Expr(Var("a"))])
    ensures EvalProgram(p, 0, GlobalStore, fuel).Done?
    ensures EvalProgram(p, 0, GlobalStore, fuel).value == Integer(1)
  {
    var s1 := Bind(GlobalStore, 0, "a", Integer(1));
    assert Eval(True(), 0, GlobalStore, fuel) == Done(Bool(true), GlobalStore);
    assert EvalStatement(Let("a", Num("1", 1)), 0, GlobalStore, fuel) == Done(Integer(1), s1);
    OneStatementBlock(Let("a", Num("1", 1)), 0, GlobalStore, fuel);
    IfTruthy(True(), [Let("a", Num("1", 1))], 0, GlobalStore, fuel);
    assert EvalStatements([Let("a", Num("1", 1))], 0, GlobalStore, fuel, Null) == Done(Integer(1), s1);
    assert Eval(If(True(), [Let("a", Num("1", 1))]), 0, GlobalStore, fuel) == Done(Integer(1), s1);
    assert EvalStatement(p.statements[0], 0, GlobalStore, fuel) == Done(Integer(1), s1);
    assert EvalStatement(p.statements[1], 0, s1, fuel) == Done(Integer(1), s1);
    assert p.statements[1..][1..] == [];
    assert RunStatements([], 0, s1, fuel, Integer(1)) == Done(Integer(1), s1);
    assert RunStatements(p.statements[1..], 0, s1, fuel, Integer(1)) == Done(Integer(1), s1);
  }

  // ---------------------------------------------------------------- hashes and builtins

  function HashOf(pairs: seq<HashPair>): Expression
  {
    HashLiteral(T.Token(T.LBrace, "{"), pairs)
  }

  function At(left: Expression, index: Expression): Expression
  {
    IndexExpr(T.Token(T.LBracket, "["), left, index)
  }

  /** A hash literal of one pair whose key and value evaluate without error. */
  lemma OnePairHash(key: Expression, value: Expression, hk: HashKey, k: Value, v: Value,
                    env: EnvRef, store: Store, fuel: nat)
    requires ValidStore(store) && env < |store|
    requires Eval(key, env, store, fuel) == Done(k, store) && !k.Error? && AsKey(k) == Some(hk)
    requires Eval(value, env, store, fuel) == Done(v, store) && !v.Error?
    ensures Eval(HashOf([HashPair(key, value)]), env, store, fuel) == Done(Hash(map[hk := v]), store)
  {
    var ps := [HashPair(key, value)];
    PairStep(ps, hk, k, v, env, store, fuel, map[]);
    assert ps[1..] == [];
  }

  lemma StringLiteralValue(text: string, env: EnvRef, store: Store, fuel: nat)
    requires ValidStore(store) && env < |store|
    ensures Eval(Text(text), env, store, fuel) == Done(Str(text), store)
  {
  }

  /** A function literal evaluates to a function closing over the environment it is evaluated in. */
  lemma FunctionLiteralValue(e: Expression, env: EnvRef, store: Store, fuel: nat)
    requires ValidStore(store) && env < |store| && e.FunctionLiteral?
    ensures Eval(e, env, store, fuel) == Done(Function(e.parameters, e.body, env), store)
  {
  }

  /** Indexing a hash by a function value names the function type in an error. */
  lemma FunctionIndex(pairs: map<HashKey, Value>, f: Value)
    requires f.Function?
    ensures Index(Hash(pairs), f) == Error("unusable as hash key: FUNCTION")
  {
    assert "unusable as hash key: " + FunctionType.Name() == "unusable as hash key: FUNCTION";
  }

  /** `{"name": "Monkey"}[fn(x) { x }]` is an error: a function cannot be a hash key. */
  lemma UnusableHashKey(e: Expression, fuel: nat)
    requires e == At(HashOf([HashPair(Text("name"), Text("Monkey"))]), Fn([Id("x")], [Expr(Var("x"))]))
    ensures Eval(e, 0, GlobalStore, fuel) == Done(Error("unusable as hash key: FUNCTION"), GlobalStore)
  {
    var h := map[StrKey("name") := Str("Monkey")];
    StringLiteralValue("name", 0, GlobalStore, fuel);
    StringLiteralValue("Monkey", 0, GlobalStore, fuel);
    OnePairHash(Text("name"), Text("Monkey"), StrKey("name"), Str("name"), Str("Monkey"), 0, GlobalStore, fuel);
    var f := Function(e.index.parameters, e.index.body, 0);
    FunctionLiteralValue(e.index, 0, GlobalStore, fuel);
    FunctionIndex(h, f);
    IndexOperands(e.left, e.index, Hash(h), f, 0, GlobalStore, fuel);
  }

  /** `{1: 2, 1: 3}[1]` is 3: of two pairs with equal keys, the later one is kept. */
  lemma LaterKeyWins(e: Expression, fuel: nat)
    requires e == At(HashOf([HashPair(Num("1", 1), Num("2", 2)), HashPair(Num("1", 1), Num("3", 3))]), Num("1", 1))
    ensures Eval(e, 0, GlobalStore, fuel) == Done(Integer(3), GlobalStore)
  {
    var pairs := e.left.pairs;
    var m1 := map[IntKey(1) := Integer(2)];
    var m2 := m1[IntKey(1) := Integer(3)];
    assert Eval(Num("1", 1), 0, GlobalStore, fuel) == Done(Integer(1), GlobalStore);
    assert Eval(Num("2", 2), 0, GlobalStore, fuel) == Done(Integer(2), GlobalStore);
    assert Eval(Num("3", 3), 0, GlobalStore, fuel) == Done(Integer(3), GlobalStore);
    PairStep(pairs, IntKey(1), Integer(1), Integer(2), 0, GlobalStore, fuel, map[]);
    PairStep(pairs[1..], IntKey(1), Integer(1), Integer(3), 0, GlobalStore, fuel, m1);
    assert pairs[1..][1..] == [];
    assert EvalPairs(pairs[1..][1..], 0, GlobalStore, fuel, m2) == Done(Hash(m2), GlobalStore);
    assert Eval(e.left, 0, GlobalStore, fuel) == Done(Hash(m2), GlobalStore);
    IndexOperands(e.left, e.index, Hash(m2), Integer(1), 0, GlobalStore, fuel);
  }

  /** `len("four")` is 4: `len` is found in the builtin table when no environment binds it. */
  lemma LenOfString(fuel: nat)
    ensures Eval(Call(Var("len"), [Text("four")]), 0, GlobalStore, fuel) == Done(Integer(4), GlobalStore)
  {
    assert Lookup(GlobalStore, 0, "len") == None;
    assert Eval(Var("len"), 0, GlobalStore, fuel) == Done(Builtin(LenFn), GlobalStore);
    assert Eval(Text("four"), 0, GlobalStore, fuel) == Done(Str("four"), GlobalStore);
    SingleArgument(Text("four"), 0, GlobalStore, fuel);
    assert ApplyFunction(Builtin(LenFn), [Str("four")], GlobalStore, fuel) == Done(Integer(4), GlobalStore);
    var e := Call(Var("len"), [Text("four")]);
    assert Eval(e, 0, GlobalStore, fuel) == EvalCall(e, 0, GlobalStore, fuel);
  }
}
