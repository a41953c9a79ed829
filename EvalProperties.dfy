/**
 * Properties of the evaluator: how blocks and programs sequence their statements, what a call
 * binds, that unbounded recursion never yields a value, and that fuel bounds evaluation
 * without changing its result.
 */
module EvalProperties {
  import opened Options
  import opened KotlinInt
  import T = Tokens
  import opened Ast
  import opened Objects
  import opened Environments
  import opened Operators
  import opened Semantics
  import opened Builtins

  /** A statement result that ends the enclosing block. */
  predicate Stops(v: Value)
  {
    v.Return? || v.Error?
  }

  // ---------------------------------------------------------------- blocks and programs

  /**
   * A block of `ss` followed by `tt` runs `ss` first; unless that stops (a return, an error,
   * or a halt), `tt` then runs from where `ss` left off. In particular statements after a
   * `return` are never evaluated.
   */
  lemma {:induction false} BlockSequencing(ss: seq<Statement>, tt: seq<Statement>, env: EnvRef,
                                           store: Store, fuel: nat, last: Value)
    requires ValidStore(store) && env < |store| && RefsBelow(last, |store|) && !Stops(last)
    ensures var o := EvalStatements(ss, env, store, fuel, last);
            EvalStatements(ss + tt, env, store, fuel, last) ==
            if o.Halted? || Stops(o.value) then o else EvalStatements(tt, env, o.store, fuel, o.value)
    decreases |ss|
  {
    if |ss| == 0 {
      assert ss + tt == tt;
    } else {
      assert (ss + tt)[0] == ss[0] && (ss + tt)[1..] == ss[1..] + tt;
      var o := EvalStatement(ss[0], env, store, fuel);
      if !(o.Halted? || Stops(o.value)) {
        BlockSequencing(ss[1..], tt, env, o.store, fuel, o.value);
      }
    }
  }

  /**
   * A program runs its statements as a block does, and then removes one level of `Return`
   * from the result: `return` at top level ends the program with the value it carries.
   */
  lemma {:induction false} ProgramIsUnwrappedBlock(ss: seq<Statement>, env: EnvRef, store: Store,
                                                   fuel: nat, last: Value)
    requires ValidStore(store) && env < |store| && RefsBelow(last, |store|) && !Stops(last)
    ensures var o := EvalStatements(ss, env, store, fuel, last);
            RunStatements(ss, env, store, fuel, last) ==
            if o.Halted? then o else Done(Unwrap(o.value), o.store)
    decreases |ss|
  {
    if |ss| > 0 {
      var o := EvalStatement(ss[0], env, store, fuel);
      if !(o.Halted? || Stops(o.value)) {
        ProgramIsUnwrappedBlock(ss[1..], env, o.store, fuel, o.value);
      }
    }
  }

  /** A block ends with its first statement that returns, whatever follows it. */
  lemma ReturnEndsBlock(value: Expression, rest: seq<Statement>, env: EnvRef, store: Store, fuel: nat)
    requires ValidStore(store) && env < |store|
    requires Eval(value, env, store, fuel).Done? && !Eval(value, env, store, fuel).value.Error?
    ensures var v := Eval(value, env, store, fuel);
            EvalStatements([ReturnStatement(T.Token(T.TokenType.Return, "return"), value)] + rest, env, store, fuel, Null)
            == Done(Return(v.value), v.store)
  {
    var ss := [ReturnStatement(T.Token(T.TokenType.Return, "return"), value)] + rest;
    assert ss[0] == ReturnStatement(T.Token(T.TokenType.Return, "return"), value);
  }

  // ---------------------------------------------------------------- errors, conditions, names

  /**
   * An error in the left operand, the operand of a prefix operator, the callee, the indexed
   * value or the condition is the outcome of the whole expression: nothing after it is
   * evaluated, so the store is the one that part left. So is an error in the right operand or
   * the index, once the part before it evaluated cleanly.
   */
  lemma ErrorsShortCircuit(e: Expression, env: EnvRef, store: Store, fuel: nat)
    requires ValidStore(store) && env < |store|
    ensures e.BinaryExpr? && Eval(e.left, env, store, fuel).Done? && Eval(e.left, env, store, fuel).value.Error?
            ==> Eval(e, env, store, fuel) == Eval(e.left, env, store, fuel)
    ensures e.PrefixExpr? && Eval(e.right, env, store, fuel).Done? && Eval(e.right, env, store, fuel).value.Error?
            ==> Eval(e, env, store, fuel) == Eval(e.right, env, store, fuel)
    ensures e.CallExpr? && Eval(e.callee, env, store, fuel).Done? && Eval(e.callee, env, store, fuel).value.Error?
            ==> Eval(e, env, store, fuel) == Eval(e.callee, env, store, fuel)
    ensures e.IndexExpr? && Eval(e.left, env, store, fuel).Done? && Eval(e.left, env, store, fuel).value.Error?
            ==> Eval(e, env, store, fuel) == Eval(e.left, env, store, fuel)
    ensures e.IfExpr? && Eval(e.condition, env, store, fuel).Done? && Eval(e.condition, env, store, fuel).value.Error?
            ==> Eval(e, env, store, fuel) == Eval(e.condition, env, store, fuel)
    ensures e.BinaryExpr? && Eval(e.left, env, store, fuel).Done? && !Eval(e.left, env, store, fuel).value.Error?
            ==> var r := Eval(e.right, env, Eval(e.left, env, store, fuel).store, fuel);
                r.Done? && r.value.Error? ==> Eval(e, env, store, fuel) == r
    ensures e.IndexExpr? && Eval(e.left, env, store, fuel).Done? && !Eval(e.left, env, store, fuel).value.Error?
            ==> var i := Eval(e.index, env, Eval(e.left, env, store, fuel).store, fuel);
                i.Done? && i.value.Error? ==> Eval(e, env, store, fuel) == i
  {
  }

  /**
   * Once a list of arguments or elements has met an error (or halted), the expressions after
   * it are never evaluated: the outcome of `xs + ys` is the outcome of `xs`.
   */
  lemma {:induction false} ErrorStopsList(xs: seq<Expression>, ys: seq<Expression>, env: EnvRef, store: Store, fuel: nat)
    requires ValidStore(store) && env < |store|
    requires var o := EvalExpressions(xs, env, store, fuel);
             o.Halted? || (|o.value| == 1 && o.value[0].Error?)
    ensures EvalExpressions(xs + ys, env, store, fuel) == EvalExpressions(xs, env, store, fuel)
  {
    assert |xs| > 0;
    assert (xs + ys)[0] == xs[0] && (xs + ys)[1..] == xs[1..] + ys;
    var v := Eval(xs[0], env, store, fuel);
    if v.Done? && !v.value.Error? {
      ErrorStopsList(xs[1..], ys, env, v.store, fuel);
    }
  }

  /**
   * A truthy condition runs the consequence; a falsy one the alternative, or gives `null`
   * when there is none.
   */
  lemma Conditional(e: Expression, env: EnvRef, store: Store, fuel: nat)
    requires ValidStore(store) && env < |store| && e.IfExpr?
    requires Eval(e.condition, env, store, fuel).Done? && !Eval(e.condition, env, store, fuel).value.Error?
    ensures var c := Eval(e.condition, env, store, fuel);
            (IsTruthy(c.value) ==> Eval(e, env, store, fuel) == EvalBlock(e.consequence, env, c.store, fuel))
            && (!IsTruthy(c.value) && e.alternative.Some? ==>
                Eval(e, env, store, fuel) == EvalBlock(e.alternative.value, env, c.store, fuel))
            && (!IsTruthy(c.value) && e.alternative.None? ==> Eval(e, env, store, fuel) == Done(Null, c.store))
  {
  }

  /**
   * A name is the first binding of it along the environment chain; failing that, the builtin
   * of that name; failing that, an error naming it.
   */
  lemma IdentifierResolution(store: Store, env: EnvRef, name: string)
    requires ValidStore(store) && env < |store|
    ensures var found := FirstBinding(store, Chain(store, env), name);
            EvalIdentifier(store, env, name) ==
            if found.Some? then found.value
            else if name in {"len", "first", "rest", "last", "push", "puts"} then LookupBuiltin(name).value
            else Error("identifier not found: " + name)
  {
    LookupIsFirstBinding(store, env, name);
  }

  // ---------------------------------------------------------------- calls

  /**
   * A parameter with an argument is bound to that argument unless a later parameter of the
   * same name has an argument too: with duplicate names, the last of them wins.
   */
  lemma {:induction false} LastParameterWins(store: Store, frame: EnvRef, parameters: seq<Identifier>,
                                             args: seq<Value>, i: nat)
    requires ValidStore(store) && frame < |store| && AllRefsBelow(args, |store|)
    requires i < |parameters| && i < |args|
    requires forall j :: i < j < |parameters| && j < |args| ==> parameters[j].value != parameters[i].value
    ensures var r := BindParameters(store, frame, parameters, args);
            parameters[i].value in r[frame].vars && r[frame].vars[parameters[i].value] == args[i]
    decreases |parameters|
  {
    var x := parameters[i].value;
    BindKeepsValid(store, frame, parameters[0].value, args[0]);
    var s := Bind(store, frame, parameters[0].value, args[0]);
    if i == 0 {
      forall j | 0 <= j < |parameters[1..]| && j < |args[1..]|
        ensures parameters[1..][j].value != x
      {
        assert parameters[1..][j] == parameters[j + 1];
      }
      BindingsOfFrame(s, frame, parameters[1..], args[1..], x);
    } else {
      forall j | i - 1 < j < |parameters[1..]| && j < |args[1..]|
        ensures parameters[1..][j].value != parameters[1..][i - 1].value
      {
        assert parameters[1..][j] == parameters[j + 1];
      }
      LastParameterWins(s, frame, parameters[1..], args[1..], i - 1);
    }
  }

  /**
   * When the parameter names are distinct, a call binds each parameter that has an argument
   * to that argument; a parameter without one is left as the new environment had it, which
   * is unbound, so a use of it looks further out.
   */
  lemma {:induction false} ParameterBound(store: Store, frame: EnvRef, parameters: seq<Identifier>,
                                          args: seq<Value>, i: nat)
    requires ValidStore(store) && frame < |store| && AllRefsBelow(args, |store|) && i < |parameters|
    requires forall j :: 0 <= j < |parameters| && j != i ==> parameters[j].value != parameters[i].value
    ensures var r := BindParameters(store, frame, parameters, args);
            (i < |args| ==> parameters[i].value in r[frame].vars && r[frame].vars[parameters[i].value] == args[i])
            && (i >= |args| ==> (parameters[i].value in r[frame].vars <==> parameters[i].value in store[frame].vars))
    decreases |parameters|
  {
    var x := parameters[i].value;
    if i >= |args| {
      BindingsOfFrame(store, frame, parameters, args, x);
    } else {
      LastParameterWins(store, frame, parameters, args, i);
    }
  }

  /** Binding parameters only touches the names of parameters that have arguments. */
  lemma {:induction false} BindingsOfFrame(store: Store, frame: EnvRef, parameters: seq<Identifier>,
                                           args: seq<Value>, x: string)
    requires ValidStore(store) && frame < |store| && AllRefsBelow(args, |store|)
    requires forall j :: 0 <= j < |parameters| && j < |args| ==> parameters[j].value != x
    ensures var r := BindParameters(store, frame, parameters, args);
            (x in r[frame].vars <==> x in store[frame].vars)
            && (x in store[frame].vars ==> r[frame].vars[x] == store[frame].vars[x])
    decreases |parameters|
  {
    if 0 < |parameters| && 0 < |args| {
      BindKeepsValid(store, frame, parameters[0].value, args[0]);
      var s := Bind(store, frame, parameters[0].value, args[0]);
      forall j | 0 <= j < |parameters[1..]| && j < |args[1..]|
        ensures parameters[1..][j].value != x
      {
        assert parameters[1..][j] == parameters[j + 1];
      }
      BindingsOfFrame(s, frame, parameters[1..], args[1..], x);
    }
  }

  // ---------------------------------------------------------------- unbounded recursion

  function Ident(name: string): Identifier
  {
    Identifier(T.Token(T.TokenType.Ident, name), name)
  }

  /** `f()` */
  function CallF(): Expression
  {
    CallExpr(T.Token(T.LParen, "("), IdentifierExpr(Ident("f")), [])
  }

  /** The body `{ f() }` of `fn() { f() }`. */
  function SelfCallBody(): Block
  {
    Block(T.Token(T.LBrace, "{"), [ExpressionStatement(T.Token(T.TokenType.Ident, "f"), CallF())])
  }

  /**
   * A function that calls itself with no base case uses up any fuel: calling `f` while the
   * first environment binds `f` to `fn() { f() }` never produces a value.
   */
  lemma {:induction false} SelfCallNeverReturns(store: Store, fuel: nat)
    requires ValidStore(store) && 0 < |store|
    requires "f" in store[0].vars && store[0].vars["f"] == Function([], SelfCallBody(), 0)
    ensures ApplyFunction(Function([], SelfCallBody(), 0), [], store, fuel) == Halted(OutOfFuel)
    decreases fuel
  {
    if fuel > 0 {
      var f := Function([], SelfCallBody(), 0);
      ExtendKeepsValid(store, Some(0));
      var s := Extend(store, Some(0));
      var frame := |store|;
      assert BindParameters(s, frame, [], []) == s;
      assert Lookup(s, frame, "f") == Some(f) by {
        assert s[frame] == Scope(map[], Some(0)) && s[0] == store[0];
      }
      assert Eval(IdentifierExpr(Ident("f")), frame, s, fuel - 1) == Done(f, s);
      assert EvalExpressions([], frame, s, fuel - 1) == Done([], s);
      SelfCallNeverReturns(s, fuel - 1);
      assert EvalCall(CallF(), frame, s, fuel - 1) == Halted(OutOfFuel);
      assert EvalStatement(SelfCallBody().statements[0], frame, s, fuel - 1) == Halted(OutOfFuel);
      assert EvalBlock(SelfCallBody(), frame, s, fuel - 1) == Halted(OutOfFuel);
    }
  }

  /** The program `let f = fn() { f() }; f()` runs out of fuel, however much it is given. */
  lemma UnboundedRecursionExhaustsFuel(p: Program, fuel: nat)
    requires p == Program([
      LetStatement(T.Token(T.Let, "let"), Ident("f"),
                   FunctionLiteral(T.Token(T.TokenType.Function, "fn"), [], SelfCallBody())),
      ExpressionStatement(T.Token(T.TokenType.Ident, "f"), CallF())])
    ensures EvalProgram(p, 0, GlobalStore, fuel) == Halted(OutOfFuel)
  {
    var f := Function([], SelfCallBody(), 0);
    var s := Bind(GlobalStore, 0, "f", f);
    assert EvalStatement(p.statements[0], 0, GlobalStore, fuel) == Done(f, s);
    assert Lookup(s, 0, "f") == Some(f);
    assert Eval(IdentifierExpr(Ident("f")), 0, s, fuel) == Done(f, s);
    assert EvalExpressions([], 0, s, fuel) == Done([], s);
    SelfCallNeverReturns(s, fuel);
    assert EvalCall(CallF(), 0, s, fuel) == Halted(OutOfFuel);
    assert p.statements[1..][0] == ExpressionStatement(T.Token(T.TokenType.Ident, "f"), CallF());
    assert EvalStatement(p.statements[1..][0], 0, s, fuel) == Halted(OutOfFuel);
    assert RunStatements(p.statements[1..], 0, s, fuel, f) == Halted(OutOfFuel);
  }

  // ---------------------------------------------------------------- hash literals

  /** Key-value pairs inserted into `acc` in order: a later key replaces an equal earlier one. */
  function InsertAll(acc: map<HashKey, Value>, kvs: seq<(HashKey, Value)>): map<HashKey, Value>
    decreases |kvs|
  {
    if |kvs| == 0 then acc else InsertAll(acc[kvs[0].0 := kvs[0].1], kvs[1..])
  }

  /**
   * The keys of `ps`, in order, evaluate to values that can be hash keys and their values to
   * values other than errors; `kvs` are the keys and values, and `final` the store they leave.
   */
  ghost predicate CleanPairs(ps: seq<HashPair>, env: EnvRef, store: Store, fuel: nat,
                             kvs: seq<(HashKey, Value)>, final: Store)
    requires ValidStore(store) && env < |store|
    decreases |ps|
  {
    if |ps| == 0 then kvs == [] && final == store
    else
      var k := Eval(ps[0].key, env, store, fuel);
      k.Done? && AsKey(k.value).Some?
      && var v := Eval(ps[0].value, env, k.store, fuel);
         v.Done? && !v.value.Error? && |kvs| > 0 && kvs[0] == (AsKey(k.value).value, v.value)
         && CleanPairs(ps[1..], env, v.store, fuel, kvs[1..], final)
  }

  /** When every pair evaluates cleanly, a hash literal is its pairs inserted in order. */
  lemma {:induction false} CleanPairsInsert(ps: seq<HashPair>, env: EnvRef, store: Store, fuel: nat,
                                            acc: map<HashKey, Value>, kvs: seq<(HashKey, Value)>, final: Store)
    requires ValidStore(store) && env < |store| && RefsBelow(Hash(acc), |store|)
    requires CleanPairs(ps, env, store, fuel, kvs, final)
    ensures EvalPairs(ps, env, store, fuel, acc) == Done(Hash(InsertAll(acc, kvs)), final)
    decreases |ps|
  {
    if |ps| > 0 {
      var k := Eval(ps[0].key, env, store, fuel);
      var v := Eval(ps[0].value, env, k.store, fuel);
      var key := AsKey(k.value).value;
      RefsBelowGrow(Hash(acc), |store|, |v.store|);
      CleanPairsInsert(ps[1..], env, v.store, fuel, acc[key := v.value], kvs[1..], final);
    }
  }

  /**
   * Once the pairs before it evaluated cleanly, a key whose value cannot be a hash key ends the
   * hash literal with "unusable as hash key: T", T the type of that value.
   */
  lemma {:induction false} UnusableKeyInLiteral(ps: seq<HashPair>, i: nat, env: EnvRef, store: Store, fuel: nat,
                                                acc: map<HashKey, Value>, kvs: seq<(HashKey, Value)>, mid: Store)
    requires ValidStore(store) && env < |store| && RefsBelow(Hash(acc), |store|)
    requires i < |ps| && CleanPairs(ps[..i], env, store, fuel, kvs, mid)
    requires ValidStore(mid) && env < |mid|
    requires Eval(ps[i].key, env, mid, fuel).Done? && !Eval(ps[i].key, env, mid, fuel).value.Error?
    requires AsKey(Eval(ps[i].key, env, mid, fuel).value).None?
    ensures var k := Eval(ps[i].key, env, mid, fuel);
            EvalPairs(ps, env, store, fuel, acc) == Done(Error("unusable as hash key: " + k.value.Type().Name()), k.store)
    decreases i
  {
    if i == 0 {
      assert ps[..0] == [];
    } else {
      assert ps[..i][0] == ps[0] && ps[..i][1..] == ps[1..][..i - 1];
      var k := Eval(ps[0].key, env, store, fuel);
      var v := Eval(ps[0].value, env, k.store, fuel);
      var key := AsKey(k.value).value;
      RefsBelowGrow(Hash(acc), |store|, |v.store|);
      CleanPairsValid(ps[1..][..i - 1], env, v.store, fuel, kvs[1..], mid);
      UnusableKeyInLiteral(ps[1..], i - 1, env, v.store, fuel, acc[key := v.value], kvs[1..], mid);
    }
  }

  /** The store that clean pairs leave is valid and still holds the environment. */
  lemma {:induction false} CleanPairsValid(ps: seq<HashPair>, env: EnvRef, store: Store, fuel: nat,
                                           kvs: seq<(HashKey, Value)>, final: Store)
    requires ValidStore(store) && env < |store| && CleanPairs(ps, env, store, fuel, kvs, final)
    ensures ValidStore(final) && env < |final|
    decreases |ps|
  {
    if |ps| > 0 {
      var k := Eval(ps[0].key, env, store, fuel);
      var v := Eval(ps[0].value, env, k.store, fuel);
      CleanPairsValid(ps[1..], env, v.store, fuel, kvs[1..], final);
    }
  }

  // ---------------------------------------------------------------- fuel

  /*
   * Fuel only bounds evaluation: whenever it does not run out, giving more changes neither the
   * value nor the store, so a result computed with some fuel is the result of the program.
   */

  lemma {:induction false} EvalFuel(e: Expression, env: EnvRef, store: Store, fuel: nat, more: nat)
    requires ValidStore(store) && env < |store| && fuel <= more
    requires Eval(e, env, store, fuel) != Halted(OutOfFuel)
    ensures Eval(e, env, store, more) == Eval(e, env, store, fuel)
    decreases fuel, ExprSize(e), 2
  {
    match e
    case PrefixExpr(_, _, _) => EvalPrefixFuel(e, env, store, fuel, more);
    case BinaryExpr(_, _, _, _) => EvalBinaryFuel(e, env, store, fuel, more);
    case IfExpr(_, _, _, _) => EvalIfFuel(e, env, store, fuel, more);
    case CallExpr(_, _, _) => EvalCallFuel(e, env, store, fuel, more);
    case ArrayLiteral(_, _) => EvalArrayFuel(e, env, store, fuel, more);
    case HashLiteral(_, pairs) => EvalPairsFuel(pairs, env, store, fuel, more, map[]);
    case IndexExpr(_, _, _) => EvalIndexFuel(e, env, store, fuel, more);
    case _ =>
  }

  lemma {:induction false} EvalPrefixFuel(e: Expression, env: EnvRef, store: Store, fuel: nat, more: nat)
    requires e.PrefixExpr? && ValidStore(store) && env < |store| && fuel <= more
    requires EvalPrefix(e, env, store, fuel) != Halted(OutOfFuel)
    ensures EvalPrefix(e, env, store, more) == EvalPrefix(e, env, store, fuel)
    decreases fuel, ExprSize(e), 1
  {
    EvalFuel(e.right, env, store, fuel, more);
  }

  lemma {:induction false} EvalBinaryFuel(e: Expression, env: EnvRef, store: Store, fuel: nat, more: nat)
    requires e.BinaryExpr? && ValidStore(store) && env < |store| && fuel <= more
    requires EvalBinary(e, env, store, fuel) != Halted(OutOfFuel)
    ensures EvalBinary(e, env, store, more) == EvalBinary(e, env, store, fuel)
    decreases fuel, ExprSize(e), 1
  {
    var l := Eval(e.left, env, store, fuel);
    EvalFuel(e.left, env, store, fuel, more);
    if !(l.Halted? || l.value.Error?) {
      EvalFuel(e.right, env, l.store, fuel, more);
    }
  }

  lemma {:induction false} EvalIfFuel(e: Expression, env: EnvRef, store: Store, fuel: nat, more: nat)
    requires e.IfExpr? && ValidStore(store) && env < |store| && fuel <= more
    requires EvalIf(e, env, store, fuel) != Halted(OutOfFuel)
    ensures EvalIf(e, env, store, more) == EvalIf(e, env, store, fuel)
    decreases fuel, ExprSize(e), 1
  {
    var c := Eval(e.condition, env, store, fuel);
    EvalFuel(e.condition, env, store, fuel, more);
    if !(c.Halted? || c.value.Error?) {
      if IsTruthy(c.value) {
        EvalBlockFuel(e.consequence, env, c.store, fuel, more);
      } else if e.alternative.Some? {
        EvalBlockFuel(e.alternative.value, env, c.store, fuel, more);
      }
    }
  }

  lemma {:induction false} EvalCallFuel(e: Expression, env: EnvRef, store: Store, fuel: nat, more: nat)
    requires e.CallExpr? && ValidStore(store) && env < |store| && fuel <= more
    requires EvalCall(e, env, store, fuel) != Halted(OutOfFuel)
    ensures EvalCall(e, env, store, more) == EvalCall(e, env, store, fuel)
    decreases fuel, ExprSize(e), 1
  {
    var f := Eval(e.callee, env, store, fuel);
    EvalFuel(e.callee, env, store, fuel, more);
    if !(f.Halted? || f.value.Error?) {
      var a := EvalExpressions(e.arguments, env, f.store, fuel);
      EvalExpressionsFuel(e.arguments, env, f.store, fuel, more);
      if !a.Halted? && !(|a.value| == 1 && a.value[0].Error?) {
        RefsBelowGrow(f.value, |f.store|, |a.store|);
        ApplyFunctionFuel(f.value, a.value, a.store, fuel, more);
      }
    }
  }

  lemma {:induction false} EvalArrayFuel(e: Expression, env: EnvRef, store: Store, fuel: nat, more: nat)
    requires e.ArrayLiteral? && ValidStore(store) && env < |store| && fuel <= more
    requires EvalArray(e, env, store, fuel) != Halted(OutOfFuel)
    ensures EvalArray(e, env, store, more) == EvalArray(e, env, store, fuel)
    decreases fuel, ExprSize(e), 1
  {
    EvalExpressionsFuel(e.elements, env, store, fuel, more);
  }

  lemma {:induction false} EvalIndexFuel(e: Expression, env: EnvRef, store: Store, fuel: nat, more: nat)
    requires e.IndexExpr? && ValidStore(store) && env < |store| && fuel <= more
    requires EvalIndex(e, env, store, fuel) != Halted(OutOfFuel)
    ensures EvalIndex(e, env, store, more) == EvalIndex(e, env, store, fuel)
    decreases fuel, ExprSize(e), 1
  {
    var l := Eval(e.left, env, store, fuel);
    EvalFuel(e.left, env, store, fuel, more);
    if !(l.Halted? || l.value.Error?) {
      EvalFuel(e.index, env, l.store, fuel, more);
    }
  }

  lemma {:induction false} EvalExpressionsFuel(es: seq<Expression>, env: EnvRef, store: Store, fuel: nat, more: nat)
    requires ValidStore(store) && env < |store| && fuel <= more
    requires EvalExpressions(es, env, store, fuel) != Halted(OutOfFuel)
    ensures EvalExpressions(es, env, store, more) == EvalExpressions(es, env, store, fuel)
    decreases fuel, ExprsSize(es), 3
  {
    if |es| > 0 {
      var v := Eval(es[0], env, store, fuel);
      EvalFuel(es[0], env, store, fuel, more);
      if !(v.Halted? || v.value.Error?) {
        EvalExpressionsFuel(es[1..], env, v.store, fuel, more);
      }
    }
  }

  lemma {:induction false} EvalPairsFuel(ps: seq<HashPair>, env: EnvRef, store: Store, fuel: nat, more: nat,
                                         acc: map<HashKey, Value>)
    requires ValidStore(store) && env < |store| && RefsBelow(Hash(acc), |store|) && fuel <= more
    requires EvalPairs(ps, env, store, fuel, acc) != Halted(OutOfFuel)
    ensures EvalPairs(ps, env, store, more, acc) == EvalPairs(ps, env, store, fuel, acc)
    decreases fuel, PairsSize(ps), 1
  {
    if |ps| > 0 {
      assert PairsSize(ps) == PairSize(ps[0]) + PairsSize(ps[1..]);
      assert PairSize(ps[0]) == 1 + ExprSize(ps[0].key) + ExprSize(ps[0].value);
      var k := Eval(ps[0].key, env, store, fuel);
      EvalFuel(ps[0].key, env, store, fuel, more);
      if !(k.Halted? || k.value.Error?) && AsKey(k.value).Some? {
        var v := Eval(ps[0].value, env, k.store, fuel);
        EvalFuel(ps[0].value, env, k.store, fuel, more);
        if !(v.Halted? || v.value.Error?) {
          RefsBelowGrow(Hash(acc), |store|, |v.store|);
          EvalPairsFuel(ps[1..], env, v.store, fuel, more, acc[AsKey(k.value).value := v.value]);
        }
      }
    }
  }

  lemma {:induction false} ApplyFunctionFuel(f: Value, args: seq<Value>, store: Store, fuel: nat, more: nat)
    requires ValidStore(store) && RefsBelow(f, |store|) && AllRefsBelow(args, |store|) && fuel <= more
    requires ApplyFunction(f, args, store, fuel) != Halted(OutOfFuel)
    ensures ApplyFunction(f, args, store, more) == ApplyFunction(f, args, store, fuel)
    decreases fuel, 0, 0
  {
    if f.Function? {
      var frame := |store|;
      ExtendKeepsValid(store, Some(f.env));
      AllRefsBelowGrow(args, |store|, |store| + 1);
      var s := BindParameters(Extend(store, Some(f.env)), frame, f.parameters, args);
      EvalBlockFuel(f.body, frame, s, fuel - 1, more - 1);
    }
  }

  lemma {:induction false} EvalBlockFuel(b: Block, env: EnvRef, store: Store, fuel: nat, more: nat)
    requires ValidStore(store) && env < |store| && fuel <= more
    requires EvalBlock(b, env, store, fuel) != Halted(OutOfFuel)
    ensures EvalBlock(b, env, store, more) == EvalBlock(b, env, store, fuel)
    decreases fuel, BlockSize(b), 2
  {
    EvalStatementsFuel(b.statements, env, store, fuel, more, Null);
  }

  lemma {:induction false} EvalStatementsFuel(ss: seq<Statement>, env: EnvRef, store: Store, fuel: nat, more: nat,
                                              last: Value)
    requires ValidStore(store) && env < |store| && RefsBelow(last, |store|) && fuel <= more
    requires EvalStatements(ss, env, store, fuel, last) != Halted(OutOfFuel)
    ensures EvalStatements(ss, env, store, more, last) == EvalStatements(ss, env, store, fuel, last)
    decreases fuel, StatementsSize(ss), 1
  {
    if |ss| > 0 {
      var o := EvalStatement(ss[0], env, store, fuel);
      EvalStatementFuel(ss[0], env, store, fuel, more);
      if !(o.Halted? || Stops(o.value)) {
        EvalStatementsFuel(ss[1..], env, o.store, fuel, more, o.value);
      }
    }
  }

  lemma {:induction false} EvalStatementFuel(s: Statement, env: EnvRef, store: Store, fuel: nat, more: nat)
    requires ValidStore(store) && env < |store| && fuel <= more
    requires EvalStatement(s, env, store, fuel) != Halted(OutOfFuel)
    ensures EvalStatement(s, env, store, more) == EvalStatement(s, env, store, fuel)
    decreases fuel, StatementSize(s), 0
  {
    match s
    case LetStatement(_, _, value) => EvalFuel(value, env, store, fuel, more);
    case ReturnStatement(_, value) => EvalFuel(value, env, store, fuel, more);
    case ExpressionStatement(_, expression) => EvalFuel(expression, env, store, fuel, more);
  }

  /** A program's result, when it has one, is the same for every larger amount of fuel. */
  lemma {:induction false} ProgramFuel(p: Program, env: EnvRef, store: Store, fuel: nat, more: nat)
    requires ValidStore(store) && env < |store| && fuel <= more
    requires EvalProgram(p, env, store, fuel) != Halted(OutOfFuel)
    ensures EvalProgram(p, env, store, more) == EvalProgram(p, env, store, fuel)
  {
    ProgramIsUnwrappedBlock(p.statements, env, store, fuel, Null);
    ProgramIsUnwrappedBlock(p.statements, env, store, more, Null);
    EvalStatementsFuel(p.statements, env, store, fuel, more, Null);
  }
}
