/**
 * The evaluator: what a program, a statement or an expression evaluates to in an environment.
 *
 * Evaluation threads the store of environments (module `Environments`): `let` binds in the
 * current environment, a function call creates one environment for its parameters and body.
 * Errors are values: the first `Error` produced is passed up unchanged, and a `Return` value
 * ends the enclosing block. Kotlin recursion has no bound but the host stack; here each call
 * of a Monkey function costs one unit of `fuel`, and running out is the outcome
 * `Halted(OutOfFuel)`, as a division by zero is `Halted(DivideByZero)`.
 */
module Semantics {
  import opened Options
  import opened KotlinInt
  import opened Ast
  import opened Objects
  import opened Environments
  import opened Builtins
  import opened Operators

  datatype Outcome<T> = Done(value: T, store: Store) | Halted(halt: Halt)

  /**
   * What evaluating in `env` may do to the store: create environments and change the
   * bindings of `env` itself. Every other existing environment, and the outer link of `env`,
   * stay as they were.
   */
  predicate Evolves(store: Store, store': Store, env: EnvRef)
    requires env < |store|
  {
    |store| <= |store'| && store'[env].outer == store[env].outer
    && forall i :: 0 <= i < |store| && i != env ==> store'[i] == store[i]
  }

  /** An identifier: the environment chain, then the builtin table, else an error. */
  function EvalIdentifier(store: Store, env: EnvRef, name: string): (v: Value)
    requires ValidStore(store) && env < |store|
    ensures RefsBelow(v, |store|)
  {
    LookupRefsBelow(store, env, name);
    match Lookup(store, env, name)
    case Some(v) => v
    case None =>
      match LookupBuiltin(name)
      case Some(b) => b
      case None => Error("identifier not found: " + name)
  }

  function Eval(e: Expression, env: EnvRef, store: Store, fuel: nat): (out: Outcome<Value>)
    requires ValidStore(store) && env < |store|
    ensures out.Done? ==> ValidStore(out.store) && Evolves(store, out.store, env)
                          && RefsBelow(out.value, |out.store|)
    decreases fuel, ExprSize(e), 2
  {
    match e
    case IdentifierExpr(id) => Done(EvalIdentifier(store, env, id.value), store)
    case IntegerLiteral(_, n) => Done(Integer(n), store)
    case BooleanLiteral(_, b) => Done(Bool(b), store)
    case StringLiteral(_, s) => Done(Str(s), store)
    case PrefixExpr(_, _, _) => EvalPrefix(e, env, store, fuel)
    case BinaryExpr(_, _, _, _) => EvalBinary(e, env, store, fuel)
    case IfExpr(_, _, _, _) => EvalIf(e, env, store, fuel)
    case FunctionLiteral(_, parameters, body) => Done(Function(parameters, body, env), store)
    case CallExpr(_, _, _) => EvalCall(e, env, store, fuel)
    case ArrayLiteral(_, _) => EvalArray(e, env, store, fuel)
    case HashLiteral(_, pairs) => EvalPairs(pairs, env, store, fuel, map[])
    case IndexExpr(_, _, _) => EvalIndex(e, env, store, fuel)
  }

  function EvalPrefix(e: Expression, env: EnvRef, store: Store, fuel: nat): (out: Outcome<Value>)
    requires e.PrefixExpr? && ValidStore(store) && env < |store|
    ensures out.Done? ==> ValidStore(out.store) && Evolves(store, out.store, env)
                          && RefsBelow(out.value, |out.store|)
    decreases fuel, ExprSize(e), 1
  {
    var r := Eval(e.right, env, store, fuel);
    if r.Halted? || r.value.Error? then r
    else Done(Prefix(e.operator, r.value), r.store)
  }

  function EvalBinary(e: Expression, env: EnvRef, store: Store, fuel: nat): (out: Outcome<Value>)
    requires e.BinaryExpr? && ValidStore(store) && env < |store|
    ensures out.Done? ==> ValidStore(out.store) && Evolves(store, out.store, env)
                          && RefsBelow(out.value, |out.store|)
    decreases fuel, ExprSize(e), 1
  {
    var l := Eval(e.left, env, store, fuel);
    if l.Halted? || l.value.Error? then l
    else
      var r := Eval(e.right, env, l.store, fuel);
      if r.Halted? || r.value.Error? then r
      else
        match Binary(e.operator, l.value, r.value)
        case Throws(halt) => Halted(halt)
        case Ok(v) => Done(v, r.store)
  }

  /** The consequence when the condition is truthy, else the alternative, else `null`. */
  function EvalIf(e: Expression, env: EnvRef, store: Store, fuel: nat): (out: Outcome<Value>)
    requires e.IfExpr? && ValidStore(store) && env < |store|
    ensures out.Done? ==> ValidStore(out.store) && Evolves(store, out.store, env)
                          && RefsBelow(out.value, |out.store|)
    decreases fuel, ExprSize(e), 1
  {
    var c := Eval(e.condition, env, store, fuel);
    if c.Halted? || c.value.Error? then c
    else if IsTruthy(c.value) then EvalBlock(e.consequence, env, c.store, fuel)
    else if e.alternative.Some? then EvalBlock(e.alternative.value, env, c.store, fuel)
    else Done(Null, c.store)
  }

  /** The callee, then the arguments left to right, then the call. */
  function EvalCall(e: Expression, env: EnvRef, store: Store, fuel: nat): (out: Outcome<Value>)
    requires e.CallExpr? && ValidStore(store) && env < |store|
    ensures out.Done? ==> ValidStore(out.store) && Evolves(store, out.store, env)
                          && RefsBelow(out.value, |out.store|)
    decreases fuel, ExprSize(e), 1
  {
    var f := Eval(e.callee, env, store, fuel);
    if f.Halted? || f.value.Error? then f
    else
      var a := EvalExpressions(e.arguments, env, f.store, fuel);
      if a.Halted? then Halted(a.halt)
      else if |a.value| == 1 && a.value[0].Error? then Done(a.value[0], a.store)
      else
        RefsBelowGrow(f.value, |f.store|, |a.store|);
        ApplyFunction(f.value, a.value, a.store, fuel)
  }

  function EvalArray(e: Expression, env: EnvRef, store: Store, fuel: nat): (out: Outcome<Value>)
    requires e.ArrayLiteral? && ValidStore(store) && env < |store|
    ensures out.Done? ==> ValidStore(out.store) && Evolves(store, out.store, env)
                          && RefsBelow(out.value, |out.store|)
    decreases fuel, ExprSize(e), 1
  {
    var a := EvalExpressions(e.elements, env, store, fuel);
    if a.Halted? then Halted(a.halt)
    else if |a.value| == 1 && a.value[0].Error? then Done(a.value[0], a.store)
    else Done(Arr(a.value), a.store)
  }

  function EvalIndex(e: Expression, env: EnvRef, store: Store, fuel: nat): (out: Outcome<Value>)
    requires e.IndexExpr? && ValidStore(store) && env < |store|
    ensures out.Done? ==> ValidStore(out.store) && Evolves(store, out.store, env)
                          && RefsBelow(out.value, |out.store|)
    decreases fuel, ExprSize(e), 1
  {
    var l := Eval(e.left, env, store, fuel);
    if l.Halted? || l.value.Error? then l
    else
      var i := Eval(e.index, env, l.store, fuel);
      if i.Halted? || i.value.Error? then i
      else
        RefsBelowGrow(l.value, |l.store|, |i.store|);
        IndexRefsBelow(l.value, i.value, |i.store|);
        Done(Index(l.value, i.value), i.store)
  }

  /** Evaluates left to right; the first error, alone in a one-element list, stands for all. */
  function EvalExpressions(es: seq<Expression>, env: EnvRef, store: Store, fuel: nat): (out: Outcome<seq<Value>>)
    requires ValidStore(store) && env < |store|
    ensures out.Done? ==> ValidStore(out.store) && Evolves(store, out.store, env)
                          && AllRefsBelow(out.value, |out.store|)
    ensures out.Done? ==>
            (|out.value| == |es| && forall i :: 0 <= i < |out.value| ==> !out.value[i].Error?)
            || (|out.value| == 1 && out.value[0].Error?)
    decreases fuel, ExprsSize(es), 3
  {
    if |es| == 0 then Done([], store)
    else
      var v := Eval(es[0], env, store, fuel);
      if v.Halted? then Halted(v.halt)
      else if v.value.Error? then Done([v.value], v.store)
      else
        var rest := EvalExpressions(es[1..], env, v.store, fuel);
        if rest.Halted? || (|rest.value| == 1 && rest.value[0].Error?) then rest
        else
          RefsBelowGrow(v.value, |v.store|, |rest.store|);
          Done([v.value] + rest.value, rest.store)
  }

  /**
   * The pairs of a hash literal in order, each key before its value, into `acc`; a later pair
   * with an equal key replaces an earlier one.
   */
  function EvalPairs(ps: seq<HashPair>, env: EnvRef, store: Store, fuel: nat,
                     acc: map<HashKey, Value>): (out: Outcome<Value>)
    requires ValidStore(store) && env < |store| && RefsBelow(Hash(acc), |store|)
    ensures out.Done? ==> ValidStore(out.store) && Evolves(store, out.store, env)
                          && RefsBelow(out.value, |out.store|)
    ensures out.Done? ==> out.value.Hash? || out.value.Error?
    decreases fuel, PairsSize(ps), 1
  {
    if |ps| == 0 then Done(Hash(acc), store)
    else
      assert PairsSize(ps) == PairSize(ps[0]) + PairsSize(ps[1..]);
      assert PairSize(ps[0]) == 1 + ExprSize(ps[0].key) + ExprSize(ps[0].value);
      var k := Eval(ps[0].key, env, store, fuel);
      if k.Halted? || k.value.Error? then k
      else
        match AsKey(k.value)
        case None => Done(Error("unusable as hash key: " + k.value.Type().Name()), k.store)
        case Some(key) =>
          var v := Eval(ps[0].value, env, k.store, fuel);
          if v.Halted? || v.value.Error? then v
          else
            RefsBelowGrow(Hash(acc), |store|, |v.store|);
            EvalPairs(ps[1..], env, v.store, fuel, acc[key := v.value])
  }

  /**
   * A call: a function value runs its body in a new environment inside the one it closes
   * over, and a trailing `Return` is unwrapped; a builtin is applied; anything else is an
   * error. No environment that existed before the call is changed by it.
   */
  function ApplyFunction(f: Value, args: seq<Value>, store: Store, fuel: nat): (out: Outcome<Value>)
    requires ValidStore(store) && RefsBelow(f, |store|) && AllRefsBelow(args, |store|)
    ensures out.Done? ==> ValidStore(out.store) && |store| <= |out.store|
                          && RefsBelow(out.value, |out.store|)
                          && forall i :: 0 <= i < |store| ==> out.store[i] == store[i]
    decreases fuel, 0, 0
  {
    match f
    case Function(parameters, body, closure) =>
      if fuel == 0 then Halted(OutOfFuel)
      else
        var frame := |store|;
        var s := FunctionEnv(store, parameters, closure, args);
        var r := EvalBlock(body, frame, s, fuel - 1);
        if r.Halted? then r else Done(Unwrap(r.value), r.store)
    case Builtin(fn) =>
      ApplyBuiltinRefsBelow(fn, args, |store|);
      Done(ApplyBuiltin(fn, args), store)
    case _ => Done(Error("not a function: " + f.Type().Name()), store)
  }

  /**
   * `extendFunctionEnv`: a new environment, at `|store|`, inside the one the function closes
   * over, with its parameters bound to the arguments.
   */
  function FunctionEnv(store: Store, parameters: seq<Identifier>, closure: EnvRef, args: seq<Value>): (r: Store)
    requires ValidStore(store) && closure < |store| && AllRefsBelow(args, |store|)
    ensures ValidStore(r) && |r| == |store| + 1 && r[|store|].outer == Some(closure)
    ensures forall i :: 0 <= i < |store| ==> r[i] == store[i]
  {
    ExtendKeepsValid(store, Some(closure));
    AllRefsBelowGrow(args, |store|, |store| + 1);
    BindParameters(Extend(store, Some(closure)), |store|, parameters, args)
  }

  /** Binds each parameter that has an argument, in order; parameters without one stay unbound. */
  function BindParameters(store: Store, frame: EnvRef, parameters: seq<Identifier>,
                          args: seq<Value>): (r: Store)
    requires ValidStore(store) && frame < |store| && AllRefsBelow(args, |store|)
    ensures ValidStore(r) && |r| == |store| && r[frame].outer == store[frame].outer
    ensures forall i :: 0 <= i < |store| && i != frame ==> r[i] == store[i]
    decreases |parameters|
  {
    if |parameters| == 0 || |args| == 0 then store
    else
      BindKeepsValid(store, frame, parameters[0].value, args[0]);
      BindParameters(Bind(store, frame, parameters[0].value, args[0]), frame, parameters[1..], args[1..])
  }

  /** One level of `Return` is removed from a function's result. */
  function Unwrap(v: Value): Value
  {
    if v.Return? then v.inner else v
  }

  function EvalBlock(b: Block, env: EnvRef, store: Store, fuel: nat): (out: Outcome<Value>)
    requires ValidStore(store) && env < |store|
    ensures out.Done? ==> ValidStore(out.store) && Evolves(store, out.store, env)
                          && RefsBelow(out.value, |out.store|)
    decreases fuel, BlockSize(b), 2
  {
    EvalStatements(b.statements, env, store, fuel, Null)
  }

  /**
   * The statements of a block in order; the value is the last statement's, `last` when there
   * are none. A `Return` or an `Error` ends the block and is its value, still wrapped.
   */
  function EvalStatements(ss: seq<Statement>, env: EnvRef, store: Store, fuel: nat, last: Value): (out: Outcome<Value>)
    requires ValidStore(store) && env < |store| && RefsBelow(last, |store|)
    ensures out.Done? ==> ValidStore(out.store) && Evolves(store, out.store, env)
                          && RefsBelow(out.value, |out.store|)
    decreases fuel, StatementsSize(ss), 1
  {
    if |ss| == 0 then Done(last, store)
    else
      var o := EvalStatement(ss[0], env, store, fuel);
      if o.Halted? || o.value.Return? || o.value.Error? then o
      else EvalStatements(ss[1..], env, o.store, fuel, o.value)
  }

  function EvalStatement(s: Statement, env: EnvRef, store: Store, fuel: nat): (out: Outcome<Value>)
    requires ValidStore(store) && env < |store|
    ensures out.Done? ==> ValidStore(out.store) && Evolves(store, out.store, env)
                          && RefsBelow(out.value, |out.store|)
    ensures s.LetStatement? && out.Done? && !out.value.Error? ==>
            Lookup(out.store, env, s.name.value) == Some(out.value)
    decreases fuel, StatementSize(s), 0
  {
    match s
    case LetStatement(_, name, value) =>
      var v := Eval(value, env, store, fuel);
      if v.Halted? || v.value.Error? then v
      else
        BindKeepsValid(v.store, env, name.value, v.value);
        LookupAfterBind(v.store, env, name.value, v.value);
        Done(v.value, Bind(v.store, env, name.value, v.value))
    case ReturnStatement(_, value) =>
      var v := Eval(value, env, store, fuel);
      if v.Halted? || v.value.Error? then v
      else Done(Return(v.value), v.store)
    case ExpressionStatement(_, expression) => Eval(expression, env, store, fuel)
  }

  /**
   * A program: like a block, but a `Return` ends the program with the value it carries, and
   * an empty program is `null`.
   */
  function EvalProgram(p: Program, env: EnvRef, store: Store, fuel: nat): (out: Outcome<Value>)
    requires ValidStore(store) && env < |store|
    ensures out.Done? ==> ValidStore(out.store) && Evolves(store, out.store, env)
                          && RefsBelow(out.value, |out.store|)
  {
    RunStatements(p.statements, env, store, fuel, Null)
  }

  function RunStatements(ss: seq<Statement>, env: EnvRef, store: Store, fuel: nat, last: Value): (out: Outcome<Value>)
    requires ValidStore(store) && env < |store| && RefsBelow(last, |store|)
    ensures out.Done? ==> ValidStore(out.store) && Evolves(store, out.store, env)
                          && RefsBelow(out.value, |out.store|)
  {
    if |ss| == 0 then Done(last, store)
    else
      var o := EvalStatement(ss[0], env, store, fuel);
      if o.Halted? || o.value.Error? then o
      else if o.value.Return? then Done(o.value.inner, o.store)
      else RunStatements(ss[1..], env, o.store, fuel, o.value)
  }

  /** The store a program starts from: one environment with nothing bound, with no outer one. */
  const GlobalStore: Store := [Scope(map[], None)]
}
