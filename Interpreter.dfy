/**
 * The parts of the evaluator that work by updating environment objects in place: the loops
 * over a program's and a block's statements, which stop early at a return value or an error,
 * and the loop that binds a call's parameters in a fresh environment. Each runs against an
 * `Environments` object and is proved to leave it as the evaluator of module `Semantics`
 * leaves its store.
 */
module Interpreter {
  import opened Options
  import opened Ast
  import opened Objects
  import opened Environments
  import opened Operators
  import opened Semantics

  /** A run's outcome without the store, which the `Environments` object holds instead. */
  function Forget(o: Outcome<Value>): (r: Result)
    ensures r.Ok? <==> o.Done?
    ensures o.Done? ==> r.value == o.value
  {
    match o
    case Done(v, _) => Ok(v)
    case Halted(halt) => Throws(halt)
  }

  /**
   * A fresh environment inside `closure`, with each parameter that has an argument bound to
   * it, by position; a parameter without an argument is skipped.
   */
  method ExtendFunctionEnv(envs: Environments, parameters: seq<Identifier>, closure: EnvRef,
                           args: seq<Value>) returns (env: EnvRef)
    requires envs.Valid() && closure < |envs.scopes| && AllRefsBelow(args, |envs.scopes|)
    modifies envs
    ensures envs.Valid() && env == |old(envs.scopes)|
    ensures envs.scopes == FunctionEnv(old(envs.scopes), parameters, closure, args)
  {
    env := envs.New(Some(closure));
    AllRefsBelowGrow(args, env, env + 1);
    for i := 0 to |parameters|
      invariant envs.Valid() && |envs.scopes| == env + 1 && envs.scopes[env].outer == Some(closure)
      invariant i <= |args| ==>
                BindParameters(envs.scopes, env, parameters[i..], args[i..]) ==
                FunctionEnv(old(envs.scopes), parameters, closure, args)
      invariant i > |args| ==> envs.scopes == FunctionEnv(old(envs.scopes), parameters, closure, args)
    {
      if i < |args| {
        assert parameters[i..][1..] == parameters[i + 1..] && args[i..][1..] == args[i + 1..];
        var _ := envs.Set(env, parameters[i].value, args[i]);
      }
    }
  }

  /**
   * `evalProgram`: the statements in order in `env`; a return value ends the program with the
   * value it carries, an error ends it as it is, otherwise the last statement's value.
   */
  method RunProgram(envs: Environments, p: Program, env: EnvRef, fuel: nat) returns (r: Result)
    requires envs.Valid() && env < |envs.scopes|
    modifies envs
    ensures envs.Valid()
    ensures r == Forget(EvalProgram(p, env, old(envs.scopes), fuel))
    ensures r.Ok? ==> envs.scopes == EvalProgram(p, env, old(envs.scopes), fuel).store
  {
    var ss := p.statements;
    var last := Null;
    var i := 0;
    while i < |ss|
      invariant 0 <= i <= |ss| && envs.Valid() && env < |envs.scopes| && RefsBelow(last, |envs.scopes|)
      invariant RunStatements(ss[i..], env, envs.scopes, fuel, last) ==
                RunStatements(ss, env, old(envs.scopes), fuel, Null)
    {
      assert ss[i..][0] == ss[i] && ss[i..][1..] == ss[i + 1..];
      var o := EvalStatement(ss[i], env, envs.scopes, fuel);
      if o.Halted? {
        return Throws(o.halt);
      }
      envs.scopes := o.store;
      if o.value.Return? {
        return Ok(o.value.inner);
      } else if o.value.Error? {
        return Ok(o.value);
      }
      last := o.value;
      i := i + 1;
    }
    r := Ok(last);
  }

  /**
   * `evalBlockStatement`: like a program, but a return value ends the block still wrapped, so
   * that it also ends every enclosing block up to the function or the program.
   */
  method RunBlock(envs: Environments, b: Block, env: EnvRef, fuel: nat) returns (r: Result)
    requires envs.Valid() && env < |envs.scopes|
    modifies envs
    ensures envs.Valid()
    ensures r == Forget(EvalBlock(b, env, old(envs.scopes), fuel))
    ensures r.Ok? ==> envs.scopes == EvalBlock(b, env, old(envs.scopes), fuel).store
  {
    var ss := b.statements;
    var last := Null;
    var i := 0;
    while i < |ss|
      invariant 0 <= i <= |ss| && envs.Valid() && env < |envs.scopes| && RefsBelow(last, |envs.scopes|)
      invariant EvalStatements(ss[i..], env, envs.scopes, fuel, last) ==
                EvalStatements(ss, env, old(envs.scopes), fuel, Null)
    {
      assert ss[i..][0] == ss[i] && ss[i..][1..] == ss[i + 1..];
      var o := EvalStatement(ss[i], env, envs.scopes, fuel);
      if o.Halted? {
        return Throws(o.halt);
      }
      envs.scopes := o.store;
      if o.value.Return? || o.value.Error? {
        return Ok(o.value);
      }
      last := o.value;
      i := i + 1;
    }
    r := Ok(last);
  }
}
