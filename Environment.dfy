/**
 * Environments: name-to-value maps chained to an optional outer environment.
 *
 * Every environment the interpreter creates lives in a `Store`, a sequence indexed by
 * `EnvRef`; an environment's outer environment always sits at a smaller index (it existed
 * before the environment was created), which is what makes lookup along the chain terminate.
 * A closure holds the `EnvRef` of the environment it was created in, so every closure of the
 * same environment sees every later binding made there, as with shared Kotlin objects.
 */
module Environments {
  import opened Options
  import opened Objects

  datatype Scope = Scope(vars: map<string, Value>, outer: Option<EnvRef>)

  type Store = seq<Scope>

  /** Each environment's outer environment was created before it. */
  predicate OuterBelow(store: Store)
  {
    forall i :: 0 <= i < |store| && store[i].outer.Some? ==> store[i].outer.value < i
  }

  /** Outer links point backwards, and every closure in a binding refers to an existing environment. */
  predicate ValidStore(store: Store)
  {
    OuterBelow(store)
    && forall i, x :: 0 <= i < |store| && x in store[i].vars ==> RefsBelow(store[i].vars[x], |store|)
  }

  /** `get`: the binding in `env` itself, else the outer environment's, else none. */
  function Lookup(store: Store, env: EnvRef, name: string): Option<Value>
    requires OuterBelow(store) && env < |store|
    decreases env
  {
    if name in store[env].vars then Some(store[env].vars[name])
    else match store[env].outer
      case None => None
      case Some(outer) => Lookup(store, outer, name)
  }

  /** `set`: bind `name` in `env` itself, replacing any binding it had there. */
  function Bind(store: Store, env: EnvRef, name: string, v: Value): (r: Store)
    requires env < |store|
    ensures |r| == |store|
  {
    store[env := Scope(store[env].vars[name := v], store[env].outer)]
  }

  /** A fresh, empty environment whose outer environment is `outer`; its reference is `|store|`. */
  function Extend(store: Store, outer: Option<EnvRef>): (r: Store)
    ensures |r| == |store| + 1 && r[..|store|] == store
  {
    store + [Scope(map[], outer)]
  }

  // ---------------------------------------------------------------- the reference definition

  /** The environments `get` consults from `env`, innermost first. */
  function Chain(store: Store, env: EnvRef): (c: seq<EnvRef>)
    requires OuterBelow(store) && env < |store|
    ensures |c| > 0 && c[0] == env
    ensures forall i :: 0 <= i < |c| ==> c[i] < |store|
    decreases env
  {
    match store[env].outer
    case None => [env]
    case Some(outer) => [env] + Chain(store, outer)
  }

  /** The first environment of `chain` that binds `name`, as a value. */
  function FirstBinding(store: Store, chain: seq<EnvRef>, name: string): Option<Value>
    requires forall i :: 0 <= i < |chain| ==> chain[i] < |store|
  {
    if |chain| == 0 then None
    else if name in store[chain[0]].vars then Some(store[chain[0]].vars[name])
    else FirstBinding(store, chain[1..], name)
  }

  /** Lookup finds the binding of the innermost environment on the chain that has one. */
  lemma {:induction false} LookupIsFirstBinding(store: Store, env: EnvRef, name: string)
    requires OuterBelow(store) && env < |store|
    ensures Lookup(store, env, name) == FirstBinding(store, Chain(store, env), name)
    ensures Lookup(store, env, name).None? <==>
            forall i :: 0 <= i < |Chain(store, env)| ==> name !in store[Chain(store, env)[i]].vars
    decreases env
  {
    var c := Chain(store, env);
    match store[env].outer
    case None =>
    case Some(outer) =>
      LookupIsFirstBinding(store, outer, name);
      assert c[1..] == Chain(store, outer);
      if name !in store[env].vars {
        forall i | 0 <= i < |c|
          ensures Lookup(store, env, name).None? ==> name !in store[c[i]].vars
        {
          if i > 0 {
            assert c[i] == Chain(store, outer)[i - 1];
          }
        }
      }
  }

  // ---------------------------------------------------------------- get after set

  /** A name just set in an environment is found there. */
  lemma LookupAfterBind(store: Store, env: EnvRef, name: string, v: Value)
    requires OuterBelow(store) && env < |store|
    ensures OuterBelow(Bind(store, env, name, v))
    ensures Lookup(Bind(store, env, name, v), env, name) == Some(v)
  {
  }

  /** Setting one name leaves every other name, seen from every environment, as it was. */
  lemma {:induction false} LookupOtherAfterBind(store: Store, env: EnvRef, name: string, v: Value,
                                                from: EnvRef, other: string)
    requires OuterBelow(store) && env < |store| && from < |store| && other != name
    ensures OuterBelow(Bind(store, env, name, v))
    ensures Lookup(Bind(store, env, name, v), from, other) == Lookup(store, from, other)
    decreases from
  {
    var store' := Bind(store, env, name, v);
    assert store'[from].outer == store[from].outer;
    if other !in store[from].vars && store[from].outer.Some? {
      LookupOtherAfterBind(store, env, name, v, store[from].outer.value, other);
    }
  }

  /** A set is invisible from environments whose chain does not pass through it. */
  lemma {:induction false} LookupOffChain(store: Store, env: EnvRef, name: string, v: Value,
                                          from: EnvRef, other: string)
    requires OuterBelow(store) && env < |store| && from < |store|
    requires forall i :: 0 <= i < |Chain(store, from)| ==> Chain(store, from)[i] != env
    ensures OuterBelow(Bind(store, env, name, v))
    ensures Lookup(Bind(store, env, name, v), from, other) == Lookup(store, from, other)
    decreases from
  {
    var c := Chain(store, from);
    assert c[0] == from;
    match store[from].outer
    case None =>
    case Some(outer) =>
      assert c[1..] == Chain(store, outer);
      forall i | 0 <= i < |Chain(store, outer)|
        ensures Chain(store, outer)[i] != env
      {
        assert Chain(store, outer)[i] == c[i + 1];
      }
      LookupOffChain(store, env, name, v, outer, other);
  }

  /** A binding in an inner environment shadows any binding of the same name further out. */
  lemma Shadowing(store: Store, env: EnvRef, name: string)
    requires OuterBelow(store) && env < |store|
    requires name in store[env].vars
    ensures Lookup(store, env, name) == Some(store[env].vars[name])
  {
  }

  /** A fresh environment binds nothing itself, and sees exactly what its outer environment sees. */
  lemma {:induction false} LookupInExtended(store: Store, outer: Option<EnvRef>, name: string)
    requires OuterBelow(store) && (outer.Some? ==> outer.value < |store|)
    ensures OuterBelow(Extend(store, outer))
    ensures Lookup(Extend(store, outer), |store|, name) ==
            if outer.Some? then Lookup(store, outer.value, name) else None
  {
    if outer.Some? {
      LookupUnchangedByExtend(store, outer, outer.value, name);
    }
  }

  /** Creating an environment changes nothing seen from the existing ones. */
  lemma {:induction false} LookupUnchangedByExtend(store: Store, outer: Option<EnvRef>,
                                                   from: EnvRef, name: string)
    requires OuterBelow(store) && (outer.Some? ==> outer.value < |store|) && from < |store|
    ensures OuterBelow(Extend(store, outer))
    ensures Lookup(Extend(store, outer), from, name) == Lookup(store, from, name)
    decreases from
  {
    var store' := Extend(store, outer);
    assert store'[from] == store[from];
    if name !in store[from].vars && store[from].outer.Some? {
      LookupUnchangedByExtend(store, outer, store[from].outer.value, name);
    }
  }

  // ---------------------------------------------------------------- validity

  /** Binding a value whose closures exist keeps the store valid; so does creating an environment. */
  lemma BindKeepsValid(store: Store, env: EnvRef, name: string, v: Value)
    requires ValidStore(store) && env < |store| && RefsBelow(v, |store|)
    ensures ValidStore(Bind(store, env, name, v))
  {
    var store' := Bind(store, env, name, v);
    forall i, x | 0 <= i < |store'| && x in store'[i].vars
      ensures RefsBelow(store'[i].vars[x], |store'|)
    {
      if i != env || x != name {
        assert store'[i].vars[x] == store[i].vars[x];
      }
    }
  }

  lemma ExtendKeepsValid(store: Store, outer: Option<EnvRef>)
    requires ValidStore(store) && (outer.Some? ==> outer.value < |store|)
    ensures ValidStore(Extend(store, outer))
  {
    var store' := Extend(store, outer);
    forall i, x | 0 <= i < |store'| && x in store'[i].vars
      ensures RefsBelow(store'[i].vars[x], |store'|)
    {
      RefsBelowGrow(store[i].vars[x], |store|, |store'|);
    }
  }

  /** Every value found by lookup refers only to existing environments. */
  lemma {:induction false} LookupRefsBelow(store: Store, env: EnvRef, name: string)
    requires ValidStore(store) && env < |store|
    ensures Lookup(store, env, name).Some? ==> RefsBelow(Lookup(store, env, name).value, |store|)
    decreases env
  {
    if name !in store[env].vars && store[env].outer.Some? {
      LookupRefsBelow(store, store[env].outer.value, name);
    }
  }

  // ---------------------------------------------------------------- environment objects

  /**
   * All `Environment` objects of a run. `New` is the constructor `Environment(outer)`, and
   * `Get` and `Set` are the methods of the environment `env`.
   */
  class Environments {
    var scopes: Store

    ghost predicate Valid()
      reads this
    {
      ValidStore(scopes)
    }

    /** Starts with the one environment a program runs in, which has no outer environment. */
    constructor()
      ensures Valid() && scopes == [Scope(map[], None)]
    {
      scopes := [Scope(map[], None)];
    }

    method New(outer: Option<EnvRef>) returns (env: EnvRef)
      requires Valid() && (outer.Some? ==> outer.value < |scopes|)
      modifies this
      ensures Valid() && env == |old(scopes)| && scopes == Extend(old(scopes), outer)
    {
      ExtendKeepsValid(scopes, outer);
      env := |scopes|;
      scopes := scopes + [Scope(map[], outer)];
    }

    /** The walk outwards along the chain, one environment at a time. */
    method Get(env: EnvRef, name: string) returns (r: Option<Value>)
      requires Valid() && env < |scopes|
      ensures r == Lookup(scopes, env, name)
      ensures r.Some? ==> RefsBelow(r.value, |scopes|)
    {
      LookupRefsBelow(scopes, env, name);
      var e: EnvRef := env;
      while name !in scopes[e].vars && scopes[e].outer.Some?
        invariant e < |scopes| && Lookup(scopes, e, name) == Lookup(scopes, env, name)
        decreases e
      {
        e := scopes[e].outer.value;
      }
      r := if name in scopes[e].vars then Some(scopes[e].vars[name]) else None;
    }

    method Set(env: EnvRef, name: string, v: Value) returns (r: Value)
      requires Valid() && env < |scopes| && RefsBelow(v, |scopes|)
      modifies this
      ensures Valid() && r == v && scopes == Bind(old(scopes), env, name, v)
      ensures Lookup(scopes, env, name) == Some(v)
    {
      BindKeepsValid(scopes, env, name, v);
      scopes := scopes[env := Scope(scopes[env].vars[name := v], scopes[env].outer)];
      r := v;
    }
  }
}
