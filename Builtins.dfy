/**
 * The builtin functions `len`, `first`, `rest`, `last`, `push` and `puts`.
 *
 * Each takes the list of evaluated arguments and returns a value; misuse gives an `Error`
 * value, never a failure of the interpreter. `puts` returns `null`; the lines it prints are
 * given by `PutsOutput`.
 */
module Builtins {
  import opened Options
  import opened KotlinInt
  import opened Objects

  /** The builtin table. */
  const BuiltinTable: map<string, BuiltinFn> :=
    map["len" := LenFn, "first" := FirstFn, "rest" := RestFn, "last" := LastFn,
        "push" := PushFn, "puts" := PutsFn]

  /** A name's builtin function value, if the table has one. */
  function LookupBuiltin(name: string): (r: Option<Value>)
    ensures r.Some? <==> name in {"len", "first", "rest", "last", "push", "puts"}
  {
    if name in BuiltinTable then Some(Builtin(BuiltinTable[name])) else None
  }

  /** Each table entry is found under one name only. */
  lemma BuiltinTableInjective(a: string, b: string)
    requires a in BuiltinTable && b in BuiltinTable && a != b
    ensures BuiltinTable[a] != BuiltinTable[b]
  {
  }

  function WrongArgumentCount(args: seq<Value>): Value
  {
    Error("wrong number of arguments. got=" + IntToString(|args|) + ", want=1")
  }

  function NotSupported(name: string, arg: Value): Value
  {
    Error("argument to `" + name + "` not supported, got " + arg.Type().Name())
  }

  /** `len`: the length of a string or array, as a 32-bit integer. */
  function Len(args: seq<Value>): Value
  {
    if |args| != 1 then WrongArgumentCount(args)
    else match args[0]
      case Str(s) => Integer(Wrap32(|s|))
      case Arr(elements) => Integer(Wrap32(|elements|))
      case _ => NotSupported("len", args[0])
  }

  function First(args: seq<Value>): Value
  {
    if |args| != 1 then WrongArgumentCount(args)
    else match args[0]
      case Arr(elements) => if |elements| == 0 then Null else elements[0]
      case _ => NotSupported("first", args[0])
  }

  function Rest(args: seq<Value>): Value
  {
    if |args| != 1 then WrongArgumentCount(args)
    else match args[0]
      case Arr(elements) => Arr(if |elements| == 0 then [] else elements[1..])
      case _ => NotSupported("rest", args[0])
  }

  function Last(args: seq<Value>): Value
  {
    if |args| != 1 then WrongArgumentCount(args)
    else match args[0]
      case Arr(elements) => if |elements| == 0 then Null else elements[|elements| - 1]
      case _ => NotSupported("last", args[0])
  }

  /** `push`: a new array with an integer appended; the argument array is left as it was. */
  function Push(args: seq<Value>): Value
  {
    if |args| != 2 then WrongArgumentCount(args)
    else if args[0].Arr? && args[1].Integer? then Arr(args[0].elements + [args[1]])
    else Error("argument to `push` not supported, got " + args[0].Type().Name() + ", " + args[1].Type().Name())
  }

  /** The lines `puts` prints: one printed form per argument. */
  function PutsOutput(args: seq<Value>): (lines: seq<string>)
    ensures |lines| == |args|
    ensures forall i :: 0 <= i < |args| ==> lines[i] == Inspect(args[i])
  {
    InspectAll(args)
  }

  /** Invoke a builtin on `args`. */
  function ApplyBuiltin(fn: BuiltinFn, args: seq<Value>): Value
  {
    match fn
    case LenFn => Len(args)
    case FirstFn => First(args)
    case RestFn => Rest(args)
    case LastFn => Last(args)
    case PushFn => Push(args)
    case PutsFn => Null
  }

  /** A builtin's result holds only closures that its arguments hold. */
  lemma ApplyBuiltinRefsBelow(fn: BuiltinFn, args: seq<Value>, n: nat)
    requires AllRefsBelow(args, n)
    ensures RefsBelow(ApplyBuiltin(fn, args), n)
  {
    if |args| > 0 && args[0].Arr? {
      assert RefsBelow(args[0], n);
      var es := args[0].elements;
      if fn == PushFn && |args| == 2 {
        assert RefsBelow(args[1], n);
        assert forall i :: 0 <= i < |es + [args[1]]| ==> (es + [args[1]])[i] == if i < |es| then es[i] else args[1];
      }
    }
  }

  // ---------------------------------------------------------------- properties

  /** Every builtin given one argument of the wrong type reports it by name and type. */
  lemma UnsupportedArgument(v: Value)
    requires !v.Arr?
    ensures First([v]) == NotSupported("first", v) && Rest([v]) == NotSupported("rest", v)
    ensures Last([v]) == NotSupported("last", v)
    ensures !v.Str? ==> Len([v]) == NotSupported("len", v)
  {
  }

  /** A wrong number of arguments is an error for every builtin but `puts`, whose arity is free. */
  lemma ArityErrors(fn: BuiltinFn, args: seq<Value>)
    ensures fn != PushFn && fn != PutsFn && |args| != 1 ==> ApplyBuiltin(fn, args) == WrongArgumentCount(args)
    ensures fn == PushFn && |args| != 2 ==> ApplyBuiltin(fn, args) == WrongArgumentCount(args)
    ensures fn == PutsFn ==> ApplyBuiltin(fn, args) == Null
  {
  }

  /**
   * `first` and `rest` split a non-empty array: the first element followed by the rest is the
   * array again; on the empty array `first` is `null` and `rest` is empty.
   */
  lemma FirstRestSplit(elements: seq<Value>)
    ensures |elements| > 0 ==> [First([Arr(elements)])] + Rest([Arr(elements)]).elements == elements
    ensures |elements| == 0 ==> First([Arr(elements)]) == Null && Rest([Arr(elements)]) == Arr([])
  {
  }

  /** `push` then `last` gives back the pushed integer, and `len` grows by one. */
  lemma PushThenLast(elements: seq<Value>, n: int32)
    requires |elements| < MaxInt as int
    ensures Last([Push([Arr(elements), Integer(n)])]) == Integer(n)
    ensures Len([Push([Arr(elements), Integer(n)])]).n as int == Len([Arr(elements)]).n as int + 1
    ensures Rest([Push([Arr(elements), Integer(n)])]).elements ==
            (if |elements| == 0 then [] else elements[1..] + [Integer(n)])
  {
    var pushed := elements + [Integer(n)];
    assert Push([Arr(elements), Integer(n)]) == Arr(pushed);
    if |elements| > 0 {
      assert pushed[1..] == elements[1..] + [Integer(n)];
    }
  }

  /** `len` counts characters of a string and elements of an array, up to the 32-bit range. */
  lemma LenCounts(v: Value)
    requires v.Str? || v.Arr?
    ensures v.Str? && |v.s| <= MaxInt as int ==> Len([v]) == Integer(|v.s| as int32)
    ensures v.Arr? && |v.elements| <= MaxInt as int ==> Len([v]) == Integer(|v.elements| as int32)
  {
  }

  /** `push` accepts only an array and an integer, in that order. */
  lemma PushTypes(a: Value, b: Value)
    ensures Push([a, b]).Arr? <==> a.Arr? && b.Integer?
    ensures !(a.Arr? && b.Integer?) ==>
            Push([a, b]) == Error("argument to `push` not supported, got " + a.Type().Name() + ", " + b.Type().Name())
  {
  }

  /** The arity error of `push` reports the same `want=1` as the one-argument builtins. */
  lemma PushArityMessage()
    ensures Push([Null]) == Error("wrong number of arguments. got=1, want=1")
  {
    assert IntToString(1) == "1";
  }
}
