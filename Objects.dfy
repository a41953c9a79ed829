/**
 * Runtime values of the interpreter, their type tags and their printed form (`inspect`).
 *
 * A function value refers to the environment it closes over by an `EnvRef`, an index into the
 * store of environments (see module `Environments`); a builtin value names its entry of the
 * builtin table, so two lookups of the same builtin give equal values.
 */
module Objects {
  import opened Options
  import opened KotlinInt
  import opened Ast

  type EnvRef = nat

  datatype ObjectType =
    | IntegerType | BooleanType | StringType | FunctionType | ArrayType
    | HashType | ReturnType | NullType | ErrorType | BuiltinType
  {
    /** The enum constant's name, as error messages print it. */
    function Name(): string
    {
      match this
      case IntegerType => "INTEGER"
      case BooleanType => "BOOLEAN"
      case StringType => "STRING"
      case FunctionType => "FUNCTION"
      case ArrayType => "ARRAY"
      case HashType => "HASH"
      case ReturnType => "RETURN"
      case NullType => "NULL"
      case ErrorType => "ERROR"
      case BuiltinType => "BUILTIN"
    }
  }

  /** The keys a hash can hold: the hashable values (integers, booleans and strings). */
  datatype HashKey = IntKey(n: int32) | BoolKey(b: bool) | StrKey(s: string)

  /** The entries of the builtin table. */
  datatype BuiltinFn = LenFn | FirstFn | RestFn | LastFn | PushFn | PutsFn

  datatype Value =
    | Integer(n: int32)
    | Bool(b: bool)
    | Str(s: string)
    | Function(parameters: seq<Identifier>, body: Block, env: EnvRef)
    | Arr(elements: seq<Value>)
    | Hash(pairs: map<HashKey, Value>)
    | Return(inner: Value)
    | Null
    | Error(message: string)
    | Builtin(fn: BuiltinFn)
  {
    function Type(): ObjectType
    {
      match this
      case Integer(_) => IntegerType
      case Bool(_) => BooleanType
      case Str(_) => StringType
      case Function(_, _, _) => FunctionType
      case Arr(_) => ArrayType
      case Hash(_) => HashType
      case Return(_) => ReturnType
      case Null => NullType
      case Error(_) => ErrorType
      case Builtin(_) => BuiltinType
    }
  }

  /** The hash key a value stands for, if it is hashable. */
  function AsKey(v: Value): (k: Option<HashKey>)
    ensures k.Some? <==> v.Type() in {IntegerType, BooleanType, StringType}
  {
    match v
    case Integer(n) => Some(IntKey(n))
    case Bool(b) => Some(BoolKey(b))
    case Str(s) => Some(StrKey(s))
    case _ => None
  }

  /** The value a hash key was made from. */
  function KeyValue(k: HashKey): Value
  {
    match k
    case IntKey(n) => Integer(n)
    case BoolKey(b) => Bool(b)
    case StrKey(s) => Str(s)
  }

  /** Keys and hashable values correspond one to one, so key equality is value equality. */
  lemma KeyRoundTrip(v: Value, k: HashKey)
    ensures AsKey(KeyValue(k)) == Some(k)
    ensures AsKey(v).Some? ==> KeyValue(AsKey(v).value) == v
  {
  }

  // ---------------------------------------------------------------- inspect

  function Repeat(s: string, n: nat): seq<string>
  {
    if n == 0 then [] else [s] + Repeat(s, n - 1)
  }

  /**
   * The printed form of a value. A hash prints one `$` per pair between square brackets,
   * showing neither its keys nor its values.
   */
  function Inspect(v: Value): string
  {
    match v
    case Integer(n) => IntToString(n as int)
    case Bool(b) => if b then "true" else "false"
    case Str(s) => s
    case Function(parameters, body, _) =>
      "fn(" + Join(IdentifiersText(parameters), ", ") + ") { " + BlockText(body) + " }"
    case Arr(elements) => "[" + Join(InspectAll(elements), ", ") + "]"
    case Hash(pairs) => "[" + Join(Repeat("$", |pairs|), ", ") + "]"
    case Return(inner) => Inspect(inner)
    case Null => "null"
    case Error(message) => "ERROR: " + message
    case Builtin(_) => "builtin function"
  }

  function InspectAll(vs: seq<Value>): (r: seq<string>)
    ensures |r| == |vs|
    ensures forall i :: 0 <= i < |vs| ==> r[i] == Inspect(vs[i])
  {
    if |vs| == 0 then [] else [Inspect(vs[0])] + InspectAll(vs[1..])
  }

  /** An integer prints in decimal, and the printed form reads back as the same `Int`. */
  lemma InspectIntegerRoundTrip(n: int32)
    ensures ToIntOrNull(Inspect(Integer(n))) == Some(n)
  {
    IntToStringRoundTrip(n);
  }

  /** A return value prints as the value it carries, however deeply wrapped. */
  lemma {:induction false} InspectReturn(v: Value, depth: nat)
    ensures Inspect(Wrap(v, depth)) == Inspect(v)
  {
    if depth > 0 {
      InspectReturn(v, depth - 1);
    }
  }

  function Wrap(v: Value, depth: nat): Value
  {
    if depth == 0 then v else Return(Wrap(v, depth - 1))
  }

  /** A negative integer prints with its sign; an error prints its message after `ERROR: `. */
  lemma InspectScalarExamples()
    ensures Inspect(Integer(-42)) == "-42"
    ensures Inspect(Error("boom")) == "ERROR: boom"
  {
    assert NatToString(4) == "4";
    assert NatToString(42) == NatToString(4) + "2";
  }

  /** An array prints its elements' printed forms, separated by `", "`. */
  lemma InspectArrayExample(a: Value)
    requires a == Arr([Integer(1), Str("two"), Null])
    ensures Inspect(a) == "[1, two, null]"
  {
    var parts := InspectAll(a.elements);
    assert parts[0] == "1" by {
      assert NatToString(1) == "1";
    }
    assert parts == ["1", "two", "null"];
    JoinThree("1", "two", "null", ", ");
  }

  lemma JoinThree(x: string, y: string, z: string, sep: string)
    ensures Join([x, y, z], sep) == x + sep + y + sep + z
  {
    assert [x, y, z][1..] == [y, z] && [y, z][1..] == [z];
  }

  /** A hash prints a `$` for each of its pairs, whatever they are. */
  lemma InspectHashExample(h: Value)
    requires h == Hash(map[IntKey(1) := Null, StrKey("a") := Null])
    ensures Inspect(h) == "[$, $]"
  {
    assert IntKey(1) != StrKey("a");
    assert |h.pairs| == 2;
    assert Repeat("$", 2) == ["$", "$"];
  }

  // ---------------------------------------------------------------- environment references

  /** Every function value inside `v` closes over an environment below `n`. */
  predicate RefsBelow(v: Value, n: nat)
  {
    match v
    case Function(_, _, env) => env < n
    case Arr(elements) => forall i :: 0 <= i < |elements| ==> RefsBelow(elements[i], n)
    case Hash(pairs) => forall k :: k in pairs ==> RefsBelow(pairs[k], n)
    case Return(inner) => RefsBelow(inner, n)
    case _ => true
  }

  /** A value valid in a store stays valid when the store grows. */
  lemma {:induction false} RefsBelowGrow(v: Value, n: nat, m: nat)
    requires RefsBelow(v, n) && n <= m
    ensures RefsBelow(v, m)
  {
    match v
    case Arr(elements) =>
      forall i | 0 <= i < |elements|
        ensures RefsBelow(elements[i], m)
      {
        RefsBelowGrow(elements[i], n, m);
      }
    case Hash(pairs) =>
      forall k | k in pairs
        ensures RefsBelow(pairs[k], m)
      {
        RefsBelowGrow(pairs[k], n, m);
      }
    case Return(inner) => RefsBelowGrow(inner, n, m);
    case _ =>
  }

  predicate AllRefsBelow(vs: seq<Value>, n: nat)
  {
    forall i :: 0 <= i < |vs| ==> RefsBelow(vs[i], n)
  }

  lemma AllRefsBelowGrow(vs: seq<Value>, n: nat, m: nat)
    requires AllRefsBelow(vs, n) && n <= m
    ensures AllRefsBelow(vs, m)
  {
    forall i | 0 <= i < |vs|
      ensures RefsBelow(vs[i], m)
    {
      RefsBelowGrow(vs[i], n, m);
    }
  }
}
