/**
 * The operators of the evaluator on values already computed: truthiness, the prefix operators
 * `!` and `-`, the binary operators and indexing.
 *
 * Integer arithmetic is Kotlin `Int` arithmetic: it wraps around at 32 bits, and division
 * truncates toward zero. A division by zero throws in Kotlin, ending the run; here it is the
 * outcome `Throws(DivideByZero)`.
 */
module Operators {
  import opened Options
  import opened KotlinInt
  import opened Objects

  /** Why a run stops without a value: the host stack ran out, or an integer division by zero. */
  datatype Halt = OutOfFuel | DivideByZero

  datatype Result = Ok(value: Value) | Throws(halt: Halt)

  /** `null` and `false` are falsy; every other value, `0` and `""` included, is truthy. */
  predicate IsTruthy(v: Value)
  {
    !(v.Null? || v == Bool(false))
  }

  function Bang(v: Value): Value
  {
    match v
    case Bool(b) => Bool(!b)
    case Null => Bool(true)
    case _ => Bool(false)
  }

  function Negate(v: Value): Value
  {
    if v.Integer? then Integer(Wrap32(-(v.n as int)))
    else Error("unknown operator: -" + v.Type().Name())
  }

  function Prefix(operator: string, right: Value): (r: Value)
    ensures r.Integer? || r.Bool? || r.Error?
  {
    match operator
    case "!" => Bang(right)
    case "-" => Negate(right)
    case _ => Error("unknown operator: " + operator + " " + right.Type().Name())
  }

  function UnknownOperator(operator: string, left: Value, right: Value): Value
  {
    Error("unknown operator: " + left.Type().Name() + " " + operator + " " + right.Type().Name())
  }

  function IntegerBinary(operator: string, a: int32, b: int32): Result
  {
    var x, y := a as int, b as int;
    match operator
    case "+" => Ok(Integer(Wrap32(x + y)))
    case "-" => Ok(Integer(Wrap32(x - y)))
    case "*" => Ok(Integer(Wrap32(x * y)))
    case "/" => if y == 0 then Throws(DivideByZero) else Ok(Integer(Wrap32(TruncDiv(x, y))))
    case "<" => Ok(Bool(x < y))
    case ">" => Ok(Bool(x > y))
    case "==" => Ok(Bool(x == y))
    case "!=" => Ok(Bool(x != y))
    case _ => Ok(UnknownOperator(operator, Integer(a), Integer(b)))
  }

  function StringBinary(operator: string, a: string, b: string): Value
  {
    if operator == "+" then Str(a + b) else UnknownOperator(operator, Str(a), Str(b))
  }

  /**
   * Two integers, then two strings, then `==` and `!=` as structural equality of any two
   * values, then a type mismatch, else an unknown operator.
   */
  function Binary(operator: string, left: Value, right: Value): (r: Result)
    ensures r.Ok? ==> r.value.Integer? || r.value.Bool? || r.value.Str? || r.value.Error?
  {
    if left.Integer? && right.Integer? then IntegerBinary(operator, left.n, right.n)
    else if left.Str? && right.Str? then Ok(StringBinary(operator, left.s, right.s))
    else if operator == "==" then Ok(Bool(left == right))
    else if operator == "!=" then Ok(Bool(left != right))
    else if left.Type() != right.Type() then
      Ok(Error("type mismatch: " + left.Type().Name() + " " + operator + " " + right.Type().Name()))
    else Ok(UnknownOperator(operator, left, right))
  }

  /** `left[index]`: arrays by integer position, hashes by hashable key, `null` when absent. */
  function Index(left: Value, index: Value): Value
  {
    if left.Arr? && index.Integer? then
      if index.n < 0 || index.n as int > |left.elements| - 1 then Null
      else left.elements[index.n]
    else if left.Hash? then
      match AsKey(index)
      case None => Error("unusable as hash key: " + index.Type().Name())
      case Some(k) => if k in left.pairs then left.pairs[k] else Null
    else Error("index operator not supported: " + left.Type().Name())
  }

  // ---------------------------------------------------------------- prefix operators

  /** `!v` is the boolean opposite of `v`'s truthiness, so `!!v` is its truthiness. */
  lemma BangIsNotTruthy(v: Value)
    ensures Bang(v) == Bool(!IsTruthy(v))
    ensures Bang(Bang(v)) == Bool(IsTruthy(v))
  {
  }

  /** Negating twice gives the integer back, the most negative one included. */
  lemma NegateTwice(n: int32)
    ensures Negate(Negate(Integer(n))) == Integer(n)
    ensures n != MinInt as int32 ==> Negate(Integer(n)) == Integer(-n)
    ensures Negate(Integer(MinInt as int32)) == Integer(MinInt as int32)
  {
    var m := Wrap32(-(n as int));
    assert (m as int - -(n as int)) % Modulus == 0;
    Wrap32Unique(-(m as int), n);
  }

  /** Only integers can be negated; `-` of anything else names its type. */
  lemma NegateNonInteger(v: Value)
    requires !v.Integer?
    ensures Prefix("-", v) == Error("unknown operator: -" + v.Type().Name())
  {
  }

  // ---------------------------------------------------------------- integers

  /** Addition, subtraction and multiplication are exact whenever the result fits in 32 bits. */
  lemma ArithmeticInRange(a: int32, b: int32)
    ensures MinInt <= a as int + b as int <= MaxInt ==> IntegerBinary("+", a, b) == Ok(Integer(a + b))
    ensures MinInt <= a as int - b as int <= MaxInt ==> IntegerBinary("-", a, b) == Ok(Integer(a - b))
    ensures MinInt <= a as int * b as int <= MaxInt ==> IntegerBinary("*", a, b) == Ok(Integer(a * b))
  {
  }

  /** Addition and multiplication wrap around consistently: both are commutative. */
  lemma Commutative(a: int32, b: int32)
    ensures IntegerBinary("+", a, b) == IntegerBinary("+", b, a)
    ensures IntegerBinary("*", a, b) == IntegerBinary("*", b, a)
  {
    assert a as int * b as int == b as int * a as int;
  }

  /** The largest integer plus one is the smallest. */
  lemma Overflow()
    ensures IntegerBinary("+", MaxInt as int32, 1) == Ok(Integer(MinInt as int32))
  {
    Wrap32Unique(MaxInt + 1, MinInt as int32);
  }

  /**
   * Division by zero throws. Otherwise the quotient `q` truncates toward zero: the remainder
   * `a - q * b` is smaller than the divisor in magnitude and has the sign of the dividend. The
   * one quotient outside the 32-bit range, `MinInt / -1`, wraps around to `MinInt`.
   */
  lemma Division(a: int32, b: int32)
    ensures b == 0 <==> IntegerBinary("/", a, b) == Throws(DivideByZero)
    ensures b != 0 && !(a as int == MinInt && b == -1) ==>
            IntegerBinary("/", a, b).Ok? && IntegerBinary("/", a, b).value.Integer? &&
            var rem := a as int - IntegerBinary("/", a, b).value.n as int * b as int;
            Abs(rem) < Abs(b as int) && (a >= 0 ==> rem >= 0) && (a < 0 ==> rem <= 0)
    ensures IntegerBinary("/", MinInt as int32, -1) == Ok(Integer(MinInt as int32))
  {
    if b != 0 && !(a as int == MinInt && b == -1) {
      TruncDivSpec(a as int, b as int);
      TruncDivInRange(a as int, b as int);
    }
    assert TruncDiv(MinInt, -1) == -MinInt;
    Wrap32Unique(-MinInt, MinInt as int32);
  }

  /** `<` and `>` are mirror images, and `!=` is the negation of `==`. */
  lemma ComparisonDuality(a: int32, b: int32)
    ensures IntegerBinary("<", a, b) == IntegerBinary(">", b, a)
    ensures IntegerBinary("!=", a, b).value == Bang(IntegerBinary("==", a, b).value)
  {
  }

  // ---------------------------------------------------------------- any two values

  /**
   * `==` is structural equality of values except between two strings, which have only `+`:
   * `"a" == "a"` is an error rather than `true`.
   */
  lemma EqualityIsStructural(left: Value, right: Value)
    requires !(left.Str? && right.Str?)
    ensures Binary("==", left, right) == Ok(Bool(left == right))
    ensures Binary("!=", left, right) == Ok(Bool(left != right))
  {
  }

  lemma StringsHaveOnlyPlus(operator: string, a: string, b: string)
    ensures operator == "+" ==> Binary(operator, Str(a), Str(b)) == Ok(Str(a + b))
    ensures operator != "+" ==>
            Binary(operator, Str(a), Str(b)) == Ok(Error("unknown operator: STRING " + operator + " STRING"))
  {
    var name := StringType.Name();
    assert "unknown operator: " + name + " " + operator + " " + name
           == "unknown operator: STRING " + operator + " STRING";
  }

  /** Operands of different types meet only in `==` and `!=`; anything else is a type mismatch. */
  lemma TypeMismatch(operator: string, left: Value, right: Value)
    requires left.Type() != right.Type() && operator != "==" && operator != "!="
    ensures Binary(operator, left, right) ==
            Ok(Error("type mismatch: " + left.Type().Name() + " " + operator + " " + right.Type().Name()))
  {
  }

  /** Only integer division can throw. */
  lemma OnlyDivisionThrows(operator: string, left: Value, right: Value)
    ensures Binary(operator, left, right).Throws? <==>
            operator == "/" && left.Integer? && right.Integer? && right.n == 0
  {
  }

  // ---------------------------------------------------------------- indexing

  /** An array index in range gives that element; any other integer gives `null`. */
  lemma ArrayIndex(elements: seq<Value>, i: int32)
    ensures 0 <= i as int < |elements| ==> Index(Arr(elements), Integer(i)) == elements[i]
    ensures !(0 <= i as int < |elements|) ==> Index(Arr(elements), Integer(i)) == Null
  {
  }

  /** A hash looks a hashable index up by key; an unhashable index is an error. */
  lemma HashIndex(pairs: map<HashKey, Value>, index: Value)
    ensures AsKey(index).Some? && AsKey(index).value in pairs ==>
            Index(Hash(pairs), index) == pairs[AsKey(index).value]
    ensures AsKey(index).Some? && AsKey(index).value !in pairs ==> Index(Hash(pairs), index) == Null
    ensures AsKey(index).None? ==> Index(Hash(pairs), index) == Error("unusable as hash key: " + index.Type().Name())
  {
  }

  /** Indexing gives a part of the indexed value, so it refers to no environment the value does not. */
  lemma IndexRefsBelow(left: Value, index: Value, n: nat)
    requires RefsBelow(left, n)
    ensures RefsBelow(Index(left, index), n)
  {
  }
}
