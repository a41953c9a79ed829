/**
 * Kotlin's 32-bit `Int`: the range, two's-complement wrap-around of `+ - *` and negation,
 * division that truncates toward zero, decimal rendering (`"$value"`) and `String.toIntOrNull()`.
 */
module KotlinInt {
  import opened Options

  const MinInt: int := -0x8000_0000
  const MaxInt: int := 0x7fff_ffff
  const Modulus: int := 0x1_0000_0000

  newtype int32 = x: int | -0x8000_0000 <= x < 0x8000_0000

  /** Two's-complement wrap-around into 32 bits. */
  function Wrap32(x: int): (r: int32)
    ensures (r as int - x) % Modulus == 0
    ensures MinInt <= x <= MaxInt ==> r as int == x
  {
    var m := x % Modulus;
    if m < 0x8000_0000 then m as int32 else (m - Modulus) as int32
  }

  /** The wrapped value is the only 32-bit integer congruent to `x` modulo 2^32. */
  lemma {:induction false} Wrap32Unique(x: int, y: int32)
    requires (y as int - x) % Modulus == 0
    ensures Wrap32(x) == y
  {
    var r := Wrap32(x);
    var d := y as int - r as int;
    assert d % Modulus == 0 by {
      assert (r as int - x) % Modulus == 0;
      assert (y as int - r as int) == (y as int - x) - (r as int - x);
    }
    assert -Modulus < d < Modulus;
  }

  function Abs(x: int): nat { if x < 0 then -x else x }

  /** Integer division as the JVM does it: the quotient is truncated toward zero. */
  function TruncDiv(a: int, b: int): int
    requires b != 0
  {
    var q := Abs(a) / Abs(b);
    if (a < 0) != (b < 0) then -q else q
  }

  /** The remainder that goes with `TruncDiv`: it has the sign of the dividend. */
  function TruncRem(a: int, b: int): int
    requires b != 0
  {
    a - TruncDiv(a, b) * b
  }

  /**
   * Truncating division is the division whose remainder is smaller than the divisor in
   * magnitude and never has the opposite sign of the dividend.
   */
  lemma {:induction false} TruncDivSpec(a: int, b: int)
    requires b != 0
    ensures a == TruncDiv(a, b) * b + TruncRem(a, b)
    ensures Abs(TruncRem(a, b)) < Abs(b)
    ensures a >= 0 ==> TruncRem(a, b) >= 0
    ensures a < 0 ==> TruncRem(a, b) <= 0
    ensures Abs(TruncDiv(a, b)) * Abs(b) <= Abs(a)
  {
    var m := Abs(b);
    var q, r := Abs(a) / m, Abs(a) % m;
    assert Abs(a) == q * m + r && 0 <= r < m;
    TruncDivProduct(a, b);
    assert TruncRem(a, b) == (if a < 0 then -r else r);
  }

  /** The quotient's magnitude is the quotient of the magnitudes, and the product has the sign of `a`. */
  lemma TruncDivProduct(a: int, b: int)
    requires b != 0
    ensures Abs(TruncDiv(a, b)) == Abs(a) / Abs(b)
    ensures TruncDiv(a, b) * b == if a < 0 then -(Abs(a) / Abs(b) * Abs(b)) else Abs(a) / Abs(b) * Abs(b)
  {
    var m: int := Abs(b);
    var q: int := Abs(a) / Abs(b);
    assert q >= 0 by {
      DivisionNonNegative(Abs(a), m);
    }
    var t := TruncDiv(a, b);
    assert t == q || t == -q;
    assert b == m || b == -m;
    SignedProduct(t, b, q, m);
    if q == 0 {
      assert q * m == 0;
    } else {
      assert (t == q) == (b == m) <==> a >= 0;
    }
  }

  lemma DivisionNonNegative(n: int, d: int)
    requires n >= 0 && d > 0
    ensures n / d >= 0
  {
  }

  /** A product of `±q` and `±m` is `q * m` when the signs agree and its negation otherwise. */
  lemma SignedProduct(x: int, y: int, q: int, m: int)
    requires (x == q || x == -q) && (y == m || y == -m)
    ensures x * y == if (x == q) == (y == m) then q * m else -(q * m)
  {
    if x == q && x == -q {
      assert q == 0;
    } else if y == m && y == -m {
      assert m == 0;
    }
  }

  /** The quotient of two 32-bit integers fits in 32 bits, except `MinInt / -1`. */
  lemma {:induction false} TruncDivInRange(a: int, b: int)
    requires MinInt <= a <= MaxInt && b != 0 && !(a == MinInt && b == -1)
    ensures MinInt <= TruncDiv(a, b) <= MaxInt
  {
    var m := Abs(b);
    var q := Abs(a) / m;
    if m == 1 {
      assert q == Abs(a);
    } else {
      assert q * m <= Abs(a) by {
        assert Abs(a) == q * m + Abs(a) % m;
      }
      AtLeastDouble(q, m);
    }
  }

  lemma AtLeastDouble(q: nat, m: int)
    requires m >= 2
    ensures q * 2 <= q * m
  {
    assert q * m == q * 2 + q * (m - 2);
  }

  // ---------------------------------------------------------------- decimal text

  predicate IsDigitChar(c: char) { '0' <= c <= '9' }

  function DigitChar(d: nat): (c: char)
    requires d < 10
    ensures IsDigitChar(c) && c as int - '0' as int == d
  {
    ('0' as int + d) as char
  }

  /** Decimal digits of a natural number, most significant first, with no leading zero. */
  function NatToString(n: nat): (s: string)
    ensures |s| > 0
    ensures forall i :: 0 <= i < |s| ==> IsDigitChar(s[i])
    decreases n
  {
    if n < 10 then [DigitChar(n)] else NatToString(n / 10) + [DigitChar(n % 10)]
  }

  /** Kotlin's `"$n"` for an integer: a minus sign for negative numbers, then the digits. */
  function IntToString(n: int): string
  {
    if n < 0 then "-" + NatToString(-n) else NatToString(n)
  }

  predicate AllDigits(s: string) { forall i :: 0 <= i < |s| ==> IsDigitChar(s[i]) }

  /** The value of a string of decimal digits (leading zeros allowed). */
  function DigitsValue(s: string): nat
    requires AllDigits(s)
  {
    if s == [] then 0 else DigitsValue(s[..|s| - 1]) * 10 + (s[|s| - 1] as int - '0' as int)
  }

  /**
   * Kotlin's `String.toIntOrNull()` in radix 10: an optional leading `-` or `+` followed by at
   * least one digit, and a value that fits in 32 bits; anything else gives null.
   */
  function ToIntOrNull(s: string): Option<int32>
  {
    if |s| == 0 then None
    else if s[0] == '-' || s[0] == '+' then
      if |s| == 1 || !AllDigits(s[1..]) then None
      else
        var v: int := if s[0] == '-' then -(DigitsValue(s[1..]) as int) else DigitsValue(s[1..]);
        if MinInt <= v <= MaxInt then Some(v as int32) else None
    else if AllDigits(s) && DigitsValue(s) <= MaxInt then Some(DigitsValue(s) as int32)
    else None
  }

  lemma {:induction false} NatToStringValue(n: nat)
    ensures AllDigits(NatToString(n)) && DigitsValue(NatToString(n)) == n
    decreases n
  {
    var s := NatToString(n);
    if n >= 10 {
      NatToStringValue(n / 10);
      assert s[..|s| - 1] == NatToString(n / 10);
    }
  }

  /** Rendering an `Int` in decimal and reading it back with `toIntOrNull` gives it back. */
  lemma IntToStringRoundTrip(n: int32)
    ensures ToIntOrNull(IntToString(n as int)) == Some(n)
  {
    var s := IntToString(n as int);
    if n < 0 {
      var digits := NatToString(-(n as int));
      NatToStringValue(-(n as int));
      assert s == "-" + digits && |digits| > 0;
      assert s[0] == '-' && s[1..] == digits;
      assert -(DigitsValue(digits) as int) == n as int;
    } else {
      NatToStringValue(n as int);
      assert s == NatToString(n as int);
      assert IsDigitChar(s[0]);
      assert AllDigits(s) && DigitsValue(s) == n as int;
    }
  }

  /** A digit string is accepted exactly when its value fits in an `Int`. */
  lemma DigitsAccepted(s: string)
    requires |s| > 0 && AllDigits(s)
    ensures ToIntOrNull(s).Some? <==> DigitsValue(s) <= MaxInt
    ensures ToIntOrNull(s).Some? ==> ToIntOrNull(s).value as int == DigitsValue(s)
  {
  }
}
