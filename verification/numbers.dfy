/** The numeric values on exprstack.py's stack: Python `int`s, exact and
    unbounded, and Python `float`s, kept as their IEEE-754 binary64 bit
    pattern. Float conversion and float arithmetic are not defined here:
    they are supplied by a `FloatHost` (see README). */
module Numbers {
  import opened Chars

  datatype Option<T> = None | Some(value: T)

  /** The bit pattern of a binary64 float. */
  type Float64 = bv64

  datatype Num = IntV(i: int) | FloatV(bits: Float64)

  /** All bits but the sign bit. */
  const MagnitudeMask: bv64 := 0x7FFF_FFFF_FFFF_FFFF

  /** Python's `n == 0`: an int equal to zero, or a float whose magnitude is
      zero (both `0.0` and `-0.0`; a NaN is not zero). */
  predicate IsZero(n: Num) {
    match n
    case IntV(i) => i == 0
    case FloatV(b) => b & MagnitudeMask == 0
  }

  /** The float zero test accepts exactly the two signed zeros. */
  lemma FloatZeroes(b: Float64)
    ensures IsZero(FloatV(b)) <==> b == 0 || b == 0x8000_0000_0000_0000
  {
  }

  /** Python's `int(s)` on a digit string: the digits read as a decimal
      numeral, most significant first (leading zeros allowed). */
  function DigitsValue(s: string): nat
    requires AllIn(Digits, s)
    decreases |s|
  {
    if |s| == 0 then 0
    else DigitsValue(s[..|s| - 1]) * 10 + (s[|s| - 1] as int - '0' as int)
  }

  /** Python's `str(n)` for a non-negative int. */
  function Decimal(n: nat): (r: string)
    ensures |r| > 0 && AllIn(Digits, r)
    decreases n
  {
    var last := [('0' as int + n % 10) as char];
    if n < 10 then last else Decimal(n / 10) + last
  }

  /** Reading back the decimal form of a natural number gives the number. */
  lemma {:induction false} DecimalRoundTrip(n: nat)
    ensures DigitsValue(Decimal(n)) == n
    decreases n
  {
    var s := Decimal(n);
    assert s[..|s| - 1] == (if n < 10 then "" else Decimal(n / 10));
    if n >= 10 {
      DecimalRoundTrip(n / 10);
    }
  }

  /** The binary operators, with the symbol their error message shows. */
  datatype BinOp = AddOp | SubOp | MulOp | DivOp | PowOp

  function OpSymbol(op: BinOp): char {
    match op
    case AddOp => '+'
    case SubOp => '-'
    case MulOp => '*'
    case DivOp => '/'
    case PowOp => '^'
  }

  /** Python's float machinery, which this model does not define: `parse`
      is `float(literal)`; `arith` is `+ - * /` whenever the result is a
      float; `power` is `**` whenever the result is a float. `None` means
      Python raised (an `OverflowError`, say) instead of producing a value. */
  datatype FloatHost = FloatHost(
    parse: string -> Float64,
    arith: (BinOp, Num, Num) -> Option<Float64>,
    power: (Num, Num) -> Option<Float64>)

  /** `a ** b` on ints with a non-negative exponent. */
  function IntPow(a: int, b: nat): int
    decreases b
  {
    if b == 0 then 1 else a * IntPow(a, b - 1)
  }

  /** Multiplying powers of one base adds their exponents. */
  lemma {:induction false} IntPowAdd(a: int, m: nat, n: nat)
    ensures IntPow(a, m + n) == IntPow(a, m) * IntPow(a, n)
    decreases m
  {
    if m > 0 {
      IntPowAdd(a, m - 1, n);
      assert IntPow(a, m + n) == a * IntPow(a, m - 1 + n);
    }
  }

  /** A power of a power multiplies the exponents: the partner of
      `IntPowAdd` that pins `IntPow` down as repeated multiplication. */
  lemma {:induction false} IntPowMul(a: int, m: nat, n: nat)
    ensures IntPow(IntPow(a, m), n) == IntPow(a, m * n)
    decreases n
  {
    if n > 0 {
      IntPowMul(a, m, n - 1);
      IntPowAdd(a, m, m * (n - 1));
      assert m + m * (n - 1) == m * n;
    }
  }

  function Lift(f: Option<Float64>): Option<Num> {
    match f
    case None => None
    case Some(x) => Some(FloatV(x))
  }

  /** `n1 op n2` with Python's promotion rules: `+ - *` of two ints and `**`
      of two ints with a non-negative exponent are exact ints; `0 **` a
      negative int raises `ZeroDivisionError`; everything else, `/` always
      included, is a float from the host. */
  function Apply(host: FloatHost, op: BinOp, n1: Num, n2: Num): (r: Option<Num>)
    ensures r.Some? && r.value.IntV? ==> op != DivOp && n1.IntV? && n2.IntV?
    ensures (op == DivOp || n1.FloatV? || n2.FloatV?) && r.Some? ==> r.value.FloatV?
    ensures n1.IntV? && n2.IntV? && (op == AddOp || op == SubOp || op == MulOp) ==> r.Some? && r.value.IntV?
    ensures op == PowOp && n1.IntV? && n2.IntV? ==> (r.Some? && r.value.IntV? <==> n2.i >= 0)
    ensures op == PowOp && n1 == IntV(0) && n2.IntV? && n2.i < 0 ==> r == None
    ensures n1.IntV? && n2.IntV? ==>
      && (op == AddOp ==> r == Some(IntV(n1.i + n2.i)))
      && (op == SubOp ==> r == Some(IntV(n1.i - n2.i)))
      && (op == MulOp ==> r == Some(IntV(n1.i * n2.i)))
      && (op == PowOp && n2.i >= 0 ==> r == Some(IntV(IntPow(n1.i, n2.i))))
  {
    match (op, n1, n2)
    case (AddOp, IntV(a), IntV(b)) => Some(IntV(a + b))
    case (SubOp, IntV(a), IntV(b)) => Some(IntV(a - b))
    case (MulOp, IntV(a), IntV(b)) => Some(IntV(a * b))
    case (PowOp, IntV(a), IntV(b)) =>
      if b >= 0 then Some(IntV(IntPow(a, b)))
      else if a == 0 then None
      else Lift(host.power(n1, n2))
    case (PowOp, _, _) => Lift(host.power(n1, n2))
    case _ => Lift(host.arith(op, n1, n2))
  }
}
