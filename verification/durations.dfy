/** The `Duration` class of the time package: unit constants, the
    operators and comparators registered for it, and `toUnits`
    (internal/stdlib/time.go).

    A duration is a Go `int64` of microseconds; the operators wrap around
    as Go's `int64` arithmetic does. */
module Durations {
  import opened Wrappers
  import opened Tokens

  const TWO_63: int := 0x8000_0000_0000_0000
  const TWO_64: int := 0x1_0000_0000_0000_0000

  predicate InInt64(x: int) {
    -TWO_63 <= x < TWO_63
  }

  /** A duration value: a Go `int64`. */
  type Duration = x: int | -0x8000_0000_0000_0000 <= x < 0x8000_0000_0000_0000

  /** An `int64` result: the mathematical value modulo 2^64, in range. */
  function Wrap(x: int): (r: Duration)
    ensures (r - x) % TWO_64 == 0
    ensures InInt64(x) ==> r == x
  {
    (x + TWO_63) % TWO_64 - TWO_63
  }

  /** The unit constants. */
  const MICROSECOND: Duration := 1
  const MILLISECOND: Duration := MICROSECOND * 1000
  const SECOND: Duration := MILLISECOND * 1000
  const MINUTE: Duration := SECOND * 60
  const HOUR: Duration := MINUTE * 60

  /** Each unit is the previous one times 1000, 1000, 60, 60; an hour is
      3.6e9 microseconds. */
  lemma UnitLadder()
    ensures MICROSECOND == 1 && MILLISECOND == 1_000 && SECOND == 1_000_000
    ensures MINUTE == 60 * SECOND && HOUR == 60 * MINUTE && HOUR == 3_600_000_000
  {
  }

  /** The right operand of an operator: another duration or an `Integer`. */
  datatype Operand = DurationOperand(d: Duration) | IntegerOperand(i: Duration)

  /** The operators of the class. With a duration on the right there are
      `+`, `-` and `*`; with an integer only `+` and `-`. Any other pairing
      has no operator (`None`). */
  function Operate(op: Token, a: Duration, b: Operand): (r: Option<Duration>)
    ensures r.Some? <==> op == ADD || op == SUB || (op == MUL && b.DurationOperand?)
    ensures r.Some? ==> var y := if b.DurationOperand? then b.d else b.i;
      (r.value - (if op == ADD then a + y else if op == SUB then a - y else a * y)) % TWO_64 == 0
  {
    match b
    case DurationOperand(y) =>
      if op == ADD then Some(Wrap(a + y))
      else if op == SUB then Some(Wrap(a - y))
      else if op == MUL then Some(Wrap(a * y))
      else None
    case IntegerOperand(y) =>
      if op == ADD then Some(Wrap(a + y))
      else if op == SUB then Some(Wrap(a - y))
      else None
  }

  /** A sum or difference of two `int64` values wraps at most once. */
  lemma WrapOnce(x: int)
    requires -TWO_64 <= x < TWO_64
    ensures Wrap(x) == if x >= TWO_63 then x - TWO_64 else if x < -TWO_63 then x + TWO_64 else x
  {
    var z := x + TWO_63;
    if z >= TWO_64 {
      assert z == TWO_64 + (z - TWO_64);
    } else if z < 0 {
      assert z == -TWO_64 + (z + TWO_64);
    }
  }

  /** Without overflow the operators are plain integer arithmetic, and
      adding then subtracting the same amount gives the duration back even
      when the sum wraps. */
  lemma OperateArithmetic(a: Duration, b: Operand)
    ensures var y := if b.DurationOperand? then b.d else b.i;
      && (InInt64(a + y) ==> Operate(ADD, a, b) == Some(a + y))
      && (InInt64(a - y) ==> Operate(SUB, a, b) == Some(a - y))
      && Operate(SUB, Operate(ADD, a, b).value, b) == Some(a)
  {
    var y := if b.DurationOperand? then b.d else b.i;
    WrapOnce(a + y);
    var s := Wrap(a + y);
    WrapOnce(s - y);
  }

  /** The comparators: the six comparison tokens, each the matching order
      on the integers; any other token has no comparator. */
  function Compare(op: Token, a: Duration, b: Duration): (r: Option<bool>)
    ensures r.Some? <==> op in {EQUALS, NOT_EQUALS, LESS, GREATER, LESS_EQUAL, GREATER_EQUAL}
    ensures r.Some? ==>
      (r.value <==>
        || (a < b && op in {NOT_EQUALS, LESS, LESS_EQUAL})
        || (a == b && op in {EQUALS, LESS_EQUAL, GREATER_EQUAL})
        || (a > b && op in {NOT_EQUALS, GREATER, GREATER_EQUAL}))
  {
    if op == EQUALS then Some(a == b)
    else if op == NOT_EQUALS then Some(a != b)
    else if op == LESS then Some(a < b)
    else if op == GREATER then Some(a > b)
    else if op == LESS_EQUAL then Some(a <= b)
    else if op == GREATER_EQUAL then Some(a >= b)
    else None
  }

  function Abs(x: int): nat { if x < 0 then -x else x }

  /** Go's integer division, truncating toward zero: the remainder is
      smaller than the divisor and has the dividend's sign; the quotient
      is no larger than the dividend. */
  function Quo(d: int, u: int): (q: int)
    requires u != 0
    ensures var r := d - q * u; (r == 0 || (r < 0 <==> d < 0)) && Abs(r) < Abs(u)
    ensures Abs(q) <= Abs(d)
  {
    var q := if (d < 0) == (u < 0) then Abs(d) / Abs(u) else -(Abs(d) / Abs(u));
    QuoFacts(d, u, q);
    q
  }

  /** The remainder of the truncating quotient is that of the absolute
      values, with the dividend's sign. */
  lemma QuoFacts(d: int, u: int, q: int)
    requires u != 0 && q == if (d < 0) == (u < 0) then Abs(d) / Abs(u) else -(Abs(d) / Abs(u))
    ensures var r := d - q * u; (r == 0 || (r < 0 <==> d < 0)) && Abs(r) < Abs(u)
    ensures Abs(q) <= Abs(d)
  {
    var x: int, y: int := Abs(d), Abs(u);
    var q0, m := x / y, x % y;
    assert x == q0 * y + m && 0 <= m < y;
    DivNoLarger(x, y);
    SignedProduct(q0, y, (d < 0) != (u < 0), u < 0);
    assert q == (if (d < 0) != (u < 0) then -q0 else q0);
    assert u == (if u < 0 then -y else y);
  }

  /** The product of two signed magnitudes. */
  lemma SignedProduct(a: int, b: int, negA: bool, negB: bool)
    ensures (if negA then -a else a) * (if negB then -b else b) == if negA == negB then a * b else -(a * b)
  {
    if negA {
      assert (-a) * b == -(a * b) && (-a) * (-b) == a * b;
    } else {
      assert a * (-b) == -(a * b);
    }
  }

  lemma DivNoLarger(x: nat, y: nat)
    requires y >= 1
    ensures x / y <= x
  {
    var q := x / y;
    assert q * y + x % y == x;
    assert q * y >= q by { MulAtLeast(q, y); }
  }

  lemma MulAtLeast(q: nat, y: nat)
    requires y >= 1
    ensures q * y >= q
  {
    assert q * y == q * (y - 1) + q;
    MulNonNegative(q, y - 1);
  }

  lemma MulNonNegative(a: nat, b: nat)
    ensures a * b >= 0
  {
  }

  /** `toUnits`: how many whole `unit`s fit in `d`, truncated toward zero
      and kept in `int64` (the quotient of the most negative duration by -1
      wraps to itself). A zero unit is a Go division panic (`None`). */
  function ToUnits(d: Duration, unit: Duration): (r: Option<Duration>)
    ensures r.None? <==> unit == 0
    ensures r.Some? && !(d == -TWO_63 && unit == -1) ==> r.value == Quo(d, unit)
    ensures r.Some? && d == -TWO_63 && unit == -1 ==> r.value == d
  {
    if unit == 0 then None
    else
      var q := Quo(d, unit);
      assert d == -TWO_63 && unit == -1 ==> q == TWO_63 by {
        if d == -TWO_63 && unit == -1 {
          assert Abs(d) / Abs(unit) == TWO_63;
        }
      }
      WrapOnce(q);
      Some(Wrap(q))
  }
}
