/** Exact arithmetic shared by the models: Python's and Lua's roundings and an optional value. */
module Numbers {

  datatype Option<+T> = None | Some(value: T)

  type PosReal = r: real | r > 0.0 witness 1.0

  type Positive = n: int | n >= 1 witness 1

  function Min(x: real, y: real): real {
    if x <= y then x else y
  }

  function Max(x: int, y: int): int {
    if x >= y then x else y
  }

  /** Python's int() of a float: truncation toward zero. */
  function Trunc(x: real): (t: int)
    ensures x >= 0.0 ==> t as real <= x < (t + 1) as real
    ensures x <= 0.0 ==> (t - 1) as real < x <= t as real
  {
    if x >= 0.0 then x.Floor else -(-x).Floor
  }

  /** Lua's math.ceil. */
  function Ceil(x: real): (c: int)
    ensures (c - 1) as real < x <= c as real
  {
    -(-x).Floor
  }

  predicate Whole(x: real) {
    x.Floor as real == x
  }

  /** Python's round(): the nearest integer, a tie going to the even neighbour. */
  function RoundHalfEven(x: real): (r: int)
    ensures -0.5 <= x - r as real <= 0.5
    ensures x - r as real == 0.5 || x - r as real == -0.5 ==> r % 2 == 0
  {
    var low := x.Floor;
    var rest := x - low as real;
    if rest < 0.5 || (rest == 0.5 && low % 2 == 0) then low else low + 1
  }

  lemma TruncGrows(x: real, y: real)
    requires x <= y
    ensures Trunc(x) <= Trunc(y)
  {
  }

  /** Rounding up is truncating and adding one, except at whole numbers. */
  lemma CeilOfPositive(x: real)
    requires x > 0.0
    ensures Ceil(x) == Trunc(x) + (if Whole(x) then 0 else 1)
  {
  }

  lemma PositiveQuotient(x: real, y: PosReal)
    ensures x > 0.0 <==> x / y > 0.0
  {
    QuotientBounds(x, y, 0.0);
  }

  /** Dafny's integer division is the floor of the exact quotient x of a by b. */
  lemma FloorOfQuotient(x: real, a: int, b: Positive)
    requires x * b as real == a as real
    ensures x.Floor == a / b
  {
    var q := a / b;
    assert b * q <= a < b * q + b;
    assert (b * q) as real == q as real * b as real;
    assert (q as real + 1.0) * b as real == q as real * b as real + b as real;
    ProductOrder(q as real, x, b as real);
    ProductOrder(x, q as real + 1.0, b as real);
  }

  lemma MulMono(x: real, y: real, factor: real)
    requires x <= y && factor >= 0.0
    ensures x * factor <= y * factor
  {
  }

  lemma MulLess(x: real, y: real, factor: real)
    requires x < y && factor > 0.0
    ensures x * factor < y * factor
  {
  }

  /** A quotient by a positive number, compared by multiplying out. */
  lemma QuotientBounds(x: real, y: PosReal, bound: real)
    ensures x / y <= bound <==> x <= bound * y
    ensures x / y < bound <==> x < bound * y
  {
    ProductOrder(x / y, bound, y);
    assert x / y * y == x;
  }

  lemma ProductOrder(x: real, y: real, factor: PosReal)
    ensures x <= y <==> x * factor <= y * factor
    ensures x < y <==> x * factor < y * factor
  {
    if x < y {
      MulLess(x, y, factor);
    } else if y < x {
      MulLess(y, x, factor);
    }
  }

  lemma NoMultipleBetween(d: int, b: Positive)
    requires 0 - b < d * b < b
    ensures d == 0
  {
  }

  lemma PositiveFactor(d: int, b: Positive)
    requires d * b > 0
    ensures d > 0
  {
  }
}
