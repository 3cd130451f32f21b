/** Rust `i32` arithmetic as the debug build runs it: every result outside
    the 32-bit signed range is a fault instead of a wrapped value, and `/`
    rounds toward zero (Dafny's own `/` is Euclidean). */
module Arith {
  import opened Faults
  import opened Ast

  function Abs(x: int): nat {
    if x < 0 then -x else x
  }

  /** The exact result if it fits in 32 bits, the overflow fault otherwise. */
  function Checked(x: int): (r: Result<Int32>)
    ensures r.Ok? <==> MinInt32 <= x <= MaxInt32
    ensures r.Ok? ==> r.value == x
    ensures r.Err? ==> r.error == ArithmeticOverflow
  {
    if MinInt32 <= x <= MaxInt32 then Ok(x) else Err(ArithmeticOverflow)
  }

  function Add(i: Int32, j: Int32): (r: Result<Int32>)
    ensures r.Ok? <==> MinInt32 <= i as int + j as int <= MaxInt32
    ensures r.Ok? ==> r.value == i as int + j as int
    ensures r.Err? ==> r.error == ArithmeticOverflow
  {
    Checked(i as int + j as int)
  }

  function Sub(i: Int32, j: Int32): (r: Result<Int32>)
    ensures r.Ok? <==> MinInt32 <= i as int - j as int <= MaxInt32
    ensures r.Ok? ==> r.value == i as int - j as int
    ensures r.Err? ==> r.error == ArithmeticOverflow
  {
    Checked(i as int - j as int)
  }

  function Mul(i: Int32, j: Int32): (r: Result<Int32>)
    ensures r.Ok? <==> MinInt32 <= i as int * j as int <= MaxInt32
    ensures r.Ok? ==> r.value == i as int * j as int
    ensures r.Err? ==> r.error == ArithmeticOverflow
  {
    Checked(i as int * j as int)
  }

  /** Unary minus: only the most negative value has no negation. */
  function Neg(i: Int32): (r: Result<Int32>)
    ensures r.Err? <==> i == MinInt32
    ensures r.Ok? ==> r.value as int + i as int == 0
    ensures r.Err? ==> r.error == ArithmeticOverflow
  {
    Checked(-(i as int))
  }

  /** Quotient rounded toward zero, as Rust's `/` computes it. */
  function TruncDiv(a: int, b: int): (q: int)
    requires b != 0
    ensures Abs(a - q * b) < Abs(b)
    ensures a >= 0 ==> a - q * b >= 0
    ensures a <= 0 ==> a - q * b <= 0
    ensures Abs(q) <= Abs(a)
  {
    if a >= 0 then
      DivBounds(a, b);
      a / b
    else
      DivBounds(-a, b);
      -((-a) / b)
  }

  /** Facts about Euclidean division of a non-negative dividend. */
  lemma DivBounds(a: nat, b: int)
    requires b != 0
    ensures 0 <= a - (a / b) * b < Abs(b)
    ensures Abs(a / b) <= a
  {
    var q, m := a / b, (a / b) * b;
    assert 0 <= a - m < Abs(b);
    if q != 0 {
      AbsMul(q, b);
      MulAtLeast(Abs(q), Abs(b));
      MulAtLeast(Abs(b), Abs(q));
      assert Abs(q) * Abs(b) == Abs(b) * Abs(q);
      QuotientLinear(a, b, m, Abs(q));
    }
  }

  /** The linear core of `DivBounds`, with the product `m` named. */
  lemma QuotientLinear(a: nat, b: int, m: int, aq: nat)
    requires 0 <= a - m < Abs(b)
    requires Abs(m) >= aq && Abs(m) >= Abs(b)
    ensures aq <= a
  {
  }

  /** A non-negative factor does not shrink when multiplied by a positive one. */
  lemma MulAtLeast(x: int, y: int)
    requires y >= 1
    ensures x >= 0 ==> x * y >= x
    ensures x <= 0 ==> x * y <= x
  {
    assert x * y - x == x * (y - 1);
  }

  /** Rust's checked `i32` division: zero divisor and `MIN / -1` both fault. */
  function Div(i: Int32, j: Int32): (r: Result<Int32>)
    ensures j == 0 ==> r == Err(DivisionByZero)
    ensures j != 0 ==> (r.Err? <==> i == MinInt32 && j == -1)
    ensures r.Err? && j != 0 ==> r.error == ArithmeticOverflow
    ensures r.Ok? ==> r.value == TruncDiv(i, j)
  {
    if j == 0 then Err(DivisionByZero)
    else
      DivOverflow(i, j);
      Checked(TruncDiv(i, j))
  }

  /** The truncated quotient of two 32-bit values leaves the range only for `MIN / -1`. */
  lemma DivOverflow(i: Int32, j: Int32)
    requires j != 0
    ensures MinInt32 <= TruncDiv(i, j) <= MaxInt32 <==> !(i == MinInt32 && j == -1)
  {
    var q := TruncDiv(i, j);
    if i == MinInt32 && j == -1 {
      assert Abs(i - q * j) < 1;
      assert q == -(i as int);
    } else if j == 1 {
      assert q == i;
    } else if j == -1 {
      assert Abs(i + q) < 1;
      assert q == -(i as int);
    } else {
      assert Abs(j) >= 2;
      TruncDivShrinks(i, j, q);
    }
  }

  /** A quotient whose remainder has the dividend's sign is at most half the
      dividend in size when the divisor is at least two in size. */
  lemma TruncDivShrinks(a: int, b: int, q: int)
    requires Abs(b) >= 2
    requires Abs(a - q * b) < Abs(b)
    requires a >= 0 ==> a - q * b >= 0
    requires a <= 0 ==> a - q * b <= 0
    ensures 2 * Abs(q) <= Abs(a)
  {
    AbsMul(q, b);
    ProductFacts(Abs(q), Abs(b));
    ShrinkLinear(a, b, q * b, Abs(q), Abs(q) * Abs(b));
  }

  lemma ProductFacts(x: nat, y: nat)
    requires y >= 2
    ensures x * y - x >= x
    ensures x != 0 ==> x * y >= y
  {
    assert x * y - 2 * x == x * (y - 2);
    assert x * y - y == (x - 1) * y;
  }

  lemma AbsMul(x: int, y: int)
    ensures Abs(x * y) == Abs(x) * Abs(y)
  {
    if x < 0 && y < 0 { assert x * y == (-x) * (-y); }
    else if x < 0 { assert x * y == -((-x) * y); }
    else if y < 0 { assert x * y == -(x * (-y)); }
  }

  /** The linear core of `TruncDivShrinks`, with the product `m` and its size `p` named. */
  lemma ShrinkLinear(a: int, b: int, m: int, aq: nat, p: nat)
    requires Abs(b) >= 2
    requires Abs(m) == p
    requires p - aq >= aq
    requires aq != 0 ==> p >= Abs(b)
    requires Abs(a - m) < Abs(b)
    requires a >= 0 ==> a - m >= 0
    requires a <= 0 ==> a - m <= 0
    ensures 2 * aq <= Abs(a)
  {
  }
}
