/** Milli-unit integers and the doubles the library shows for them. The rounding of a real
    result to a double is a parameter `fl`; the proofs use only what `IsRounding` says of it,
    which IEEE 754 round-to-nearest meets on the range used here. */
module Floats {
  const INT32_MAX: int := 0x7fff_ffff
  const INT32_MIN: int := -0x8000_0000

  predicate FitsInt32(v: int) {
    INT32_MIN <= v <= INT32_MAX
  }

  function Abs(x: real): real {
    if x < 0.0 then -x else x
  }

  /** `y` is within two millionths of `x`. */
  predicate Near(x: real, y: real) {
    -0.000002 <= y - x <= 0.000002
  }

  predicate InOrder(fl: real -> real, x: real, y: real) {
    fl(x) <= fl(y)
  }

  predicate OddAt(fl: real -> real, x: real) {
    fl(-x) == -fl(x)
  }

  predicate NearAt(fl: real -> real, x: real) {
    Near(x, fl(x))
  }

  /** Monotone, odd, and accurate to two millionths up to ten thousand million. */
  ghost predicate IsRounding(fl: real -> real) {
    && (forall x, y :: x <= y ==> InOrder(fl, x, y))
    && (forall x :: OddAt(fl, x))
    && (forall x :: Abs(x) <= 10000000000.0 ==> NearAt(fl, x))
  }

  /** Half a unit in the last place of a double, 2^-53 of the value (and next to nothing below
      the normal range), is accurate enough. */
  lemma HalfUlpIsEnough(x: real, y: real)
    requires Abs(x) <= 10000000000.0
    requires Abs(y - x) <= Abs(x) / 9007199254740992.0 + 0.000000000001
    ensures Near(x, y)
  {
  }

  lemma RoundsNear(fl: real -> real, x: real)
    requires IsRounding(fl) && Abs(x) <= 10000000000.0
    ensures Near(x, fl(x))
  {
    assert NearAt(fl, x);
  }

  lemma Monotone(fl: real -> real, x: real, y: real)
    requires IsRounding(fl) && x <= y
    ensures fl(x) <= fl(y)
  {
    assert InOrder(fl, x, y);
  }

  lemma Odd(fl: real -> real, x: real)
    requires IsRounding(fl)
    ensures fl(-x) == -fl(x)
  {
    assert OddAt(fl, x);
  }

  /** Python's `round`: to the nearest integer, ties to even. */
  function Round(y: real): int {
    var f := y.Floor;
    var d := y - f as real;
    if d < 0.5 then f else if d > 0.5 then f + 1 else if f % 2 == 0 then f else f + 1
  }

  function FromMilli(fl: real -> real, v: int): real {
    fl(v as real / 1000.0)
  }

  function ToMilli(fl: real -> real, x: real): int {
    Round(fl(x * 1000.0))
  }

  lemma RoundNearest(y: real)
    ensures Abs(y - Round(y) as real) <= 0.5
  {
  }

  lemma RoundIs(y: real, n: int)
    requires Abs(y - n as real) < 0.5
    ensures Round(y) == n
  {
  }

  /** `round` gives the nearest integer, and of two that are as near the even one. */
  lemma RoundIff(y: real, n: int)
    ensures Round(y) == n <==> Abs(y - n as real) < 0.5 || (Abs(y - n as real) == 0.5 && n % 2 == 0)
  {
    RoundNearest(y);
  }

  /** The product is rounded to a double before it is rounded to an integer: one that comes out as
      half a milli-unit goes to the even neighbour, whatever it was exactly. */
  lemma HalvesGoToEven(fl: real -> real, x: real, n: int)
    requires fl(x * 1000.0) == n as real + 0.5
    ensures ToMilli(fl, x) == if n % 2 == 0 then n else n + 1
  {
    RoundIff(n as real + 0.5, if n % 2 == 0 then n else n + 1);
  }

  lemma RoundMonotone(x: real, y: real)
    requires x <= y
    ensures Round(x) <= Round(y)
  {
  }

  lemma RoundTripRange(v: int, x: real)
    requires FitsInt32(v) && Near(v as real / 1000.0, x)
    ensures Abs(v as real / 1000.0) <= 3000000.0
    ensures Abs(x * 1000.0 - v as real) <= 0.002 && Abs(x * 1000.0) <= 2147483649.0
  {
  }

  lemma RoundTripClose(v: int, p: real, y: real)
    requires Abs(p - v as real) <= 0.002 && Abs(p) <= 2147483649.0 && Near(p, y)
    ensures Round(y) == v
  {
    RoundIs(y, v);
  }

  /** Reading an int32 as milli-units and writing it back is the identity, although the
      division and the multiplication each round. */
  lemma MilliRoundTrip(fl: real -> real, v: int)
    requires IsRounding(fl) && FitsInt32(v)
    ensures ToMilli(fl, FromMilli(fl, v)) == v
  {
    var q := v as real / 1000.0;
    assert Abs(q) <= 3000000.0;
    RoundsNear(fl, q);
    RoundTripRange(v, fl(q));
    RoundsNear(fl, fl(q) * 1000.0);
    RoundTripClose(v, fl(q) * 1000.0, fl(fl(q) * 1000.0));
  }

  lemma ToMilliMonotone(fl: real -> real, x: real, y: real)
    requires IsRounding(fl) && x <= y
    ensures ToMilli(fl, x) <= ToMilli(fl, y)
  {
    Monotone(fl, x * 1000.0, y * 1000.0);
    RoundMonotone(fl(x * 1000.0), fl(y * 1000.0));
  }

  /** A number whose milli-units fit an int32 is small. */
  lemma FittingIsSmall(fl: real -> real, x: real)
    requires IsRounding(fl) && FitsInt32(ToMilli(fl, x))
    ensures Abs(x) <= 10000000.0
  {
    var p, big := x * 1000.0, 10000000000.0;
    RoundsNear(fl, big);
    Odd(fl, big);
    RoundNearest(fl(p));
    if p > big {
      Monotone(fl, big, p);
    } else if p < -big {
      Monotone(fl, p, -big);
    }
  }

  lemma NearArithmetic(x: real, y: real, m: int)
    requires Abs(x) <= 10000000.0 && Near(x * 1000.0, y) && Abs(y - m as real) <= 0.5
    ensures Abs(m as real - x * 1000.0) <= 0.501
  {
  }

  /** The milli-units sent for a set-point are within half a unit of it, give or take the
      rounding of one multiplication. */
  lemma ToMilliNear(fl: real -> real, x: real)
    requires IsRounding(fl) && FitsInt32(ToMilli(fl, x))
    ensures Abs(ToMilli(fl, x) as real - x * 1000.0) <= 0.501
  {
    FittingIsSmall(fl, x);
    RoundNearest(fl(x * 1000.0));
    RoundsNear(fl, x * 1000.0);
    NearArithmetic(x, fl(x * 1000.0), ToMilli(fl, x));
  }

  lemma FromMilliNear(fl: real -> real, v: int)
    requires IsRounding(fl) && FitsInt32(v)
    ensures Abs(FromMilli(fl, v) - v as real / 1000.0) <= 0.000002
  {
    RoundsNear(fl, v as real / 1000.0);
  }

  /** `abs(a - b) <= tol` in doubles, for a literal `tol`. */
  predicate Within(fl: real -> real, a: real, b: real, tol: real) {
    Abs(fl(a - b)) <= fl(tol)
  }

  lemma WithinIf(fl: real -> real, a: real, b: real, tol: real)
    requires IsRounding(fl) && Abs(a - b) <= tol
    ensures Within(fl, a, b, tol)
  {
    Odd(fl, tol);
    Monotone(fl, a - b, tol);
    Monotone(fl, -tol, a - b);
  }

  lemma NotWithinIf(fl: real -> real, a: real, b: real)
    requires IsRounding(fl) && 0.052 <= Abs(a - b)
    ensures !Within(fl, a, b, 0.051)
  {
    RoundsNear(fl, 0.051);
    RoundsNear(fl, 0.052);
    Odd(fl, 0.052);
    if a >= b {
      Monotone(fl, 0.052, a - b);
    } else {
      Monotone(fl, a - b, -0.052);
    }
  }
}
