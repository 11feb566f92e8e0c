/**
 Fixed-point arithmetic. A `Decimal` is an exact rational that is rounded only where the
 program rounds; `scale` is ten to the number of decimal places kept.
 */
module Decimals {

  type Decimal = real

  function ToZero(y: Decimal): int {
    if y >= 0.0 then y.Floor else -((-y).Floor)
  }

  function FromZero(y: Decimal): int {
    if y >= 0.0 then -((-y).Floor) else y.Floor
  }

  function Ceil(y: Decimal): int {
    -((-y).Floor)
  }

  /** `k` units of size `1/scale`. */
  function Units(k: int, scale: int): Decimal
    requires scale > 0
  {
    k as real / scale as real
  }

  /** How many units of size `1/scale` make up `x`. */
  function Scaled(x: Decimal, scale: int): Decimal {
    x * scale as real
  }

  /** Strategy ToZero. */
  function Trunc(x: Decimal, scale: int): Decimal
    requires scale > 0
  {
    Units(ToZero(Scaled(x, scale)), scale)
  }

  /** Strategy AwayFromZero. */
  function RoundAway(x: Decimal, scale: int): Decimal
    requires scale > 0
  {
    Units(FromZero(Scaled(x, scale)), scale)
  }

  /** `round_dp(0)`: nearest integer, ties to even. */
  function RoundHalfEven(x: Decimal): int {
    var f := x.Floor;
    var d := x - f as real;
    if d < 0.5 || (d == 0.5 && f % 2 == 0) then f else f + 1
  }

  /** `x` is a whole number of units of size `1/scale`. */
  predicate Whole(x: Decimal, scale: int) {
    Scaled(x, scale).Floor as real == Scaled(x, scale)
  }

  // ---- ordered-field steps

  lemma MulMono(a: real, b: real, k: real)
    requires a <= b && k >= 0.0
    ensures a * k <= b * k
  {
  }

  lemma MulStrict(a: real, b: real, k: real)
    requires a < b && k > 0.0
    ensures a * k < b * k
  {
  }

  lemma Cancel(a: real, b: real, k: real)
    requires k > 0.0
    ensures a * k <= b * k ==> a <= b
    ensures a * k < b * k ==> a < b
    ensures a * k == b * k ==> a == b
  {
    if a > b {
      MulStrict(b, a, k);
    } else if a < b {
      MulStrict(a, b, k);
    }
  }

  lemma UnitsScaled(k: int, scale: int)
    requires scale > 0
    ensures Units(k, scale) * scale as real == k as real
  {
  }

  lemma FloorIs(y: real, k: int)
    requires k as real <= y < k as real + 1.0
    ensures y.Floor == k
  {
  }

  // ---- rounding

  /** The unit count of a whole number of units. */
  lemma WholeCount(x: Decimal, scale: int) returns (k: int)
    requires scale > 0 && Whole(x, scale)
    ensures x * scale as real == k as real && x == Units(k, scale)
  {
    k := Scaled(x, scale).Floor;
    UnitsScaled(k, scale);
    Cancel(x, Units(k, scale), scale as real);
  }

  lemma WholeUnits(k: int, scale: int)
    requires scale > 0
    ensures Whole(Units(k, scale), scale)
  {
    UnitsScaled(k, scale);
    FloorIs(k as real, k);
  }

  lemma TruncWhole(x: Decimal, scale: int)
    requires scale > 0
    ensures Whole(Trunc(x, scale), scale)
  {
    WholeUnits(ToZero(Scaled(x, scale)), scale);
  }

  /** Rounding towards zero drops less than one unit of a non-negative number. */
  lemma TruncBounds(x: Decimal, scale: int)
    requires scale > 0 && x >= 0.0
    ensures 0.0 <= Trunc(x, scale) <= x < Trunc(x, scale) + Units(1, scale)
  {
    var s := scale as real;
    var k := ToZero(Scaled(x, scale));
    MulMono(0.0, x, s);
    assert k >= 0 && k as real <= x * s < k as real + 1.0;
    UnitsScaled(k, scale);
    UnitsScaled(1, scale);
    Bounds(Units(k, scale), Units(1, scale), x, k, s);
  }

  lemma Bounds(r: real, u: real, x: real, k: int, s: real)
    requires s > 0.0 && r * s == k as real && u * s == 1.0
    requires 0 <= k && k as real <= x * s < k as real + 1.0
    ensures 0.0 <= r <= x < r + u
  {
    Cancel(0.0, r, s);
    Cancel(r, x, s);
    assert (r + u) * s == r * s + u * s;
    Cancel(x, r + u, s);
  }

  /** Truncation treats both signs alike. */
  lemma TruncNegated(x: Decimal, scale: int)
    requires scale > 0
    ensures Trunc(-x, scale) == -Trunc(x, scale)
  {
    Distribute(x, 0.0, scale as real);
    assert ToZero(-Scaled(x, scale)) == -ToZero(Scaled(x, scale));
  }

  lemma TruncFix(x: Decimal, scale: int)
    requires scale > 0 && Whole(x, scale)
    ensures Trunc(x, scale) == x
  {
    var k := WholeCount(x, scale);
    FloorIs(k as real, k);
    FloorIs((-k) as real, -k);
    assert ToZero(Scaled(x, scale)) == k;
  }

  /** A multiple not above `x` is not above its truncation. */
  lemma TruncGreatest(x: Decimal, w: Decimal, scale: int)
    requires scale > 0 && x >= 0.0 && Whole(w, scale) && w <= x
    ensures w <= Trunc(x, scale)
  {
    var s := scale as real;
    var k := WholeCount(w, scale);
    var n := ToZero(Scaled(x, scale));
    MulMono(w, x, s);
    MulMono(0.0, x, s);
    assert k as real <= x * s && k <= n;
    UnitsScaled(n, scale);
    Cancel(w, Units(n, scale), s);
  }

  lemma WholeBy(x: Decimal, scale: int, k: int)
    requires Scaled(x, scale) == k as real
    ensures Whole(x, scale)
  {
    FloorIs(k as real, k);
  }

  lemma WholeSum(x: Decimal, y: Decimal, scale: int)
    requires scale > 0 && Whole(x, scale) && Whole(y, scale)
    ensures Whole(x + y, scale) && Whole(x - y, scale) && Whole(-x, scale)
  {
    var i := WholeCount(x, scale);
    var j := WholeCount(y, scale);
    Distribute(x, y, scale as real);
    WholeBy(x + y, scale, i + j);
    WholeBy(x - y, scale, i - j);
    WholeBy(-x, scale, -i);
  }

  lemma Distribute(x: real, y: real, s: real)
    ensures (x + y) * s == x * s + y * s
    ensures (x - y) * s == x * s - y * s
    ensures (-x) * s == -(x * s)
  {
  }

  /** A multiple of a coarse unit is a multiple of every finer one. */
  lemma WholeFiner(x: Decimal, scale: int, factor: int)
    requires scale > 0 && factor > 0 && Whole(x, scale)
    ensures Whole(x, scale * factor)
  {
    var k := WholeCount(x, scale);
    Associate(x, scale as real, factor as real);
    assert (scale * factor) as real == scale as real * factor as real;
    assert (k * factor) as real == k as real * factor as real;
    WholeBy(x, scale * factor, k * factor);
  }

  lemma Associate(x: real, s: real, f: real)
    ensures x * (s * f) == x * s * f
  {
  }

  lemma RoundAwayBounds(x: Decimal, scale: int)
    requires scale > 0
    ensures Whole(RoundAway(x, scale), scale)
    ensures x >= 0.0 ==> x <= RoundAway(x, scale) < x + Units(1, scale)
  {
    var s := scale as real;
    var k := FromZero(Scaled(x, scale));
    WholeUnits(k, scale);
    if x >= 0.0 {
      MulMono(0.0, x, s);
      assert x * s <= k as real < x * s + 1.0;
      UnitsScaled(k, scale);
      UnitsScaled(1, scale);
      AwayBounds(Units(k, scale), Units(1, scale), x, k, s);
    }
  }

  lemma AwayBounds(r: real, u: real, x: real, k: int, s: real)
    requires s > 0.0 && r * s == k as real && u * s == 1.0
    requires x * s <= k as real < x * s + 1.0
    ensures x <= r < x + u
  {
    Cancel(x, r, s);
    assert (x + u) * s == x * s + u * s;
    Cancel(r, x + u, s);
  }
}
