/** Shared vocabulary: optional values, results, and the decimal rounding the source writes explicitly. */
module Basics {

  datatype Option<+T> = None | Some(value: T) {
    function GetOr(default: T): T {
      match this
      case Some(v) => v
      case None => default
    }
  }

  datatype Result<+T, +E> = Ok(value: T) | Err(error: E)

  /** Side of a trade, a fill or an order. */
  datatype Side = Buy | Sell

  /** What a map of amounts holds for a key; nothing recorded means zero. */
  function Exposure(m: map<string, real>, k: string): real {
    if k in m then m[k] else 0.0
  }

  function Min(x: real, y: real): real {
    if y < x then y else x
  }

  function Max(x: real, y: real): real {
    if y > x then y else x
  }

  function Abs(x: real): real {
    if x < 0.0 then -x else x
  }

  /** The multiple of `1 / scale` nearest to a non-negative `x`, halves upwards. */
  function Nearest(x: real, scale: real): (r: real)
    requires scale > 0.0 && x >= 0.0
    ensures r >= 0.0 && -0.5 <= (r - x) * scale <= 0.5
  {
    var units := (x * scale + 0.5).Floor as real;
    var r := units / scale;
    assert r * scale == units;
    assert x * scale >= 0.0;
    assert units >= 0.0;
    assert (r - x) * scale == units - x * scale;
    r
  }

  /** `toFixed`: nearest multiple of `1 / scale`, halves away from zero. */
  function ToFixed(x: real, scale: real): (r: real)
    requires scale > 0.0
    ensures -0.5 <= (r - x) * scale <= 0.5
    ensures x >= 0.0 ==> r >= 0.0
    ensures x <= 0.0 ==> r <= 0.0
  {
    if x < 0.0 then
      assert (-Nearest(-x, scale) - x) * scale == -((Nearest(-x, scale) - -x) * scale);
      -Nearest(-x, scale)
    else Nearest(x, scale)
  }

  /** `toDecimalPlaces(_, ROUND_DOWN)` of a non-negative amount: the largest multiple of `1 / scale` not above it. */
  function RoundDown(x: real, scale: real): (r: real)
    requires scale > 0.0 && x >= 0.0
    ensures 0.0 <= r <= x
    ensures (x - r) * scale < 1.0
  {
    var units := (x * scale).Floor as real;
    var r := units / scale;
    assert r * scale == units;
    assert x * scale >= 0.0;
    assert (x - r) * scale == x * scale - units;
    r
  }

  /** `x` has no digits beyond the unit `1 / scale`. */
  ghost predicate IsMultiple(x: real, scale: real) {
    exists units: int :: IsUnits(x, scale, units)
  }

  predicate IsUnits(x: real, scale: real, units: int) {
    x * scale == units as real
  }

  lemma QuotientIsMultiple(units: int, scale: real)
    requires scale > 0.0
    ensures IsUnits(units as real / scale, scale, units)
  {
  }

  lemma RoundDownIsMultiple(x: real, scale: real)
    requires scale > 0.0 && x >= 0.0
    ensures IsMultiple(RoundDown(x, scale), scale)
  {
    QuotientIsMultiple((x * scale).Floor, scale);
    hide IsUnits;
  }

  /** Rounding to the nearest yields whole units, and of two that are equally near the one further from zero. */
  lemma ToFixedIsMultiple(x: real, scale: real)
    requires scale > 0.0
    ensures IsMultiple(ToFixed(x, scale), scale)
    ensures x >= 0.0 ==> (ToFixed(x, scale) - x) * scale > -0.5
    ensures x <= 0.0 ==> (ToFixed(x, scale) - x) * scale < 0.5
  {
    var m := if x < 0.0 then -x else x;
    var units := (m * scale + 0.5).Floor;
    NearestIs(m, scale);
    QuotientIsMultiple(units, scale);
    QuotientNegates(units, scale);
    QuotientIsMultiple(-units, scale);
    var near := Nearest(m, scale);
    assert (near - m) * scale > -0.5;
    assert (-near - -m) * scale == -((near - m) * scale);
    hide IsUnits, Nearest;
  }

  lemma NearestIs(x: real, scale: real)
    requires scale > 0.0 && x >= 0.0
    ensures Nearest(x, scale) == (x * scale + 0.5).Floor as real / scale
    ensures (Nearest(x, scale) - x) * scale > -0.5
  {
    var scaled := x * scale;
    var r := (scaled + 0.5).Floor as real / scale;
    assert r * scale == (scaled + 0.5).Floor as real;
    assert (r - x) * scale == r * scale - scaled;
  }

  lemma QuotientNegates(units: int, scale: real)
    requires scale > 0.0
    ensures (-units) as real / scale == -(units as real / scale)
  {
  }

  // ---- Money ----

  /** What a quantity is worth at a price. */
  function Worth(quantity: real, price: real): real {
    quantity * price
  }

  lemma WorthSplits(a: real, b: real, price: real)
    ensures Worth(a + b, price) == Worth(a, price) + Worth(b, price)
  {
  }

  lemma WorthSplitsPrice(quantity: real, p: real, q: real)
    ensures Worth(quantity, p + q) == Worth(quantity, p) + Worth(quantity, q)
  {
  }

  lemma WorthGrows(a: real, b: real, p: real, q: real)
    requires 0.0 <= a <= b && 0.0 <= p <= q
    ensures 0.0 <= Worth(a, p) <= Worth(b, q)
  {
    assert a * p <= b * p <= b * q;
  }
}
