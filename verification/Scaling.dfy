/** Rescaling between the abstract 0..255 channel and the range of a device
    data point, used for both brightness and white. */
module Scaling {
  import opened Common
  import opened Rounding

  datatype Range = Range(low: int, high: int) {
    predicate Valid() { 0 <= low < high <= 65535 }
    function Span(): int { high - low }
    predicate Contains(n: int) { low <= n <= high }
  }

  predicate IsChannel(v: int) { 0 <= v <= 255 }

  function ToDp(r: Range, v: int): int {
    r.low + (v * r.Span() + 127) / 255
  }

  function FromDp(r: Range, n: int): int
    requires r.Valid()
  {
    Round(((n - r.low) * 255) as real / r.Span() as real)
  }

  /** The rounding error of `ToDp`, cleared of its denominator. */
  lemma ToDpError(r: Range, v: int)
    ensures -127 <= 255 * (ToDp(r, v) - r.low) - v * r.Span() <= 127
  {}

  /** Clearing a positive denominator from a rounding bound. */
  lemma ClearDenominator(num: int, den: int, q: int)
    requires den > 0
    requires num as real / den as real - 0.5 <= q as real <= num as real / den as real + 0.5
    ensures -den <= 2 * (q * den - num) <= den
  {
    var n, d, w := num as real, den as real, q as real;
    ClearReal(n, d, n / d, w) by { Undivide(n, d); }
    MulCast(q, den);
    var product := q * den;
    assert ((2 * (product - num)) as real) == 2.0 * (product as real - n);
  }

  lemma ClearReal(n: real, d: real, x: real, w: real)
    requires d > 0.0 && x * d == n && x - 0.5 <= w <= x + 0.5
    ensures -d <= 2.0 * (w * d - n) <= d
  {
    MulNonNegative(w - (x - 0.5), d);
    MulNonNegative(x + 0.5 - w, d);
    assert (w - (x - 0.5)) * d == w * d - n + 0.5 * d;
    assert (x + 0.5 - w) * d == n + 0.5 * d - w * d;
  }

  /** The rounding error of `FromDp`, cleared of its denominator. */
  lemma FromDpError(r: Range, n: int)
    requires r.Valid()
    ensures -r.Span() <= 2 * (FromDp(r, n) * r.Span() - 255 * (n - r.low)) <= r.Span()
  {
    ClearDenominator((n - r.low) * 255, r.Span(), FromDp(r, n));
  }

  /** Multiples of a span closer than one span are equal. */
  lemma SameMultiple(a: int, b: int, s: int)
    requires s > 0 && -s < a * s - b * s < s
    ensures a == b
  {
    if a > b { MulMonotoneInt(b + 1, a, s); }
    if a < b { MulMonotoneInt(a + 1, b, s); }
  }

  /** `FromDp` is the only channel within half a step of the data point. */
  lemma FromDpNearest(r: Range, n: int, v: int)
    requires r.Valid()
    requires -r.Span() < 2 * (v * r.Span() - 255 * (n - r.low)) < r.Span()
    ensures FromDp(r, n) == v
  {
    FromDpError(r, n);
    SameMultiple(FromDp(r, n), v, r.Span());
  }

  lemma ToDpMonotone(r: Range, v: int, w: int)
    requires r.Valid() && v <= w
    ensures ToDp(r, v) <= ToDp(r, w)
  {
    assert v * r.Span() <= w * r.Span();
  }

  lemma FromDpMonotone(r: Range, n: int, m: int)
    requires r.Valid() && n <= m
    ensures FromDp(r, n) <= FromDp(r, m)
  {
    var s := r.Span() as real;
    assert ((n - r.low) * 255) as real / s <= ((m - r.low) * 255) as real / s;
    RoundMonotone(((n - r.low) * 255) as real / s, ((m - r.low) * 255) as real / s);
  }

  /** Endpoints map to endpoints in both directions. */
  lemma Endpoints(r: Range)
    requires r.Valid()
    ensures ToDp(r, 0) == r.low && ToDp(r, 255) == r.high
    ensures FromDp(r, r.low) == 0 && FromDp(r, r.high) == 255
  {
    FromDpNearest(r, r.low, 0);
    FromDpNearest(r, r.high, 255);
  }

  /** Both conversions stay inside their ranges. */
  lemma InRange(r: Range, v: int, n: int)
    requires r.Valid() && IsChannel(v) && r.Contains(n)
    ensures r.Contains(ToDp(r, v)) && IsChannel(FromDp(r, n))
  {
    Endpoints(r);
    ToDpMonotone(r, 0, v);
    ToDpMonotone(r, v, 255);
    FromDpMonotone(r, r.low, n);
    FromDpMonotone(r, n, r.high);
  }

  /** A level written and read back is off by at most half a channel step and
      half a device step, whatever the span. */
  lemma RoundTripError(r: Range, v: int)
    requires r.Valid()
    ensures 2 * r.Span() * Abs(FromDp(r, ToDp(r, v)) - v) <= 254 + r.Span()
  {
    var s, x := r.Span(), FromDp(r, ToDp(r, v));
    ToDpError(r, v);
    FromDpError(r, ToDp(r, v));
    hide ToDp, FromDp;
    Spread(x, v, s);
  }

  lemma Spread(x: int, v: int, s: int)
    requires s > 0 && -254 - s <= 2 * (x * s - v * s) <= 254 + s
    ensures 2 * s * Abs(x - v) <= 254 + s
  {
    var d := x - v;
    assert x * s - v * s == d * s;
    assert Abs(d) * s == if d >= 0 then d * s else -(d * s);
  }

  lemma FromTo(r: Range, v: int)
    requires r.Valid() && r.Span() >= 255
    ensures FromDp(r, ToDp(r, v)) == v
  {
    ToDpError(r, v);
    FromDpNearest(r, ToDp(r, v), v);
  }

  lemma ToFrom(r: Range, n: int)
    requires r.Valid() && r.Span() <= 255
    ensures ToDp(r, FromDp(r, n)) == n
  {
    FromDpError(r, n);
    var v := FromDp(r, n);
    assert -127 <= v * r.Span() - 255 * (n - r.low) <= 127;
  }

  /** A map that climbs from 0 to at most 254 over 0..255 has a flat step. */
  lemma {:induction false} FlatStep(r: Range, k: nat) returns (v: nat)
    requires r.Valid() && k <= 255
    requires ToDp(r, k) < r.low + k
    ensures v < k && ToDp(r, v) == ToDp(r, v + 1)
  {
    Endpoints(r);
    ToDpMonotone(r, k - 1, k);
    if ToDp(r, k - 1) == ToDp(r, k) {
      v := k - 1;
    } else {
      v := FlatStep(r, k - 1);
    }
  }

  lemma {:induction false} FlatStepBack(r: Range, k: nat) returns (n: int)
    requires r.Valid() && k <= r.Span()
    requires FromDp(r, r.low + k) < k
    ensures r.low <= n < r.low + k && FromDp(r, n) == FromDp(r, n + 1)
  {
    Endpoints(r);
    FromDpMonotone(r, r.low + k - 1, r.low + k);
    if FromDp(r, r.low + k - 1) == FromDp(r, r.low + k) {
      n := r.low + k - 1;
    } else {
      n := FlatStepBack(r, k - 1);
    }
  }

  /** Every requested channel value reads back exactly if and only if the
      device range has at least 255 steps. */
  lemma FromToExact(r: Range)
    requires r.Valid()
    ensures (forall v | IsChannel(v) :: FromDp(r, ToDp(r, v)) == v) <==> r.Span() >= 255
  {
    if r.Span() >= 255 {
      forall v | IsChannel(v) ensures FromDp(r, ToDp(r, v)) == v { FromTo(r, v); }
    } else {
      Endpoints(r);
      var v := FlatStep(r, 255);
      assert IsChannel(v) && IsChannel(v + 1);
      assert FromDp(r, ToDp(r, v)) == FromDp(r, ToDp(r, v + 1));
    }
  }

  /** Every device value survives a read followed by a write if and only if
      the device range has at most 255 steps. */
  lemma ToFromExact(r: Range)
    requires r.Valid()
    ensures (forall n | r.Contains(n) :: ToDp(r, FromDp(r, n)) == n) <==> r.Span() <= 255
  {
    if r.Span() <= 255 {
      forall n | r.Contains(n) ensures ToDp(r, FromDp(r, n)) == n { ToFrom(r, n); }
    } else {
      Endpoints(r);
      var n := FlatStepBack(r, r.Span());
      assert r.Contains(n) && r.Contains(n + 1);
      assert ToDp(r, FromDp(r, n)) == ToDp(r, FromDp(r, n + 1));
    }
  }

  /** One conversion there and back settles, whatever the span. */
  lemma Settles(r: Range, v: int, n: int)
    requires r.Valid()
    ensures ToDp(r, FromDp(r, ToDp(r, v))) == ToDp(r, v)
    ensures FromDp(r, ToDp(r, FromDp(r, n))) == FromDp(r, n)
  {
    if r.Span() >= 255 {
      FromTo(r, v);
      FromTo(r, FromDp(r, n));
    } else {
      ToFrom(r, ToDp(r, v));
      ToFrom(r, n);
    }
  }

  /** The values at which one step less, or more, of span loses exactness. */
  lemma ThresholdsAreTight()
    ensures var r := Range(0, 254); FromDp(r, ToDp(r, 127)) == 128
    ensures var r := Range(0, 256); ToDp(r, FromDp(r, 128)) == 129
  {
    assert ToDp(Range(0, 254), 127) == 127;
    assert (127 * 255) as real / 254.0 == 127.5;
    assert (128 * 255) as real / 256.0 == 127.5;
  }
}
