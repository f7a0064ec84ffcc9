/** The colour model of the `hsv_hex` data point: colorsys' two conversions on
    exact numbers and the integer steps the device stores (360 hue steps, 1000
    saturation and value steps). */
module Hsv {
  import opened Common
  import opened Rounding

  datatype Rgb = Rgb(r: int, g: int, b: int) {
    predicate Valid() { 0 <= r <= 255 && 0 <= g <= 255 && 0 <= b <= 255 }
    function Top(): int { Common.Max(r, Common.Max(g, b)) }
    function Bottom(): int { Common.Min(r, Common.Min(g, b)) }
  }

  /** Three device steps: hue in 0..360, saturation and value in 0..1000. */
  datatype Steps = Steps(hue: int, saturation: int, value: int)

  function MaxR(a: real, b: real): real { if a < b then b else a }
  function MinR(a: real, b: real): real { if a < b then a else b }

  /** Python's `x % 1` for a real x. */
  function Fraction(x: real): (f: real)
    ensures 0.0 <= f < 1.0
  {
    x - x.Floor as real
  }

  // ---- colorsys ----

  /** The hue before it is divided by six and wrapped. */
  function RawHue(r: real, g: real, b: real): real
    requires MinR(r, MinR(g, b)) < MaxR(r, MaxR(g, b))
  {
    var maxc := MaxR(r, MaxR(g, b));
    var range := maxc - MinR(r, MinR(g, b));
    var rc := (maxc - r) / range;
    var gc := (maxc - g) / range;
    var bc := (maxc - b) / range;
    if r == maxc then bc - gc
    else if g == maxc then 2.0 + rc - bc
    else 4.0 + gc - rc
  }

  function RgbToHsv(r: real, g: real, b: real): (real, real, real)
    requires r >= 0.0 && g >= 0.0 && b >= 0.0
  {
    var maxc := MaxR(r, MaxR(g, b));
    var minc := MinR(r, MinR(g, b));
    if minc == maxc then (0.0, 0.0, maxc)
    else (Fraction(RawHue(r, g, b) / 6.0), (maxc - minc) / maxc, maxc)
  }

  function Lowered(s: real, v: real, weight: real): real { v * (1.0 - s * weight) }

  /** The six cases of the conversion, v being the largest channel. */
  function Sextant(i: int, v: real, p: real, q: real, t: real): (real, real, real) {
    match i % 6
    case 0 => (v, t, p)
    case 1 => (q, v, p)
    case 2 => (p, v, t)
    case 3 => (p, q, v)
    case 4 => (t, p, v)
    case _ => (v, p, q)
  }

  function HsvToRgb(h: real, s: real, v: real): (real, real, real)
    requires 0.0 <= h < 1.0
  {
    if s == 0.0 then (v, v, v) else
      var i := (h * 6.0).Floor;
      var f := h * 6.0 - i as real;
      Sextant(i, v, v * (1.0 - s), Lowered(s, v, f), Lowered(s, v, 1.0 - f))
  }

  // ---- the device's integer steps ----

  function ToSteps(c: Rgb): Steps
    requires c.Valid()
  {
    var (h, s, v) := RgbToHsv(c.r as real / 255.0, c.g as real / 255.0, c.b as real / 255.0);
    Steps(Round(h * 360.0), Round(s * 1000.0), Round(v * 1000.0))
  }

  /** The channels are rounded but not clamped: values above 1000 can leave 0..255. */
  function FromSteps(d: Steps): Rgb {
    var (r, g, b) := HsvToRgb(Fraction(d.hue as real / 360.0), d.saturation as real / 1000.0, d.value as real / 1000.0);
    Rgb(Round(r * 255.0), Round(g * 255.0), Round(b * 255.0))
  }

  // ---- weights: how far a channel falls below the value, as a fraction of the drop ----

  function Clamp(x: real): (y: real)
    ensures 0.0 <= y <= 1.0
  {
    if x < 0.0 then 0.0 else if x > 1.0 then 1.0 else x
  }

  function AbsR(x: real): real { if x < 0.0 then -x else x }

  function RedWeight(x: real): real { Clamp(2.0 - AbsR(x - 3.0)) }
  function GreenWeight(x: real): real { Clamp(AbsR(x - 2.0) - 1.0) }
  function BlueWeight(x: real): real { Clamp(AbsR(x - 4.0) - 1.0) }

  lemma WeightRange(x: real)
    ensures 0.0 <= RedWeight(x) <= 1.0 && 0.0 <= GreenWeight(x) <= 1.0 && 0.0 <= BlueWeight(x) <= 1.0
  {}

  /** Which weight each channel has in each sextant of the hue circle. */
  lemma SextantWeights(x: real)
    requires 0.0 <= x < 6.0
    ensures var i := x.Floor;
            var f := x - i as real;
            (RedWeight(x), GreenWeight(x), BlueWeight(x)) ==
              if i == 0 then (0.0, 1.0 - f, 1.0)
              else if i == 1 then (f, 0.0, 1.0)
              else if i == 2 then (1.0, 0.0, 1.0 - f)
              else if i == 3 then (1.0, f, 0.0)
              else if i == 4 then (1.0 - f, 1.0, 0.0)
              else (0.0, 1.0, f)
  {}

  lemma LoweredEnds(s: real, v: real)
    ensures Lowered(s, v, 0.0) == v && Lowered(s, v, 1.0) == v * (1.0 - s)
    ensures s == 0.0 ==> forall w :: Lowered(s, v, w) == v
  {
    if s == 0.0 {
      forall w ensures Lowered(s, v, w) == v { assert s * w == 0.0; }
    }
  }

  /** colorsys' six branches are one formula: each channel is
      v * (1 - s * weight) with a piecewise linear weight of the hue. */
  lemma HsvToRgbWeights(h: real, s: real, v: real)
    requires 0.0 <= h < 1.0
    ensures var x := h * 6.0;
            HsvToRgb(h, s, v) ==
              (Lowered(s, v, RedWeight(x)), Lowered(s, v, GreenWeight(x)), Lowered(s, v, BlueWeight(x)))
  {
    LoweredEnds(s, v);
    var x := h * 6.0;
    var f := x - x.Floor as real;
    SextantWeights(x);
    var i := x.Floor;
    assert 0 <= i < 6;
    if s != 0.0 {
      assert HsvToRgb(h, s, v) == Sextant(i, v, Lowered(s, v, 1.0), Lowered(s, v, f), Lowered(s, v, 1.0 - f));
    }
  }

  // ---- encoding ----

  /** How far a channel lies below the largest, as a fraction of the spread. */
  function Drop(c: Rgb, channel: int): real
    requires c.Bottom() < c.Top()
  {
    (c.Top() - channel) as real / (c.Top() - c.Bottom()) as real
  }

  /** Scaling numerator and denominator by 1/255 leaves a quotient unchanged. */
  lemma QuotientScale(n: int, d: int)
    requires d > 0
    ensures (n as real / 255.0) / (d as real / 255.0) == n as real / d as real
  {
    var q := n as real / d as real;
    assert q * (d as real / 255.0) == n as real / 255.0;
  }

  lemma Proportion(n: real, d: real)
    requires 0.0 <= n <= d && d > 0.0
    ensures 0.0 <= n / d <= 1.0
    ensures n / d == 0.0 <==> n == 0.0
    ensures n / d == 1.0 <==> n == d
  {
    var q := n / d;
    assert q * d == n;
    assert q <= 1.0 || (q - 1.0) * d > 0.0;
  }

  lemma DropRange(c: Rgb, channel: int)
    requires c.Bottom() < c.Top() && c.Bottom() <= channel <= c.Top()
    ensures 0.0 <= Drop(c, channel) <= 1.0
    ensures Drop(c, c.Top()) == 0.0 && Drop(c, c.Bottom()) == 1.0
    ensures Drop(c, channel) == 0.0 <==> channel == c.Top()
  {
    Proportion((c.Top() - channel) as real, (c.Top() - c.Bottom()) as real);
  }

  /** The hue in sextants before wrapping, from the drops of the channels. */
  function SextantHue(c: Rgb): real
    requires c.Bottom() < c.Top()
  {
    if c.r == c.Top() then Drop(c, c.b) - Drop(c, c.g)
    else if c.g == c.Top() then 2.0 + Drop(c, c.r) - Drop(c, c.b)
    else 4.0 + Drop(c, c.g) - Drop(c, c.r)
  }

  function Hue(c: Rgb): real
    requires c.Bottom() < c.Top()
  {
    if SextantHue(c) < 0.0 then SextantHue(c) + 6.0 else SextantHue(c)
  }

  /** What colorsys computes for a colour that is not grey. */
  lemma EncodedShape(c: Rgb)
    requires c.Valid() && c.Bottom() < c.Top()
    ensures 0.0 <= Hue(c) < 6.0
    ensures RgbToHsv(c.r as real / 255.0, c.g as real / 255.0, c.b as real / 255.0)
         == (Hue(c) / 6.0, (c.Top() - c.Bottom()) as real / c.Top() as real, c.Top() as real / 255.0)
  {
    var r, g, b := c.r as real / 255.0, c.g as real / 255.0, c.b as real / 255.0;
    var t, m := c.Top(), c.Bottom();
    assert MaxR(r, MaxR(g, b)) == t as real / 255.0 && MinR(r, MinR(g, b)) == m as real / 255.0;
    assert t as real / 255.0 - m as real / 255.0 == (t - m) as real / 255.0;
    forall x | x in {c.r, c.g, c.b}
      ensures (t as real / 255.0 - x as real / 255.0) / ((t - m) as real / 255.0) == Drop(c, x)
    {
      assert t as real / 255.0 - x as real / 255.0 == (t - x) as real / 255.0;
      QuotientScale(t - x, t - m);
    }
    QuotientScale(t - m, t);
    assert RawHue(r, g, b) == SextantHue(c);
    hide RawHue, SextantHue, Drop;
    HueRange(c);
    WrapHue(SextantHue(c));
  }

  lemma HueRange(c: Rgb)
    requires c.Bottom() < c.Top()
    ensures -1.0 <= SextantHue(c) < 6.0
  {
    DropRange(c, c.r);
    DropRange(c, c.g);
    DropRange(c, c.b);
  }

  lemma WrapHue(x: real)
    requires -1.0 <= x < 6.0
    ensures Fraction(x / 6.0) == (if x < 0.0 then x + 6.0 else x) / 6.0
  {
    if x < 0.0 { assert (x / 6.0).Floor == -1; } else { assert (x / 6.0).Floor == 0; }
  }

  /** The weights of a colour's hue are exactly the drops of its channels. */
  lemma HueWeights(c: Rgb)
    requires c.Bottom() < c.Top()
    ensures 0.0 <= Hue(c) < 6.0
    ensures RedWeight(Hue(c)) == Drop(c, c.r)
    ensures GreenWeight(Hue(c)) == Drop(c, c.g)
    ensures BlueWeight(Hue(c)) == Drop(c, c.b)
  {
    DropRange(c, c.r);
    DropRange(c, c.g);
    DropRange(c, c.b);
    HueRange(c);
  }

  /** So the exact conversion there and back is the identity on every colour. */
  lemma ExactRoundTrip(c: Rgb)
    requires c.Valid()
    ensures var (h, s, v) := RgbToHsv(c.r as real / 255.0, c.g as real / 255.0, c.b as real / 255.0);
            && 0.0 <= h < 1.0
            && HsvToRgb(h, s, v) == (c.r as real / 255.0, c.g as real / 255.0, c.b as real / 255.0)
  {
    if c.Bottom() < c.Top() {
      EncodedShape(c);
      HueWeights(c);
      HsvToRgbWeights(Hue(c) / 6.0, (c.Top() - c.Bottom()) as real / c.Top() as real, c.Top() as real / 255.0);
      ChannelReturns(c, c.r);
      ChannelReturns(c, c.g);
      ChannelReturns(c, c.b);
      hide RgbToHsv, HsvToRgb, Hue, Drop, Lowered, RedWeight, GreenWeight, BlueWeight;
      assert Hue(c) / 6.0 * 6.0 == Hue(c);
    }
  }

  lemma ChannelReturns(c: Rgb, channel: int)
    requires c.Valid() && c.Bottom() <= channel <= c.Top() && c.Bottom() < c.Top()
    ensures Lowered((c.Top() - c.Bottom()) as real / c.Top() as real, c.Top() as real / 255.0, Drop(c, channel)) ==
            channel as real / 255.0
  {
    var t, d, w := c.Top() as real, (c.Top() - c.Bottom()) as real, Drop(c, channel);
    DropSpread(c, channel);
    LoweredSpread(t, d, w);
    assert d * w == t - channel as real;
  }

  lemma LoweredSpread(t: real, d: real, w: real)
    requires t != 0.0
    ensures Lowered(d / t, t / 255.0, w) == (t - d * w) / 255.0
  {
    Undivide(d, t);
    var s := d / t;
    assert t * (1.0 - s * w) == t - (s * t) * w;
    assert t / 255.0 * (1.0 - s * w) == t * (1.0 - s * w) / 255.0;
  }

  // ---- the effect of storing whole steps ----

  /** The hue the decoder sees, in sextants. */
  function StoredHue(hue: int): real { Fraction(hue as real / 360.0) * 6.0 }

  lemma StoredHueSteps(hue: int)
    requires 0 <= hue <= 360
    ensures StoredHue(hue) == if hue == 360 then 0.0 else hue as real / 60.0
  {
    if hue == 360 { assert (hue as real / 360.0).Floor == 1; } else { assert (hue as real / 360.0).Floor == 0; }
  }

  /** Rounding the hue to whole steps stays within 1/120 of a sextant and never
      leaves the closed sextant, because sextant edges are whole steps. */
  lemma HueRounding(x: real)
    requires 0.0 <= x < 6.0
    ensures var hue := Round(x * 60.0);
            var k := x.Floor;
            0 <= k < 6 && 60 * k <= hue <= 60 * k + 60
            && x - 1.0 / 120.0 <= hue as real / 60.0 <= x + 1.0 / 120.0
            && (x == k as real ==> hue == 60 * k)
  {
    var k := x.Floor;
    assert (60 * k) as real <= x * 60.0 <= (60 * k + 60) as real;
    RoundNear((60 * k) as real, 60 * k);
    RoundNear((60 * k + 60) as real, 60 * k + 60);
    RoundMonotone((60 * k) as real, x * 60.0);
    RoundMonotone(x * 60.0, (60 * k + 60) as real);
    if x == k as real { assert x * 60.0 == (60 * k) as real; }
  }

  ghost predicate Near(w: real, u: real) {
    && -1.0 / 120.0 <= u - w <= 1.0 / 120.0
    && (w == 0.0 ==> u == 0.0)
    && (w == 1.0 ==> u == 1.0)
  }

  /** Each weight moves by at most 1/120, and a weight at either end stays there
      - even when the hue reaches the next sextant or wraps from 360 to 0. */
  lemma WeightRounding(x: real)
    requires 0.0 <= x < 6.0
    ensures var y := StoredHue(Round(x * 60.0));
            && Near(RedWeight(x), RedWeight(y))
            && Near(GreenWeight(x), GreenWeight(y))
            && Near(BlueWeight(x), BlueWeight(y))
  {
    HueRounding(x);
    var hue := Round(x * 60.0);
    StoredHueSteps(hue);
    WeightNear(x, hue as real / 60.0);
  }

  lemma WeightNear(x: real, y: real)
    requires 0.0 <= x < 6.0 && x.Floor as real <= y <= x.Floor as real + 1.0
    requires x - 1.0 / 120.0 <= y <= x + 1.0 / 120.0
    requires x == x.Floor as real ==> y == x
    ensures Near(RedWeight(x), RedWeight(y)) && Near(GreenWeight(x), GreenWeight(y))
              && Near(BlueWeight(x), BlueWeight(y))
    ensures y == 6.0 ==>
              RedWeight(y) == RedWeight(0.0) && GreenWeight(y) == GreenWeight(0.0) && BlueWeight(y) == BlueWeight(0.0)
  {
    SextantWeights(x);
  }

  lemma Bounded(a: real, bound: real, b: real)
    requires -bound <= a <= bound && 0.0 <= b <= 1.0
    ensures -bound <= a * b <= bound
  {
    MulNonNegative(bound - a, b);
    MulNonNegative(a + bound, b);
    MulNonNegative(bound, 1.0 - b);
    assert bound - a * b == (bound - a) * b + bound * (1.0 - b);
    assert a * b + bound == (a + bound) * b + bound * (1.0 - b);
  }

  /** The share of the error that comes from the hue. */
  lemma HueTerm(spread: real, w: real, u: real, slack: real)
    requires 0.0 <= slack && 0.0 <= spread <= 255.0 && -slack <= w - u <= slack
    ensures -(255.0 * slack) <= spread * (w - u) <= 255.0 * slack
  {
    MulNonNegative(slack - (w - u), spread);
    MulNonNegative(w - u + slack, spread);
    MulNonNegative(slack, 255.0 - spread);
    assert 255.0 * slack - spread * (w - u) == (slack - (w - u)) * spread + slack * (255.0 - spread);
    assert spread * (w - u) + 255.0 * slack == (w - u + slack) * spread + slack * (255.0 - spread);
  }

  /** The share that comes from the saturation. */
  lemma SaturationTerm(top: real, gap: real, u: real)
    requires 0.0 <= top <= 255.0 && -0.0005 <= gap <= 0.0005 && 0.0 <= u <= 1.0
    ensures -0.1275 <= (gap * top) * u <= 0.1275
  {
    Bounded(gap, 0.0005, top / 255.0);
    assert gap * top == 255.0 * (gap * (top / 255.0));
    Bounded(gap * top, 0.1275, u);
  }

  /** The share that comes from the value. */
  lemma ValueTerm(e: real, saturation: real, u: real)
    requires -0.1275 <= e <= 0.1275 && 0.0 <= saturation <= 1.0 && 0.0 <= u <= 1.0
    ensures -0.1275 <= e * (1.0 - saturation * u) <= 0.1275
  {
    Bounded(u, 1.0, saturation);
    MulMonotone(0.0, u, saturation);
    Bounded(e, 0.1275, 1.0 - saturation * u);
  }

  /** The exact decoded channel, before rounding, against the encoded one.
      `w` and `u` are the weights before and after storing the hue. */
  lemma ChannelError(top: real, spread: real, s: real, saturation: real, value: real, w: real, u: real, slack: real)
    requires 0.0 <= spread <= top <= 255.0 && s * top == spread
    requires -0.0005 <= saturation - s <= 0.0005 && 0.0 <= saturation <= 1.0
    requires -0.1275 <= 255.0 * value - top <= 0.1275
    requires 0.0 <= w <= 1.0 && 0.0 <= u <= 1.0 && -slack <= u - w <= slack
    ensures var error := 255.0 * Lowered(saturation, value, u) - (top - spread * w);
            -(0.255 + 255.0 * slack) <= error <= 0.255 + 255.0 * slack
  {
    var error := 255.0 * Lowered(saturation, value, u) - (top - spread * w);
    var a, b, c := (255.0 * value - top) * (1.0 - saturation * u), spread * (w - u), ((s - saturation) * top) * u;
    assert error == a + b + c by { ErrorTerms(top, spread, s, saturation, value, w, u); }
    assert -0.1275 <= a <= 0.1275 by { ValueTerm(255.0 * value - top, saturation, u); }
    assert -(255.0 * slack) <= b <= 255.0 * slack by { HueTerm(spread, w, u, slack); }
    assert -0.1275 <= c <= 0.1275 by { SaturationTerm(top, s - saturation, u); }
    AddBounds(error, a, b, c, 255.0 * slack);
  }

  lemma AddBounds(error: real, a: real, b: real, c: real, bound: real)
    requires error == a + b + c && -0.1275 <= a <= 0.1275 && -bound <= b <= bound && -0.1275 <= c <= 0.1275
    ensures -(0.255 + bound) <= error <= 0.255 + bound
  {}

  lemma ErrorTerms(top: real, spread: real, s: real, saturation: real, value: real, w: real, u: real)
    requires s * top == spread
    ensures 255.0 * Lowered(saturation, value, u) - (top - spread * w)
         == (255.0 * value - top) * (1.0 - saturation * u) + spread * (w - u) + ((s - saturation) * top) * u
  {
    var su := saturation * u;
    assert 255.0 * Lowered(saturation, value, u) == 255.0 * value - (255.0 * value) * su;
    assert (255.0 * value - top) * (1.0 - su) == 255.0 * value - top - (255.0 * value) * su + top * su;
    assert ((s - saturation) * top) * u == (spread - saturation * top) * u == spread * u - top * su;
  }

  // ---- the round trip ----

  /** The stored saturation and value stand for their originals to within half a step. */
  ghost predicate StoredFor(c: Rgb, saturation: real, value: real) {
    && c.Valid() && c.Bottom() < c.Top()
    && -0.0005 <= saturation - (c.Top() - c.Bottom()) as real / c.Top() as real <= 0.0005
    && -0.1275 <= 255.0 * value - c.Top() as real <= 0.1275
    && 0.0 <= saturation <= 1.0
  }

  /** Storing a fraction of one as whole thousandths. */
  lemma StoreThousandths(x: real)
    requires 0.0 <= x <= 1.0
    ensures 0 <= Round(x * 1000.0) <= 1000
    ensures -0.0005 <= Round(x * 1000.0) as real / 1000.0 - x <= 0.0005
  {
    RoundMonotone(0.0, x * 1000.0);
    RoundMonotone(x * 1000.0, 1000.0);
    RoundNear(0.0, 0);
    RoundNear(1000.0, 1000);
  }

  lemma StepsStore(c: Rgb)
    requires c.Valid() && c.Bottom() < c.Top()
    ensures var d := ToSteps(c);
            && 0 <= d.hue <= 360 && 0 <= d.saturation <= 1000 && 0 <= d.value <= 1000
            && d.hue == Round(Hue(c) * 60.0)
            && StoredFor(c, d.saturation as real / 1000.0, d.value as real / 1000.0)
  {
    EncodedShape(c);
    hide RgbToHsv, Hue, Round;
    var s := (c.Top() - c.Bottom()) as real / c.Top() as real;
    Proportion((c.Top() - c.Bottom()) as real, c.Top() as real);
    StoreThousandths(s);
    StoreThousandths(c.Top() as real / 255.0);
    assert Hue(c) / 6.0 * 360.0 == Hue(c) * 60.0;
    HueRounding(Hue(c));
  }

  function Decoded(saturation: real, value: real, weight: real): int {
    Round(Lowered(saturation, value, weight) * 255.0)
  }

  lemma DropSpread(c: Rgb, channel: int)
    requires c.Bottom() < c.Top()
    ensures (c.Top() - c.Bottom()) as real * Drop(c, channel) == (c.Top() - channel) as real
  {
    Undivide((c.Top() - channel) as real, (c.Top() - c.Bottom()) as real);
  }

  lemma ChannelErrorAgainst(channel: real, top: real, spread: real, s: real, saturation: real, value: real, w: real,
                            u: real, slack: real)
    requires 0.0 <= spread <= top <= 255.0 && s * top == spread && spread * w == top - channel
    requires -0.0005 <= saturation - s <= 0.0005 && 0.0 <= saturation <= 1.0
    requires -0.1275 <= 255.0 * value - top <= 0.1275
    requires 0.0 <= w <= 1.0 && 0.0 <= u <= 1.0 && -slack <= u - w <= slack
    ensures -(0.255 + 255.0 * slack) <= 255.0 * Lowered(saturation, value, u) - channel <= 0.255 + 255.0 * slack
  {
    ChannelError(top, spread, s, saturation, value, w, u, slack);
  }

  lemma DecodedError(c: Rgb, channel: int, saturation: real, value: real, u: real, slack: real)
    requires StoredFor(c, saturation, value) && c.Bottom() <= channel <= c.Top()
    requires 0.0 <= u <= 1.0 && -slack <= u - Drop(c, channel) <= slack
    ensures -(0.255 + 255.0 * slack) <= 255.0 * Lowered(saturation, value, u) - channel as real <= 0.255 + 255.0 * slack
  {
    hide Drop, Lowered;
    DropRange(c, channel);
    DropSpread(c, channel);
    var top, spread := c.Top() as real, (c.Top() - c.Bottom()) as real;
    Undivide(spread, top);
    ChannelErrorAgainst(channel as real, top, spread, spread / top, saturation, value, Drop(c, channel), u, slack);
  }

  /** A smaller weight gives a larger channel. */
  lemma DecodedMonotone(saturation: real, value: real, u: real, w: real)
    requires saturation >= 0.0 && value >= 0.0 && u <= w
    ensures Decoded(saturation, value, w) <= Decoded(saturation, value, u)
  {
    MulMonotone(u, w, saturation);
    MulMonotone(1.0 - saturation * w, 1.0 - saturation * u, value);
    RoundMonotone(Lowered(saturation, value, w) * 255.0, Lowered(saturation, value, u) * 255.0);
  }

  lemma OneChannel(c: Rgb, channel: int, saturation: real, value: real, u: real)
    requires StoredFor(c, saturation, value) && value >= 0.0 && c.Bottom() <= channel <= c.Top()
    requires 0.0 <= u <= 1.0 && Near(Drop(c, channel), u)
    ensures var out := Decoded(saturation, value, u);
            && -2 <= out - channel <= 2
            && c.Bottom() <= out <= c.Top()
            && (channel == c.Top() || channel == c.Bottom() ==> out == channel)
  {
    DropRange(c, c.Top());
    DropRange(c, channel);
    DecodedError(c, c.Top(), saturation, value, 0.0, 0.0);
    RoundNear(Lowered(saturation, value, 0.0) * 255.0, c.Top());
    DecodedError(c, c.Bottom(), saturation, value, 1.0, 0.0);
    RoundNear(Lowered(saturation, value, 1.0) * 255.0, c.Bottom());
    DecodedError(c, channel, saturation, value, u, 1.0 / 120.0);
    DecodedMonotone(saturation, value, 0.0, u);
    DecodedMonotone(saturation, value, u, 1.0);
  }

  /** What the decoder makes of the stored steps of a colour that is not grey. */
  lemma FromStepsWeights(d: Steps)
    ensures var x := StoredHue(d.hue);
            var s, v := d.saturation as real / 1000.0, d.value as real / 1000.0;
            FromSteps(d) ==
              Rgb(Decoded(s, v, RedWeight(x)), Decoded(s, v, GreenWeight(x)), Decoded(s, v, BlueWeight(x)))
  {
    hide HsvToRgb, RedWeight, GreenWeight, BlueWeight, Lowered, Fraction, Round;
    HsvToRgbWeights(Fraction(d.hue as real / 360.0), d.saturation as real / 1000.0, d.value as real / 1000.0);
  }

  /** The largest decoded channel fits exactly up to 1001 thousandths of value. */
  lemma TopFits(saturation: real, value: int)
    requires value >= 0
    ensures Decoded(saturation, value as real / 1000.0, 0.0) <= 255 <==> value <= 1001
  {
    var v := value as real / 1000.0;
    LoweredEnds(saturation, v);
    if value <= 1001 {
      RoundMonotone(v * 255.0, 255.255);
      RoundNear(255.255, 255);
    } else {
      RoundMonotone(255.51, v * 255.0);
      RoundNear(255.51, 256);
    }
  }

  /** The smallest decoded channel is not negative exactly while it lies at most
      half a step below zero before rounding. */
  lemma BottomFits(saturation: int, value: int)
    ensures Decoded(saturation as real / 1000.0, value as real / 1000.0, 1.0) >= 0 <==>
            255 * value * (saturation - 1000) <= 500000
  {
    var s, v := saturation as real / 1000.0, value as real / 1000.0;
    var n := value * (saturation - 1000);
    LoweredEnds(s, v);
    MulCast(value, saturation - 1000);
    ThousandthsProduct(value as real, saturation as real);
    var y := Lowered(s, v, 1.0) * 255.0;
    assert y == -(255.0 * n as real) / 1000000.0;
    assert (255 * n) as real == 255.0 * n as real;
    assert 255 * value * (saturation - 1000) == 255 * n;
    RoundFloor(y);
  }

  lemma ThousandthsProduct(value: real, saturation: real)
    ensures value / 1000.0 * (1.0 - saturation / 1000.0) == -(value * (saturation - 1000.0)) / 1000000.0
  {}

  /** Half-to-even takes exactly the numbers from -1/2 on to a natural number. */
  lemma RoundFloor(y: real)
    ensures Round(y) >= 0 <==> y >= -0.5
  {
    if y >= -0.5 {
      RoundMonotone(-0.5, y);
      assert Round(-0.5) == 0;
    }
  }

  /** Steps decode to a colour exactly when value and saturation do not lift a
      channel over 255 or push one below zero.  The hue does not matter: some
      channel is always the largest, and another the smallest. */
  predicate Decodable(d: Steps) { d.value <= 1001 && 255 * d.value * (d.saturation - 1000) <= 500000 }

  lemma DecodableExact(d: Steps)
    requires d.saturation >= 0 && d.value >= 0
    ensures FromSteps(d).Valid() <==> Decodable(d)
  {
    hide Decoded, RedWeight, GreenWeight, BlueWeight, StoredHue, FromSteps;
    FromStepsWeights(d);
    var x := StoredHue(d.hue);
    var s, v := d.saturation as real / 1000.0, d.value as real / 1000.0;
    TopFits(s, d.value);
    BottomFits(d.saturation, d.value);
    WeightRange(x);
    assert 0.0 <= x < 6.0 by { StoredHueRange(d.hue); }
    BetweenEnds(s, v, RedWeight(x));
    BetweenEnds(s, v, GreenWeight(x));
    BetweenEnds(s, v, BlueWeight(x));
    EndsReached(x);
    assert FromSteps(d).Valid() <==> Decoded(s, v, 0.0) <= 255 && Decoded(s, v, 1.0) >= 0;
  }

  lemma StoredHueRange(hue: int)
    ensures 0.0 <= StoredHue(hue) < 6.0
  {}

  lemma BetweenEnds(s: real, v: real, w: real)
    requires s >= 0.0 && v >= 0.0 && 0.0 <= w <= 1.0
    ensures Decoded(s, v, 1.0) <= Decoded(s, v, w) <= Decoded(s, v, 0.0)
  {
    DecodedMonotone(s, v, 0.0, w);
    DecodedMonotone(s, v, w, 1.0);
  }

  /** At every hue one channel has weight 0 and another weight 1. */
  lemma EndsReached(x: real)
    requires 0.0 <= x < 6.0
    ensures 0.0 in [RedWeight(x), GreenWeight(x), BlueWeight(x)]
    ensures 1.0 in [RedWeight(x), GreenWeight(x), BlueWeight(x)]
  {
    SextantWeights(x);
    hide RedWeight, GreenWeight, BlueWeight;
    var weights := [RedWeight(x), GreenWeight(x), BlueWeight(x)];
    assert weights[0] == RedWeight(x) && weights[1] == GreenWeight(x) && weights[2] == BlueWeight(x);
  }

  lemma GreyRoundTrip(c: Rgb)
    requires c.Valid() && c.Bottom() == c.Top()
    ensures ToSteps(c).hue == 0 && ToSteps(c).saturation == 0 && 0 <= ToSteps(c).value <= 1000
    ensures FromSteps(ToSteps(c)) == c
  {
    var x := c.r as real / 255.0;
    RoundNear(0.0, 0);
    RoundNear(1000.0, 1000);
    RoundMonotone(0.0, x * 1000.0);
    RoundMonotone(x * 1000.0, 1000.0);
    var v := Round(x * 1000.0);
    assert ToSteps(c) == Steps(0, 0, v);
    RoundNear(v as real / 1000.0 * 255.0, c.r);
  }

  /** One channel survived: within 2, inside the ends, exact at either end. */
  predicate Kept(c: Rgb, channel: int, out: int) {
    && -2 <= out - channel <= 2
    && c.Bottom() <= out <= c.Top()
    && (channel == c.Top() || channel == c.Bottom() ==> out == channel)
  }

  lemma ColourRoundTrip(c: Rgb)
    requires c.Valid() && c.Bottom() < c.Top()
    ensures var e := FromSteps(ToSteps(c)); Kept(c, c.r, e.r) && Kept(c, c.g, e.g) && Kept(c, c.b, e.b)
    ensures var d := ToSteps(c); 0 <= d.hue <= 360 && 0 <= d.saturation <= 1000 && 0 <= d.value <= 1000
  {
    hide Drop, Decoded, RedWeight, GreenWeight, BlueWeight, Hue, StoredHue, ToSteps, FromSteps, StoredFor, Near;
    StepsStore(c);
    var d := ToSteps(c);
    var x := StoredHue(d.hue);
    HueWeights(c);
    WeightRange(x);
    WeightRounding(Hue(c));
    var s, v := d.saturation as real / 1000.0, d.value as real / 1000.0;
    assert Kept(c, c.r, Decoded(s, v, RedWeight(x))) by { OneChannel(c, c.r, s, v, RedWeight(x)); }
    assert Kept(c, c.g, Decoded(s, v, GreenWeight(x))) by { OneChannel(c, c.g, s, v, GreenWeight(x)); }
    assert Kept(c, c.b, Decoded(s, v, BlueWeight(x))) by { OneChannel(c, c.b, s, v, BlueWeight(x)); }
    FromStepsWeights(d);
  }

  /** Storing a colour as whole steps and reading it back keeps the largest and
      the smallest channel value exactly, moves no channel by more than 2, and
      returns every grey exactly. */
  lemma RoundTrip(c: Rgb)
    requires c.Valid()
    ensures var e := FromSteps(ToSteps(c));
            && e.Valid() && e.Top() == c.Top() && e.Bottom() == c.Bottom()
            && -2 <= e.r - c.r <= 2 && -2 <= e.g - c.g <= 2 && -2 <= e.b - c.b <= 2
            && (c.Top() == c.Bottom() ==> e == c)
    ensures var d := ToSteps(c); 0 <= d.hue <= 360 && 0 <= d.saturation <= 1000 && 0 <= d.value <= 1000
  {
    if c.Bottom() == c.Top() {
      GreyRoundTrip(c);
    } else {
      ColourRoundTrip(c);
    }
  }

  /** Where the wheel begins and which way it turns: red, green and blue are
      stored at 0, 120 and 240 of 360 steps, and black and white without colour. */
  lemma PrimarySteps()
    ensures ToSteps(Rgb(255, 0, 0)) == Steps(0, 1000, 1000)
    ensures ToSteps(Rgb(0, 255, 0)) == Steps(120, 1000, 1000)
    ensures ToSteps(Rgb(0, 0, 255)) == Steps(240, 1000, 1000)
    ensures ToSteps(Rgb(0, 0, 0)) == Steps(0, 0, 0)
    ensures ToSteps(Rgb(255, 255, 255)) == Steps(0, 0, 1000)
  {
    RedHsv();
    GreenHsv();
    BlueHsv();
    GreyHsv();
    hide RgbToHsv;
    RoundNear(0.0, 0);
    RoundNear(1000.0, 1000);
    RoundNear(120.0, 120);
    RoundNear(240.0, 240);
    hide Round;
  }

  lemma RedHsv()
    ensures RgbToHsv(1.0, 0.0, 0.0) == (0.0, 1.0, 1.0)
  {}

  lemma GreenHsv()
    ensures RgbToHsv(0.0, 1.0, 0.0) == (2.0 / 6.0, 1.0, 1.0)
  {
    assert RawHue(0.0, 1.0, 0.0) == 2.0;
  }

  lemma BlueHsv()
    ensures RgbToHsv(0.0, 0.0, 1.0) == (4.0 / 6.0, 1.0, 1.0)
  {
    assert RawHue(0.0, 0.0, 1.0) == 4.0;
  }

  lemma GreyHsv()
    ensures RgbToHsv(0.0, 0.0, 0.0) == (0.0, 0.0, 0.0) && RgbToHsv(1.0, 1.0, 1.0) == (0.0, 0.0, 1.0)
  {}

  /** The bound of 2 is reached: almost-red 255,2,0 is stored with hue 0. */
  lemma RoundTripBoundIsTight()
    ensures FromSteps(ToSteps(Rgb(255, 2, 0))) == Rgb(255, 0, 0)
  {
    var c := Rgb(255, 2, 0);
    assert c.Top() == 255 && c.Bottom() == 0;
    assert Drop(c, 0) == 1.0 by { DropRange(c, 0); }
    assert Drop(c, 2) == 253.0 / 255.0;
    assert Hue(c) * 60.0 == 120.0 / 255.0;
    StepsStore(c);
    RoundNear(Hue(c) * 60.0, 0);
    assert ToSteps(c).hue == 0;
    StoredHueSteps(0);
    FromStepsWeights(ToSteps(c));
    ColourRoundTrip(c);
    EqualWeights(c);
  }

  /** At stored hue 0 the middle channel is decoded exactly like the lowest. */
  lemma EqualWeights(c: Rgb)
    requires c.Valid() && ToSteps(c).hue == 0
    ensures FromSteps(ToSteps(c)).g == FromSteps(ToSteps(c)).b
  {
    StoredHueSteps(0);
    FromStepsWeights(ToSteps(c));
    assert GreenWeight(0.0) == BlueWeight(0.0) == 1.0;
  }
}
