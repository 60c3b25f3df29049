/** The common base step of two venues and the largest base quantity both accept. */
module QuantitySteps {
  import opened Numbers

  /** An exact decimal: coefficient / 10^scale. */
  datatype Decimal = Decimal(coefficient: int, scale: nat)

  function Value(d: Decimal): real {
    d.coefficient as real / PowerOfTen(d.scale) as real
  }

  function Times(a: Decimal, b: Decimal): Decimal {
    Decimal(a.coefficient * b.coefficient, a.scale + b.scale)
  }

  datatype Instrument = Instrument(
    quantityStep: Option<Decimal>,
    contractMultiplier: Decimal,
    minNotional: Option<real>)

  /** The instrument record admits only positive contract multipliers. */
  predicate ValidInstrument(i: Instrument) {
    i.contractMultiplier.coefficient > 0
  }

  function Multiplier(i: Instrument): real {
    Value(i.contractMultiplier)
  }

  // ---------------------------------------------------------------- greatest common divisor

  function Gcd(a: nat, b: nat): (g: nat)
    requires a > 0 || b > 0
    ensures g > 0
    decreases b
  {
    if b == 0 then a else Gcd(b, a % b)
  }

  ghost predicate Divides(d: int, n: int) {
    exists k: int :: n == d * k
  }

  /** The divisor divides both numbers, and is itself a whole combination of them. */
  lemma {:induction false} GcdCombination(a: nat, b: nat) returns (x: int, y: int, a': int, b': int)
    requires a > 0 || b > 0
    ensures a * x + b * y == Gcd(a, b)
    ensures a == Gcd(a, b) * a' && b == Gcd(a, b) * b'
    decreases b
  {
    if b == 0 {
      x, y, a', b' := 1, 0, 1, 0;
    } else {
      var r, q := a % b, a / b;
      var g := Gcd(b, r);
      assert a == b * q + r;
      var u, v, c, d := GcdCombination(b, r);
      x, y, a', b' := v, u - q * v, c * q + d, c;
      hide Gcd;
      EuclidStep(b, q, r, u, v, g, c, d);
    }
  }

  lemma EuclidStep(b: int, q: int, r: int, u: int, v: int, g: int, c: int, d: int)
    requires b * u + r * v == g && b == g * c && r == g * d
    ensures (b * q + r) * v + b * (u - q * v) == g
    ensures b * q + r == g * (c * q + d)
  {
    assert (b * q + r) * v + b * (u - q * v) == b * u + r * v;
    assert (g * c) * q + g * d == g * (c * q + d);
  }

  /** The product over the divisor, computed with floor division as the routine does. */
  function LeastCommonMultiple(a: nat, b: nat): int
    requires a > 0 && b > 0
  {
    a * b / Gcd(a, b)
  }

  lemma ProductMonotone(g: int, m: int, n: int)
    requires g > 0 && m <= n
    ensures g * m <= g * n
  {
  }

  lemma ExactQuotient(p: int, g: int, k: int)
    requires g > 0 && p == g * k
    ensures p / g == k
  {
    var m := p / g;
    assert p == g * m + p % g;
    if k > m {
      ProductMonotone(g, m + 1, k);
    } else {
      ProductMonotone(g, k, m);
      if k < m {
        ProductMonotone(g, k + 1, m);
      }
    }
  }

  /** A common multiple of both numbers, dividing every other common multiple. */
  lemma LeastCommonMultipleMeaning(a: nat, b: nat) returns (i: int, j: int)
    requires a > 0 && b > 0
    ensures LeastCommonMultiple(a, b) > 0
    ensures LeastCommonMultiple(a, b) == a * i == b * j
    ensures forall m: int :: Divides(a, m) && Divides(b, m) ==> Divides(LeastCommonMultiple(a, b), m)
  {
    var g := Gcd(a, b);
    var x, y, a', b' := GcdCombination(a, b);
    var lcm := a * b';
    assert a * b == g * lcm by {
      assert a * (g * b') == g * (a * b');
    }
    ExactQuotient(a * b, g, lcm);
    assert lcm == b * a' by {
      assert a * b' == (g * a') * b' && b * a' == (g * b') * a';
    }
    i, j := b', a';
    PositiveFactor(a, b);
    if lcm <= 0 {
      NonpositiveProduct(g, lcm);
      assert false;
    }
    forall m: int | Divides(a, m) && Divides(b, m)
      ensures Divides(LeastCommonMultiple(a, b), m)
    {
      var k: int :| m == a * k;
      var l: int :| m == b * l;
      CommonMultiple(a, b, g, x, y, lcm, m, k, l);
      assert m == lcm * (l * x + k * y);
    }
  }

  lemma PositiveFactor(a: int, b: int)
    requires a > 0 && b > 0
    ensures a * b > 0
  {
  }

  lemma NonpositiveProduct(g: int, n: int)
    requires g > 0 && n <= 0
    ensures g * n <= 0
  {
  }

  lemma CommonMultiple(a: int, b: int, g: int, x: int, y: int, lcm: int, m: int, k: int, l: int)
    requires g > 0 && a * x + b * y == g && a * b == g * lcm
    requires m == a * k && m == b * l
    ensures m == lcm * (l * x + k * y)
  {
    var t := l * x + k * y;
    assert m * g == (m * x) * a + (m * y) * b by {
      assert m * (a * x + b * y) == (m * x) * a + (m * y) * b;
    }
    assert (m * x) * a == (a * b) * (l * x) by { assert ((b * l) * x) * a == (a * b) * (l * x); }
    assert (m * y) * b == (a * b) * (k * y) by { assert ((a * k) * y) * b == (a * b) * (k * y); }
    assert m * g == (g * lcm) * t by {
      assert (a * b) * (l * x) + (a * b) * (k * y) == (a * b) * t;
    }
    assert m * g == (lcm * t) * g by { assert (g * lcm) * t == (lcm * t) * g; }
    CancelFactor(m, lcm * t, g);
  }

  lemma CancelFactor(m: int, n: int, g: int)
    requires g > 0 && m * g == n * g
    ensures m == n
  {
    if m < n {
      PositiveFactor(n - m, g);
      assert false;
    }
    if n < m {
      PositiveFactor(m - n, g);
      assert false;
    }
  }

  // ---------------------------------------------------------------- steps

  /** The whole number step * 10^scale for a scale at least the step's own. */
  function Scaled(step: Decimal, scale: nat): int
    requires step.scale <= scale
  {
    step.coefficient * PowerOfTen(scale - step.scale)
  }

  function LargerScale(a: Decimal, b: Decimal): nat {
    if a.scale < b.scale then b.scale else a.scale
  }

  /** The least base quantity that is a whole number of both venues' quantity steps. */
  function CommonBaseStep(lighter: Instrument, dydx: Instrument): Option<real> {
    if lighter.quantityStep.None? || dydx.quantityStep.None? then None
    else
      CommonStepOf(Times(lighter.quantityStep.value, lighter.contractMultiplier),
                   Times(dydx.quantityStep.value, dydx.contractMultiplier))
  }

  function CommonStepOf(s: Decimal, t: Decimal): Option<real> {
    if s.coefficient <= 0 || t.coefficient <= 0 then None
    else
      var scale := LargerScale(s, t);
      var a, b := Scaled(s, scale), Scaled(t, scale);
      ScaledPositive(s, scale);
      ScaledPositive(t, scale);
      Some(LeastCommonMultiple(a, b) as real / PowerOfTen(scale) as real)
  }

  lemma ScaledPositive(s: Decimal, scale: nat)
    requires s.scale <= scale && s.coefficient > 0
    ensures Scaled(s, scale) > 0
  {
    PositiveFactor(s.coefficient, PowerOfTen(scale - s.scale));
  }

  /** The step as a base quantity: what one venue accepts whole multiples of. */
  function VenueStep(i: Instrument): Option<real> {
    if i.quantityStep.None? then None
    else Some(Value(Times(i.quantityStep.value, i.contractMultiplier)))
  }

  /** The venue accepts multiples of its own quantity step times its contract multiplier. */
  lemma VenueStepIsProduct(i: Instrument)
    requires i.quantityStep.Some?
    ensures VenueStep(i).Some? && VenueStep(i).value == Value(i.quantityStep.value) * Multiplier(i)
  {
    hide Value, Times;
    TimesIsProduct(i.quantityStep.value, i.contractMultiplier);
  }

  lemma TimesIsProduct(a: Decimal, b: Decimal)
    ensures Value(Times(a, b)) == Value(a) * Value(b)
  {
    hide Value, PowerOfTen;
    PowerSplits(a.scale, b.scale);
    ValueTimesUnit(a);
    ValueTimesUnit(b);
    ValueTimesUnit(Times(a, b));
    ProductOfUnits(Value(a), a.coefficient, PowerOfTen(a.scale), Value(b), b.coefficient, PowerOfTen(b.scale),
                   Value(Times(a, b)));
  }

  lemma ProductOfUnits(v: real, c: int, unit: int, v': real, c': int, unit': int, w: real)
    requires unit > 0 && unit' > 0
    requires v * unit as real == c as real && v' * unit' as real == c' as real
    requires w * (unit * unit') as real == (c * c') as real
    ensures w == v * v'
  {
    PositiveFactor(unit, unit');
    assert (unit * unit') as real == unit as real * unit' as real && (c * c') as real == c as real * c' as real;
    assert (v * v') * (unit as real * unit' as real) == (v * unit as real) * (v' * unit' as real);
    assert (w - v * v') * (unit * unit') as real == 0.0;
    ZeroFactor(w - v * v', (unit * unit') as real);
  }

  function Steps(k: int, step: real): real {
    k as real * step
  }

  ghost predicate WholeMultiple(q: real, step: real) {
    exists k: int :: q == Steps(k, step)
  }

  lemma {:induction false} PowerSplits(m: nat, n: nat)
    ensures PowerOfTen(m + n) == PowerOfTen(m) * PowerOfTen(n)
    decreases m
  {
    if m > 0 {
      PowerSplits(m - 1, n);
      assert PowerOfTen(m + n) == 10 * PowerOfTen(m - 1 + n);
      assert 10 * (PowerOfTen(m - 1) * PowerOfTen(n)) == (10 * PowerOfTen(m - 1)) * PowerOfTen(n);
    }
  }

  lemma ValueTimesUnit(s: Decimal)
    ensures Value(s) * PowerOfTen(s.scale) as real == s.coefficient as real
  {
    QuotientTimes(s.coefficient as real, PowerOfTen(s.scale) as real);
  }

  /** Bringing a decimal to a larger scale keeps its value. */
  lemma ScaledValue(s: Decimal, scale: nat)
    requires s.scale <= scale
    ensures Value(s) * PowerOfTen(scale) as real == Scaled(s, scale) as real
  {
    hide PowerOfTen, Value;
    PowerSplits(s.scale, scale - s.scale);
    ValueTimesUnit(s);
    ScaleProduct(Value(s), s.coefficient, PowerOfTen(s.scale), PowerOfTen(scale - s.scale), PowerOfTen(scale));
  }

  lemma QuotientTimes(c: real, d: real)
    requires d > 0.0
    ensures (c / d) * d == c
  {
  }

  lemma ScaleProduct(v: real, c: int, low: int, high: int, total: int)
    requires v * low as real == c as real && total == low * high
    ensures v * total as real == (c * high) as real
  {
    assert total as real == low as real * high as real;
    assert (c * high) as real == c as real * high as real;
    assert v * (low as real * high as real) == (v * low as real) * high as real;
  }

  /** k steps, brought to the common scale, are k times the step's whole number. */
  lemma MultipleScaled(q: real, k: int, step: real, unit: real, whole: int)
    requires q == Steps(k, step) && step * unit == whole as real
    ensures q * unit == (whole * k) as real
  {
    assert (k as real * step) * unit == k as real * (step * unit);
    assert (whole * k) as real == whole as real * k as real;
  }

  /** The converse: a whole multiple at the common scale is a whole multiple of the step. */
  lemma MultipleUnscaled(q: real, k: int, step: real, unit: real, whole: int)
    requires unit > 0.0 && q * unit == (whole * k) as real && step * unit == whole as real
    ensures WholeMultiple(q, step)
  {
    assert (whole * k) as real == whole as real * k as real;
    assert (k as real * step) * unit == k as real * (step * unit);
    assert (q - Steps(k, step)) * unit == 0.0;
    ZeroFactor(q - Steps(k, step), unit);
  }

  lemma ZeroFactor(x: real, unit: real)
    requires unit > 0.0 && x * unit == 0.0
    ensures x == 0.0
  {
    if x > 0.0 {
      ProductPositive(x, unit);
      assert false;
    }
    if x < 0.0 {
      ProductPositive(-x, unit);
      assert false;
    }
  }

  /** What makes `step` the common step of two venue steps. */
  ghost predicate IsCommonStep(step: real, s: real, t: real) {
    && step > 0.0
    && WholeMultiple(step, s) && WholeMultiple(step, t)
    && forall q: real :: WholeMultiple(q, s) && WholeMultiple(q, t) ==> WholeMultiple(q, step)
  }

  lemma ScaledStep(a: nat, b: nat, s: real, t: real, step: real, unit: real)
    requires a > 0 && b > 0 && unit > 0.0
    requires s * unit == a as real && t * unit == b as real
    requires step == LeastCommonMultiple(a, b) as real / unit
    ensures IsCommonStep(step, s, t)
  {
    var lcm := LeastCommonMultiple(a, b);
    var i, j := LeastCommonMultipleMeaning(a, b);
    QuotientTimes(lcm as real, unit);
    if step <= 0.0 {
      ScaleLe(step, 0.0, unit);
      assert false;
    }
    hide LeastCommonMultiple;
    MultipleUnscaled(step, i, s, unit, a);
    MultipleUnscaled(step, j, t, unit, b);
    forall q: real | WholeMultiple(q, s) && WholeMultiple(q, t)
      ensures WholeMultiple(q, step)
    {
      var k: int :| q == Steps(k, s);
      var l: int :| q == Steps(l, t);
      MultipleScaled(q, k, s, unit, a);
      MultipleScaled(q, l, t, unit, b);
      assert a * k == b * l && Divides(a, a * k) && Divides(b, b * l);
      var m: int :| a * k == lcm * m;
      MultipleUnscaled(q, m, step, unit, lcm);
    }
  }

  /**
   * The common step exists exactly when both venue steps are positive, and it is then the
   * positive common multiple that divides every common multiple.
   */
  lemma CommonStepMeaning(lighter: Instrument, dydx: Instrument)
    requires ValidInstrument(lighter) && ValidInstrument(dydx)
    ensures CommonBaseStep(lighter, dydx).Some? <==>
      && VenueStep(lighter).Some? && VenueStep(lighter).value > 0.0
      && VenueStep(dydx).Some? && VenueStep(dydx).value > 0.0
    ensures CommonBaseStep(lighter, dydx).Some? ==>
      IsCommonStep(CommonBaseStep(lighter, dydx).value, VenueStep(lighter).value, VenueStep(dydx).value)
  {
    if lighter.quantityStep.Some? && dydx.quantityStep.Some? {
      CommonStepOfMeaning(Times(lighter.quantityStep.value, lighter.contractMultiplier),
                          Times(dydx.quantityStep.value, dydx.contractMultiplier));
    }
    hide CommonStepOf, Value, IsCommonStep;
  }

  lemma CommonStepOfMeaning(s: Decimal, t: Decimal)
    ensures CommonStepOf(s, t).Some? <==> Value(s) > 0.0 && Value(t) > 0.0
    ensures CommonStepOf(s, t).Some? ==> IsCommonStep(CommonStepOf(s, t).value, Value(s), Value(t))
  {
    hide Value, PowerOfTen, IsCommonStep, Scaled, LeastCommonMultiple;
    ValueSign(s);
    ValueSign(t);
    if s.coefficient > 0 && t.coefficient > 0 {
      var scale := LargerScale(s, t);
      ScaledPositive(s, scale);
      ScaledPositive(t, scale);
      ScaledValue(s, scale);
      ScaledValue(t, scale);
      var step := CommonStepOf(s, t).value;
      assert step == LeastCommonMultiple(Scaled(s, scale), Scaled(t, scale)) as real / PowerOfTen(scale) as real;
      hide CommonStepOf;
      ScaledStep(Scaled(s, scale), Scaled(t, scale), Value(s), Value(t), step, PowerOfTen(scale) as real);
    }
  }

  lemma ValueSign(d: Decimal)
    ensures Value(d) > 0.0 <==> d.coefficient > 0
  {
    var unit := PowerOfTen(d.scale) as real;
    var v := Value(d);
    ValueTimesUnit(d);
    hide Value, PowerOfTen;
    if v > 0.0 {
      ProductPositive(v, unit);
    } else {
      ScaleLe(v, 0.0, unit);
    }
  }

  /** Among positive common multiples the common step is the least. */
  lemma CommonStepLeast(step: real, s: real, t: real, q: real)
    requires IsCommonStep(step, s, t) && q > 0.0 && WholeMultiple(q, s) && WholeMultiple(q, t)
    ensures step <= q
  {
    var k: int :| q == Steps(k, step);
    if k <= 0 {
      ScaleLe(k as real, 0.0, step);
      assert false;
    }
    ScaleLe(1.0, k as real, step);
  }

  // ---------------------------------------------------------------- compatible quantity

  function CompatibleBaseQuantity(lighter: Instrument, dydx: Instrument, maximum: real): Option<real>
    requires ValidInstrument(lighter) && ValidInstrument(dydx)
  {
    CommonStepMeaning(lighter, dydx);
    if maximum <= 0.0 then None
    else match CommonBaseStep(lighter, dydx)
      case None => None
      case Some(step) =>
        var quantity := Steps((maximum / step).Floor, step);
        if quantity > 0.0 then Some(quantity) else None
  }

  /** Both venues have a positive step and accept q. */
  ghost predicate Accepted(lighter: Instrument, dydx: Instrument, q: real) {
    && VenueStep(lighter).Some? && VenueStep(lighter).value > 0.0
    && VenueStep(dydx).Some? && VenueStep(dydx).value > 0.0
    && WholeMultiple(q, VenueStep(lighter).value) && WholeMultiple(q, VenueStep(dydx).value)
  }

  lemma FloorBounds(maximum: real, step: real, n: int)
    requires step > 0.0 && n == (maximum / step).Floor
    ensures Steps(n, step) <= maximum < Steps(n + 1, step)
  {
    QuotientTimes(maximum, step);
    var x := maximum / step;
    ScaleLe(n as real, x, step);
    ProductPositive((n + 1) as real - x, step);
    assert ((n + 1) as real - x) * step == Steps(n + 1, step) - maximum;
  }

  lemma MultipleOfMultiple(n: int, k: int, step: real, s: real)
    requires step == Steps(k, s)
    ensures WholeMultiple(Steps(n, step), s)
  {
    assert (n * k) as real == n as real * k as real;
    assert Steps(n, step) == Steps(n * k, s);
  }

  /** A quantity both venues accept is a whole number of common steps, and conversely. */
  lemma AcceptedIffWholeSteps(lighter: Instrument, dydx: Instrument, q: real)
    requires ValidInstrument(lighter) && ValidInstrument(dydx)
    requires CommonBaseStep(lighter, dydx).Some?
    ensures Accepted(lighter, dydx, q) <==> WholeMultiple(q, CommonBaseStep(lighter, dydx).value)
  {
    CommonStepMeaning(lighter, dydx);
    var step := CommonBaseStep(lighter, dydx).value;
    var s, t := VenueStep(lighter).value, VenueStep(dydx).value;
    hide CommonBaseStep, VenueStep, Steps;
    if WholeMultiple(q, step) {
      var n: int :| q == Steps(n, step);
      var k: int :| step == Steps(k, s);
      var l: int :| step == Steps(l, t);
      MultipleOfMultiple(n, k, step, s);
      MultipleOfMultiple(n, l, step, t);
    }
  }

  /** The result is the greatest accepted quantity in (0, maximum]; None means there is none. */
  lemma CompatibleIsGreatest(lighter: Instrument, dydx: Instrument, maximum: real)
    requires ValidInstrument(lighter) && ValidInstrument(dydx)
    ensures match CompatibleBaseQuantity(lighter, dydx, maximum)
      case Some(q) =>
        && 0.0 < q <= maximum && Accepted(lighter, dydx, q)
        && forall r :: r <= maximum && Accepted(lighter, dydx, r) ==> r <= q
      case None => !exists r :: 0.0 < r <= maximum && Accepted(lighter, dydx, r)
  {
    CommonStepMeaning(lighter, dydx);
    if CommonBaseStep(lighter, dydx).Some? && maximum > 0.0 {
      var step := CommonBaseStep(lighter, dydx).value;
      var n := (maximum / step).Floor;
      assert CompatibleBaseQuantity(lighter, dydx, maximum)
          == if Steps(n, step) > 0.0 then Some(Steps(n, step)) else None;
      hide CommonBaseStep, VenueStep, Steps, CompatibleBaseQuantity, Accepted;
      FloorBounds(maximum, step, n);
      assert WholeMultiple(Steps(n, step), step);
      AcceptedIffWholeSteps(lighter, dydx, Steps(n, step));
      forall r | r <= maximum && Accepted(lighter, dydx, r) ensures r <= Steps(n, step) {
        AcceptedIffWholeSteps(lighter, dydx, r);
        var k: int :| r == Steps(k, step);
        StepsBelow(k, n, step, maximum);
      }
    }
  }

  lemma StepsBelow(k: int, n: int, step: real, maximum: real)
    requires step > 0.0 && Steps(k, step) <= maximum < Steps(n + 1, step)
    ensures Steps(k, step) <= Steps(n, step)
  {
    if k >= n + 1 {
      ScaleLe((n + 1) as real, k as real, step);
      assert false;
    }
    ScaleLe(k as real, n as real, step);
  }
}
