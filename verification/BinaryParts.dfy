/** Binary decomposition of positive numbers, and the share computed from it without overflow. Arithmetic is exact;
    the layout of a double is the binary64 format of section 3.4 of IEEE 754-2019. */
module BinaryParts {

  type Positive = x: real | x > 0.0 witness 1.0

  datatype Parts = Parts(mantissa: real, exponent: int)

  // ---- powers of two

  /** x times two to the n, by doubling or halving. */
  function Scaled(x: real, n: int): (r: real)
    ensures x > 0.0 ==> r > 0.0
    decreases if n < 0 then -n else n
  {
    if n == 0 then x else if n > 0 then Scaled(2.0 * x, n - 1) else Scaled(0.5 * x, n + 1)
  }

  function PowerOfTwo(n: int): (r: real)
    ensures r > 0.0
  {
    Scaled(1.0, n)
  }

  lemma {:induction false} ScaledTwice(x: real, n: int)
    ensures Scaled(2.0 * x, n) == 2.0 * Scaled(x, n) == Scaled(x, n + 1)
    decreases if n < 0 then -n else n
  {
    if n > 0 {
      ScaledTwice(2.0 * x, n - 1);
    } else if n < 0 {
      assert Scaled(2.0 * x, n) == Scaled(x, n + 1);
      ScaledTwice(0.5 * x, n + 1);
    }
  }

  lemma {:induction false} ScaledSum(x: real, a: int, b: int)
    ensures Scaled(Scaled(x, a), b) == Scaled(x, a + b)
    decreases if b < 0 then -b else b
  {
    if b > 0 {
      ScaledTwice(x, a);
      ScaledSum(x, a + 1, b - 1);
      assert a + 1 + (b - 1) == a + b;
    } else if b < 0 {
      ScaledTwice(x, a - 1);
      ScaledSum(x, a - 1, b + 1);
      assert a - 1 + (b + 1) == a + b;
    }
  }

  // Products of recursive calls are costly to reason about, so the lemmas below name every factor and product.

  /** Scaling commutes with multiplication. */
  lemma {:induction false} ScaledTimes(x: real, k: real, product: real, n: int, scaled: real)
    requires product == x * k && scaled == Scaled(x, n)
    ensures Scaled(product, n) == scaled * k
    decreases if n < 0 then -n else n
  {
    if n > 0 {
      ScaledTimes(2.0 * x, k, 2.0 * product, n - 1, scaled);
    } else if n < 0 {
      ScaledTimes(0.5 * x, k, 0.5 * product, n + 1, scaled);
    }
  }

  lemma ScaledIsProduct(x: real, n: int, power: real)
    requires power == PowerOfTwo(n)
    ensures Scaled(x, n) == power * x
  {
    ScaledTimes(1.0, x, x, n, power);
  }

  /** The scalings of two numbers multiply to the scaling of their product by the sum. */
  lemma ScaledProduct(x: real, a: int, u: real, y: real, b: int, v: real, product: real)
    requires u == Scaled(x, a) && v == Scaled(y, b) && product == x * y
    ensures u * v == Scaled(product, a + b)
  {
    ScaledTimes(x, v, x * v, a, u);
    ScaledTimes(y, x, product, b, v);
    ScaledSum(product, b, a);
  }

  lemma {:induction false} PowerGrows(a: int, b: int)
    requires a <= b
    ensures PowerOfTwo(a) <= PowerOfTwo(b)
    decreases b - a
  {
    if a < b {
      ScaledTwice(1.0, b - 1);
      PowerGrows(a, b - 1);
    }
  }

  function NatPower(n: nat): (r: nat)
    ensures r > 0
  {
    if n == 0 then 1 else 2 * NatPower(n - 1)
  }

  lemma {:induction false} NatPowerSum(a: nat, b: nat)
    ensures NatPower(a + b) == NatPower(a) * NatPower(b)
  {
    if b > 0 { NatPowerSum(a, b - 1); }
  }

  lemma {:induction false} NatPowerGrows(a: nat, b: nat)
    requires a <= b
    ensures NatPower(a) <= NatPower(b)
    decreases b - a
  {
    if a < b { NatPowerGrows(a, b - 1); }
  }

  lemma {:induction false} NatPowerIsPower(n: nat)
    ensures NatPower(n) as real == PowerOfTwo(n)
  {
    if n > 0 {
      NatPowerIsPower(n - 1);
      ScaledTwice(1.0, n - 1);
    }
  }

  // ---- the decomposition

  ghost predicate Decomposes(p: Parts, x: real) {
    1.0 <= p.mantissa < 2.0 && x == Scaled(p.mantissa, p.exponent)
  }

  /** A larger number has a larger exponent or the same one, so the decomposition is unique. */
  lemma ExponentsFollowSize(p: Parts, x: real, q: Parts, y: real)
    requires Decomposes(p, x) && Decomposes(q, y) && x <= y
    ensures p.exponent <= q.exponent
  {
    if p.exponent > q.exponent {
      ScaledTwice(1.0, q.exponent);
      PowerGrows(q.exponent + 1, p.exponent);
      var a, b := PowerOfTwo(p.exponent), PowerOfTwo(q.exponent);
      ScaledIsProduct(p.mantissa, p.exponent, a);
      ScaledIsProduct(q.mantissa, q.exponent, b);
      Separated(p.mantissa, a, q.mantissa, b);
    }
  }

  lemma Separated(m: real, a: real, n: real, b: real)
    requires 1.0 <= m && n < 2.0 && 0.0 < b && a >= 2.0 * b
    ensures n * b < m * a
  {
    Scale(m, 1.0, a);
    ScaleStrictly(n, 2.0, b);
  }

  lemma Scale(big: real, small: real, factor: real)
    requires big >= small && factor > 0.0
    ensures big * factor >= small * factor
  {}

  lemma ScaleStrictly(small: real, big: real, factor: real)
    requires small < big && factor > 0.0
    ensures small * factor < big * factor
  {}

  lemma PartsAreUnique(p: Parts, q: Parts, x: real)
    requires Decomposes(p, x) && Decomposes(q, x)
    ensures p == q
  {
    ExponentsFollowSize(p, x, q, x);
    ExponentsFollowSize(q, x, p, x);
    var b := PowerOfTwo(p.exponent);
    ScaledIsProduct(p.mantissa, p.exponent, b);
    ScaledIsProduct(q.mantissa, p.exponent, b);
    if p.mantissa < q.mantissa {
      ScaleStrictly(p.mantissa, q.mantissa, b);
    } else if q.mantissa < p.mantissa {
      ScaleStrictly(q.mantissa, p.mantissa, b);
    }
  }

  lemma NextExponent(m: real, e: int, x: real)
    ensures Decomposes(Parts(m, e), x) <==> Decomposes(Parts(m, e + 1), 2.0 * x)
  {
    ScaledTwice(m, e);
  }

  /** The decomposition of any positive number. */
  function PartsOf(x: Positive): (p: Parts)
    ensures Decomposes(p, x)
    decreases x >= 1.0, if x >= 1.0 then x.Floor else (1.0 / x).Floor
  {
    if x >= 2.0 then
      HalfIsSmaller(x);
      var p := PartsOf(x / 2.0);
      NextExponent(p.mantissa, p.exponent, x / 2.0);
      p.(exponent := p.exponent + 1)
    else if x >= 1.0 then
      Parts(x, 0)
    else if x >= 0.5 then
      NextExponent(2.0 * x, -1, x);
      Parts(2.0 * x, -1)
    else
      DoubleIsCloser(x);
      var p := PartsOf(2.0 * x);
      NextExponent(p.mantissa, p.exponent - 1, x);
      p.(exponent := p.exponent - 1)
  }

  lemma HalfIsSmaller(x: real)
    requires x >= 2.0
    ensures (x / 2.0).Floor < x.Floor
  {}

  lemma DoubleIsCloser(x: real)
    requires 0.0 < x < 0.5
    ensures (1.0 / (2.0 * x)).Floor < (1.0 / x).Floor
  {}

  // ---- doubles

  const FRACTION_LIMIT := 0x10_0000_0000_0000  // 2 to the 52

  /** A positive finite double: biased exponent and 52-bit fraction; exponent zero means subnormal. */
  datatype Bits = Bits(biased: nat, fraction: nat)

  type Double = d: Bits | d.biased <= 2046 && d.fraction < FRACTION_LIMIT && (d.biased > 0 || d.fraction > 0)
    witness Bits(1, 0)

  function FractionOf(fraction: nat): (f: real)
    requires fraction < FRACTION_LIMIT
    ensures 0.0 <= f < 1.0
    ensures fraction > 0 ==> f > 0.0
  {
    fraction as real / FRACTION_LIMIT as real
  }

  function ValueOf(d: Double): Positive {
    if d.biased == 0 then Scaled(FractionOf(d.fraction), d.biased - 1022)
    else Scaled(1.0 + FractionOf(d.fraction), d.biased - 1023)
  }

  const MIN_POSITIVE: Double := Bits(1, 0)

  lemma {:induction false} ScaledFollows(x: real, y: real, n: int)
    requires x < y
    ensures Scaled(x, n) < Scaled(y, n)
    decreases if n < 0 then -n else n
  {
    if n > 0 {
      ScaledFollows(2.0 * x, 2.0 * y, n - 1);
    } else if n < 0 {
      ScaledFollows(0.5 * x, 0.5 * y, n + 1);
    }
  }

  lemma NormalDecomposes(d: Double)
    requires d.biased > 0
    ensures Decomposes(Parts(1.0 + FractionOf(d.fraction), d.biased - 1023), ValueOf(d))
  {}

  lemma NormalIsNotBelow(d: Double, least: Double)
    requires d.biased > 0 && least == MIN_POSITIVE
    ensures ValueOf(d) >= ValueOf(least)
  {
    if ValueOf(d) < ValueOf(least) {
      var f, g := FractionOf(d.fraction), FractionOf(least.fraction);
      NormalDecomposes(d);
      NormalDecomposes(least);
      ExponentsFollowSize(Parts(1.0 + f, d.biased - 1023), ValueOf(d),
                          Parts(1.0 + g, least.biased - 1023), ValueOf(least));
      if g < f {
        ScaledFollows(1.0 + g, 1.0 + f, least.biased - 1023);
      }
    }
  }

  /** Comparing with the least normal double tells the subnormal ones. */
  lemma SubnormalIsSmall(d: Double, least: Double)
    requires least == MIN_POSITIVE
    ensures ValueOf(d) < ValueOf(least) <==> d.biased == 0
  {
    if d.biased == 0 {
      ScaledFollows(FractionOf(d.fraction), 1.0 + FractionOf(least.fraction), least.biased - 1023);
    } else {
      NormalIsNotBelow(d, least);
    }
  }

  /** A positive finite double is determined by its value. */
  lemma BitsAreUnique(d: Double, e: Double)
    requires ValueOf(d) == ValueOf(e)
    ensures d == e
  {
    SubnormalIsSmall(d, MIN_POSITIVE);
    SubnormalIsSmall(e, MIN_POSITIVE);
    var f, g := FractionOf(d.fraction), FractionOf(e.fraction);
    if d.biased > 0 {
      NormalDecomposes(d);
      NormalDecomposes(e);
      PartsAreUnique(Parts(1.0 + f, d.biased - 1023), Parts(1.0 + g, e.biased - 1023), ValueOf(d));
    } else if f < g {
      ScaledFollows(f, g, d.biased - 1022);
    } else if g < f {
      ScaledFollows(g, f, d.biased - 1022);
    }
  }

  /** The place of the highest set bit. */
  function HighestBit(n: nat): (h: nat)
    requires n > 0
    ensures NatPower(h) <= n < 2 * NatPower(h)
  {
    if n == 1 then 0 else 1 + HighestBit(n / 2)
  }

  lemma Limit52()
    ensures NatPower(52) == FRACTION_LIMIT
  {
    assert NatPower(13) == 0x2000;
    NatPowerSum(13, 13);
    NatPowerSum(26, 26);
  }

  /** The bits of a subnormal times 2 to the 52: the fraction is shifted until its highest bit drops out. */
  function Normalized(d: Double): (r: Double)
    requires d.biased == 0
  {
    var h := HighestBit(d.fraction);
    HighestBitBound(d.fraction);
    ShiftBound(d.fraction, h);
    Bits(h + 1, (d.fraction - NatPower(h)) * NatPower(52 - h))
  }

  lemma HighestBitBound(n: nat)
    requires 0 < n < FRACTION_LIMIT
    ensures HighestBit(n) < 52
  {
    Limit52();
    if HighestBit(n) >= 52 {
      NatPowerGrows(52, HighestBit(n));
    }
  }

  lemma ShiftBound(n: nat, h: nat)
    requires h < 52 && NatPower(h) <= n < 2 * NatPower(h)
    ensures NatPower(h) * NatPower(52 - h) == FRACTION_LIMIT
    ensures 0 <= (n - NatPower(h)) * NatPower(52 - h) < FRACTION_LIMIT
  {
    Limit52();
    NatPowerSum(h, 52 - h);
    SmallerProduct(n - NatPower(h), NatPower(h), NatPower(52 - h));
  }

  lemma SmallerProduct(r: nat, p: nat, q: nat)
    requires r < p && q > 0
    ensures 0 <= r * q < p * q
  {}

  lemma SubnormalIsShifted(d: Double, mantissa: real)
    requires d.biased == 0 && mantissa == 1.0 + FractionOf(Normalized(d).fraction)
    ensures ValueOf(d) == Scaled(mantissa, Normalized(d).biased - 1075)
  {
    var h: int := HighestBit(d.fraction);
    NormalizedParts(d, h);
    SumTo(FractionOf(d.fraction), 52 - h, h + 1 - 1075, d.biased - 1022);
  }

  lemma NormalizedParts(d: Double, h: nat)
    requires d.biased == 0 && h == HighestBit(d.fraction)
    ensures h < 52 && Normalized(d).biased == h + 1
    ensures 1.0 + FractionOf(Normalized(d).fraction) == Scaled(FractionOf(d.fraction), 52 - h)
  {
    HighestBitBound(d.fraction);
    ShiftBound(d.fraction, h);
    ShiftedIsScaled(d.fraction, h);
  }

  lemma SumTo(x: real, a: int, b: int, sum: int)
    requires a + b == sum
    ensures Scaled(Scaled(x, a), b) == Scaled(x, sum)
  {
    ScaledSum(x, a, b);
  }

  /** Multiplying a subnormal by 2 to the 52 is exact: the normalized bits, and no others, are those of the product. */
  lemma NormalizedIsProduct(d: Double, value: real, power: real, n: int)
    requires d.biased == 0 && value == ValueOf(d) && n == 52 && power == PowerOfTwo(n)
    ensures power == FRACTION_LIMIT as real
    ensures forall r: Double :: ValueOf(r) == power * value <==> r == Normalized(d)
  {
    Limit52();
    NatPowerIsPower(52);
    SubnormalIsShifted(d, 1.0 + FractionOf(Normalized(d).fraction));
    SumTo(1.0 + FractionOf(Normalized(d).fraction), Normalized(d).biased - 1075, n, Normalized(d).biased - 1023);
    ScaledIsProduct(value, n, power);
    var product := power * value;
    assert ValueOf(Normalized(d)) == product;
    forall r: Double | ValueOf(r) == product
      ensures r == Normalized(d)
    {
      BitsAreUnique(r, Normalized(d));
    }
  }

  lemma ShiftedIsScaled(n: nat, h: nat)
    requires h < 52 && NatPower(h) <= n < 2 * NatPower(h) && n < FRACTION_LIMIT
    requires 0 <= (n - NatPower(h)) * NatPower(52 - h) < FRACTION_LIMIT
    ensures 1.0 + FractionOf((n - NatPower(h)) * NatPower(52 - h)) == Scaled(FractionOf(n), 52 - h)
  {
    ShiftBound(n, h);
    NatPowerIsPower(52 - h);
    ScaledIsProduct(FractionOf(n), 52 - h, PowerOfTwo(52 - h));
    ShiftedFraction(n, NatPower(h), NatPower(52 - h), PowerOfTwo(52 - h), Scaled(FractionOf(n), 52 - h));
  }

  lemma ShiftedFraction(n: nat, p: nat, q: nat, power: real, scaled: real)
    requires n < FRACTION_LIMIT && p * q == FRACTION_LIMIT && 0 <= (n - p) * q < FRACTION_LIMIT
    requires power == q as real && scaled == power * FractionOf(n)
    ensures 1.0 + FractionOf((n - p) * q) == scaled
  {}

  /** `positive_binary_parts`, on the bits. */
  function PositiveBinaryParts(d: Double): (p: Parts)
    ensures 1.0 <= p.mantissa < 2.0
  {
    SubnormalIsSmall(d, MIN_POSITIVE);
    var (normal, adjustment) := if ValueOf(d) < ValueOf(MIN_POSITIVE) then (Normalized(d), -52) else (d, 0);
    Parts(ValueOf(Bits(1023, normal.fraction)), normal.biased - 1023 + adjustment)
  }

  lemma UnitMantissa(fraction: nat)
    requires fraction < FRACTION_LIMIT
    ensures ValueOf(Bits(1023, fraction)) == 1.0 + FractionOf(fraction)
  {}

  /** The decomposition of a double is exact, subnormals included, and it is the decomposition of its value. */
  lemma BinaryPartsAreExact(d: Double)
    ensures Decomposes(PositiveBinaryParts(d), ValueOf(d))
    ensures PositiveBinaryParts(d) == PartsOf(ValueOf(d))
    ensures -1074 <= PositiveBinaryParts(d).exponent <= 1023
  {
    SubnormalIsSmall(d, MIN_POSITIVE);
    if d.biased == 0 {
      SubnormalParts(d);
    } else {
      UnitMantissa(d.fraction);
    }
    PartsAreUnique(PositiveBinaryParts(d), PartsOf(ValueOf(d)), ValueOf(d));
  }

  lemma SubnormalParts(d: Double)
    requires d.biased == 0
    ensures Decomposes(PositiveBinaryParts(d), ValueOf(d))
    ensures -1074 <= PositiveBinaryParts(d).exponent <= -1023
  {
    SubnormalIsSmall(d, MIN_POSITIVE);
    var r := Normalized(d);
    HighestBitBound(d.fraction);
    UnitMantissa(r.fraction);
    SubnormalIsShifted(d, 1.0 + FractionOf(r.fraction));
  }

  // ---- the share

  function ShareMantissa(strength: real, scale: real, total: Positive, estate: real): real
    requires scale != 0.0
  {
    strength / scale / total * estate
  }

  /** The exponent `powi` is called with. */
  function PowerArgument(exponent: int): int { if exponent < -1022 then exponent + 1022 else exponent }

  /** The final multiplications: one by a power of two, and a second one when that power would be subnormal. */
  function Assembled(mantissa: real, exponent: int): real {
    if exponent < -1022 then Scaled(mantissa, PowerArgument(exponent)) * ValueOf(MIN_POSITIVE)
    else Scaled(mantissa, PowerArgument(exponent))
  }

  /** The share from the parts of its three operands. */
  function ShareFromParts(strength: Parts, scale: Parts, total: Positive, estate: Parts): real
    requires scale.mantissa != 0.0
  {
    Assembled(ShareMantissa(strength.mantissa, scale.mantissa, total, estate.mantissa),
              strength.exponent - scale.exponent + estate.exponent)
  }

  function ScaledProportionalShare(strength: Positive, scale: Positive, total: Positive, estate: real): real
    requires estate >= 0.0
  {
    if estate == 0.0 then 0.0 else ShareFromParts(PartsOf(strength), PartsOf(scale), total, PartsOf(estate))
  }

  /** Splitting the exponent for the second multiplication changes nothing. */
  lemma AssembledIsScaled(mantissa: real, exponent: int)
    ensures Assembled(mantissa, exponent) == Scaled(mantissa, exponent)
  {
    var least := MIN_POSITIVE;
    if exponent < -1022 {
      SplitExponent(mantissa, exponent, Scaled(mantissa, exponent + 1022), least, ValueOf(least));
    }
  }

  lemma SplitExponent(mantissa: real, exponent: int, first: real, least: Double, second: real)
    requires first == Scaled(mantissa, exponent + 1022) && least == MIN_POSITIVE && second == ValueOf(least)
    ensures first * second == Scaled(mantissa, exponent)
  {
    ScaledProduct(mantissa, exponent + 1022, first, 1.0, least.biased - 1023, second, mantissa);
  }

  lemma Mantissas(s: real, c: real, t: Positive, e: real, m: real, bottom: real, top: real)
    requires c > 0.0 && m == ShareMantissa(s, c, t, e) && bottom == c * t && top == s * e
    ensures m * bottom == top
  {}

  /** The share times the total strength is strength times estate. */
  lemma PartsGiveFormula(s: Parts, strength: real, c: Parts, scale: real, total: Positive, e: Parts, estate: real,
                         share: real, denominator: real, m: real, bottom: real, top: real)
    requires Decomposes(s, strength) && Decomposes(c, scale) && Decomposes(e, estate)
    requires share == ShareFromParts(s, c, total, e) && denominator == scale * total
    requires m == ShareMantissa(s.mantissa, c.mantissa, total, e.mantissa)
    requires bottom == c.mantissa * total && top == s.mantissa * e.mantissa
    ensures share * denominator == strength * estate
  {
    var q := s.exponent - c.exponent + e.exponent;
    AssembledIsScaled(m, q);
    Mantissas(s.mantissa, c.mantissa, total, e.mantissa, m, bottom, top);
    ScaledProduct(s.mantissa, s.exponent, strength, e.mantissa, e.exponent, estate, top);
    ScaledTimes(c.mantissa, total, bottom, c.exponent, scale);
    ScaledProduct(m, q, share, bottom, c.exponent, denominator, top);
  }

  lemma ShareTimesTotal(strength: Positive, scale: Positive, total: Positive, estate: real, share: real,
                        denominator: real)
    requires estate >= 0.0 && share == ScaledProportionalShare(strength, scale, total, estate)
    requires denominator == scale * total
    ensures share * denominator == strength * estate
  {
    if estate > 0.0 {
      var s, c, e := PartsOf(strength), PartsOf(scale), PartsOf(estate);
      PartsGiveFormula(s, strength, c, scale, total, e, estate, share, denominator,
                       ShareMantissa(s.mantissa, c.mantissa, total, e.mantissa),
                       c.mantissa * total, s.mantissa * e.mantissa);
    }
  }

  /** Both branches are the plain formula. */
  lemma ShareIsPlainFormula(strength: Positive, scale: Positive, total: Positive, estate: real, share: real)
    requires estate >= 0.0 && share == ScaledProportionalShare(strength, scale, total, estate)
    ensures share == strength * estate / (scale * total)
  {
    var top, bottom := strength * estate, scale * total;
    ShareTimesTotal(strength, scale, total, estate, share, bottom);
    Quotient(share, top, bottom);
  }

  lemma Quotient(q: real, x: real, y: real)
    requires q * y == x && y != 0.0
    ensures q == x / y
  {}

  /** For doubles with strength at most the scale, `powi` never gets an exponent above 1023. */
  lemma PowerArgumentIsBounded(strength: Double, scale: Double, estate: Double)
    requires ValueOf(strength) <= ValueOf(scale)
    ensures var s, c, e := PositiveBinaryParts(strength), PositiveBinaryParts(scale), PositiveBinaryParts(estate);
            PowerArgument(s.exponent - c.exponent + e.exponent) <= 1023
  {
    BinaryPartsAreExact(strength);
    BinaryPartsAreExact(scale);
    BinaryPartsAreExact(estate);
    ExponentsFollowSize(PositiveBinaryParts(strength), ValueOf(strength), PositiveBinaryParts(scale), ValueOf(scale));
  }

  /** On doubles, the share computed from the bits is the plain formula. */
  lemma ShareOfDoubles(strength: Double, scale: Double, total: Positive, estate: Double, share: real)
    requires share == ShareFromParts(PositiveBinaryParts(strength), PositiveBinaryParts(scale), total,
                                     PositiveBinaryParts(estate))
    ensures share == ValueOf(strength) * ValueOf(estate) / (ValueOf(scale) * total)
  {
    BinaryPartsAreExact(strength);
    BinaryPartsAreExact(scale);
    BinaryPartsAreExact(estate);
    ShareIsPlainFormula(ValueOf(strength), ValueOf(scale), total, ValueOf(estate), share);
  }
}
