/** Unit prices: a base cost grown by 1.3 for every five units of population from twenty on, rounded
    once, half up, and refused beyond the integers that other languages hold exactly. */
module Pricing {
  datatype Role = Worker | Vanguard | Ranger
  datatype Price = Exact(value: nat) | OutOfRange

  const MAX_SAFE: nat := 0x1F_FFFF_FFFF_FFFF
  const BASE_POPULATION: nat := 20
  const TIER: nat := 5

  function BaseCost(role: Role): (cost: nat)
    ensures 1 <= cost <= MAX_SAFE
  {
    match role
    case Worker => 5
    case Vanguard => 10
    case Ranger => 12
  }

  function Power(b: nat, e: nat): nat {
    if e == 0 then 1 else b * Power(b, e - 1)
  }

  function Exponent(population: nat): nat {
    if population < BASE_POPULATION then 0 else (population - BASE_POPULATION) / TIER + 1
  }

  /** `value` is base * 1.3^e rounded to the nearest integer, ties upwards. */
  predicate Nearest(value: int, base: nat, e: nat) {
    NearestRatio(value, base * Power(13, e), Power(10, e))
  }

  /** `value` lies within one half of n / d. */
  predicate NearestRatio(value: int, n: nat, d: nat) {
    2 * n - d < value * (2 * d) <= 2 * n + d
  }

  function HalfUp(n: nat, d: nat): nat
    requires d > 0
  {
    (2 * n + d) / (2 * d)
  }

  /** The rounded price; `RoundedIsNearest` says what it is. */
  function Rounded(base: nat, e: nat): nat {
    PowerPositive(10, e);
    HalfUp(base * Power(13, e), Power(10, e))
  }

  lemma {:induction false} PowerPositive(b: nat, e: nat)
    requires b > 0
    ensures Power(b, e) > 0
  {
    if e > 0 {
      PowerPositive(b, e - 1);
      MulStep(0, Power(b, e - 1), b);
    }
  }

  // ----- products ---------------------------------------------------------------------------

  lemma MulStep(p: int, q: int, m: nat)
    requires p < q
    ensures p * m + m <= q * m
  {
    assert q * m - (p * m + m) == (q - p - 1) * m;
  }

  lemma MulCancel(a: int, b: int, d: nat)
    requires a * d < b * d
    ensures a < b
  {
    if b < a {
      MulStep(b, a, d);
    }
  }

  lemma DivBounds(x: nat, y: nat)
    requires y > 0
    ensures x / y * y <= x < x / y * y + y
  {
  }

  lemma HalfUpIs(n: nat, d: nat, p: int)
    requires d > 0
    ensures HalfUp(n, d) == p <==> NearestRatio(p, n, d)
  {
    var q := HalfUp(n, d);
    DivBounds(2 * n + d, 2 * d);
    if p < q {
      MulStep(p, q, 2 * d);
    } else if q < p {
      MulStep(q, p, 2 * d);
    }
  }

  /** Every price is within one half of base * 1.3^e, and no other integer is its rounding. */
  lemma RoundedIsNearest(base: nat, e: nat, value: int)
    ensures Nearest(value, base, e) <==> value == Rounded(base, e)
  {
    hide HalfUp, NearestRatio, Power;
    PowerPositive(10, e);
    HalfUpIs(base * Power(13, e), Power(10, e), value);
  }

  /** A larger exponent never lowers the price. */
  lemma HalfUpStep(n: nat, d: nat)
    requires d > 0
    ensures HalfUp(n, d) <= HalfUp(n * 13, d * 10)
  {
    var p, q := HalfUp(n, d), HalfUp(n * 13, d * 10);
    HalfUpIs(n, d, p);
    HalfUpIs(n * 13, d * 10, q);
    hide HalfUp;
    assert p * (2 * (d * 10)) == 10 * (p * (2 * d));
    if q < p {
      MulStep(q, p, 2 * (d * 10));
    }
  }

  lemma NextRounded(base: nat, e: nat)
    ensures Power(10, e) > 0 && Rounded(base, e) == HalfUp(base * Power(13, e), Power(10, e))
    ensures Rounded(base, e + 1) == HalfUp(base * Power(13, e) * 13, Power(10, e) * 10)
    ensures Power(10, e + 1) == Power(10, e) * 10 && base * Power(13, e + 1) == base * Power(13, e) * 13
  {
    hide HalfUp;
    PowerPositive(10, e);
    PowerStep(base, e);
  }

  lemma PowerStep(base: nat, e: nat)
    ensures Power(10, e + 1) == Power(10, e) * 10 && base * Power(13, e + 1) == base * Power(13, e) * 13
  {
    var x := Power(13, e);
    assert base * (13 * x) == base * x * 13;
  }

  lemma {:induction false} RoundedMonotone(base: nat, e: nat, f: nat)
    requires e <= f
    ensures Rounded(base, e) <= Rounded(base, f)
  {
    hide Rounded;
    if e < f {
      RoundedMonotone(base, e, f - 1);
      NextRounded(base, f - 1);
      HalfUpStep(base * Power(13, f - 1), Power(10, f - 1));
    }
  }

  /** 1.3^e is at least 1 + 0.3 e. */
  lemma {:induction false} Bernoulli(e: nat)
    ensures 10 * Power(13, e) >= (10 + 3 * e) * Power(10, e)
  {
    if e > 0 {
      Bernoulli(e - 1);
      PowerPositive(10, e - 1);
      BernoulliStep(Power(13, e - 1), Power(10, e - 1), e);
    }
  }

  lemma BernoulliStep(x: nat, y: nat, e: nat)
    requires e >= 1 && 10 * x >= (7 + 3 * e) * y
    ensures 10 * (13 * x) >= (10 + 3 * e) * (10 * y)
  {
    var a := (7 + 3 * e) * y;
    assert a - 10 * y == (3 * e - 3) * y;
    assert (3 * e - 3) * y >= 0;
    assert (10 + 3 * e) * (10 * y) == 10 * (a + 3 * y);
  }

  /** A price in range bounds its exponent, so the search for the largest one ends. */
  lemma SafeExponentBounded(base: nat, e: nat)
    requires base >= 1 && Rounded(base, e) <= MAX_SAFE
    ensures e <= 4 * (MAX_SAFE + 1)
  {
    hide HalfUp;
    PowerPositive(10, e);
    RoundedIs(base, e);
    HalfUpIs(base * Power(13, e), Power(10, e), Rounded(base, e));
    Bernoulli(e);
    hide Power, Rounded;
    GrowthBound(base, Power(13, e), Power(10, e), Rounded(base, e), e);
  }

  lemma GrowthBound(base: nat, x: nat, d: nat, p: nat, e: nat)
    requires base >= 1 && d > 0 && p <= MAX_SAFE
    requires NearestRatio(p, base * x, d) && 10 * x >= (10 + 3 * e) * d
    ensures e <= 4 * (MAX_SAFE + 1)
  {
    var n := base * x;
    assert n >= x by { if base > 1 { MulStep(1, base, x); } }
    if p < MAX_SAFE {
      MulStep(p, MAX_SAFE, 2 * d);
    }
    assert 20 * n < 10 * (MAX_SAFE * (2 * d)) + 10 * d;
    assert 2 * ((10 + 3 * e) * d) == (20 + 6 * e) * d;
    assert 10 * (MAX_SAFE * (2 * d)) + 10 * d == (20 * MAX_SAFE + 10) * d;
    MulCancel(20 + 6 * e, 20 * MAX_SAFE + 10, d);
  }

  /** The largest exponent whose price is in range: its successor and all beyond are not. */
  method MaximumSafeExponent(base: nat) returns (exponent: nat)
    requires 1 <= base <= MAX_SAFE
    ensures forall e: nat :: Rounded(base, e) <= MAX_SAFE <==> e <= exponent
  {
    hide Rounded, HalfUp;
    exponent := 0;
    var numerator, denominator := base, 1;
    RoundedIsNearest(base, 0, base);
    while true
      invariant numerator == base * Power(13, exponent) && denominator == Power(10, exponent) > 0
      invariant Rounded(base, exponent) <= MAX_SAFE
      decreases 4 * (MAX_SAFE + 1) - exponent
    {
      SafeExponentBounded(base, exponent);
      var nextNumerator, nextDenominator := numerator * 13, denominator * 10;
      var nextPrice := HalfUp(nextNumerator, nextDenominator);
      NextRounded(base, exponent);
      if nextPrice > MAX_SAFE {
        forall e: nat
          ensures Rounded(base, e) <= MAX_SAFE <==> e <= exponent
        {
          if e <= exponent {
            RoundedMonotone(base, e, exponent);
          } else {
            RoundedMonotone(base, exponent + 1, e);
          }
        }
        return;
      }
      exponent := exponent + 1;
      numerator, denominator := nextNumerator, nextDenominator;
      SafeExponentBounded(base, exponent);
    }
  }

  /** Some role's price at this exponent is out of range. */
  predicate SomePriceTooLarge(e: nat) {
    exists role: Role :: Rounded(BaseCost(role), e) > MAX_SAFE
  }

  /** The exponent up to which every role's price is in range. */
  method MaximumSafePriceExponent() returns (exponent: nat)
    ensures forall e: nat :: SomePriceTooLarge(e) <==> e > exponent
  {
    hide Rounded;
    var worker := MaximumSafeExponent(BaseCost(Worker));
    var vanguard := MaximumSafeExponent(BaseCost(Vanguard));
    var ranger := MaximumSafeExponent(BaseCost(Ranger));
    exponent := if worker <= vanguard && worker <= ranger then worker else if vanguard <= ranger then vanguard else ranger;
    forall e: nat
      ensures SomePriceTooLarge(e) <==> e > exponent
    {
      if SomePriceTooLarge(e) {
        var role: Role :| Rounded(BaseCost(role), e) > MAX_SAFE;
        match role
        case Worker =>
        case Vanguard =>
        case Ranger =>
      } else {
        assert Rounded(BaseCost(Worker), e) <= MAX_SAFE && Rounded(BaseCost(Vanguard), e) <= MAX_SAFE
            && Rounded(BaseCost(Ranger), e) <= MAX_SAFE;
      }
    }
  }

  /** The price of a unit; refused exactly when the population, or the price of some role at this
      population, not necessarily the one asked for, is out of range. */
  method UnitPrice(role: Role, population: nat) returns (price: Price)
    ensures price.OutOfRange? <==>
            population > MAX_SAFE || SomePriceTooLarge(Exponent(population))
    ensures price.Exact? ==> 1 <= price.value <= MAX_SAFE && Nearest(price.value, BaseCost(role), Exponent(population))
  {
    hide Rounded, HalfUp, Nearest, SomePriceTooLarge;
    if population > MAX_SAFE {
      return OutOfRange;
    }
    var limit := MaximumSafePriceExponent();
    var exponent := Exponent(population);
    if exponent > limit {
      return OutOfRange;
    }
    var numerator, denominator := BaseCost(role) * Power(13, exponent), Power(10, exponent);
    PowerPositive(10, exponent);
    var value := HalfUp(numerator, denominator);
    assert value == Rounded(BaseCost(role), exponent) by { RoundedIs(BaseCost(role), exponent); }
    RoundedIsNearest(BaseCost(role), exponent, value);
    RoundedMonotone(BaseCost(role), 0, exponent);
    BaseRounded(BaseCost(role));
    assert value <= MAX_SAFE by { InRange(role, exponent); }
    return Exact(value);
  }

  lemma InRange(role: Role, e: nat)
    requires !SomePriceTooLarge(e)
    ensures Rounded(BaseCost(role), e) <= MAX_SAFE
  {
    hide Rounded;
  }

  lemma RoundedIs(base: nat, e: nat)
    ensures Power(10, e) > 0 && Rounded(base, e) == HalfUp(base * Power(13, e), Power(10, e))
  {
  }

  lemma BaseRounded(base: nat)
    ensures Rounded(base, 0) == base
  {
    RoundedIsNearest(base, 0, base);
  }

  /** The exponent rises by one at a population of 20 and at every fifth one after it. */
  lemma ExponentRises(population: nat, e: nat)
    ensures Exponent(population) >= e <==> e == 0 || population >= 15 + 5 * e
  {
  }

  lemma PowerValues()
    ensures Power(13, 0) == 1 == Power(10, 0) && Power(13, 1) == 13 && Power(10, 1) == 10
    ensures Power(13, 2) == 169 && Power(10, 2) == 100 && Power(13, 3) == 2197 && Power(10, 3) == 1000
    ensures Power(13, 17) == 8650415919381337933 && Power(10, 17) == 100000000000000000
  {
    assert Power(13, 5) == 371293 && Power(10, 5) == 100000;
    assert Power(13, 8) == 815730721 && Power(10, 8) == 100000000;
    assert Power(13, 11) == 1792160394037 && Power(10, 11) == 100000000000;
    assert Power(13, 14) == 3937376385699289 && Power(10, 14) == 100000000000000;
  }

  lemma PriceIs(role: Role, e: nat, n: nat, d: nat, value: nat)
    requires Power(13, e) == n && Power(10, e) == d && NearestRatio(value, BaseCost(role) * n, d)
    ensures Rounded(BaseCost(role), e) == value
  {
    hide Rounded, Power;
    RoundedIsNearest(BaseCost(role), e, value);
  }

  lemma PricesAre(e: nat, n: nat, d: nat, worker: nat, vanguard: nat, ranger: nat)
    requires Power(13, e) == n && Power(10, e) == d
    requires NearestRatio(worker, 5 * n, d) && NearestRatio(vanguard, 10 * n, d) && NearestRatio(ranger, 12 * n, d)
    ensures forall p | Exponent(p) == e :: PricesAt(p) == (worker, vanguard, ranger)
  {
    hide Rounded, Power, Exponent, NearestRatio;
    PriceIs(Worker, e, n, d, worker);
    PriceIs(Vanguard, e, n, d, vanguard);
    PriceIs(Ranger, e, n, d, ranger);
  }

  /** The prices of workers, vanguards and rangers at the populations of the program's own known
      answers, and at those that share their exponent. */
  lemma KnownPrices(population: nat)
    ensures population < 20 ==> PricesAt(population) == (5, 10, 12)
    ensures 20 <= population < 25 ==> PricesAt(population) == (7, 13, 16)
    ensures 25 <= population < 30 ==> PricesAt(population) == (8, 17, 20)
    ensures 30 <= population < 35 ==> PricesAt(population) == (11, 22, 26)
    ensures 100 <= population < 105 ==> PricesAt(population) == (433, 865, 1038)
  {
    PowerValues();
    hide Power, Rounded, HalfUp;
    PricesAre(0, 1, 1, 5, 10, 12);
    PricesAre(1, 13, 10, 7, 13, 16);
    PricesAre(2, 169, 100, 8, 17, 20);
    PricesAre(3, 2197, 1000, 11, 22, 26);
    PricesAre(17, 8650415919381337933, 100000000000000000, 433, 865, 1038);
    hide PricesAt;
  }

  function PricesAt(population: nat): (nat, nat, nat) {
    var e := Exponent(population);
    (Rounded(BaseCost(Worker), e), Rounded(BaseCost(Vanguard), e), Rounded(BaseCost(Ranger), e))
  }

  /** Prices never fall as the population grows. */
  lemma PriceMonotone(base: nat, p: nat, q: nat)
    requires p <= q
    ensures Rounded(base, Exponent(p)) <= Rounded(base, Exponent(q))
  {
    RoundedMonotone(base, Exponent(p), Exponent(q));
  }
}
