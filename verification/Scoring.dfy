/** What the evaluator's score means: the price of one weighted unit. */
module Scoring {
  import opened HyphaResources

  /** The weighted units of a vector. */
  function Units(w: Weights, r: Resources): real {
    w.gpu * r.gpu + w.cpu * r.cpu + w.memory * r.memory + w.storage * r.storage
  }

  lemma Quotient(price: real, units: real)
    requires units > 0.0
    ensures (price / units) * units == price
  {
  }

  /** The score times the units is the price; without units nothing is charged. */
  lemma ScoreTimesUnits(w: Weights, price: real, r: Resources)
    ensures Units(w, r) > 0.0 ==> Score(w, price, r) * Units(w, r) == price
    ensures Units(w, r) <= 0.0 ==> Score(w, price, r) == 0.0
  {
    if Units(w, r) > 0.0 {
      Quotient(price, Units(w, r));
    }
  }

  lemma OneKind(w: Weights, x: real)
    ensures Units(w, Resources(x, 0.0, 0.0, 0.0)) == w.gpu * x
    ensures Units(w, Resources(0.0, x, 0.0, 0.0)) == w.cpu * x
    ensures Units(w, Resources(0.0, 0.0, x, 0.0)) == w.storage * x
    ensures Units(w, Resources(0.0, 0.0, 0.0, x)) == w.memory * x
  {
  }

  /** On a single kind of resource the score is what one weighted unit of it costs. */
  lemma ScoreOfOneKind(w: Weights, price: real, x: real)
    ensures w.gpu * x > 0.0 ==> Score(w, price, Resources(x, 0.0, 0.0, 0.0)) * (w.gpu * x) == price
    ensures w.cpu * x > 0.0 ==> Score(w, price, Resources(0.0, x, 0.0, 0.0)) * (w.cpu * x) == price
    ensures w.storage * x > 0.0 ==> Score(w, price, Resources(0.0, 0.0, x, 0.0)) * (w.storage * x) == price
    ensures w.memory * x > 0.0 ==> Score(w, price, Resources(0.0, 0.0, 0.0, x)) * (w.memory * x) == price
  {
    OneKind(w, x);
    ScoreTimesUnits(w, price, Resources(x, 0.0, 0.0, 0.0));
    ScoreTimesUnits(w, price, Resources(0.0, x, 0.0, 0.0));
    ScoreTimesUnits(w, price, Resources(0.0, 0.0, x, 0.0));
    ScoreTimesUnits(w, price, Resources(0.0, 0.0, 0.0, x));
  }

  /** There is something to charge for: a price of one has a positive score. */
  predicate Chargeable(w: Weights, r: Resources) {
    Score(w, 1.0, r) > 0.0
  }

  lemma Sign(score: real, units: real, price: real)
    requires units > 0.0 && score * units == price
    ensures (score > 0.0 <==> price > 0.0) && (score < 0.0 <==> price < 0.0)
  {
    assert score <= 0.0 ==> score * units <= 0.0;
    assert score >= 0.0 ==> score * units >= 0.0;
  }

  lemma ChargeableExactly(w: Weights, r: Resources)
    ensures Chargeable(w, r) <==> Units(w, r) > 0.0
  {
    ScoreTimesUnits(w, 1.0, r);
    if Units(w, r) > 0.0 {
      Sign(Score(w, 1.0, r), Units(w, r), 1.0);
    }
  }

  lemma UnitsOfSum(w: Weights, a: Resources, b: Resources)
    ensures Units(w, a.Add(b)) == Units(w, a) + Units(w, b)
  {
    assert w.gpu * (a.gpu + b.gpu) == w.gpu * a.gpu + w.gpu * b.gpu;
    assert w.cpu * (a.cpu + b.cpu) == w.cpu * a.cpu + w.cpu * b.cpu;
    assert w.memory * (a.memory + b.memory) == w.memory * a.memory + w.memory * b.memory;
    assert w.storage * (a.storage + b.storage) == w.storage * a.storage + w.storage * b.storage;
  }

  lemma Harmonic(x: real, y: real, z: real, u: real, v: real, price: real)
    requires u > 0.0 && v > 0.0 && x * u == price && y * v == price && z * (u + v) == price
    ensures z * (x + y) == x * y
  {
    var difference := z * (x + y) - x * y;
    calc {
      difference * (u * v);
    ==
      z * ((x * u) * v + (y * v) * u) - (x * u) * (y * v);
    ==
      z * (price * v + price * u) - price * price;
    ==
      price * (z * (u + v)) - price * price;
    ==
      0.0;
    }
    NoZeroDivisor(difference, u, v);
  }

  lemma NoZeroDivisor(difference: real, u: real, v: real)
    requires u > 0.0 && v > 0.0 && difference * (u * v) == 0.0
    ensures difference == 0.0
  {
    assert u * v > 0.0;
  }

  /** Units of different kinds add up: a price buys of both together what it buys of each. */
  lemma ScoreOfSum(w: Weights, price: real, a: Resources, b: Resources)
    requires Chargeable(w, a) && Chargeable(w, b)
    ensures Chargeable(w, a.Add(b))
    ensures Score(w, price, a.Add(b)) * (Score(w, price, a) + Score(w, price, b))
            == Score(w, price, a) * Score(w, price, b)
  {
    ChargeableExactly(w, a);
    ChargeableExactly(w, b);
    ChargeableExactly(w, a.Add(b));
    UnitsOfSum(w, a, b);
    ScoreTimesUnits(w, price, a);
    ScoreTimesUnits(w, price, b);
    ScoreTimesUnits(w, price, a.Add(b));
    Harmonic(Score(w, price, a), Score(w, price, b), Score(w, price, a.Add(b)), Units(w, a), Units(w, b), price);
  }

  lemma Proportional(one: real, score: real, units: real, price: real)
    requires units > 0.0 && one * units == 1.0 && score * units == price
    ensures score == price * one
  {
    assert score * (one * units) == (score * units) * one;
  }

  /** The score is proportional to the price, and zero where no resource has a positive weighted amount. */
  lemma ScoreIsLinear(w: Weights, price: real, r: Resources)
    ensures Score(w, price, r) == price * Score(w, 1.0, r)
    ensures !Chargeable(w, r) ==> Score(w, price, r) == 0.0
    ensures (w.gpu * r.gpu <= 0.0 && w.cpu * r.cpu <= 0.0 && w.memory * r.memory <= 0.0 && w.storage * r.storage <= 0.0)
            ==> !Chargeable(w, r)
  {
    ChargeableExactly(w, r);
    ScoreTimesUnits(w, price, r);
    ScoreTimesUnits(w, 1.0, r);
    if Units(w, r) > 0.0 {
      Proportional(Score(w, 1.0, r), Score(w, price, r), Units(w, r), price);
    }
  }

  lemma Scale(one: real, low: real, high: real)
    requires one > 0.0
    ensures low < high <==> low * one < high * one
  {
    assert high * one - low * one == (high - low) * one;
    assert low < high ==> (high - low) * one > 0.0;
    assert low >= high ==> (low - high) * one >= 0.0;
  }

  lemma Ordered(x: real, y: real, units: real, low: real, high: real)
    requires units > 0.0 && x * units == low && y * units == high
    ensures low < high <==> x < y
  {
    Scale(units, x, y);
  }

  /** For the same resources the higher price has the higher score. */
  lemma HigherPriceScoresHigher(w: Weights, r: Resources, low: real, high: real)
    requires Chargeable(w, r)
    ensures low < high <==> Score(w, low, r) < Score(w, high, r)
  {
    ChargeableExactly(w, r);
    ScoreTimesUnits(w, low, r);
    ScoreTimesUnits(w, high, r);
    Ordered(Score(w, low, r), Score(w, high, r), Units(w, r), low, high);
  }

  lemma Product(w: real, a: real, b: real)
    requires 0.0 <= w && a <= b
    ensures w * a <= w * b
  {
    assert w * b - w * a == w * (b - a);
  }

  lemma MoreUnits(w: Weights, a: Resources, b: Resources)
    requires 0.0 <= w.gpu && 0.0 <= w.cpu && 0.0 <= w.memory && 0.0 <= w.storage && AtMost(a, b)
    ensures Units(w, a) <= Units(w, b)
  {
    Product(w.gpu, a.gpu, b.gpu);
    Product(w.cpu, a.cpu, b.cpu);
    Product(w.memory, a.memory, b.memory);
    Product(w.storage, a.storage, b.storage);
  }

  lemma SmallerQuotient(x: real, y: real, u: real, v: real, price: real)
    requires 0.0 < u <= v && 0.0 <= price && x * u == price && y * v == price
    ensures y <= x
  {
    Sign(x, u, price);
    Product(x, u, v);
    Scale(v, x, y);
  }

  /** For the same price more resources never score higher. */
  lemma MoreResourcesScoreLower(w: Weights, price: real, a: Resources, b: Resources)
    requires 0.0 <= w.gpu && 0.0 <= w.cpu && 0.0 <= w.memory && 0.0 <= w.storage && 0.0 <= price
    requires Chargeable(w, a) && AtMost(a, b)
    ensures Chargeable(w, b) && Score(w, price, b) <= Score(w, price, a)
  {
    ChargeableExactly(w, a);
    ChargeableExactly(w, b);
    ScoreTimesUnits(w, price, a);
    ScoreTimesUnits(w, price, b);
    MoreUnits(w, a, b);
    SmallerQuotient(Score(w, price, a), Score(w, price, b), Units(w, a), Units(w, b), price);
  }

  /** By default one GPU counts as much as 25 CPUs, and one CPU as much as 10 of memory or 100 of storage. */
  lemma DefaultScores(price: real)
    ensures Score(DEFAULT_WEIGHTS, price, Resources(1.0, 0.0, 0.0, 0.0)) * 25.0 == price
    ensures price == Score(DEFAULT_WEIGHTS, price, Resources(0.0, 1.0, 0.0, 0.0))
            == Score(DEFAULT_WEIGHTS, price, Resources(0.0, 0.0, 0.0, 10.0))
            == Score(DEFAULT_WEIGHTS, price, Resources(0.0, 0.0, 100.0, 0.0))
  {
  }
}
