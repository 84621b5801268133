/**
 * What shrinking does to a paired count's p: exactly which counts it can never make more significant, and exactly
 * which counts no other rounding of the two quotients could make more significant.
 */
module AdoptRounding {
  import opened Common
  import opened SignTest
  import opened AdoptGate
  import SignScale

  // ---- strictly ----

  lemma StrictDoubledStep(t: nat, t': nat, m: nat)
    requires m > 0
    ensures t' < 2 * t && Doubled(t', 2 * m) < 1.0 ==> Doubled(t', 2 * m) < Doubled(t, m)
    ensures t' > 2 * t && Doubled(t, m) < 1.0 ==> Doubled(t, m) < Doubled(t', 2 * m)
  {
    var (a, b, c) := (2.0 * t as real, m as real, 2.0 * t' as real);
    var d := (2 * m) as real;
    assert d == 2.0 * b;
    FractionLeq(a, b, c, d);
    FractionLeq(c, d, a, b);
    assert a * d == (2.0 * a) * b;
    MulIsMonotone(2.0 * a, c, b);
    MulIsMonotone(c, 2.0 * a, b);
  }

  /** One more on the larger side lowers p, and one more on the smaller side raises it. */
  lemma OneMoreCounts(x: nat, y: nat)
    requires x > y
    ensures P(x + 1, y) < P(x, y) && P(x, y) == P(y, x)
    ensures y > 0 ==> P(x, y - 1) < P(x, y)
  {
    var n := x + y;
    PIs(x, y);
    PIs(x + 1, y);
    PIsOneExactly(x, y);
    PIsOneExactly(x + 1, y);
    AtMostOneP(x + 1, y);
    TailPascal(n, y);
    BinomPositive(n, y);
    StrictDoubledStep(Tail(n, y), Tail(n + 1, y), Pow2(n));
    if y > 0 {
      PIs(x, y - 1);
      PIsOneExactly(x, y - 1);
      AtMostOneP(x, y - 1);
      TailPascal(n - 1, y);
      BinomPositive(n - 1, y);
      StrictDoubledStep(Tail(n - 1, y - 1), Tail(n, y), Pow2(n - 1));
    }
  }

  // ---- the quotients ----

  lemma ShrinkIs(cell: Cell, deff: real)
    requires deff >= 1.0
    ensures Shrink(cell, deff).gained == Floor(cell.gained as real / deff)
    ensures Shrink(cell, deff).lost == Ceil(cell.lost as real / deff)
  {
    if deff <= 1.0 {
      assert cell.gained as real / 1.0 == cell.gained as real && cell.lost as real / 1.0 == cell.lost as real;
    }
  }

  lemma InProportion(g: nat, l: nat, deff: real, x: nat, y: nat)
    requires deff >= 1.0 && x as real <= g as real / deff && l as real / deff <= y as real
    ensures l * x <= y * g
  {
    var (p, q) := (g as real / deff, l as real / deff);
    assert p * deff == g as real && q * deff == l as real;
    Scaled(x as real, p, l as real);
    Scaled(q, y as real, g as real);
    assert p * l as real == q * g as real by {
      assert p * (q * deff) == q * (p * deff);
    }
    Products(x, l);
    Products(y, g);
    assert x * l == l * x;
  }

  lemma Scaled(a: real, b: real, c: real)
    requires a <= b && c >= 0.0
    ensures a * c <= b * c
  {
  }

  lemma ShrunkIsScaledDown(cell: Cell, deff: real)
    requires deff >= 1.0 && cell.gained >= cell.lost
    ensures var s := Shrink(cell, deff); SignScale.ScaledDown(cell.gained, cell.lost, s.gained, s.lost)
  {
    ShrinkIs(cell, deff);
    Quotients(cell.gained, deff);
    Quotients(cell.lost, deff);
    QuotientsOrdered(cell.lost, cell.gained, deff);
    var s := Shrink(cell, deff);
    hide Shrink;
    InProportion(cell.gained, cell.lost, deff, s.gained, s.lost);
  }

  // ---- against the raw counts ----

  /** At every design effect the shrunk count is no more significant than the raw one. */
  ghost predicate ShrinkingIsConservative(cell: Cell) {
    forall deff: real :: deff >= 1.0 ==> P(cell.gained, cell.lost) <= CellP(cell, deff)
  }

  lemma ShrinkingAGain(cell: Cell, deff: real)
    requires deff >= 1.0 && cell.gained >= cell.lost
    ensures P(cell.gained, cell.lost) <= CellP(cell, deff)
  {
    ShrunkIsScaledDown(cell, deff);
    var s := Shrink(cell, deff);
    SignScale.ScalingNeverLowersP(cell.gained, cell.lost, s.gained, s.lost);
  }

  lemma ShrinkingAnUnopposedLoss(cell: Cell, deff: real)
    requires deff >= 1.0 && cell.gained == 0
    ensures P(cell.gained, cell.lost) <= CellP(cell, deff)
  {
    ShrinkIs(cell, deff);
    Quotients(0, deff);
    Quotients(cell.lost, deff);
    var s := Shrink(cell, deff);
    hide Shrink;
    PMonotone(s.lost, 0, cell.lost, 0);
    PIsOneExactly(s.lost, 0);
    PIsOneExactly(cell.lost, 0);
  }

  /** A design effect so near 1 that every count up to `most` loses less than one half. */
  function JustOver(most: nat): (deff: real)
    requires most > 0
    ensures deff >= 1.0
  {
    1.0 + 1.0 / (2.0 * most as real)
  }

  lemma JustBelow(n: nat, most: nat)
    requires 1 <= n <= most
    ensures Floor(n as real / JustOver(most)) == n - 1 && Ceil(n as real / JustOver(most)) == n
  {
    var (e, d) := (1.0 / (2.0 * most as real), JustOver(most));
    var q := n as real / d;
    assert q * d == n as real;
    assert e > 0.0 && e * (2.0 * most as real) == 1.0;
    hide JustOver;
    NearlyAll(n as real, most as real, e, q);
  }

  lemma NearlyAll(n: real, most: real, e: real, q: real)
    requires 1.0 <= n <= most && e > 0.0 && e * (2.0 * most) == 1.0 && q * (1.0 + e) == n
    ensures n - 1.0 < q < n
  {
    assert q * (1.0 + e) == q + q * e;
    if q <= 0.0 {
      Scaled(q, 0.0, 1.0 + e);
    } else {
      Scaled(0.0, e, q);
      Scaled(q, most, e);
      assert most * e * 2.0 == 1.0;
    }
  }

  /** There the gains round down by one and the losses do not move. */
  lemma ShrinkJustOver(cell: Cell)
    requires cell.gained < cell.lost
    ensures var s := Shrink(cell, JustOver(cell.lost));
            s.gained == (if cell.gained == 0 then 0 else cell.gained - 1) && s.lost == cell.lost
    ensures Floor(cell.lost as real / JustOver(cell.lost)) == cell.lost - 1
  {
    var d := JustOver(cell.lost);
    ShrinkIs(cell, d);
    JustBelow(cell.lost, cell.lost);
    if cell.gained > 0 {
      JustBelow(cell.gained, cell.lost);
    } else {
      Quotients(0, d);
    }
    hide Shrink, JustOver;
  }

  /** Shrinking can never make a count more significant exactly when no more was lost than gained, or nothing gained. */
  lemma ShrinkingIsConservativeExactly(cell: Cell)
    ensures ShrinkingIsConservative(cell) <==> cell.gained >= cell.lost || cell.gained == 0
  {
    hide P, CellP;
    if cell.gained >= cell.lost {
      forall deff: real | deff >= 1.0
        ensures P(cell.gained, cell.lost) <= CellP(cell, deff)
      {
        ShrinkingAGain(cell, deff);
      }
    } else if cell.gained == 0 {
      forall deff: real | deff >= 1.0
        ensures P(cell.gained, cell.lost) <= CellP(cell, deff)
      {
        ShrinkingAnUnopposedLoss(cell, deff);
      }
    } else {
      ShrunkLossIsMoreSignificant(cell);
    }
  }

  lemma ShrunkLossIsMoreSignificant(cell: Cell)
    requires 0 < cell.gained < cell.lost
    ensures CellP(cell, JustOver(cell.lost)) < P(cell.gained, cell.lost)
  {
    ShrinkJustOver(cell);
    OneMoreCounts(cell.lost, cell.gained);
    OneMoreCounts(cell.lost, cell.gained - 1);
    hide P, Shrink, JustOver;
  }

  /** So an adoption on more gained than lost would stand on the raw count too. */
  lemma AdoptedGainsAreSignificantUnshrunk(better: bool, rows: seq<Row>, incumbent: string, challenger: string)
    requires Gates(better, rows, incumbent, challenger) == Adopted
    requires var cell := HeadToHead(rows, incumbent, challenger); cell.gained > cell.lost
    ensures var cell := HeadToHead(rows, incumbent, challenger); P(cell.gained, cell.lost) <= ALPHA
  {
    ShrinkingAGain(HeadToHead(rows, incumbent, challenger), Deff(rows, incumbent, challenger));
  }

  // ---- against the other roundings ----

  /** The whole number below a quotient or the one above. */
  predicate RoundsTo(n: nat, deff: real, m: nat)
    requires deff >= 1.0
  {
    m == Floor(n as real / deff) || m == Ceil(n as real / deff)
  }

  /** At every design effect no rounding of the two quotients is more significant than the one used. */
  ghost predicate RoundingIsConservative(cell: Cell) {
    forall deff: real, g: nat, l: nat :: deff >= 1.0 && RoundsTo(cell.gained, deff, g) && RoundsTo(cell.lost, deff, l)
      ==> P(g, l) <= CellP(cell, deff)
  }

  lemma RoundingAGain(cell: Cell, deff: real, g: nat, l: nat)
    requires deff >= 1.0 && cell.gained >= cell.lost
    requires RoundsTo(cell.gained, deff, g) && RoundsTo(cell.lost, deff, l)
    ensures P(g, l) <= CellP(cell, deff)
  {
    ShrinkIs(cell, deff);
    QuotientsOrdered(cell.lost, cell.gained, deff);
    QuotientsOrdered(cell.gained, cell.gained, deff);
    QuotientsOrdered(cell.lost, cell.lost, deff);
    var s := Shrink(cell, deff);
    hide Shrink, P;
    assert s.gained <= g && l <= s.lost <= s.gained + 1;
    if s.gained >= s.lost {
      PMonotone(s.gained, s.lost, g, l);
    } else {
      PIsOneExactly(s.gained, s.lost);
      AtMostOneP(g, l);
    }
  }

  lemma RoundingALoneLoss(cell: Cell, deff: real)
    requires deff >= 1.0 && cell.gained == 0 && cell.lost == 1
    ensures CellP(cell, deff) == 1.0
  {
    ShrinkIs(cell, deff);
    Quotients(0, deff);
    Quotients(1, deff);
    var s := Shrink(cell, deff);
    hide Shrink;
    PIsOneExactly(s.gained, s.lost);
  }

  /** The rounding used is the least significant one exactly for counts no worse than even, and for one lost to none. */
  lemma RoundingIsConservativeExactly(cell: Cell)
    ensures RoundingIsConservative(cell) <==> cell.gained >= cell.lost || (cell.gained == 0 && cell.lost == 1)
  {
    hide P, CellP, RoundsTo;
    if cell.gained >= cell.lost {
      forall deff: real, g: nat, l: nat | deff >= 1.0 && RoundsTo(cell.gained, deff, g) && RoundsTo(cell.lost, deff, l)
        ensures P(g, l) <= CellP(cell, deff)
      {
        RoundingAGain(cell, deff, g, l);
      }
    } else if cell.gained == 0 && cell.lost == 1 {
      forall deff: real, g: nat, l: nat | deff >= 1.0 && RoundsTo(cell.gained, deff, g) && RoundsTo(cell.lost, deff, l)
        ensures P(g, l) <= CellP(cell, deff)
      {
        RoundingALoneLoss(cell, deff);
        AtMostOneP(g, l);
      }
    } else {
      OtherRoundingIsLess(cell);
    }
  }

  /** Rounding the losses down instead would be less significant. */
  lemma OtherRoundingIsLess(cell: Cell)
    requires cell.gained < cell.lost && cell.lost >= 2
    ensures var (d, g) := (JustOver(cell.lost), if cell.gained == 0 then 0 else cell.gained - 1);
            && RoundsTo(cell.gained, d, g) && RoundsTo(cell.lost, d, cell.lost - 1)
            && CellP(cell, d) < P(g, cell.lost - 1)
  {
    var (d, g) := (JustOver(cell.lost), if cell.gained == 0 then 0 else cell.gained - 1);
    ShrinkJustOver(cell);
    ShrinkIs(cell, d);
    OneMoreCounts(cell.lost - 1, g);
    OneMoreCounts(cell.lost, g);
    hide P, Shrink, JustOver;
  }
}
