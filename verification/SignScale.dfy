/**
 * The sign test under scaling: dividing both counts by one number, the gains rounded down and the losses up, never
 * makes a gain look more significant. The lower tail is followed cell by cell down to the shrunk counts.
 */
module SignScale {
  import opened Common
  import opened SignTest

  /** One outcome of n fair tosses. */
  function Half(n: nat): (h: real)
    ensures h > 0.0
  {
    if n == 0 then 1.0 else Half(n - 1) / 2.0
  }

  /** The chance of at most `l` losses among g + l fair outcomes. */
  function Chance(g: nat, l: nat): real { Tail(g + l, l) as real * Half(g + l) }

  /** What one more toss moves the chance by. */
  function Weight(n: nat, k: int): real { Binom(n, k) as real * Half(n + 1) }

  lemma {:induction false} HalfPow(n: nat)
    ensures Half(n) * Pow2(n) as real == 1.0
  {
    if n > 0 {
      HalfPow(n - 1);
      assert Pow2(n) as real == 2.0 * Pow2(n - 1) as real;
    }
  }

  lemma DoubledIs(t: nat, m: nat, h: real, c: real)
    requires m > 0 && h * m as real == 1.0 && IsWeight(c, t as real, h)
    ensures Doubled(t, m) == AtMostOne(2.0 * c)
  {
    var (x, p) := (t as real, m as real);
    assert 2.0 * (x * h) * p == 2.0 * x * (h * p);
    Quotient(2.0 * x, 2.0 * c, p);
  }

  lemma PIsChance(g: nat, l: nat)
    requires g >= l && g > 0
    ensures P(g, l) == AtMostOne(2.0 * Chance(g, l))
  {
    hide *;
    var n := g + l;
    PIs(g, l);
    HalfPow(n);
    ChanceIs(g, l);
    DoubledIs(Tail(n, l), Pow2(n), Half(n), Chance(g, l));
  }

  lemma Quotient(x: real, y: real, p: real)
    requires p > 0.0 && y * p == x
    ensures x / p == y
  {
  }

  lemma ChanceIsP(g: nat, l: nat, g': nat, l': nat)
    requires g >= l && g > 0 && g' >= l' && g' > 0 && Chance(g, l) <= Chance(g', l')
    ensures P(g, l) <= P(g', l')
  {
    PIsChance(g, l);
    PIsChance(g', l');
    hide P, Chance;
  }

  // ---- one cell at a time ----

  // The products are named, so that a step only has to match them.

  predicate IsRise(x: real, q: real, b: real, h: real) { x == q * (b * h) }

  predicate IsWeight(x: real, b: real, h: real) { x == b * h }

  lemma WeightIs(n: nat, k: int)
    requires n >= 1
    ensures IsWeight(Weight(n - 1, k), Binom(n - 1, k) as real, Half(n))
  {
    hide Binom, Half;
  }

  lemma HalfNext(n: nat)
    requires n >= 1
    ensures Half(n - 1) == 2.0 * Half(n)
  {
  }

  lemma ChanceIs(g: nat, l: nat)
    ensures IsWeight(Chance(g, l), Tail(g + l, l) as real, Half(g + l))
  {
    hide Tail, Half;
  }

  /** Pascal's rule for the tail, in terms of one toss less. */
  lemma TailParts(n: nat, l: nat)
    requires n > 0
    ensures Tail(n, l) == Tail(n - 1, l - 1) + Binom(n - 1, l) + Tail(n - 1, l - 1)
    ensures Tail(n - 1, l) == Tail(n - 1, l - 1) + Binom(n - 1, l)
  {
    TailPascal(n - 1, l);
  }

  lemma MoreGlue(wide: real, more: real, w: real, a: real, b: real, h: real, h': real)
    requires IsWeight(wide, a + b + a, h) && IsWeight(more, a + b, h') && IsWeight(w, b, h) && h' == 2.0 * h
    ensures more == wide + w
  {
  }

  lemma LessGlue(wide: real, less: real, w: real, a: real, b: real, h: real, h': real)
    requires IsWeight(wide, a + b + a, h) && IsWeight(less, a, h') && IsWeight(w, b, h) && h' == 2.0 * h
    ensures less == wide - w
  {
  }

  /** Taking a gain away raises the chance by the weight at that cell, and taking a loss away lowers it by as much. */
  lemma OneAway(g: nat, l: nat)
    requires g + l > 0
    ensures g > 0 ==> Chance(g - 1, l) == Chance(g, l) + Weight(g + l - 1, l)
    ensures l > 0 ==> Chance(g, l - 1) == Chance(g, l) - Weight(g + l - 1, l)
  {
    var n := g + l;
    TailParts(n, l);
    HalfNext(n);
    WeightIs(n, l);
    ChanceIs(g, l);
    hide *;
    var (a, b) := (Tail(n - 1, l - 1) as real, Binom(n - 1, l) as real);
    assert Tail(n, l) as real == a + b + a && Tail(n - 1, l) as real == a + b;
    if g > 0 {
      ChanceIs(g - 1, l);
      MoreGlue(Chance(g, l), Chance(g - 1, l), Weight(n - 1, l), a, b, Half(n), Half(n - 1));
    }
    if l > 0 {
      ChanceIs(g, l - 1);
      LessGlue(Chance(g, l), Chance(g, l - 1), Weight(n - 1, l), a, b, Half(n), Half(n - 1));
    }
  }

  lemma {:induction false} FewerGains(g: nat, l: nat, g': nat)
    requires g' <= g
    ensures Chance(g, l) <= Chance(g', l)
    decreases g - g'
  {
    hide Chance;
    if g' < g {
      OneAway(g, l);
      FewerGains(g - 1, l, g');
    }
  }

  // ---- binomial coefficients side by side ----

  lemma AbsorbGlue(n: int, k: int, u: int, v: int, w: int)
    requires k * (v + w) == (n - 1) * v && (k - 1) * (u + v) == (n - 1) * u
    ensures k * (u + v + (v + w)) == n * (u + v)
    ensures (n - k) * (u + v + (v + w)) == n * (v + w)
  {
    var (x, y) := (u + v, v + w);
    assert k * x == (k - 1) * x + x;
    assert (n - 1) * u + (n - 1) * v == (n - 1) * x;
    assert (n - 1) * x + x == n * x;
    assert k * (x + y) == k * x + k * y;
    assert (n - k) * (x + y) == n * (x + y) - k * (x + y);
    assert n * (x + y) == n * x + n * y;
  }

  lemma {:induction false} Absorbs(n: nat, k: int)
    requires n > 0
    ensures k * Binom(n, k) == n * Binom(n - 1, k - 1)
    ensures (n - k) * Binom(n, k) == n * Binom(n - 1, k)
  {
    if n > 1 {
      Absorbs(n - 1, k);
      Absorbs(n - 1, k - 1);
      assert Binom(n, k) == Binom(n - 1, k - 1) + Binom(n - 1, k);
      assert Binom(n - 1, k - 1) == Binom(n - 2, k - 2) + Binom(n - 2, k - 1);
      assert Binom(n - 1, k) == Binom(n - 2, k - 1) + Binom(n - 2, k);
      hide Binom;
      AbsorbGlue(n, k, Binom(n - 2, k - 2), Binom(n - 2, k - 1), Binom(n - 2, k));
    }
  }

  /** One coefficient over the one before it. */
  lemma Neighbours(m: nat, l: nat)
    requires m > 0
    ensures l * Binom(m, l) == (m - l + 1) * Binom(m, l - 1)
  {
    Absorbs(m, l);
    Absorbs(m, l - 1);
    hide Binom;
  }

  lemma {:induction false} WiderIsMore(m: nat, n: nat, k: int)
    requires m <= n
    ensures Binom(m, k) <= Binom(n, k)
  {
    if m < n {
      WiderIsMore(m, n - 1, k);
    }
  }

  // ---- more than two gained for each lost: each loss goes with two gains or more ----

  /** What taking `k` gains away raises the chance by at least. */
  function Rise(n: nat, k: nat, l: nat): real
    requires k <= n
  {
    (Pow2(k) - 1) as real * (Binom(n - k, l) as real * Half(n))
  }

  lemma RiseIs(n: nat, k: nat, l: nat)
    requires k <= n
    ensures IsRise(Rise(n, k, l), (Pow2(k) - 1) as real, Binom(n - k, l) as real, Half(n))
  {
    hide Binom, Half, Pow2;
  }

  lemma RiseGlue(next: real, rise: real, weight: real, top: real, b: real, h: real, p: real, q: real)
    requires IsRise(next, q, b, h) && IsRise(rise, p, b, 2.0 * h) && IsWeight(weight, top, h)
    requires q == 2.0 * p + 1.0 && top >= b && h > 0.0
    ensures next <= weight + rise
  {
    ScaleUp(b, top, h);
    var x := b * h;
    assert p * (b * (2.0 * h)) == 2.0 * p * x;
    assert (2.0 * p + 1.0) * x == 2.0 * p * x + x;
  }

  lemma RiseNext(n: nat, k: nat, l: nat)
    requires 1 <= k <= n
    ensures Rise(n, k, l) <= Weight(n - 1, l) + Rise(n - 1, k - 1, l)
  {
    WiderIsMore(n - k, n - 1, l);
    TwiceLessOne(k);
    HalfNext(n);
    RiseIs(n, k, l);
    RiseIs(n - 1, k - 1, l);
    WeightIs(n, l);
    assert n - 1 - (k - 1) == n - k;
    hide *;
    RiseGlue(Rise(n, k, l), Rise(n - 1, k - 1, l), Weight(n - 1, l), Binom(n - 1, l) as real, Binom(n - k, l) as real,
             Half(n), (Pow2(k - 1) - 1) as real, (Pow2(k) - 1) as real);
  }

  lemma TwiceLessOne(k: nat)
    requires k >= 1
    ensures (Pow2(k) - 1) as real == 2.0 * (Pow2(k - 1) - 1) as real + 1.0
  {
  }

  lemma NoRise(n: nat, l: nat)
    ensures Rise(n, 0, l) == 0.0
  {
    assert (Pow2(0) - 1) as real == 0.0;
    hide Binom, Half;
    assert 0.0 * (Binom(n, l) as real * Half(n)) == 0.0;
  }

  /** Taking `k` gains away raises the chance by this much at least. */
  lemma {:induction false} GainsAway(g: nat, l: nat, k: nat)
    requires k <= g
    ensures Chance(g - k, l) >= Chance(g, l) + Rise(g + l, k, l)
    decreases k
  {
    hide *;
    if k == 0 {
      NoRise(g + l, l);
    } else {
      GainsAway(g - 1, l, k - 1);
      OneAway(g, l);
      RiseNext(g + l, k, l);
      assert g - 1 - (k - 1) == g - k && g - 1 + l == g + l - 1;
    }
  }

  predicate IsWider(x: real, q: real, h: real) { x == (q + 1.0) * h }

  predicate IsEnough(q: real, b: real, w: real) { q * b >= (q + 1.0) * w }

  lemma PaysGlue(rise: real, weight: real, b: real, w: real, h: real, wider: real, q: real)
    requires IsRise(rise, q, b, h) && IsWeight(weight, w, wider) && IsWider(wider, q, h) && IsEnough(q, b, w) && h > 0.0
    ensures rise >= weight
  {
    assert q * (b * h) == (q * b) * h;
    assert w * ((q + 1.0) * h) == ((q + 1.0) * w) * h;
    ScaleUp((q + 1.0) * w, q * b, h);
  }

  lemma HalfApartBy(n: nat, k: nat, q: nat)
    requires k <= n && Pow2(k) == q + 1
    ensures IsWider(Half(n - k), q as real, Half(n))
  {
    HalfApart(n - k, k);
    assert n - k + k == n && Pow2(k) as real == q as real + 1.0;
    hide Half, Pow2;
  }

  /** That pays for one loss, if the gains that stay are few enough for `k`. */
  lemma RisePays(n: nat, k: nat, l: nat, stay: nat, q: nat)
    requires 1 <= l && 1 <= k && n == stay + k + l && Pow2(k) == q + 1 && stay <= q * l
    ensures Rise(n, k, l) >= Weight(n - k - 1, l)
  {
    RiseIs(n, k, l);
    WeightIs(n - k, l);
    HalfApartBy(n, k, q);
    EnoughGains(n - k - 1, l, q, stay);
    hide *;
    PaysGlue(Rise(n, k, l), Weight(n - k - 1, l), Binom(n - k, l) as real, Binom(n - k - 1, l) as real, Half(n),
             Half(n - k), q as real);
  }

  /** Taking `k` gains and a loss away never lowers the chance, if the gains that stay are few enough for `k`. */
  lemma GainsAndLossAway(g: nat, l: nat, k: nat, q: nat)
    requires 1 <= l && 1 <= k <= g && Pow2(k) == q + 1 && g - k <= q * l
    ensures Chance(g, l) <= Chance(g - k, l - 1)
  {
    hide *;
    GainsAway(g, l, k);
    OneAway(g - k, l);
    RisePays(g + l, k, l, g - k, q);
    assert g - k + l - 1 == g + l - k - 1;
  }

  lemma ScaleUp(x: real, y: real, h: real)
    requires x <= y && h >= 0.0
    ensures x * h <= y * h
  {
  }

  lemma {:induction false} HalfApart(m: nat, k: nat)
    ensures Half(m) == Pow2(k) as real * Half(m + k)
  {
    if k > 0 {
      HalfApart(m, k - 1);
      assert Pow2(k) as real == 2.0 * Pow2(k - 1) as real;
      assert Half(m + k) == Half(m + k - 1) / 2.0;
    }
  }

  lemma EnoughGains(m: nat, l: nat, q: nat, stay: nat)
    requires l >= 1 && m == stay + l - 1 && stay <= q * l
    ensures IsEnough(q as real, Binom(m + 1, l) as real, Binom(m, l) as real)
  {
    assert Binom(m + 1, l) == Binom(m, l - 1) + Binom(m, l);
    NextFew(m, l, q, stay);
    hide Binom;
    EnoughGlue(q, Binom(m, l - 1), Binom(m, l));
    Products(q, Binom(m + 1, l));
    Products(q + 1, Binom(m, l));
    assert (q + 1) as real == q as real + 1.0;
  }

  lemma NextFew(m: nat, l: nat, q: nat, stay: nat)
    requires l >= 1 && m == stay + l - 1 && stay <= q * l
    ensures Binom(m, l) <= q * Binom(m, l - 1)
  {
    if m == 0 {
      assert Binom(0, 1) == 0;
      hide Binom;
      assert q * Binom(m, l - 1) >= 0;
    } else {
      Neighbours(m, l);
      hide Binom;
      FewGlue(l, Binom(m, l), Binom(m, l - 1), q, stay);
    }
  }

  lemma FewGlue(l: nat, y: nat, x: nat, q: nat, stay: nat)
    requires l >= 1 && l * y == stay * x && stay <= q * l
    ensures y <= q * x
  {
    assert stay * x <= (q * l) * x;
    assert (q * l) * x == l * (q * x);
    CancelLeft(l, y, q * x);
  }

  lemma EnoughGlue(q: nat, x: nat, y: nat)
    requires y <= q * x
    ensures q * (x + y) >= (q + 1) * y
  {
    assert q * (x + y) == q * x + q * y;
  }

  lemma CancelLeft(l: nat, y: nat, z: nat)
    requires l >= 1
    ensures l * y <= l * z ==> y <= z
  {
    if y > z {
      assert l * y >= l * (z + 1) == l * z + l;
    }
  }

  lemma {:induction false} PowBeats(k: nat)
    requires k >= 2
    ensures k + 1 <= Pow2(k) - 1
  {
    if k > 2 {
      PowBeats(k - 1);
    } else {
      assert Pow2(1) == 2 && Pow2(2) == 4;
    }
  }

  /** The gains that go with what is left of the losses, rounded down. */
  function GainsFor(g: nat, l: nat, left: nat): nat
    requires l > 0
  {
    g * left / l
  }

  lemma GainsForIs(g: nat, l: nat, left: nat)
    requires l > 0
    ensures GainsFor(g, l, left) * l <= g * left < (GainsFor(g, l, left) + 1) * l
  {
    var (x, q) := (g * left, g * left / l);
    assert x == q * l + x % l;
    assert (q + 1) * l == q * l + l;
  }

  /** Between two such counts, with two gained for each lost or more. */
  lemma GainsForStep(g: nat, l: nat, left: nat)
    requires l > 0 && g >= 2 * l && left > 0
    ensures var (a, b) := (GainsFor(g, l, left), GainsFor(g, l, left - 1));
            a >= b + 2 && b <= (a - b + 1) * left
  {
    var (a, b) := (GainsFor(g, l, left), GainsFor(g, l, left - 1));
    GainsForIs(g, l, left);
    GainsForIs(g, l, left - 1);
    hide GainsFor;
    assert g * left == g * (left - 1) + g;
    var k := a - b;
    assert (a + 1) * l == a * l + l;
    assert k * l == a * l - b * l;
    assert k * l > g - l >= l;
    Monotone(l, k, 1);
    assert (k + 1) * l == k * l + l;
    Monotone(left - 1, g, (k + 1) * l);
    Monotone(k + 1, left - 1, left);
    assert ((k + 1) * l) * (left - 1) == l * ((k + 1) * (left - 1));
    Monotone(l, (k + 1) * (left - 1), (k + 1) * left);
    CancelLeft(l, b, (k + 1) * left);
  }

  lemma Monotone(l: nat, x: int, y: int)
    ensures x <= y ==> l * x <= l * y
  {
  }

  lemma OneLossDown(g: nat, l: nat, left: nat)
    requires l > 0 && g >= 2 * l && left > 0
    ensures Chance(GainsFor(g, l, left), left) <= Chance(GainsFor(g, l, left - 1), left - 1)
  {
    var (a, b) := (GainsFor(g, l, left), GainsFor(g, l, left - 1));
    GainsForStep(g, l, left);
    var (k, q) := (a - b, Pow2(a - b) - 1);
    PowBeats(k);
    hide *;
    Monotone(left, k + 1, q);
    GainsAndLossAway(a, left, k, q);
  }

  /** Down the losses, the gains following in proportion, the chance never falls. */
  lemma {:induction false} DownTheLosses(g: nat, l: nat, left: nat)
    requires l > 0 && g >= 2 * l && left <= l
    ensures Chance(g, l) <= Chance(GainsFor(g, l, left), left)
    decreases l - left
  {
    hide *;
    if left == l {
      AllGains(g, l);
    } else {
      DownTheLosses(g, l, left + 1);
      OneLossDown(g, l, left + 1);
    }
  }

  lemma AllGains(g: nat, l: nat)
    requires l > 0
    ensures GainsFor(g, l, l) == g
  {
    GainsForIs(g, l, l);
    hide GainsFor;
    var a := GainsFor(g, l, l);
    CancelLeft(l, a, g);
    CancelLeft(l, g + 1, a + 1);
    assert (a + 1) * l == l * (a + 1) && l * (g + 1) == g * l + l;
    if a < g {
      Monotone(l, a + 1, g);
      assert false;
    }
  }

  // ---- up to two gained for each lost: each gain over the losses goes with some even pairs ----

  /** The weight where `b` are lost and e more than that gained. */
  function At(b: nat, e: nat): real
    requires b + e >= 1
  {
    Weight(2 * b + e - 1, b)
  }

  /** Taking an even pair away lowers the chance by the one weight less the other. */
  lemma PairAway(b: nat, e: nat)
    requires b >= 1 && e >= 2
    ensures Chance(b + e - 2, b - 1) == Chance(b + e - 1, b) - (Weight(2 * b + e - 3, b) - Weight(2 * b + e - 2, b))
  {
    OneAway(b + e - 1, b);
    OneAway(b + e - 2, b);
    hide Chance, Weight;
    assert b + e - 1 + b - 1 == 2 * b + e - 2 && b + e - 2 + b - 1 == 2 * b + e - 3;
  }

  lemma PairGlue(b: real, gap: real, x: real, y: real, h: real)
    requires b * y == (b + gap) * x
    ensures 2.0 * b * (y * h - (x + y) * (h / 2.0)) == gap * (x * h)
  {
    assert b * (y - x) == gap * x;
    assert 2.0 * b * (y * h - (x + y) * (h / 2.0)) == (b * (y - x)) * h;
  }

  /** What taking an even pair away costs. */
  function Cost(b: nat, e: nat): real
    requires b >= 1 && e >= 2
  {
    Weight(2 * b + e - 3, b) - Weight(2 * b + e - 2, b)
  }

  predicate IsCost(c: real, top: real, gap: real, a: real) { top * c == gap * a }

  lemma CostGlue(b: real, gap: real, x: real, y: real, h: real, w0: real, w1: real, a: real)
    requires b * y == (b + gap) * x && IsWeight(w0, y, h) && IsWeight(w1, x + y, h / 2.0) && IsWeight(a, x, h)
    ensures IsCost(w0 - w1, 2.0 * b, gap, a)
  {
    PairGlue(b, gap, x, y, h);
  }

  lemma PairNeighbours(b: nat, m: nat, gap: nat)
    requires b >= 1 && m - b + 1 == b + gap
    ensures b as real * Binom(m, b) as real == (b as real + gap as real) * Binom(m, b - 1) as real
  {
    assert m > 0;
    Neighbours(m, b);
    hide Binom;
    Products(b, Binom(m, b));
    Products(b + gap, Binom(m, b - 1));
  }

  lemma NextBinom(m: nat, b: int)
    ensures Binom(m + 1, b) as real == Binom(m, b - 1) as real + Binom(m, b) as real
  {
  }

  lemma PairWeights(b: nat, e: nat)
    requires b >= 1 && e >= 2
    ensures var m: nat := 2 * b + e - 3;
            At(b - 1, e) == Weight(m, b - 1) && Cost(b, e) == Weight(m, b) - Weight(m + 1, b)
  {
    hide Weight;
    assert 2 * (b - 1) + e - 1 == 2 * b + e - 3;
  }

  /** In terms of the weight one loss down. */
  lemma PairCost(b: nat, e: nat)
    requires b >= 1 && e >= 2
    ensures IsCost(Cost(b, e), 2.0 * b as real, (e - 2) as real, At(b - 1, e))
  {
    hide *;
    var m: nat := 2 * b + e - 3;
    PairWeights(b, e);
    PairNeighbours(b, m, e - 2);
    WeightIs(m + 1, b);
    WeightIs(m + 2, b);
    WeightIs(m + 1, b - 1);
    NextBinom(m, b);
    HalfNext(m + 2);
    CostGlue(b as real, (e - 2) as real, Binom(m, b - 1) as real, Binom(m, b) as real, Half(m + 1), Weight(m, b),
             Weight(m + 1, b), At(b - 1, e));
  }

  lemma TwoFactors(b: nat, n: nat)
    requires b <= n
    ensures 4 * (b * (n - b)) <= n * n
  {
    var d := n - 2 * b;
    assert d * d >= 0;
    assert d * d == n * n - 4 * (b * (n - b));
  }

  lemma ThreeFactors(b: nat, c: nat, n: nat, x: nat, z: nat, y: nat)
    requires b * z == n * y && c * y == (n - 1) * x
    ensures (b * c) * z == n * ((n - 1) * x)
  {
    assert (b * c) * z == c * (b * z);
    assert c * (n * y) == n * (c * y);
  }

  lemma GrowEnd(f: nat, n: nat, u: nat, z: nat)
    requires n >= 1 && f * z == n * u && 4 * f <= n * n
    ensures 4 * u <= z * n
  {
    Monotone(z, 4 * f, n * n);
    assert z * (4 * f) == 4 * (n * u) == n * (4 * u);
    assert z * (n * n) == n * (z * n);
    CancelLeft(n, 4 * u, z * n);
  }

  lemma GrowGlue(b: nat, n: nat, x: nat, z: nat, y: nat)
    requires n >= 2 && b <= n
    requires b * z == n * y && (n - b) * y == (n - 1) * x
    ensures 4 * x * (n - 1) <= z * (n + 1)
  {
    TwoFactors(b, n);
    ThreeFactors(b, n - b, n, x, z, y);
    GrowEnd(b * (n - b), n, (n - 1) * x, z);
    Reorder(x, n, z);
  }

  lemma Reorder(x: nat, n: nat, z: nat)
    requires n >= 1 && 4 * ((n - 1) * x) <= z * n
    ensures 4 * x * (n - 1) <= z * (n + 1)
  {
    assert 4 * x * (n - 1) == 4 * ((n - 1) * x);
    assert z * (n + 1) == z * n + z;
  }

  predicate Steeper(x: real, m: real, z: real, n: real) { x * m <= z * n }

  lemma FourTimes(x: real, z: real, m: real, n: real, h: real, wide: real, w: real, w': real)
    requires IsWeight(w, x, wide) && wide == 4.0 * h && IsWeight(w', z, h) && h > 0.0 && 4.0 * x * m <= z * n
    ensures Steeper(w, m, w', n)
  {
    ScaleUp(4.0 * x * m, z * n, h);
    assert w * m == (4.0 * x * m) * h;
    assert w' * n == (z * n) * h;
  }

  lemma GrowWhole(b: nat, n: nat)
    requires 1 <= b <= n && n >= 2
    ensures 4 * Binom(n - 2, b - 1) * (n - 1) <= Binom(n, b) * (n + 1)
  {
    Absorbs(n, b);
    Absorbs(n - 1, b - 1);
    assert n - 1 - (b - 1) == n - b;
    hide Binom;
    GrowGlue(b, n, Binom(n - 2, b - 1), Binom(n, b), Binom(n - 1, b - 1));
  }

  lemma RealOrder(x: nat, m: nat, z: nat, p: nat)
    requires 4 * x * m <= z * p
    ensures 4.0 * x as real * m as real <= z as real * p as real
  {
    Products(4 * x, m);
    Products(z, p);
    assert (4 * x) as real == 4.0 * x as real;
  }

  lemma GrowReal(b: nat, n: nat)
    requires 1 <= b <= n && n >= 2
    ensures 4.0 * Binom(n - 2, b - 1) as real * (n - 1) as real <= Binom(n, b) as real * (n + 1) as real
  {
    GrowWhole(b, n);
    hide *;
    RealOrder(Binom(n - 2, b - 1), n - 1, Binom(n, b), n + 1);
  }

  /** One loss further up at the same gap the weight falls in proportion to the cells at most. */
  lemma WeightGrows(b: nat, e: nat)
    requires b >= 1 && e >= 2
    ensures Steeper(At(b - 1, e), (2 * b + e - 2) as real, At(b, e), (2 * b + e) as real)
  {
    hide *;
    var n: nat := 2 * b + e - 1;
    GrowReal(b, n);
    WeightIs(n - 1, b - 1);
    WeightIs(n + 1, b);
    AtBoth(b, e);
    HalfNext(n);
    HalfNext(n + 1);
    assert Half(n + 1) > 0.0;
    FourTimes(Binom(n - 2, b - 1) as real, Binom(n, b) as real, (n - 1) as real, (n + 1) as real, Half(n + 1),
              Half(n - 1), At(b - 1, e), At(b, e));
  }

  lemma AtBoth(b: nat, e: nat)
    requires b >= 1 && e >= 2
    ensures var n: nat := 2 * b + e - 1; At(b - 1, e) == Weight(n - 2, b - 1) && At(b, e) == Weight(n, b)
  {
    hide Weight;
    assert 2 * (b - 1) + e - 1 == 2 * b + e - 3;
  }

  lemma SteeperTrans(x: real, m: real, y: real, n: real, z: real, p: real)
    requires Steeper(x, m, y, n) && Steeper(y, n, z, p)
    ensures Steeper(x, m, z, p)
  {
  }

  /** So the weights below a cell are bounded by the one there. */
  lemma {:induction false} WeightBound(b: nat, e: nat, low: nat)
    requires low <= b && e >= 2
    ensures Steeper(At(low, e), (2 * low + e) as real, At(b, e), (2 * b + e) as real)
    decreases b - low
  {
    if low < b {
      WeightBound(b, e, low + 1);
      WeightGrows(low + 1, e);
      assert 2 * (low + 1) + e - 2 == 2 * low + e;
      hide *;
      SteeperTrans(At(low, e), (2 * low + e) as real, At(low + 1, e), (2 * (low + 1) + e) as real, At(b, e),
                   (2 * b + e) as real);
    } else {
      hide At;
    }
  }

  // ---- one gain away pays for the even pairs that go with it ----

  /** Enough of the losses stay for each of `k` pairs to cost at most a k-th of the gain's weight. */
  predicate Sparse(b: nat, e: nat, k: nat) { e >= 3 && b >= e && k * e <= b + e - 2 }

  lemma SparseSquares(e: int, k: int)
    requires e >= 3 && k >= 2
    ensures var t := (k - 1) * (e - 1) + 2; 2 * (t * t) >= k * ((e - 2) * (2 * k - 2 + e))
  {
    var (d, j) := (e - 3, k - 2);
    var t := (k - 1) * (e - 1) + 2;
    assert t == (j + 1) * (d + 2) + 2;
    assert (j + 1) * (d + 2) == j * d + 2 * j + d + 2;
    assert k * ((e - 2) * (2 * k - 2 + e)) == (j + 2) * ((d + 1) * (2 * j + d + 5));
    Expand(j, d);
  }

  lemma Expand(j: nat, d: nat)
    ensures var t := j * d + 2 * j + d + 4; 2 * (t * t) >= (j + 2) * ((d + 1) * (2 * j + d + 5))
  {
    var p := j * d;
    SquareOfFour(p, 2 * j, d);
    assert (2 * j) * (2 * j) == 4 * (j * j) && p * (2 * j) == 2 * (p * j) && (2 * j) * d == 2 * p;
    ProductOfThree(j, d);
    assert p * j >= 0 && p * d >= 0 && p * p >= 0 && j * j >= 0 && d * d >= 0;
    hide *;
  }

  lemma SquareOfFour(x: nat, y: nat, z: nat)
    ensures var t := x + y + z + 4;
            t * t == x * x + y * y + z * z + 2 * (x * y) + 2 * (x * z) + 2 * (y * z) + 8 * x + 8 * y + 8 * z + 16
  {
    var (t, u) := (x + y + z + 4, y + z + 4);
    assert t * t == x * x + 2 * (x * u) + u * u;
    assert x * u == x * y + x * z + 4 * x;
    assert u * u == y * y + 2 * (y * (z + 4)) + (z + 4) * (z + 4);
  }

  lemma ProductOfThree(j: nat, d: nat)
    ensures (j + 2) * ((d + 1) * (2 * j + d + 5))
         == 2 * ((j * d) * j) + (j * d) * d + 10 * (j * d) + 2 * (j * j) + 9 * j + 2 * (d * d) + 12 * d + 10
  {
    var w := (d + 1) * (2 * j + d + 5);
    assert w == 2 * (j * d) + d * d + 6 * d + 2 * j + 5;
    assert (j + 2) * w == j * w + 2 * w;
    assert j * w == 2 * (j * (j * d)) + j * (d * d) + 6 * (j * d) + 2 * (j * j) + 5 * j;
    assert j * (d * d) == (j * d) * d;
  }

  lemma ProductsUp(x: nat, y: nat, x': nat, y': nat)
    requires x <= x' && y <= y'
    ensures x * y <= x' * y'
  {
    Monotone(x, y, y');
    Monotone(y', x, x');
  }

  lemma SparseLow(b: nat, e: nat, k: nat)
    requires Sparse(b, e, k) && k >= 1
    ensures k <= b && b - k + 1 >= (k - 1) * (e - 1) + 2 && (k == 1 ==> b - k + 1 >= e)
  {
    assert k * e == (k - 1) * e + e;
    assert (k - 1) * e == (k - 1) * (e - 1) + (k - 1);
    assert (k - 1) * (e - 1) >= 0;
  }

  /** The inequality behind it: `low` is what is left of the losses, all but the pairs taken before. */
  lemma SparseRoom(b: nat, e: nat, k: nat, low: nat)
    requires Sparse(b, e, k) && k >= 1 && b - k + 1 <= low <= b
    ensures k * (e - 2) * (2 * b + e) <= (2 * low) * (2 * low + e - 2)
  {
    SparseLow(b, e, k);
    var t := b - k + 1;
    SparseRoomAt(t, e, k);
    assert 2 * t + 2 * k - 2 + e == 2 * b + e;
    ProductsUp(2 * t, 2 * t + e - 2, 2 * low, 2 * low + e - 2);
  }

  lemma SparseRoomAt(t: nat, e: nat, k: nat)
    requires e >= 3 && k >= 1 && t >= (k - 1) * (e - 1) + 2 && (k == 1 ==> t >= e)
    ensures k * (e - 2) * (2 * t + 2 * k - 2 + e) <= (2 * t) * (2 * t + e - 2)
  {
    if k == 1 {
      Monotone(t, e, t);
      Monotone(e, e, t);
      assert (e - 2) * (2 * t + e) == 2 * (t * e) - 4 * t + e * e - 2 * e;
      assert (2 * t) * (2 * t + e - 2) == 4 * (t * t) + 2 * (t * e) - 4 * t;
      assert 1 * (e - 2) * (2 * t + e) == (e - 2) * (2 * t + e);
    } else {
      var s := (k - 1) * (e - 1) + 2;
      SparseSquares(e, k);
      Monotone(t, s, t);
      Monotone(s, s, t);
      assert (k - 1) * (e - 1) == (k - 1) * (e - 2) + (k - 1);
      Monotone(t, (k - 1) * (e - 2), t);
      SparseEnd(t, e, k);
    }
  }

  lemma SplitProduct(a: int, t: int, w: int)
    ensures a * (2 * t + w) == 2 * (t * a) + a * w
  {
    assert a * (2 * t) == 2 * (t * a);
  }

  lemma Reassociated(x: int, y: int, z: int)
    ensures x * y * z == x * (y * z)
  {
  }

  lemma OneTimesLess(t: int, k: int, d: int)
    ensures t * (k * d) == t * ((k - 1) * d) + t * d
  {
    assert k * d == (k - 1) * d + d;
  }

  lemma TwiceSquared(t: int, d: int)
    ensures (2 * t) * (2 * t + d) == 4 * (t * t) + 2 * (t * d)
  {
    assert (2 * t) * (2 * t) == 4 * (t * t) && (2 * t) * d == 2 * (t * d);
  }

  lemma SparseEnd(t: nat, e: nat, k: nat)
    requires e >= 3 && k >= 1
    requires 2 * (t * t) >= k * ((e - 2) * (2 * k - 2 + e)) && t * ((k - 1) * (e - 2)) <= t * t
    ensures k * (e - 2) * (2 * t + 2 * k - 2 + e) <= (2 * t) * (2 * t + e - 2)
  {
    SplitProduct(k * (e - 2), t, 2 * k - 2 + e);
    Reassociated(k, e - 2, 2 * k - 2 + e);
    OneTimesLess(t, k, e - 2);
    TwiceSquared(t, e - 2);
    assert 2 * t + 2 * k - 2 + e == 2 * t + (2 * k - 2 + e) && 2 * t + e - 2 == 2 * t + (e - 2);
  }

  lemma AtLeastNothing(b: nat, e: nat)
    requires b + e >= 1
    ensures At(b, e) >= 0.0
  {
    var n := 2 * b + e;
    WeightIs(n, b);
    hide Binom, Half, Weight;
    NotNegative(Binom(n - 1, b) as real, Half(n));
  }

  lemma NotNegative(x: real, y: real)
    requires x >= 0.0 && y >= 0.0
    ensures x * y >= 0.0
  {
  }

  predicate IsRoom(k: real, gap: real, n: real, top: real, m: real) { k * gap * n <= top * m }

  lemma CostIs(b: nat, e: nat)
    requires b >= 1 && e >= 2
    ensures IsCost(Cost(b, e), (2 * b) as real, (e - 2) as real, At(b - 1, e))
  {
    PairCost(b, e);
    assert (2 * b) as real == 2.0 * b as real;
    hide At, Weight;
  }

  lemma BoundGlue(k: real, c: real, top: real, a: real, m: real, w: real, n: real, gap: real)
    requires IsCost(c, top, gap, a) && Steeper(a, m, w, n) && IsRoom(k, gap, n, top, m)
    requires k >= 0.0 && gap >= 0.0 && w >= 0.0 && top > 0.0 && m > 0.0
    ensures k * c <= w
  {
    NotNegative(k, gap);
    ScaleUp(a * m, w * n, k * gap);
    ScaleUp(k * gap * n, top * m, w);
    assert (k * c) * (top * m) == (k * m) * (top * c) == (a * m) * (k * gap);
    assert (w * n) * (k * gap) == (k * gap * n) * w;
    assert (top * m) * w == w * (top * m);
    CancelReal(k * c, w, top * m);
  }

  lemma CancelReal(x: real, y: real, c: real)
    requires c > 0.0 && x * c <= y * c
    ensures x <= y
  {
    MulIsMonotone(x, y, c);
  }

  lemma RoomAsReals(k: nat, gap: nat, n: nat, top: nat, m: nat)
    requires k * gap * n <= top * m
    ensures IsRoom(k as real, gap as real, n as real, top as real, m as real)
  {
    Products(k, gap);
    Products(k * gap, n);
    Products(top, m);
  }

  lemma RoomFor(b: nat, e: nat, k: nat, low: nat)
    requires Sparse(b, e, k) && k >= 1 && b - k + 1 <= low <= b
    ensures IsRoom(k as real, (e - 2) as real, (2 * b + e) as real, (2 * low) as real, (2 * low + e - 2) as real)
  {
    SparseRoom(b, e, k, low);
    RoomAsReals(k, e - 2, 2 * b + e, 2 * low, 2 * low + e - 2);
  }

  lemma SparseGap(b: nat, e: nat, k: nat)
    requires Sparse(b, e, k)
    ensures e >= 3
  {
  }

  /** Each of the pairs costs at most a k-th of the weight the gain was worth. */
  lemma PairBound(b: nat, e: nat, k: nat, low: nat)
    requires Sparse(b, e, k) && k >= 1 && 1 <= low && b - k + 1 <= low <= b
    ensures k as real * Cost(low, e) <= At(b, e)
  {
    hide *;
    SparseGap(b, e, k);
    CostIs(low, e);
    WeightBound(b, e, low - 1);
    RoomFor(b, e, k, low);
    AtLeastNothing(b, e);
    assert 2 * (low - 1) + e == 2 * low + e - 2;
    BoundGlue(k as real, Cost(low, e), (2 * low) as real, At(low - 1, e), (2 * low + e - 2) as real, At(b, e),
              (2 * b + e) as real, (e - 2) as real);
  }

  predicate PaysFor(k: real, now: real, was: real, i: real, w: real) { k * now >= k * was - i * w }

  lemma PaysOneMore(k: real, next: real, now: real, was: real, i: real, w: real, c: real)
    requires PaysFor(k, now, was, i, w) && next == now - c && k * c <= w
    ensures PaysFor(k, next, was, i + 1.0, w)
  {
    assert k * next == k * now - k * c;
    assert (i + 1.0) * w == i * w + w;
  }

  lemma {:induction false} PairsAway(b: nat, e: nat, k: nat, i: nat)
    requires Sparse(b, e, k) && 1 <= k <= b && i <= k
    ensures PaysFor(k as real, Chance(b - i + e - 1, b - i), Chance(b + e - 1, b), i as real, At(b, e))
  {
    if i == 0 {
      hide Chance, At;
    } else {
      PairsAway(b, e, k, i - 1);
      var low := b - i + 1;
      PairBound(b, e, k, low);
      PairAway(low, e);
      assert low - 1 == b - i && low + e - 2 == b - i + e - 1 && low == b - (i - 1);
      assert (i - 1) as real + 1.0 == i as real;
      hide Chance, At, Weight, PaysFor;
      PaysOneMore(k as real, Chance(b - i + e - 1, b - i), Chance(low + e - 1, low), Chance(b + e - 1, b),
                  (i - 1) as real, At(b, e), Cost(low, e));
    }
  }

  lemma PaidInFull(k: real, now: real, was: real, w: real, first: real)
    requires PaysFor(k, now, was, k, w) && was == first + w && k > 0.0
    ensures first <= now
  {
    assert k * was == k * first + k * w;
    assert first * k == k * first && now * k == k * now;
    CancelReal(first, now, k);
  }

  /** One gain and `k` even pairs taken away never lower the chance. */
  lemma StepDown(b: nat, e: nat, k: nat)
    requires Sparse(b, e, k) && k <= b
    ensures Chance(b + e, b) <= Chance(b - k + e - 1, b - k)
  {
    OneAway(b + e, b);
    if k == 0 {
      FewerGains(b + e, b, b + e - 1);
      hide Chance;
    } else {
      PairsAway(b, e, k, k);
      assert b + e + b - 1 == 2 * b + e - 1;
      assert At(b, e) == Weight(2 * b + e - 1, b);
      hide *;
      PaidInFull(k as real, Chance(b - k + e - 1, b - k), Chance(b + e - 1, b), At(b, e), Chance(b + e, b));
    }
  }

  /** The losses that go with a smaller gap, rounded up. */
  function LossesFor(l: nat, gap: nat, e: nat): nat
    requires gap > 0
  {
    (e * l + gap - 1) / gap
  }

  lemma LossesForIs(l: nat, gap: nat, e: nat)
    requires gap > 0
    ensures (LossesFor(l, gap, e) - 1) * gap < e * l <= LossesFor(l, gap, e) * gap
  {
    var x := e * l + gap - 1;
    var q := x / gap;
    assert x == q * gap + x % gap;
    assert (q - 1) * gap == q * gap - gap;
  }

  lemma LossesForStep(l: nat, gap: nat, e: nat)
    requires 2 <= e < gap <= l
    ensures var (b, c) := (LossesFor(l, gap, e + 1), LossesFor(l, gap, e));
            c <= b && Sparse(b, e + 1, b - c)
  {
    var (b, c) := (LossesFor(l, gap, e + 1), LossesFor(l, gap, e));
    LossesForIs(l, gap, e);
    LossesForIs(l, gap, e + 1);
    hide LossesFor;
    LossesBelow(l, gap, e, b, c);
    LossesEnough(l, gap, e, b, c);
  }

  lemma LossesBelow(l: nat, gap: nat, e: nat, b: nat, c: nat)
    requires 2 <= e < gap <= l && (b - 1) * gap < (e + 1) * l <= b * gap && (c - 1) * gap < e * l <= c * gap
    ensures c <= b && b >= e + 1
  {
    Monotone(e + 1, gap, l);
    CancelLeft(gap, e + 1, b);
    assert (e + 1) * l == e * l + l;
    if c > b {
      Monotone(gap, b, c - 1);
      assert false;
    }
  }

  lemma ScaledSum(e: int, x: int, gap: int)
    ensures e * (x * gap + 1) == gap * (e * x) + e
  {
    assert e * (x * gap) == gap * (e * x);
  }

  lemma Swapped(x: int, y: int, z: int)
    ensures x * (y * z) == y * (x * z) == z * (x * y)
  {
  }

  lemma CancelStrictly(gap: nat, x: int, y: int, e: int)
    requires gap * x + e <= gap * y && e > 0
    ensures x < y
  {
    if y <= x {
      Monotone(gap, y, x);
    }
  }

  lemma LossesLeft(b: int, c: int, e: int)
    requires (e + 1) * c > e * (b - 1)
    ensures (b - c) * (e + 1) <= b + (e + 1) - 2
  {
    assert (b - c) * (e + 1) == b * e + b - (e + 1) * c;
    assert e * (b - 1) == b * e - e;
  }

  lemma LossesEnough(l: nat, gap: nat, e: nat, b: nat, c: nat)
    requires 2 <= e && b >= 1 && c <= b
    requires (b - 1) * gap < (e + 1) * l && e * l <= c * gap
    ensures (b - c) * (e + 1) <= b + (e + 1) - 2
  {
    Monotone(e, (b - 1) * gap + 1, (e + 1) * l);
    Monotone(e + 1, e * l, c * gap);
    ScaledSum(e, b - 1, gap);
    Swapped(e, e + 1, l);
    Swapped(e + 1, c, gap);
    CancelStrictly(gap, e * (b - 1), (e + 1) * c, e);
    LossesLeft(b, c, e);
  }

  /** Down the gap, the losses following in proportion, the chance never falls. */
  lemma {:induction false} DownTheGap(l: nat, gap: nat, e: nat)
    requires 2 <= e <= gap <= l
    ensures Chance(l + gap, l) <= Chance(LossesFor(l, gap, e) + e, LossesFor(l, gap, e))
    decreases gap - e
  {
    if e == gap {
      LossesForIs(l, gap, gap);
      var b := LossesFor(l, gap, gap);
      hide LossesFor, Chance;
      AllLosses(l, gap, b);
    } else {
      DownTheGap(l, gap, e + 1);
      LossesForStep(l, gap, e);
      var (b, c) := (LossesFor(l, gap, e + 1), LossesFor(l, gap, e));
      hide LossesFor, Chance;
      StepDown(b, e + 1, b - c);
      assert b - (b - c) == c && c + (e + 1) - 1 == c + e;
    }
  }

  lemma AllLosses(l: nat, gap: nat, b: nat)
    requires gap > 0 && (b - 1) * gap < gap * l <= b * gap
    ensures b == l
  {
    CancelLeft(gap, l, b);
    if b > l {
      Monotone(gap, l, b - 1);
      assert false;
    }
  }

  lemma NotBelow(c: real, top: real, p: real)
    requires top * c == p && top > 0.0 && p >= 0.0
    ensures c >= 0.0
  {
    MulIsMonotone(0.0, c, top);
  }

  lemma NoCost(b: nat, e: nat)
    requires b >= 1 && e >= 2
    ensures Cost(b, e) >= 0.0
  {
    PairCost(b, e);
    AtLeastNothing(b - 1, e);
    hide At, Weight, Cost;
    NotNegative((e - 2) as real, At(b - 1, e));
    NotBelow(Cost(b, e), 2.0 * b as real, (e - 2) as real * At(b - 1, e));
  }

  /** More losses at the same gap never lower the chance. */
  lemma {:induction false} MorePairs(gap: nat, b: nat, l: nat)
    requires gap >= 1 && b <= l
    ensures Chance(b + gap, b) <= Chance(l + gap, l)
    decreases l - b
  {
    hide Chance;
    if b < l {
      MorePairs(gap, b, l - 1);
      PairAway(l, gap + 1);
      NoCost(l, gap + 1);
      assert l + (gap + 1) - 1 == l + gap && l + (gap + 1) - 2 == l - 1 + gap;
    }
  }

  // ---- the two together ----

  /** The second counts are at most as many gained and lost, and for each loss no more was gained. */
  predicate ScaledDown(g: nat, l: nat, g': nat, l': nat) {
    l <= g && g' <= g && l' <= l && l * g' <= l' * g && l' <= g' + 1
  }

  lemma GainsAreMore(g: nat, l: nat, left: nat, g': nat)
    requires l > 0 && l * g' <= left * g
    ensures g' <= GainsFor(g, l, left)
  {
    GainsForIs(g, l, left);
    var a := GainsFor(g, l, left);
    hide GainsFor;
    assert (a + 1) * l == l * (a + 1) && g * left == left * g;
    Monotone(l, a + 1, g');
  }

  lemma ManyGained(g: nat, l: nat, g': nat, l': nat)
    requires ScaledDown(g, l, g', l') && 0 < l && 2 * l <= g
    ensures Chance(g, l) <= Chance(g', l')
  {
    DownTheLosses(g, l, l');
    GainsAreMore(g, l, l', g');
    hide *;
    FewerGains(GainsFor(g, l, l'), l', g');
  }

  lemma GapsInProportion(g: nat, l: nat, g': nat, l': nat)
    requires ScaledDown(g, l, g', l') && l <= g && l' <= g' && g < 2 * l
    ensures (g' - l') * l <= l' * (g - l) && g' - l' <= g - l
  {
    var (gap, e) := (g - l, g' - l');
    assert l * g' == l * l' + l * e && l' * g == l' * l + l' * gap;
    Monotone(gap, l', l);
    CancelLeft(l, e, gap);
  }

  lemma LossesAreMore(l: nat, gap: nat, e: nat, l': nat)
    requires gap > 0 && e * l <= l' * gap
    ensures LossesFor(l, gap, e) <= l'
  {
    LossesForIs(l, gap, e);
    var b := LossesFor(l, gap, e);
    hide LossesFor;
    Monotone(gap, l' + 1, b);
    assert (b - 1) * gap == b * gap - gap && gap * (l' + 1) == l' * gap + gap;
  }

  lemma FewGained(g: nat, l: nat, g': nat, l': nat)
    requires ScaledDown(g, l, g', l') && g < 2 * l && g' >= l' + 2
    ensures Chance(g, l) <= Chance(g', l')
  {
    var gap: nat := g - l;
    var e: nat := g' - l';
    GapsInProportion(g, l, g', l');
    DownTheGap(l, gap, e);
    LossesAreMore(l, gap, e, l');
    assert l + gap == g && l' + e == g';
    hide *;
    MorePairs(e, LossesFor(l, gap, e), l');
  }

  /** Scaling a gain down never makes it more significant. */
  lemma ScalingNeverLowersP(g: nat, l: nat, g': nat, l': nat)
    requires ScaledDown(g, l, g', l')
    ensures P(g, l) <= P(g', l')
  {
    hide P, Chance;
    if g' <= l' + 1 {
      PIsOneExactly(g', l');
      AtMostOneP(g, l);
    } else if l == 0 {
      PMonotone(g', 0, g, 0);
    } else {
      if 2 * l <= g {
        ManyGained(g, l, g', l');
      } else {
        FewGained(g, l, g', l');
      }
      ChanceIsP(g, l, g', l');
    }
  }
}
