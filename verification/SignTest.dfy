/** harness/paired.py: the exact two-sided sign test, and how it moves with each count. */
module SignTest {
  import opened Common

  function Pow2(n: nat): (p: nat)
    ensures p >= 1
  {
    if n == 0 then 1 else 2 * Pow2(n - 1)
  }

  /** n choose k, 0 outside 0..n. */
  function Binom(n: nat, k: int): nat {
    if n == 0 then (if k == 0 then 1 else 0) else Binom(n - 1, k - 1) + Binom(n - 1, k)
  }

  /** The sum of n choose i for i up to k. */
  function Tail(n: nat, k: int): nat {
    if k < 0 then 0 else Tail(n, k - 1) + Binom(n, k)
  }

  function AtMostOne(x: real): real { if x < 1.0 then x else 1.0 }

  /** Twice the share of the outcomes in the tail, capped at 1. */
  function Doubled(tail: nat, outcomes: nat): real
    requires outcomes > 0
  {
    AtMostOne(2.0 * tail as real / outcomes as real)
  }

  /** Two-sided exact binomial at one half; n = 0 is 1 rather than undefined. */
  function SignTest(k: int, n: int): real {
    if n <= 0 then 1.0
    else Doubled(Tail(n, Min(k, n - k)), Pow2(n))
  }

  /** The p of a paired cell. */
  function P(gained: nat, lost: nat): real { SignTest(Min(lost, gained), lost + gained) }

  // ---- the tail ----

  lemma {:induction false} BinomOutside(n: nat, k: int)
    requires k < 0 || k > n
    ensures Binom(n, k) == 0
  {
    if n > 0 {
      BinomOutside(n - 1, k - 1);
      BinomOutside(n - 1, k);
    }
  }

  lemma {:induction false} TailPascal(n: nat, k: int)
    ensures Tail(n + 1, k) == Tail(n, k) + Tail(n, k - 1)
    decreases Max(k, 0)
  {
    if k == 0 {
      BinomOutside(n, -1);
      assert Tail(n + 1, 0) == Tail(n + 1, -1) + Binom(n + 1, 0);
      assert Tail(n, 0) == Tail(n, -1) + Binom(n, 0);
    } else if k > 0 {
      TailPascal(n, k - 1);
    }
  }

  /** The two tails of a cut make up every outcome. */
  lemma {:induction false} TailComplement(n: nat, k: int)
    ensures Tail(n, k) + Tail(n, n - 1 - k) == Pow2(n)
  {
    if n == 0 {
      TailOfNothing(k);
      TailOfNothing(-1 - k);
    } else {
      assert Pow2(n) == 2 * Pow2(n - 1);
      hide Tail, Pow2;
      TailPascal(n - 1, k);
      TailPascal(n - 1, n - 1 - k);
      TailComplement(n - 1, k);
      TailComplement(n - 1, k - 1);
      assert n - 1 - 1 - k == n - 2 - k && n - 1 - 1 - (k - 1) == n - 1 - k;
    }
  }

  lemma {:induction false} TailOfNothing(k: int)
    ensures Tail(0, k) == if k < 0 then 0 else 1
    decreases Max(k, 0)
  {
    if k > 0 {
      TailOfNothing(k - 1);
    }
  }

  lemma {:induction false} TailMonotone(n: nat, j: int, k: int)
    requires j <= k
    ensures Tail(n, j) <= Tail(n, k)
    decreases k - j
  {
    if j < k {
      TailMonotone(n, j, k - 1);
    }
  }

  lemma {:induction false} BinomPositive(n: nat, k: int)
    requires 0 <= k <= n
    ensures Binom(n, k) > 0
  {
    if n > 0 {
      if k == 0 {
        BinomPositive(n - 1, 0);
      } else {
        BinomPositive(n - 1, k - 1);
      }
    }
  }

  lemma {:induction false} TailOne(n: nat)
    ensures Tail(n, 0) == 1 && Tail(n, 1) == n + 1
  {
    if n > 0 {
      TailOne(n - 1);
      TailPascal(n - 1, 0);
      TailPascal(n - 1, 1);
    }
  }

  // ---- fractions ----

  lemma MulIsMonotone(a: real, b: real, c: real)
    requires c > 0.0
    ensures a <= b <==> a * c <= b * c
  {
  }

  lemma FractionLeq(a: real, b: real, c: real, d: real)
    requires b > 0.0 && d > 0.0
    ensures a / b <= c / d <==> a * d <= c * b
  {
    var x, y := a / b, c / d;
    assert x * b == a && y * d == c;
    MulIsMonotone(x, y, b);
    MulIsMonotone(x * b, y * b, d);
    assert (y * b) * d == (y * d) * b;
  }

  lemma Products(t: nat, m: nat)
    ensures (t * m) as real == t as real * m as real
  {
  }

  lemma CompareDoubled(t: nat, m: nat, t': nat, m': nat)
    requires m > 0 && m' > 0 && t * m' <= t' * m
    ensures Doubled(t, m) <= Doubled(t', m')
  {
    var a, b, c, d := t as real, m as real, t' as real, m' as real;
    Products(t, m');
    Products(t', m);
    FractionLeq(2.0 * a, b, 2.0 * c, d);
    assert (2.0 * a) * d == 2.0 * (a * d) && (2.0 * c) * b == 2.0 * (c * b);
  }

  lemma DoubledIsOne(t: nat, m: nat)
    requires m > 0
    ensures Doubled(t, m) == 1.0 <==> 2 * t >= m
    ensures Doubled(t, m) <= 1.0
  {
    FractionLeq(1.0, 1.0, 2.0 * t as real, m as real);
  }

  /** Doubling the outcomes while at most doubling the tail. */
  lemma DoubledStep(t: nat, t': nat, m: nat)
    requires m > 0
    ensures t' <= 2 * t ==> Doubled(t', 2 * m) <= Doubled(t, m)
    ensures t' >= 2 * t ==> Doubled(t, m) <= Doubled(t', 2 * m)
  {
    if t' <= 2 * t {
      assert t' * m <= (2 * t) * m == t * (2 * m);
      CompareDoubled(t', 2 * m, t, m);
    }
    if t' >= 2 * t {
      assert t' * m >= (2 * t) * m == t * (2 * m);
      CompareDoubled(t, m, t', 2 * m);
    }
  }

  lemma PIs(g: nat, l: nat)
    requires g + l > 0
    ensures P(g, l) == Doubled(Tail(g + l, Min(g, l)), Pow2(g + l))
  {
  }

  // ---- monotone in each count, on the side where more were gained than lost ----

  lemma GainingLowersP(g: nat, l: nat)
    requires l <= g
    ensures P(g + 1, l) <= P(g, l)
  {
    var n := g + l;
    PIs(g + 1, l);
    DoubledIsOne(Tail(n + 1, l), Pow2(n + 1));
    if n > 0 {
      PIs(g, l);
      TailPascal(n, l);
      TailMonotone(n, l - 1, l);
      DoubledStep(Tail(n, l), Tail(n + 1, l), Pow2(n));
    }
  }

  lemma LosingRaisesP(g: nat, l: nat)
    requires l < g
    ensures P(g, l) <= P(g, l + 1)
  {
    var n := g + l;
    PIs(g, l);
    PIs(g, l + 1);
    TailPascal(n, l + 1);
    TailMonotone(n, l, l + 1);
    DoubledStep(Tail(n, l), Tail(n + 1, l + 1), Pow2(n));
  }

  /** More gained and fewer lost never raise p once at least as many are gained as lost. */
  lemma {:induction false} PMonotone(g: nat, l: nat, g': nat, l': nat)
    requires l <= g <= g' && l' <= l
    ensures P(g', l') <= P(g, l)
    decreases g' - g + l - l'
  {
    if g < g' {
      GainingLowersP(g, l);
      PMonotone(g + 1, l, g', l');
    } else if l' < l {
      LosingRaisesP(g, l - 1);
      PMonotone(g, l - 1, g', l');
    }
  }

  /** p is exactly 1 when the counts are equal or one apart, and below 1 otherwise. */
  lemma PIsOneExactly(g: nat, l: nat)
    ensures P(g, l) == 1.0 <==> -1 <= g - l <= 1
    ensures P(g, l) == P(l, g)
  {
    var n, k := g + l, Min(g, l);
    if n > 0 {
      PIs(g, l);
      PIs(l, g);
      TailComplement(n, k);
      DoubledIsOne(Tail(n, k), Pow2(n));
      if -1 <= g - l <= 1 {
        TailMonotone(n, n - 1 - k, k);
      } else {
        TailMonotone(n, k + 1, n - 1 - k);
        BinomPositive(n, k + 1);
      }
    }
  }

  lemma AtMostOneP(g: nat, l: nat)
    ensures P(g, l) <= 1.0
  {
    var n := g + l;
    if n > 0 {
      PIs(g, l);
      DoubledIsOne(Tail(n, Min(g, l)), Pow2(n));
    }
  }
}
