/**
 * harness/adopt.py's two gates over harness/paired.py and harness/power.py: the
 * paired cell, the within-case correlation, the design effect it shrinks the
 * counts by, and the verdict. Arithmetic is exact; the 1e-9 slack is left out.
 */
module AdoptGate {
  import opened Common
  import opened SignTest

  const ALPHA: real := 0.05
  const DEFAULT_RHO: real := 1.0

  /** A case id `base#draw`; draw 0 is the bare id of an unrepeated case. */
  datatype CaseId = CaseId(base: string, draw: nat)
  datatype Row = Row(candidate: string, id: CaseId, passed: bool)

  // ---- head_to_head ----

  datatype Cell = Cell(lost: nat, gained: nat, same: nat)

  /** A candidate's verdict per case id; the last row of an id wins. */
  function Verdicts(rows: seq<Row>, name: string): map<CaseId, bool> {
    if rows == [] then map[]
    else
      var n := |rows| - 1;
      var before := Verdicts(rows[..n], name);
      if rows[n].candidate == name then before[rows[n].id := rows[n].passed] else before
  }

  predicate IsLost(mine: bool, theirs: bool) { mine && !theirs }

  predicate IsGained(mine: bool, theirs: bool) { !mine && theirs }

  predicate IsSame(mine: bool, theirs: bool) { mine == theirs }

  /** Over the keys both dicts hold, how many pairs of verdicts `sel` selects. */
  function CountWhere<K>(mine: map<K, bool>, theirs: map<K, bool>, sel: (bool, bool) -> bool): nat {
    |set k | k in mine.Keys * theirs.Keys && sel(mine[k], theirs[k])|
  }

  function CellOf<K>(mine: map<K, bool>, theirs: map<K, bool>): Cell {
    Cell(CountWhere(mine, theirs, IsLost), CountWhere(mine, theirs, IsGained), CountWhere(mine, theirs, IsSame))
  }

  function HeadToHead(rows: seq<Row>, incumbent: string, challenger: string): Cell {
    CellOf(Verdicts(rows, incumbent), Verdicts(rows, challenger))
  }

  // ---- rows_icc ----

  type Draws = seq<bool>

  function AddDraw(groups: seq<(string, Draws)>, base: string, passed: bool): seq<(string, Draws)> {
    if groups == [] then [(base, [passed])]
    else if groups[0].0 == base then [(base, groups[0].1 + [passed])] + groups[1..]
    else [groups[0]] + AddDraw(groups[1..], base, passed)
  }

  /** A candidate's draws grouped by case, in the order the cases first appear. */
  function Groups(rows: seq<Row>, name: string): seq<(string, Draws)> {
    if rows == [] then []
    else
      var n := |rows| - 1;
      var before := Groups(rows[..n], name);
      if rows[n].candidate == name then AddDraw(before, rows[n].id.base, rows[n].passed) else before
  }

  function DrawsOf(groups: seq<(string, Draws)>): seq<Draws> {
    if groups == [] then [] else [groups[0].1] + DrawsOf(groups[1..])
  }

  function ByCandidate(rows: seq<Row>, incumbent: string, challenger: string): seq<seq<Draws>> {
    [DrawsOf(Groups(rows, incumbent))]
    + (if incumbent == challenger then [] else [DrawsOf(Groups(rows, challenger))])
  }

  function Score(b: bool): real { if b then 1.0 else 0.0 }

  function Total(g: Draws): real { if g == [] then 0.0 else Score(g[0]) + Total(g[1..]) }

  function Mean(g: Draws): real { if g == [] then 0.0 else Total(g) / |g| as real }

  /** The sum of squared distances of a case's draws from a centre. */
  function Spread(g: Draws, centre: real): real {
    if g == [] then 0.0
    else (Score(g[0]) - centre) * (Score(g[0]) - centre) + Spread(g[1..], centre)
  }

  function Within(groups: seq<Draws>): real {
    if groups == [] then 0.0 else Spread(groups[0], Mean(groups[0])) + Within(groups[1..])
  }

  function Between(groups: seq<Draws>, centre: real): real {
    if groups == [] then 0.0
    else
      var d := Mean(groups[0]) - centre;
      |groups[0]| as real * (d * d) + Between(groups[1..], centre)
  }

  function CountDraws(groups: seq<Draws>): nat {
    if groups == [] then 0 else |groups[0]| + CountDraws(groups[1..])
  }

  /** The sums icc accumulates over candidates. */
  datatype Anova = Anova(ssb: real, ssw: real, dfb: int, dfw: int, groups: nat, draws: nat)

  function Accumulate(cands: seq<seq<Draws>>): Anova {
    if cands == [] then Anova(0.0, 0.0, 0, 0, 0, 0)
    else
      var rest := Accumulate(cands[1..]);
      var c := cands[0];
      if c == [] then rest
      else
        Anova(rest.ssb + Between(c, Mean(Flatten(c))), rest.ssw + Within(c), rest.dfb + |c| - 1,
              rest.dfw + CountDraws(c) - |c|, rest.groups + |c|, rest.draws + CountDraws(c))
  }

  function Clamp(x: real): real { if x < 0.0 then 0.0 else if x > 1.0 then 1.0 else x }

  /** Within-case correlation; None when no case was drawn twice or nothing varies. */
  function RhoOf(a: Anova): Option<real> {
    if a.dfb <= 0 || a.dfw <= 0 || a.groups == 0 then None
    else
      var msb, msw := a.ssb / a.dfb as real, a.ssw / a.dfw as real;
      var denom := msb + (a.draws as real / a.groups as real - 1.0) * msw;
      if denom == 0.0 then None else Some(Clamp((msb - msw) / denom))
  }

  function Icc(cands: seq<seq<Draws>>): Option<real> { RhoOf(Accumulate(cands)) }

  function MeanDraws(cands: seq<seq<Draws>>): real {
    var a := Accumulate(cands);
    if a.groups == 0 then 1.0 else a.draws as real / a.groups as real
  }

  function DesignEffect(repeat: real, rho: real): (d: real)
    ensures d >= 1.0
  {
    var extra := if repeat > 1.0 then repeat - 1.0 else 0.0;
    1.0 + extra * Clamp(rho)
  }

  // ---- paired_p ----

  function Floor(x: real): int { x.Floor }
  function Ceil(x: real): int { -(-x).Floor }

  datatype Shrunk = Shrunk(gained: nat, lost: nat)

  /** Gained rounded down and lost rounded up once the counts are divided by the design effect. */
  function Shrink(cell: Cell, deff: real): Shrunk
    requires deff >= 1.0
  {
    if deff <= 1.0 then Shrunk(cell.gained, cell.lost)
    else
      Quotients(cell.gained, deff);
      Quotients(cell.lost, deff);
      Shrunk(Floor(cell.gained as real / deff), Ceil(cell.lost as real / deff))
  }

  lemma Quotients(n: nat, deff: real)
    requires deff >= 1.0
    ensures 0.0 <= n as real / deff <= n as real
    ensures 0 <= Floor(n as real / deff) <= n && 0 <= Ceil(n as real / deff) <= n
  {
    var q := n as real / deff;
    assert q * deff == n as real;
    FractionLeq(0.0, 1.0, n as real, deff);
    assert q <= q * deff by {
      assert q * (deff - 1.0) >= 0.0;
    }
  }

  function Deff(rows: seq<Row>, incumbent: string, challenger: string): (d: real)
    ensures d >= 1.0
  {
    var cands := ByCandidate(rows, incumbent, challenger);
    DesignEffect(MeanDraws(cands), Icc(cands).GetOr(DEFAULT_RHO))
  }

  function CellP(cell: Cell, deff: real): real
    requires deff >= 1.0
  {
    P(Shrink(cell, deff).gained, Shrink(cell, deff).lost)
  }

  function PairedP(rows: seq<Row>, incumbent: string, challenger: string): real {
    CellP(HeadToHead(rows, incumbent, challenger), Deff(rows, incumbent, challenger))
  }

  // ---- the gates and the verdict ----

  datatype Verdict = Adopted | NotBetter | NoRows | NoSharedCase | NotEstablished | Worse | Underpowered

  /** `better` is the metric gate's answer. */
  function Gates(better: bool, rows: seq<Row>, incumbent: string, challenger: string): Verdict {
    if !better then NotBetter
    else if rows == [] then NoRows
    else
      var cell := HeadToHead(rows, incumbent, challenger);
      if cell.lost + cell.gained == 0 && cell.same == 0 then NoSharedCase
      else if PairedP(rows, incumbent, challenger) > ALPHA then NotEstablished
      else Adopted
  }

  predicate SignificantlyWorse(rows: seq<Row>, incumbent: string, challenger: string) {
    var cell := HeadToHead(rows, incumbent, challenger);
    cell.lost > cell.gained && PairedP(rows, incumbent, challenger) <= ALPHA
  }

  /** `plan` is whether the power plan, if there is one, reaches its target. */
  function Decide(better: bool, rows: seq<Row>, incumbent: string, challenger: string, plan: Option<bool>): Verdict {
    var got := Gates(better, rows, incumbent, challenger);
    if got == Adopted then Adopted
    else if rows != [] && SignificantlyWorse(rows, incumbent, challenger) then Worse
    else if plan == Some(false) && rows != [] then Underpowered
    else got
  }

  // ---- the evidence cannot flip ----

  lemma QuotientsOrdered(a: nat, b: nat, deff: real)
    requires a <= b && deff >= 1.0
    ensures Floor(a as real / deff) <= Floor(b as real / deff)
    ensures Ceil(a as real / deff) <= Ceil(b as real / deff)
    ensures Floor(a as real / deff) <= Ceil(b as real / deff) <= Floor(b as real / deff) + 1
  {
    FractionLeq(a as real, deff, b as real, deff);
    assert a as real * deff <= b as real * deff;
  }

  /** With more gained than lost, shrinking leaves lost at most one above gained; otherwise gained is not above lost. */
  lemma ShrinkingKeepsTheOrder(cell: Cell, deff: real)
    requires deff >= 1.0
    ensures cell.gained > cell.lost ==> Shrink(cell, deff).lost <= Shrink(cell, deff).gained + 1
    ensures cell.gained <= cell.lost ==> Shrink(cell, deff).gained <= Shrink(cell, deff).lost
  {
    if cell.gained > cell.lost {
      QuotientsOrdered(cell.lost, cell.gained, deff);
    } else {
      QuotientsOrdered(cell.gained, cell.lost, deff);
    }
  }

  /** A significant cell leans the way its raw count does, by at least two after shrinking. */
  lemma SignificanceKeepsTheDirection(cell: Cell, deff: real)
    requires deff >= 1.0 && CellP(cell, deff) <= ALPHA
    ensures var s := Shrink(cell, deff);
            if cell.gained > cell.lost then s.gained >= s.lost + 2 else s.lost >= s.gained + 2
  {
    var s := Shrink(cell, deff);
    PIsOneExactly(s.gained, s.lost);
    ShrinkingKeepsTheOrder(cell, deff);
  }

  /** An adoption rests on more gained than lost exactly when the raw count does. */
  lemma AdoptionRestsOnTheRawDirection(better: bool, rows: seq<Row>, incumbent: string, challenger: string)
    requires Gates(better, rows, incumbent, challenger) == Adopted
    ensures var cell := HeadToHead(rows, incumbent, challenger);
            var s := Shrink(cell, Deff(rows, incumbent, challenger));
            s.gained > s.lost <==> cell.gained > cell.lost
  {
    SignificanceKeepsTheDirection(HeadToHead(rows, incumbent, challenger), Deff(rows, incumbent, challenger));
  }

  /**
   * The paired gate does not ask that more was gained than lost: none gained against six lost is adopted once the
   * metric gate says better. Whether it can say so is a matter of the pass rates and the cases each candidate sat.
   */
  lemma ReversedCountIsAdopted(rows: seq<Row>, incumbent: string, challenger: string)
    requires rows != [] && HeadToHead(rows, incumbent, challenger) == Cell(6, 0, 0)
    requires Deff(rows, incumbent, challenger) == 1.0
    ensures Gates(true, rows, incumbent, challenger) == Adopted
  {
    SixToNothing();
  }

  lemma SixToNothing()
    ensures P(0, 6) == 0.03125 && P(6, 0) == 0.03125
  {
    TailOne(6);
    PowersOfTwo();
  }

  lemma SixToOne()
    ensures P(1, 5) > ALPHA && P(1, 6) == 0.125
  {
    TailOne(6);
    TailOne(7);
    PowersOfTwo();
  }

  lemma PowersOfTwo()
    ensures Pow2(6) == 64 && Pow2(7) == 128
  {
    assert Pow2(3) == 8;
  }

  function Flip(cell: Cell): Cell
    requires cell.lost > 0
  {
    Cell(cell.lost - 1, cell.gained + 1, cell.same)
  }

  /** At one design effect, turning a lost cell into a gained one keeps a significant gain significant. */
  lemma FlippingALossKeepsTheGate(cell: Cell, deff: real)
    requires deff >= 1.0 && cell.lost > 0 && cell.gained > cell.lost
    requires CellP(cell, deff) <= ALPHA
    ensures CellP(Flip(cell), deff) <= ALPHA
  {
    SignificanceKeepsTheDirection(cell, deff);
    QuotientsOrdered(cell.gained, cell.gained + 1, deff);
    QuotientsOrdered(cell.lost - 1, cell.lost, deff);
    var s, t := Shrink(cell, deff), Shrink(Flip(cell), deff);
    PMonotone(s.gained, s.lost, t.gained, t.lost);
  }

  /** `k` lost cells turned into gained ones. */
  function Flipped(cell: Cell, k: nat): Cell
    requires k <= cell.lost
  {
    Cell(cell.lost - k, cell.gained + k, cell.same)
  }

  lemma {:induction false} FlipsKeepTheGate(cell: Cell, deff: real, k: nat)
    requires deff >= 1.0 && cell.gained > cell.lost >= k && CellP(cell, deff) <= ALPHA
    ensures CellP(Flipped(cell, k), deff) <= ALPHA
  {
    if k > 0 {
      FlipsKeepTheGate(cell, deff, k - 1);
      FlippingALossKeepsTheGate(Flipped(cell, k - 1), deff);
    }
  }

  /** An even count, or one more gained than lost, is never significant. */
  lemma EvenCountsAreNot(cell: Cell, deff: real)
    requires deff >= 1.0 && cell.lost <= cell.gained <= cell.lost + 1
    ensures CellP(cell, deff) > ALPHA
  {
    var (l, g) := (cell.lost as real / deff, cell.gained as real / deff);
    assert l * deff == cell.lost as real && g * deff == cell.gained as real;
    assert (g - l) * deff <= 1.0;
    WithinOne(l, g, deff);
    if CellP(cell, deff) <= ALPHA {
      SignificanceKeepsTheDirection(cell, deff);
      assert false;
    }
  }

  lemma WithinOne(l: real, g: real, deff: real)
    requires deff >= 1.0 && (g - l) * deff <= 1.0
    ensures g <= l + 1.0 && Floor(g) <= Ceil(l) + 1 && Ceil(l) <= Floor(l) + 1
  {
    assert g - l > 1.0 ==> (g - l) * deff > 1.0 * deff;
  }

  /** However many losses are turned into gains, a significant count stays so exactly when more was gained than lost. */
  lemma FlipsNeverRetractExactly(cell: Cell, deff: real)
    requires deff >= 1.0 && CellP(cell, deff) <= ALPHA
    ensures (forall k: nat :: k <= cell.lost ==> CellP(Flipped(cell, k), deff) <= ALPHA) <==> cell.gained > cell.lost
  {
    hide CellP;
    if cell.gained > cell.lost {
      forall k: nat | k <= cell.lost
        ensures CellP(Flipped(cell, k), deff) <= ALPHA
      {
        FlipsKeepTheGate(cell, deff, k);
      }
    } else {
      var k := (cell.lost - cell.gained + 1) / 2;
      EvenCountsAreNot(Flipped(cell, k), deff);
    }
  }

  /** On a reversed count it can take the paired gate's answer back: none to six passes it, one to five does not. */
  lemma FlippingCanRetractAReversedAdoption()
    ensures CellP(Cell(6, 0, 0), 1.0) <= ALPHA < CellP(Flip(Cell(6, 0, 0)), 1.0)
  {
    SixToNothing();
    SixToOne();
  }

  /** Rounding is not conservative for a loss: one against six at a design effect of 1.01 goes from 0.125 to 0.03125. */
  lemma RoundingCanMakeALossSignificant()
    ensures CellP(Cell(6, 1, 0), 1.0) == 0.125 && CellP(Cell(6, 1, 0), 1.01) == 0.03125
  {
    SixToOne();
    SixToNothing();
    hide P;
    var g, l := 1.0 / 1.01, 6.0 / 1.01;
    assert g * 1.01 == 1.0 && l * 1.01 == 6.0;
    assert 0.0 < g < 1.0 && 5.0 < l < 6.0;
    assert Shrink(Cell(6, 1, 0), 1.01) == Shrunk(0, 6);
  }
}
