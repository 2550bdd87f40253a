/** What is owed and what covers it, per token: the exact principal of every position, the
    fees credited, and the fees earned but not yet credited - through every loop iteration
    of a swap. */
module Solvency {
  import opened Numbers
  import opened Ticks
  import opened SwapWalk
  import opened Ledger
  import opened Coherence
  import opened FeeGrowth
  import opened Principal

  /** Accounting for one token, kept beside the program's state: growth earned by each
      position since its last checkpoint as an unbounded number, every fee ever charged to
      swappers and every fee ever paid out. */
  datatype Purse = Purse(earned: seq<nat>, charged: nat, collected: nat)

  function OwedWeight(zero: bool): Weight {
    if zero then Owed0 else Owed1
  }

  function Last(p: PositionData, zero: bool): u128 {
    if zero then p.inside0Last else p.inside1Last
  }

  /** Liquidity times growth earned, over all positions: uncredited fees times 2^64. */
  function Weighted(ps: seq<PositionData>, earned: seq<nat>): int
    requires |earned| == |ps|
  {
    if ps == [] then 0
    else Weighted(ps[..|ps| - 1], earned[..|ps| - 1]) + ps[|ps| - 1].liquidity * earned[|ps| - 1]
  }

  /** Every live position's growth since its checkpoint, as the wrapped counters see it. */
  ghost predicate Earns(zero: bool, ps: seq<PositionData>, ticks: map<int, Tick>, tick: int, growth: u128,
        earned: seq<nat>) {
    && |earned| == |ps|
    && forall i :: 0 <= i < |ps| && ps[i].liquidity > 0 ==>
         && ps[i].lower in ticks && ps[i].upper in ticks
         && Same(Inside(ticks, ps[i], tick, growth, zero), Last(ps[i], zero) + earned[i])
  }

  /** Paid, credited and still uncredited fees never exceed the fees charged. */
  predicate FeesCovered(zero: bool, ps: seq<PositionData>, purse: Purse)
    requires |purse.earned| == |ps|
  {
    Q64 * (purse.collected + Sum(ps, OwedWeight(zero))) + Weighted(ps, purse.earned) <= Q64 * purse.charged
  }

  /** The fee account balances, and the vault holds the exact principal beside the charged
      fees not yet paid out. */
  ghost predicate Covered(zero: bool, ps: seq<PositionData>, price: pos, vault: int, purse: Purse)
    requires |purse.earned| == |ps|
  {
    && FeesCovered(zero, ps, purse)
    && Total(zero, ps, price) + (purse.charged - purse.collected) as real <= vault as real
  }

  ghost predicate TokenOk(zero: bool, ps: seq<PositionData>, ticks: map<int, Tick>, tick: int, price: pos, growth: u128,
        vault: int, purse: Purse) {
    Earns(zero, ps, ticks, tick, growth, purse.earned) && Covered(zero, ps, price, vault, purse)
  }

  // ---- growth shared out to the active positions ----

  function Accrue(ps: seq<PositionData>, earned: seq<nat>, tick: int, growth: nat): (r: seq<nat>)
    requires |earned| == |ps|
    ensures |r| == |ps|
  {
    seq(|ps|, i requires 0 <= i < |ps| => earned[i] + if ps[i].lower <= tick < ps[i].upper then growth else 0)
  }

  lemma {:induction false} WeightedAccrue(ps: seq<PositionData>, earned: seq<nat>, tick: int, growth: nat)
    requires |earned| == |ps|
    ensures Weighted(ps, Accrue(ps, earned, tick, growth)) == Weighted(ps, earned) + growth * Sum(ps, Active(tick))
  {
    if ps != [] {
      var n := |ps| - 1;
      WeightedAccrue(ps[..n], earned[..n], tick, growth);
      assert Accrue(ps, earned, tick, growth)[..n] == Accrue(ps[..n], earned[..n], tick, growth);
      ShareOut(ps[n].liquidity, earned[n], growth, Sum(ps[..n], Active(tick)));
    }
  }

  lemma ShareOut(l: int, e: int, growth: int, rest: int)
    ensures l * (e + growth) == l * e + growth * l
    ensures growth * (rest + l) == growth * rest + growth * l
  {
  }

  lemma {:induction false} WeightedNonNegative(ps: seq<PositionData>, earned: seq<nat>)
    requires |earned| == |ps|
    ensures 0 <= Weighted(ps, earned)
    ensures forall i :: 0 <= i < |ps| ==> 0 <= ps[i].liquidity * earned[i] <= Weighted(ps, earned)
  {
    if ps != [] {
      var n := |ps| - 1;
      WeightedNonNegative(ps[..n], earned[..n]);
      assert 0 <= ps[n].liquidity * earned[n];
      forall i | 0 <= i < n ensures 0 <= ps[i].liquidity * earned[i] <= Weighted(ps, earned) {
        assert ps[..n][i].liquidity * earned[..n][i] == ps[i].liquidity * earned[i];
      }
    }
  }

  // ---- one iteration of a swap ----

  /** The vault as it will stand if the swap stops here. */
  function LoopVault(w: Walk, s: WalkState, zero: bool, vault: int): int {
    if zero == w.down then vault + s.totalIn + s.totalFee else vault - s.totalOut
  }

  ghost function StepPurse(w: Walk, s: WalkState, n: WalkState, ps: seq<PositionData>, growth: nat, zero: bool,
        purse: Purse): Purse
    requires |purse.earned| == |ps| && s.totalFee <= n.totalFee
  {
    if zero == w.down then
      Purse(Accrue(ps, purse.earned, s.tick, growth), purse.charged + (n.totalFee - s.totalFee), purse.collected)
    else purse
  }

  lemma StepEarns(w: Walk, s: WalkState, n: WalkState, ps: seq<PositionData>, growth: nat, zero: bool, purse: Purse)
    requires Advance(w, s, n, ps, growth)
    requires Earns(zero, ps, s.ticks, s.tick, GrowthOf(w, s, zero), purse.earned)
    ensures Earns(zero, ps, n.ticks, n.tick, GrowthOf(w, n, zero), StepPurse(w, s, n, ps, growth, zero, purse).earned)
  {
    var after := StepPurse(w, s, n, ps, growth, zero, purse).earned;
    forall i | 0 <= i < |ps| && ps[i].liquidity > 0
      ensures ps[i].lower in n.ticks && ps[i].upper in n.ticks
      ensures Same(Inside(n.ticks, ps[i], n.tick, GrowthOf(w, n, zero), zero), Last(ps[i], zero) + after[i])
    {
      InsideMoves(w, s, n, ps, growth, i, zero);
      SameRefl(after[i] - purse.earned[i]);
      SameSub(Inside(s.ticks, ps[i], s.tick, GrowthOf(w, s, zero), zero), Last(ps[i], zero) + purse.earned[i],
              after[i] - purse.earned[i], after[i] - purse.earned[i]);
      SameTrans(Inside(n.ticks, ps[i], n.tick, GrowthOf(w, n, zero), zero),
                Inside(s.ticks, ps[i], s.tick, GrowthOf(w, s, zero), zero) + (after[i] - purse.earned[i]),
                Last(ps[i], zero) + after[i]);
    }
  }

  lemma StepCovered(w: Walk, s: WalkState, n: WalkState, ps: seq<PositionData>, growth: nat, zero: bool, vault: int,
        purse: Purse)
    requires Advance(w, s, n, ps, growth) && InRange(s, ps) && |purse.earned| == |ps|
    requires Covered(zero, ps, s.price, LoopVault(w, s, zero, vault), purse)
    ensures Covered(zero, ps, n.price, LoopVault(w, n, zero, vault), StepPurse(w, s, n, ps, growth, zero, purse))
  {
    SwapMovesTotals(w, s, n, ps, growth);
    if zero == w.down {
      WeightedAccrue(ps, purse.earned, s.tick, growth);
    }
  }

  lemma StepToken(w: Walk, s: WalkState, n: WalkState, ps: seq<PositionData>, growth: nat, zero: bool, vault: int,
        purse: Purse)
    requires Advance(w, s, n, ps, growth) && InRange(s, ps)
    requires TokenOk(zero, ps, s.ticks, s.tick, s.price, GrowthOf(w, s, zero), LoopVault(w, s, zero, vault), purse)
    ensures TokenOk(zero, ps, n.ticks, n.tick, n.price, GrowthOf(w, n, zero), LoopVault(w, n, zero, vault),
                    StepPurse(w, s, n, ps, growth, zero, purse))
  {
    StepEarns(w, s, n, ps, growth, zero, purse);
    StepCovered(w, s, n, ps, growth, zero, vault, purse);
  }
}
