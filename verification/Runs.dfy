/** Whole runs of the swap loop: what the iterations keep, carried to the end. */
module Runs {
  import opened Numbers
  import opened TickMath
  import opened Ticks
  import opened SwapWalk
  import opened Ledger
  import opened Coherence
  import opened FeeGrowth
  import opened Solvency
  import SwapMath

  lemma CrossesOne(w: Walk, s: WalkState)
    requires w.Valid() && Iterate(w, s).Ok?
    ensures Iterate(w, s).value.crossings <= s.crossings + 1
  {
    var target := TargetOf(w, s);
    FillCrossesNone(w, s, AimOf(w, s));
    LandCrossesOne(w, Fill(w, s, AimOf(w, s)).value, target, TargetPrice(w, target.tick));
  }

  lemma FillCrossesNone(w: Walk, s: WalkState, aim: sqrtprice)
    requires Fill(w, s, aim).Ok?
    ensures Fill(w, s, aim).value.crossings == s.crossings
  {
  }

  lemma LandCrossesOne(w: Walk, f: WalkState, target: Target, targetPrice: nat)
    requires Land(w, f, target, targetPrice).Ok?
    ensures Land(w, f, target, targetPrice).value.crossings <= f.crossings + 1
  {
  }

  /** Over the whole run, on every input: consumed input, fees and what remains add up to the
      amount offered, the price ends between the opening price and the limit, inside its
      tick's interval, and at most 16 initialized ticks are crossed. */
  lemma {:induction false} RunConserves(w: Walk, s: WalkState)
    requires w.Valid() && OnCourse(w, s) && Run(w, s).Ok? && s.crossings <= MAX_CROSSINGS
    ensures var end := Run(w, s).value;
      && OnCourse(w, end) && Done(w, end)
      && end.remaining + end.totalIn + end.totalFee == s.remaining + s.totalIn + s.totalFee
      && SwapMath.Toward(w.down, s.price, end.price, w.limit)
      && end.crossings <= 16
    decreases Left(w, s)
  {
    if !Done(w, s) {
      IterateOnCourse(w, s);
      IterateAdvances(w, s);
      CrossesOne(w, s);
      RunConserves(w, Iterate(w, s).value);
    }
  }

  /** Every tick keeps its gross and net through a whole swap, on every input. */
  lemma {:induction false} RunKeepsTicks(w: Walk, s: WalkState, ps: seq<PositionData>)
    requires w.Valid() && Run(w, s).Ok? && TicksMatch(s.ticks, ps, w.pool.spacing)
    ensures TicksMatch(Run(w, s).value.ticks, ps, w.pool.spacing)
    ensures Run(w, s).value.ticks.Keys == s.ticks.Keys
    decreases Left(w, s)
  {
    if !Done(w, s) {
      IterateAdvances(w, s);
      IterateKeepsTicks(w, s, ps);
      RunKeepsTicks(w, Iterate(w, s).value, ps);
    }
  }

  lemma IterateKeepsTicks(w: Walk, s: WalkState, ps: seq<PositionData>)
    requires w.Valid() && Iterate(w, s).Ok? && TicksMatch(s.ticks, ps, w.pool.spacing)
    ensures var n := Iterate(w, s).value;
      TicksMatch(n.ticks, ps, w.pool.spacing) && n.ticks.Keys == s.ticks.Keys
  {
    var target := TargetOf(w, s);
    FillKeepsTicks(w, s, AimOf(w, s));
    LandKeepsTicks(w, Fill(w, s, AimOf(w, s)).value, target, TargetPrice(w, target.tick), ps);
  }

  lemma FillKeepsTicks(w: Walk, s: WalkState, aim: sqrtprice)
    requires Fill(w, s, aim).Ok?
    ensures Fill(w, s, aim).value.ticks == s.ticks
  {
  }

  lemma LandKeepsTicks(w: Walk, f: WalkState, target: Target, targetPrice: nat, ps: seq<PositionData>)
    requires Land(w, f, target, targetPrice).Ok? && TicksMatch(f.ticks, ps, w.pool.spacing)
    ensures var n := Land(w, f, target, targetPrice).value;
      TicksMatch(n.ticks, ps, w.pool.spacing) && n.ticks.Keys == f.ticks.Keys
  {
  }

  // ---- what was crossed ----

  /** The tick's price lies between two prices, ends included. */
  ghost predicate OnWay(a: nat, b: nat, t: int) {
    MIN_TICK <= t <= MAX_TICK && Min(a, b) <= PriceAt(t) <= Max(a, b)
  }

  /** An iteration that counts a crossing has its price on an initialized tick, and goes on
      beyond it. */
  lemma CrossesAt(w: Walk, s: WalkState, ps: seq<PositionData>)
    requires w.Valid() && OnCourse(w, s) && Iterate(w, s).Ok? && TicksMatch(s.ticks, ps, w.pool.spacing)
    requires Iterate(w, s).value.crossings != s.crossings
    ensures var n, t := Iterate(w, s).value, TargetOf(w, s).tick;
      && n.crossings == s.crossings + 1 && n.price == ClampedPrice(t) && MIN_TICK <= t <= MAX_TICK
      && t in s.ticks && s.ticks[t].Initialized()
      && (if w.down then t <= s.tick && n.tick < t else s.tick < t && t <= n.tick)
  {
    var t := TargetOf(w, s);
    FillCrossesNone(w, s, AimOf(w, s));
    FillKeepsTicks(w, s, AimOf(w, s));
    TargetSeparates(w, s.ticks, ps, s.tick);
    InitializedIsEnd(s.ticks, ps, w.pool.spacing, t.tick);
  }

  lemma {:induction false} RunOnWay(w: Walk, s: WalkState)
    requires w.Valid() && OnCourse(w, s) && Run(w, s).Ok?
    ensures SwapMath.Toward(w.down, s.price, Run(w, s).value.price, w.limit)
    decreases Left(w, s)
  {
    if !Done(w, s) {
      IterateAdvances(w, s);
      IterateOnCourse(w, s);
      RunOnWay(w, Iterate(w, s).value);
    }
  }

  /** Initialized ticks on the way between two prices. */
  ghost predicate Crossed(ticks: map<int, Tick>, a: nat, b: nat, crossed: set<int>) {
    forall t :: t in crossed ==> t in ticks && ticks[t].Initialized() && OnWay(a, b, t)
  }

  /** All at or below the tick when falling, all above it when rising. */
  predicate Ahead(down: bool, tick: int, crossed: set<int>) {
    forall t :: t in crossed ==> if down then t <= tick else tick < t
  }

  /** The way from further back is longer. */
  lemma LongerWay(down: bool, ticks: map<int, Tick>, a: nat, b: nat, c: nat, limit: nat, crossed: set<int>)
    requires SwapMath.Toward(down, a, b, limit) && SwapMath.Toward(down, b, c, limit) && Crossed(ticks, b, c, crossed)
    ensures Crossed(ticks, a, c, crossed)
  {
  }

  /** One crossing in front of later ones. */
  lemma OneMoreCrossed(w: Walk, s: WalkState, ps: seq<PositionData>, ticks: map<int, Tick>, end: nat, later: set<int>)
    requires w.Valid() && OnCourse(w, s) && Iterate(w, s).Ok? && TicksMatch(s.ticks, ps, w.pool.spacing)
    requires TicksMatch(ticks, ps, w.pool.spacing) && ticks.Keys == s.ticks.Keys
    requires Iterate(w, s).value.crossings != s.crossings
    requires SwapMath.Toward(w.down, s.price, Iterate(w, s).value.price, w.limit)
    requires SwapMath.Toward(w.down, Iterate(w, s).value.price, end, w.limit)
    requires Crossed(ticks, s.price, end, later) && Ahead(w.down, Iterate(w, s).value.tick, later)
    ensures var crossed := {TargetOf(w, s).tick} + later;
      && |crossed| == 1 + |later| && Crossed(ticks, s.price, end, crossed) && Ahead(w.down, s.tick, crossed)
  {
    CrossesAt(w, s, ps);
  }

  /** Every crossing counted is that of a different initialized tick on the way. */
  lemma {:induction false} RunCrosses(w: Walk, s: WalkState, ps: seq<PositionData>, ticks: map<int, Tick>)
      returns (crossed: set<int>)
    requires w.Valid() && OnCourse(w, s) && Run(w, s).Ok? && TicksMatch(s.ticks, ps, w.pool.spacing)
    requires TicksMatch(ticks, ps, w.pool.spacing) && ticks.Keys == s.ticks.Keys
    ensures s.crossings + |crossed| == Run(w, s).value.crossings
    ensures Crossed(ticks, s.price, Run(w, s).value.price, crossed) && Ahead(w.down, s.tick, crossed)
    ensures Done(w, s) ==> crossed == {}
    decreases Left(w, s)
  {
    if Done(w, s) {
      crossed := {};
    } else {
      var n, end := Iterate(w, s).value, Run(w, s).value.price;
      IterateAdvances(w, s);
      IterateOnCourse(w, s);
      IterateKeepsTicks(w, s, ps);
      crossed := RunCrosses(w, n, ps, ticks);
      RunOnWay(w, n);
      LongerWay(w.down, ticks, s.price, n.price, end, w.limit, crossed);
      if n.crossings != s.crossings {
        OneMoreCrossed(w, s, ps, ticks, end, crossed);
        CrossesAt(w, s, ps);
        crossed := {TargetOf(w, s).tick} + crossed;
      }
    }
  }

  /** Initialized ticks passed when the tick moves from `a` to `b` in the walk's direction. */
  function Passed(ticks: map<int, Tick>, down: bool, a: int, b: int): set<int> {
    set t | t in ticks && ticks[t].Initialized() && if down then b < t <= a else a < t <= b
  }

  /** An iteration passes no initialized tick but its target. */
  lemma LiesBetween(w: Walk, s: WalkState, ps: seq<PositionData>, t: int)
    requires w.Valid() && OnCourse(w, s) && Iterate(w, s).Ok? && TicksMatch(s.ticks, ps, w.pool.spacing)
    requires t in s.ticks && s.ticks[t].Initialized()
    requires if w.down then Iterate(w, s).value.tick < t <= s.tick else s.tick < t <= Iterate(w, s).value.tick
    ensures t == TargetOf(w, s).tick && TargetOf(w, s).initialized && Iterate(w, s).value.price == ClampedPrice(t)
  {
    InitializedIsEnd(s.ticks, ps, w.pool.spacing, t);
    if Iterate(w, s).value.price != ClampedPrice(TargetOf(w, s).tick) {
      RestsBetween(w, s);
    }
    if w.down {
      TargetDown(w, s.ticks, s.tick);
    } else {
      TargetUp(w, s.ticks, s.tick);
    }
  }

  lemma IteratePasses(w: Walk, s: WalkState, ps: seq<PositionData>, ticks: map<int, Tick>)
    requires w.Valid() && OnCourse(w, s) && Iterate(w, s).Ok? && TicksMatch(s.ticks, ps, w.pool.spacing)
    requires TicksMatch(ticks, ps, w.pool.spacing) && ticks.Keys == s.ticks.Keys
    ensures var n := Iterate(w, s).value;
      |Passed(ticks, w.down, s.tick, n.tick)| <= n.crossings - s.crossings
  {
    var n := Iterate(w, s).value;
    var passed := Passed(ticks, w.down, s.tick, n.tick);
    FillCrossesNone(w, s, AimOf(w, s));
    forall t | t in passed
      ensures t == TargetOf(w, s).tick && TargetOf(w, s).initialized && n.price == ClampedPrice(t)
    {
      LiesBetween(w, s, ps, t);
    }
    assert forall t :: t in passed ==> t in {TargetOf(w, s).tick};
    AtMostOne(passed, TargetOf(w, s).tick);
  }

  lemma AtMostOne(a: set<int>, x: int)
    requires a <= {x}
    ensures |a| <= 1 && (x !in a ==> |a| == 0)
  {
    var rest := {x} - a;
    assert a + rest == {x};
    assert |a + rest| == |a| + |rest|;
  }

  /** Every initialized tick a run passes is one that it counts. */
  lemma {:induction false} RunPasses(w: Walk, s: WalkState, ps: seq<PositionData>, ticks: map<int, Tick>)
    requires w.Valid() && OnCourse(w, s) && Run(w, s).Ok? && TicksMatch(s.ticks, ps, w.pool.spacing)
    requires TicksMatch(ticks, ps, w.pool.spacing) && ticks.Keys == s.ticks.Keys
    ensures |Passed(ticks, w.down, s.tick, Run(w, s).value.tick)| <= Run(w, s).value.crossings - s.crossings
    decreases Left(w, s)
  {
    if Done(w, s) {
      assert Passed(ticks, w.down, s.tick, s.tick) == {};
    } else {
      var n, end := Iterate(w, s).value, Run(w, s).value;
      IterateAdvances(w, s);
      IterateOnCourse(w, s);
      IterateKeepsTicks(w, s, ps);
      IteratePasses(w, s, ps, ticks);
      RunPasses(w, n, ps, ticks);
      InTwo(ticks, w.down, s.tick, n.tick, end.tick);
    }
  }

  lemma InTwo(ticks: map<int, Tick>, down: bool, a: int, b: int, c: int)
    ensures |Passed(ticks, down, a, c)| <= |Passed(ticks, down, a, b)| + |Passed(ticks, down, b, c)|
  {
    var x, y, z := Passed(ticks, down, a, c), Passed(ticks, down, a, b), Passed(ticks, down, b, c);
    forall t | t in x ensures t in y + z {
      assert t in ticks && ticks[t].Initialized();
    }
    SubsetSize(x, y + z);
    assert y + z == y + (z - y);
    SubsetSize(z - y, z);
  }

  lemma SubsetSize(a: set<int>, b: set<int>)
    requires a <= b
    ensures |a| <= |b|
  {
    assert b == a + (b - a);
  }

  /** Why a run stops: nothing left, the limit, or sixteen crossings. */
  lemma RunStops(w: Walk, s: WalkState, ps: seq<PositionData>) returns (crossed: set<int>)
    requires w.Valid() && OnCourse(w, s) && Run(w, s).Ok? && TicksMatch(s.ticks, ps, w.pool.spacing)
    requires s.crossings == 0 && s.totalIn == 0 && s.totalFee == 0
    ensures var end := Run(w, s).value;
      && (end.totalIn + end.totalFee == s.remaining || end.price == w.limit || 16 <= |crossed|)
      && Crossed(s.ticks, s.price, end.price, crossed)
  {
    RunConserves(w, s);
    crossed := RunCrosses(w, s, ps, s.ticks);
  }

  /** The loop writes only ticks of its window. */
  lemma {:induction false} RunStaysInWindow(w: Walk, s: WalkState, t: int)
    requires w.Valid() && Run(w, s).Ok? && t in s.ticks && !(w.lo <= t < w.hi)
    requires if w.down then s.tick < w.hi else w.lo <= s.tick
    ensures t in Run(w, s).value.ticks && Run(w, s).value.ticks[t] == s.ticks[t]
    decreases Left(w, s)
  {
    if !Done(w, s) {
      IterateAdvances(w, s);
      IterateStaysInWindow(w, s, t);
      if Done(w, Iterate(w, s).value) {
        assert Run(w, s) == Iterate(w, s);
      } else {
        RunStaysInWindow(w, Iterate(w, s).value, t);
      }
    }
  }

  lemma IterateStaysInWindow(w: Walk, s: WalkState, t: int)
    requires w.Valid() && Iterate(w, s).Ok? && t in s.ticks && !(w.lo <= t < w.hi)
    requires if w.down then s.tick < w.hi else w.lo <= s.tick
    ensures t in Iterate(w, s).value.ticks && Iterate(w, s).value.ticks[t] == s.ticks[t]
  {
    var target := TargetOf(w, s);
    FillKeepsTicks(w, s, AimOf(w, s));
    if w.down {
      TargetDown(w, s.ticks, s.tick);
    } else {
      TargetUp(w, s.ticks, s.tick);
    }
  }

  /** No iteration stalls on a tick with a nonzero net: computed from the inputs alone. */
  ghost predicate CleanRun(w: Walk, s: WalkState)
    requires w.Valid()
    decreases Left(w, s)
  {
    if Done(w, s) || Iterate(w, s).Err? then true
    else
      IterateAdvances(w, s);
      !(Stalls(w, s) && !NetIsZero(s.ticks, s.tick + 1)) && CleanRun(w, Iterate(w, s).value)
  }

  /** A stalled iteration is the last one: it has used up the input. */
  lemma StallEndsRun(w: Walk, s: WalkState, ps: seq<PositionData>)
    requires w.Valid() && OnCourse(w, s) && Iterate(w, s).Ok? && !Done(w, s) && Stalls(w, s)
    requires TicksMatch(s.ticks, ps, w.pool.spacing) && InRange(s, ps)
    ensures Done(w, Iterate(w, s).value)
  {
    var n := Iterate(w, s).value;
    AimAhead(w, s);
    FillFacts(w, s, AimOf(w, s));
    StallIsRaise(w, s);
    if n.price == ClampedPrice(TargetOf(w, s).tick) {
      LandOnTarget(w, s, ps);
    } else {
      RestShort(w, s, ps);
    }
  }

  /** Exactly when a swap keeps the pool coherent: gross and net of every tick always agree
      with the positions, and the in-range liquidity does so if and only if the run is clean. */
  lemma {:induction false} RunLiquidity(w: Walk, s: WalkState, ps: seq<PositionData>)
    requires w.Valid() && OnCourse(w, s) && Run(w, s).Ok?
    requires TicksMatch(s.ticks, ps, w.pool.spacing) && InRange(s, ps)
    ensures TicksMatch(Run(w, s).value.ticks, ps, w.pool.spacing)
    ensures InRange(Run(w, s).value, ps) <==> CleanRun(w, s)
    decreases Left(w, s)
  {
    if !Done(w, s) {
      IterateOnCourse(w, s);
      IterateAdvances(w, s);
      IterateLiquidity(w, s, ps);
      if Stalls(w, s) {
        StallEndsRun(w, s, ps);
      }
      if InRange(Iterate(w, s).value, ps) {
        RunLiquidity(w, Iterate(w, s).value, ps);
      }
    }
  }

  /** Hypothesis of the fee and solvency results: no falling iteration stalls on an
      initialized tick it has already crossed. */
  ghost predicate StallFree(w: Walk, s: WalkState)
    requires w.Valid()
    decreases Left(w, s)
  {
    if Done(w, s) || Iterate(w, s).Err? then true
    else
      IterateAdvances(w, s);
      !StallsOnTick(w, s) && StallFree(w, Iterate(w, s).value)
  }

  /** Rising swaps never stall. */
  lemma {:induction false} RisingIsStallFree(w: Walk, s: WalkState)
    requires w.Valid() && !w.down
    ensures StallFree(w, s)
    decreases Left(w, s)
  {
    if !Done(w, s) && Iterate(w, s).Ok? {
      IterateAdvances(w, s);
      RisingIsStallFree(w, Iterate(w, s).value);
    }
  }

  /** The accounting of one token at the end of the run. */
  ghost function RunPurse(w: Walk, s: WalkState, ps: seq<PositionData>, zero: bool, purse: Purse): (r: Purse)
    requires w.Valid() && OnCourse(w, s) && |purse.earned| == |ps|
    ensures |r.earned| == |ps|
    decreases Left(w, s)
  {
    if Done(w, s) || Iterate(w, s).Err? then purse
    else
      IterateAdvances(w, s);
      IterateOnCourse(w, s);
      var n := Iterate(w, s).value;
      RunPurse(w, n, ps, zero, StepPurse(w, s, n, ps, GrowthAdded(w, s, AimOf(w, s)), zero, purse))
  }

  /** A stall-free run keeps fees and principal covered in both tokens. */
  lemma {:induction false} RunToken(w: Walk, s: WalkState, ps: seq<PositionData>, zero: bool, vault: int, purse: Purse)
    requires w.Valid() && OnCourse(w, s) && Run(w, s).Ok? && StallFree(w, s)
    requires TicksMatch(s.ticks, ps, w.pool.spacing) && InRange(s, ps)
    requires TokenOk(zero, ps, s.ticks, s.tick, s.price, GrowthOf(w, s, zero), LoopVault(w, s, zero, vault), purse)
    ensures var end := Run(w, s).value;
      && TicksMatch(end.ticks, ps, w.pool.spacing) && InRange(end, ps)
      && end.ticks.Keys == s.ticks.Keys
      && TokenOk(zero, ps, end.ticks, end.tick, end.price, GrowthOf(w, end, zero), LoopVault(w, end, zero, vault),
                 RunPurse(w, s, ps, zero, purse))
    decreases Left(w, s)
  {
    if !Done(w, s) {
      var n := Iterate(w, s).value;
      IterateAdvances(w, s);
      IterateOnCourse(w, s);
      IterateAdvance(w, s, ps);
      StepToken(w, s, n, ps, GrowthAdded(w, s, AimOf(w, s)), zero, vault, purse);
      RunToken(w, n, ps, zero, vault, StepPurse(w, s, n, ps, GrowthAdded(w, s, AimOf(w, s)), zero, purse));
    }
  }

  /** Sum of the growth increments added while the loop's tick is inside `[lower, upper)`. */
  ghost function GrowthWhileInside(w: Walk, s: WalkState, lower: int, upper: int): nat
    requires w.Valid()
    decreases Left(w, s)
  {
    if Done(w, s) || Iterate(w, s).Err? then 0
    else
      IterateAdvances(w, s);
      (if lower <= s.tick < upper then GrowthAdded(w, s, AimOf(w, s)) else 0)
      + GrowthWhileInside(w, Iterate(w, s).value, lower, upper)
  }

  /** Fee growth inside a live position's range changes, as a wrapped counter, by exactly the
      increments added while the tick was inside - whatever was crossed in between. */
  lemma {:induction false} RunInside(w: Walk, s: WalkState, ps: seq<PositionData>, i: nat, zero: bool)
    requires w.Valid() && OnCourse(w, s) && Run(w, s).Ok? && StallFree(w, s)
    requires TicksMatch(s.ticks, ps, w.pool.spacing) && InRange(s, ps)
    requires i < |ps| && ps[i].liquidity > 0
    ensures var end, p := Run(w, s).value, ps[i];
      && p.lower in end.ticks && p.upper in end.ticks
      && Same(Inside(end.ticks, p, end.tick, GrowthOf(w, end, zero), zero),
              Inside(s.ticks, p, s.tick, GrowthOf(w, s, zero), zero)
              + if zero == w.down then GrowthWhileInside(w, s, p.lower, p.upper) else 0)
    decreases Left(w, s)
  {
    var p := ps[i];
    if Done(w, s) {
      SameRefl(Inside(s.ticks, p, s.tick, GrowthOf(w, s, zero), zero));
    } else {
      var n, end := Iterate(w, s).value, Run(w, s).value;
      var rest := if zero == w.down then GrowthWhileInside(w, n, p.lower, p.upper) else 0;
      var here := if zero == w.down && p.lower <= s.tick < p.upper then GrowthAdded(w, s, AimOf(w, s)) else 0;
      IterateAdvances(w, s);
      IterateOnCourse(w, s);
      IterateAdvance(w, s, ps);
      InsideMoves(w, s, n, ps, GrowthAdded(w, s, AimOf(w, s)), i, zero);
      RunInside(w, n, ps, i, zero);
      var (a, b, c) := (Inside(end.ticks, p, end.tick, GrowthOf(w, end, zero), zero),
                        Inside(n.ticks, p, n.tick, GrowthOf(w, n, zero), zero),
                        Inside(s.ticks, p, s.tick, GrowthOf(w, s, zero), zero));
      SameRefl(rest);
      SameSub(b, c + here, rest, rest);
      SameTrans(a, b + rest, c + here + rest);
    }
  }

  /** What the accounting of a swap records is what the swap did: the fees it charged, and for
      each position the increments added while the tick was inside its range. */
  lemma {:induction false} PurseRecords(w: Walk, s: WalkState, ps: seq<PositionData>, zero: bool, purse: Purse)
    requires w.Valid() && OnCourse(w, s) && Run(w, s).Ok? && |purse.earned| == |ps|
    ensures var after := RunPurse(w, s, ps, zero, purse);
      && after.collected == purse.collected
      && after.charged == purse.charged + (if zero == w.down then Run(w, s).value.totalFee - s.totalFee else 0)
      && (forall i :: 0 <= i < |ps| ==>
            after.earned[i] == purse.earned[i]
              + if zero == w.down then GrowthWhileInside(w, s, ps[i].lower, ps[i].upper) else 0)
    decreases Left(w, s)
  {
    if !Done(w, s) {
      IterateAdvances(w, s);
      IterateOnCourse(w, s);
      PurseRecords(w, Iterate(w, s).value, ps, zero, StepPurse(w, s, Iterate(w, s).value, ps, GrowthAdded(w, s,
            AimOf(w, s)), zero, purse));
    }
  }
}
