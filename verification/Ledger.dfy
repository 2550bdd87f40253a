/** Sums over the position accounts, and the bookkeeping they must agree with: every
    tick's gross and net, and the liquidity in range at a tick. */
module Ledger {
  import opened Numbers
  import opened TickMath
  import opened Ticks
  import opened SwapWalk

  /** What one position contributes to a total. */
  datatype Weight = Gross(tick: int) | Net(tick: int) | Active(tick: int) | All | Owed0 | Owed1

  function Share(w: Weight, p: PositionData): int {
    match w
    case Gross(t) => (if p.lower == t then p.liquidity else 0) + (if p.upper == t then p.liquidity else 0)
    case Net(t) => (if p.lower == t then p.liquidity else 0) - (if p.upper == t then p.liquidity else 0)
    case Active(t) => if p.lower <= t < p.upper then p.liquidity else 0
    case All => p.liquidity
    case Owed0 => p.owed0
    case Owed1 => p.owed1
  }

  function Sum(ps: seq<PositionData>, w: Weight): int {
    if ps == [] then 0 else Sum(ps[..|ps| - 1], w) + Share(w, ps[|ps| - 1])
  }

  lemma {:induction false} SumUpdate(ps: seq<PositionData>, i: nat, p: PositionData, w: Weight)
    requires i < |ps|
    ensures Sum(ps[i := p], w) == Sum(ps, w) - Share(w, ps[i]) + Share(w, p)
  {
    var n := |ps| - 1;
    if i == n {
      assert ps[i := p][..n] == ps[..n];
    } else {
      assert ps[i := p][..n] == ps[..n][i := p];
      SumUpdate(ps[..n], i, p, w);
    }
  }

  lemma SumAppend(ps: seq<PositionData>, p: PositionData, w: Weight)
    ensures Sum(ps + [p], w) == Sum(ps, w) + Share(w, p)
  {
    assert (ps + [p])[..|ps|] == ps;
  }

  lemma {:induction false} SumBounds(ps: seq<PositionData>, w: Weight, i: nat)
    requires !w.Net? && i < |ps|
    ensures 0 <= Share(w, ps[i]) <= Sum(ps, w)
  {
    SumNonNegative(ps[..|ps| - 1], w);
    if i < |ps| - 1 {
      SumBounds(ps[..|ps| - 1], w, i);
    }
  }

  lemma {:induction false} SumNonNegative(ps: seq<PositionData>, w: Weight)
    requires !w.Net?
    ensures 0 <= Sum(ps, w)
  {
    if ps != [] {
      SumNonNegative(ps[..|ps| - 1], w);
    }
  }

  /** Going up through a tick changes the active liquidity by that tick's net. */
  lemma {:induction false} ActiveStep(ps: seq<PositionData>, t: int)
    requires forall i :: 0 <= i < |ps| && ps[i].liquidity > 0 ==> ps[i].lower < ps[i].upper
    ensures Sum(ps, Active(t)) == Sum(ps, Active(t - 1)) + Sum(ps, Net(t))
  {
    if ps != [] {
      ActiveStep(ps[..|ps| - 1], t);
    }
  }

  /** No live position begins or ends in `(after, upTo]`. */
  ghost predicate NoEnds(ps: seq<PositionData>, after: int, upTo: int) {
    forall i :: 0 <= i < |ps| && ps[i].liquidity > 0 ==>
      !(after < ps[i].lower <= upTo) && !(after < ps[i].upper <= upTo)
  }

  lemma {:induction false} ActiveAcross(ps: seq<PositionData>, a: int, b: int)
    requires a <= b && NoEnds(ps, a, b)
    ensures Sum(ps, Active(a)) == Sum(ps, Active(b))
  {
    if ps != [] {
      assert NoEnds(ps[..|ps| - 1], a, b);
      ActiveAcross(ps[..|ps| - 1], a, b);
    }
  }

  /** Every tick's gross and net are those of the positions, and every live position has
      ordered, aligned bounds that can be read. */
  ghost predicate TicksMatch(ticks: map<int, Tick>, ps: seq<PositionData>, spacing: pos) {
    && (forall t :: t in ticks ==> ticks[t].gross == Sum(ps, Gross(t)) && ticks[t].net == Sum(ps, Net(t)))
    && (forall i :: 0 <= i < |ps| && ps[i].liquidity > 0 ==>
         Sound(ps[i], spacing) && ps[i].lower in ticks && ps[i].upper in ticks)
  }

  predicate Sound(p: PositionData, spacing: pos) {
    MIN_TICK <= p.lower < p.upper <= MAX_TICK && p.lower % spacing == 0 && p.upper % spacing == 0
  }

  lemma {:induction false} NobodyEndsAt(ps: seq<PositionData>, t: int)
    requires forall i :: 0 <= i < |ps| && ps[i].liquidity > 0 ==> ps[i].lower != t && ps[i].upper != t
    ensures Sum(ps, Gross(t)) == 0 && Sum(ps, Net(t)) == 0
  {
    if ps != [] {
      NobodyEndsAt(ps[..|ps| - 1], t);
    }
  }

  /** An initialized tick is somebody's bound. */
  lemma InitializedIsEnd(ticks: map<int, Tick>, ps: seq<PositionData>, spacing: pos, t: int)
    requires TicksMatch(ticks, ps, spacing) && t in ticks && ticks[t].Initialized()
    ensures MIN_TICK <= t <= MAX_TICK && t % spacing == 0
    ensures exists i :: 0 <= i < |ps| && ps[i].liquidity > 0 && (ps[i].lower == t || ps[i].upper == t)
  {
    if forall i :: 0 <= i < |ps| && ps[i].liquidity > 0 ==> ps[i].lower != t && ps[i].upper != t {
      NobodyEndsAt(ps, t);
    }
  }

  /** An empty tick is nobody's bound. */
  lemma EmptyIsNoEnd(ticks: map<int, Tick>, ps: seq<PositionData>, spacing: pos, t: int)
    requires TicksMatch(ticks, ps, spacing) && (t in ticks ==> !ticks[t].Initialized())
    ensures NoEnds(ps, t - 1, t)
    ensures t in ticks ==> ticks[t].net == 0
    ensures Sum(ps, Net(t)) == 0
  {
    forall i | 0 <= i < |ps| && ps[i].liquidity > 0 ensures ps[i].lower != t && ps[i].upper != t {
      if t in ticks {
        SumBounds(ps, Gross(t), i);
      }
    }
    ActiveStep(ps, t);
    ActiveAcross(ps, t - 1, t);
  }

  /** The nets of all ticks up to `t`. */
  function NetsUpTo(ticks: map<int, Tick>, t: int): int
    decreases t - MIN_TICK
  {
    if t < MIN_TICK then 0 else NetsUpTo(ticks, t - 1) + if t in ticks then ticks[t].net else 0
  }

  lemma {:induction false} NobodyBelow(ps: seq<PositionData>, spacing: pos, t: int)
    requires t < MIN_TICK && forall i :: 0 <= i < |ps| && ps[i].liquidity > 0 ==> Sound(ps[i], spacing)
    ensures Sum(ps, Active(t)) == 0
  {
    if ps != [] {
      NobodyBelow(ps[..|ps| - 1], spacing, t);
    }
  }

  /** The positions in range at a tick hold the sum of all nets up to it. */
  lemma {:induction false} ActiveIsNets(ticks: map<int, Tick>, ps: seq<PositionData>, spacing: pos, t: int)
    requires TicksMatch(ticks, ps, spacing)
    ensures Sum(ps, Active(t)) == NetsUpTo(ticks, t)
    decreases t - MIN_TICK
  {
    if t < MIN_TICK {
      NobodyBelow(ps, spacing, t);
    } else {
      ActiveIsNets(ticks, ps, spacing, t - 1);
      ActiveStep(ps, t);
      if t !in ticks {
        EmptyIsNoEnd(ticks, ps, spacing, t);
      }
    }
  }

  lemma QuietIsNoEnds(ticks: map<int, Tick>, ps: seq<PositionData>, spacing: pos, a: int, b: int)
    requires TicksMatch(ticks, ps, spacing) && Quiet(ticks, spacing, a, b)
    ensures NoEnds(ps, a, b)
  {
    forall i | 0 <= i < |ps| && ps[i].liquidity > 0
      ensures !(a < ps[i].lower <= b) && !(a < ps[i].upper <= b)
    {
      if a < ps[i].lower <= b {
        EmptyIsNoEnd(ticks, ps, spacing, ps[i].lower);
      }
      if a < ps[i].upper <= b {
        EmptyIsNoEnd(ticks, ps, spacing, ps[i].upper);
      }
    }
  }

  /** Between the current tick and the target nothing begins or ends; the target itself is a
      bound only if it is initialized. */
  lemma TargetSeparates(w: Walk, ticks: map<int, Tick>, ps: seq<PositionData>, tick: int)
    requires w.Valid() && TicksMatch(ticks, ps, w.pool.spacing) && NextTarget(w, ticks, tick).Ok?
    ensures var t := NextTarget(w, ticks, tick).value;
      && (w.down ==> t.tick <= tick && NoEnds(ps, t.tick, tick) && !t.pastWindow)
      && (!w.down ==> tick < t.tick && NoEnds(ps, tick, t.tick - 1))
      && (!t.initialized && !t.pastWindow ==> NoEnds(ps, t.tick - 1, t.tick))
      && (t.initialized ==> t.tick in ticks && ticks[t.tick].Initialized() && !t.pastWindow)
  {
    var t := NextTarget(w, ticks, tick).value;
    if w.down {
      TargetDown(w, ticks, tick);
      QuietIsNoEnds(ticks, ps, w.pool.spacing, t.tick, tick);
      if !t.initialized {
        EmptyIsNoEnd(ticks, ps, w.pool.spacing, t.tick);
      }
    } else {
      TargetUp(w, ticks, tick);
      QuietIsNoEnds(ticks, ps, w.pool.spacing, tick, t.tick - 1);
    }
  }
}
