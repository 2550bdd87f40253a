/** The exact principal of the positions at a price, in both tokens, and how it moves. */
module Principal {
  import opened Numbers
  import opened TickMath
  import opened Ticks
  import opened SwapWalk
  import opened Ledger
  import opened Coherence
  import opened SwapMath

  ghost function BandPrice(t: int): pos {
    PriceInBand(Clamp(t));
    PriceAt(Clamp(t))
  }

  /** The price as seen by a range: brought inside its bounds. */
  ghost function Within(p: PositionData, price: pos): pos {
    if price <= BandPrice(p.lower) then BandPrice(p.lower)
    else if BandPrice(p.upper) <= price then BandPrice(p.upper)
    else price
  }

  /** Token 0 held by a unit of liquidity of the range at the price, exactly. */
  ghost function Unit0(p: PositionData, price: pos): real {
    V0(BandPrice(p.upper)) - V0(Within(p, price))
  }

  ghost function Unit1(p: PositionData, price: pos): real {
    V1(Within(p, price)) - V1(BandPrice(p.lower))
  }

  ghost function Unit(zero: bool, p: PositionData, price: pos): real {
    if zero then Unit0(p, price) else Unit1(p, price)
  }

  /** Exact principal of all positions in one token. */
  ghost function Total(zero: bool, ps: seq<PositionData>, price: pos): real {
    if ps == [] then 0.0
    else Total(zero, ps[..|ps| - 1], price) + Times(ps[|ps| - 1].liquidity, Unit(zero, ps[|ps| - 1], price))
  }

  lemma UnitNonNegative(zero: bool, p: PositionData, price: pos)
    requires p.lower <= p.upper
    ensures 0.0 <= Unit(zero, p, price)
  {
    ClampedMono(p.lower, p.upper);
    V0Increases(Within(p, price), BandPrice(p.upper));
    V1Increases(BandPrice(p.lower), Within(p, price));
  }

  /** Every position is idle or has ordered bounds. */
  ghost predicate Ordered(ps: seq<PositionData>) {
    forall i :: 0 <= i < |ps| && ps[i].liquidity > 0 ==> ps[i].lower < ps[i].upper
  }

  lemma {:induction false} TotalBounds(zero: bool, ps: seq<PositionData>, price: pos)
    requires Ordered(ps)
    ensures 0.0 <= Total(zero, ps, price)
    ensures forall i :: 0 <= i < |ps| ==> Times(ps[i].liquidity, Unit(zero, ps[i], price)) <= Total(zero, ps, price)
  {
    if ps != [] {
      var n := |ps| - 1;
      TotalBounds(zero, ps[..n], price);
      if ps[n].liquidity > 0 {
        UnitNonNegative(zero, ps[n], price);
        TimesMono(ps[n].liquidity, 0.0, Unit(zero, ps[n], price));
      }
      TimesSub(ps[n].liquidity, Unit(zero, ps[n], price), 0.0);
      forall i | 0 <= i < n
        ensures Times(ps[i].liquidity, Unit(zero, ps[i], price)) <= Total(zero, ps, price)
      {
        assert ps[i] == ps[..n][i];
      }
    }
  }

  lemma {:induction false} TotalUpdate(zero: bool, ps: seq<PositionData>, i: nat, p: PositionData, price: pos)
    requires i < |ps| && p.lower == ps[i].lower && p.upper == ps[i].upper
    ensures Total(zero, ps[i := p], price)
         == Total(zero, ps, price) + Times(p.liquidity - ps[i].liquidity, Unit(zero, p, price))
  {
    var n := |ps| - 1;
    if i == n {
      assert ps[i := p][..n] == ps[..n];
      TimesAdd(p.liquidity - ps[i].liquidity, ps[i].liquidity, Unit(zero, p, price));
    } else {
      assert ps[i := p][..n] == ps[..n][i := p];
      TotalUpdate(zero, ps[..n], i, p, price);
    }
  }

  lemma {:induction false} TotalIdle(zero: bool, ps: seq<PositionData>, i: nat, p: PositionData, price: pos)
    requires i < |ps| && p.liquidity == 0 && ps[i].liquidity == 0
    ensures Total(zero, ps[i := p], price) == Total(zero, ps, price)
  {
    var n := |ps| - 1;
    if i == n {
      assert ps[i := p][..n] == ps[..n];
      TimesSub(0, Unit(zero, p, price), 0.0);
      TimesSub(0, Unit(zero, ps[i], price), 0.0);
    } else {
      assert ps[i := p][..n] == ps[..n][i := p];
      TotalIdle(zero, ps[..n], i, p, price);
    }
  }

  /** A move that no live range divides: one unit of a range gains the full move if the
      range is active, and nothing otherwise. */
  lemma UnitMoves(p: PositionData, tick: int, a: pos, b: pos)
    requires MIN_TICK <= p.lower < p.upper <= MAX_TICK && Undivided(p, tick, a, b)
    ensures var active := p.lower <= tick < p.upper;
      && Unit0(p, b) - Unit0(p, a) == (if active then V0(a) - V0(b) else 0.0)
      && Unit1(p, b) - Unit1(p, a) == (if active then V1(b) - V1(a) else 0.0)
  {
    PriceMono(p.lower, p.upper);
  }

  /** So the total moves by the active liquidity times the move: a swap step's exact amounts. */
  lemma {:induction false} TotalMoves(ps: seq<PositionData>, spacing: pos, tick: int, a: pos, b: pos)
    requires forall i :: 0 <= i < |ps| && ps[i].liquidity > 0 ==> Sound(ps[i], spacing) && Undivided(ps[i], tick, a, b)
    ensures Total(true, ps, b) - Total(true, ps, a) == Times(Sum(ps, Active(tick)), V0(a) - V0(b))
    ensures Total(false, ps, b) - Total(false, ps, a) == Times(Sum(ps, Active(tick)), V1(b) - V1(a))
  {
    if ps == [] {
      TimesSub(0, V0(a) - V0(b), 0.0);
      TimesSub(0, V1(b) - V1(a), 0.0);
    } else {
      var n := |ps| - 1;
      TotalMoves(ps[..n], spacing, tick, a, b);
      var p := ps[n];
      if p.liquidity > 0 {
        UnitMoves(p, tick, a, b);
      }
      var active := p.lower <= tick < p.upper;
      OneMore(Sum(ps[..n], Active(tick)), p.liquidity, active, V0(a) - V0(b), Unit0(p, a), Unit0(p, b));
      OneMore(Sum(ps[..n], Active(tick)), p.liquidity, active, V1(b) - V1(a), Unit1(p, a), Unit1(p, b));
    }
  }

  lemma OneMore(sum: int, l: nat, active: bool, move: real, ua: real, ub: real)
    requires l > 0 ==> ub - ua == if active then move else 0.0
    ensures Times(sum, move) + Times(l, ub) - Times(l, ua) == Times(sum + if active then l else 0, move)
  {
    TimesSub(l, ub, ua);
    TimesSub(l, ua, ub);
    TimesAdd(sum, l, move);
    TimesSub(0, ua, ub);
    TimesSub(0, ub, ua);
    TimesSub(0, move, 0.0);
  }

  /** A stall-free iteration moves the totals by the exact amounts of its step. */
  lemma SwapMovesTotals(w: Walk, s: WalkState, n: WalkState, ps: seq<PositionData>, growth: nat)
    requires Advance(w, s, n, ps, growth) && InRange(s, ps)
    ensures Total(w.down, ps, n.price) - Total(w.down, ps, s.price) == ExactIn(w.down, s.price, n.price, s.liquidity)
    ensures Total(!w.down, ps, s.price) - Total(!w.down, ps, n.price) == ExactOut(w.down, s.price, n.price, s.liquidity)
  {
    TotalMoves(ps, w.pool.spacing, s.tick, s.price, n.price);
    TimesSub(s.liquidity, V0(s.price), V0(n.price));
    TimesSub(s.liquidity, V0(n.price), V0(s.price));
    TimesSub(s.liquidity, V1(s.price), V1(n.price));
    TimesSub(s.liquidity, V1(n.price), V1(s.price));
  }
}
