/** Fee growth inside a range, through a run of the swap loop: it grows by exactly the
    increments added while the loop's tick is inside, whatever is crossed in between. */
module FeeGrowth {
  import opened Numbers
  import opened Ticks
  import opened SwapWalk
  import opened Coherence

  function Turns(k: int): int {
    k * TWO_128
  }

  /** Equal as wrapped 128-bit counters. */
  ghost predicate Same(a: int, b: int) {
    exists k :: a - b == Turns(k)
  }

  lemma SameWhen(a: int, b: int, k: int)
    requires a - b == k * TWO_128
    ensures Same(a, b)
  {
    assert a - b == Turns(k);
  }

  lemma SameSub(a: int, b: int, c: int, d: int)
    requires Same(a, b) && Same(c, d)
    ensures Same(a - c, b - d) && Same(a + c, b + d)
  {
    var i :| a - b == Turns(i);
    var j :| c - d == Turns(j);
    SameWhen(a - c, b - d, i - j);
    SameWhen(a + c, b + d, i + j);
  }

  lemma SameTrans(a: int, b: int, c: int)
    requires Same(a, b) && Same(b, c)
    ensures Same(a, c) && Same(b, a)
  {
    var i :| a - b == Turns(i);
    var j :| b - c == Turns(j);
    SameWhen(a, c, i + j);
    SameWhen(b, a, -i);
  }

  lemma WrapSubIs(a: u128, b: u128)
    ensures Same(WrapSub(a, b), a - b)
  {
    SameWhen(WrapSub(a, b), a - b, if a < b then 1 else 0);
  }

  lemma WrapAddIs(a: u128, b: u128)
    ensures Same(WrapAdd(a, b), a + b)
  {
    SameWhen(WrapAdd(a, b), a + b, if a + b < TWO_128 then 0 else -1);
  }

  lemma SameRefl(a: int)
    ensures Same(a, a)
  {
    SameWhen(a, a, 0);
  }

  function Outside(t: Tick, zero: bool): u128 {
    if zero then t.outside0 else t.outside1
  }

  /** The growth on the low side of a tick, recovered from the side it is stored for. */
  function Below(t: Tick, index: int, current: int, growth: u128, zero: bool): int {
    if index <= current then Outside(t, zero) else growth - Outside(t, zero)
  }

  /** Growth inside a position's range, as the program computes it from the two ticks. */
  function Inside(ticks: map<int, Tick>, p: PositionData, current: int, growth: u128, zero: bool): u128
    requires p.lower in ticks && p.upper in ticks
  {
    FeeGrowthInside(p.lower, p.upper, current, growth, Outside(ticks[p.lower], zero), Outside(ticks[p.upper], zero))
  }

  /** Inside growth is the difference of what lies below the two bounds. */
  lemma InsideIsDifference(ticks: map<int, Tick>, p: PositionData, current: int, growth: u128, zero: bool)
    requires p.lower in ticks && p.upper in ticks
    ensures Same(Inside(ticks, p, current, growth, zero),
                 Below(ticks[p.upper], p.upper, current, growth, zero)
                 - Below(ticks[p.lower], p.lower, current, growth, zero))
  {
    var l, u := Outside(ticks[p.lower], zero), Outside(ticks[p.upper], zero);
    var below := if current >= p.lower then l else WrapSub(growth, l);
    var above := if current < p.upper then u else WrapSub(growth, u);
    InsideParts(growth, below, above);
    WrapSubIs(growth, l);
    WrapSubIs(growth, u);
    SameRefl(l);
    SameRefl(u);
    SameRefl(growth);
    var below', above' := if current >= p.lower then l else growth - l, if current < p.upper then u else growth - u;
    SameSub(growth, growth, below, below');
    SameSub(growth - below, growth - below', above, above');
    SameTrans(WrapSub(WrapSub(growth, below), above), growth - below - above, growth - below' - above');
  }

  lemma InsideParts(growth: u128, below: u128, above: u128)
    ensures Same(WrapSub(WrapSub(growth, below), above), growth - below - above)
  {
    var m := WrapSub(growth, below);
    WrapSubIs(growth, below);
    WrapSubIs(m, above);
    SameRefl(above);
    SameSub(m, growth - below, above, above);
    SameTrans(WrapSub(m, above), m - above, growth - below - above);
  }

  function GrowthOf(w: Walk, s: WalkState, zero: bool): u128 {
    if zero then Growth0(w, s.growth) else Growth1(w, s.growth)
  }

  /** The growth below a bound moves only by what is charged while the tick is below it. */
  lemma BelowMoves(before: Tick, after: Tick, e: int, tick: int, tick': int, g: u128, g': u128, zero: bool, d: nat)
    requires Same(g', g + d)
    requires || (after == before && (e <= tick <==> e <= tick'))
             || (Outside(after, zero) == WrapSub(g', Outside(before, zero)) && (e <= tick <==> tick' < e))
    ensures Same(Below(after, e, tick', g', zero), Below(before, e, tick, g, zero) + if tick < e then d else 0)
  {
    var o := Outside(before, zero);
    SameRefl(o);
    SameRefl(g');
    WrapSubIs(g', o);
    SameSub(g', g + d, o, o);
    SameSub(g', g', WrapSub(g', o), g' - o);
    SameTrans(WrapSub(g', o), g' - o, g + d - o);
  }

  /** Growth inside a live range moves only while the tick is in range. */
  lemma InsideMoves(w: Walk, s: WalkState, n: WalkState, ps: seq<PositionData>, growth: nat, i: nat, zero: bool)
    requires Advance(w, s, n, ps, growth) && i < |ps| && ps[i].liquidity > 0
    ensures var p := ps[i];
      && p.lower in s.ticks && p.upper in s.ticks && p.lower in n.ticks && p.upper in n.ticks
      && Same(Inside(n.ticks, p, n.tick, GrowthOf(w, n, zero), zero),
              Inside(s.ticks, p, s.tick, GrowthOf(w, s, zero), zero)
              + if zero == w.down && p.lower <= s.tick < p.upper then growth else 0)
  {
    var p := ps[i];
    var d := if zero == w.down then growth else 0;
    var g, g' := GrowthOf(w, s, zero), GrowthOf(w, n, zero);
    assert Same(g', g + d) by {
      WrapAddIs(s.growth, growth);
      SameRefl(g);
    }
    assert LiveEnd(ps, p.lower) && LiveEnd(ps, p.upper);
    var (l, l', u, u') := (s.ticks[p.lower], n.ticks[p.lower], s.ticks[p.upper], n.ticks[p.upper]);
    BelowMoves(l, l', p.lower, s.tick, n.tick, g, g', zero, d);
    BelowMoves(u, u', p.upper, s.tick, n.tick, g, g', zero, d);
    InsideIsDifference(s.ticks, p, s.tick, g, zero);
    InsideIsDifference(n.ticks, p, n.tick, g', zero);
    DifferenceMoves(Inside(n.ticks, p, n.tick, g', zero), Inside(s.ticks, p, s.tick, g, zero),
                    Below(u', p.upper, n.tick, g', zero), Below(l', p.lower, n.tick, g', zero),
                    Below(u, p.upper, s.tick, g, zero), Below(l, p.lower, s.tick, g, zero),
                    if s.tick < p.upper then d else 0, if s.tick < p.lower then d else 0);
  }

  lemma DifferenceMoves(x': int, x: int, u': int, l': int, u: int, l: int, du: int, dl: int)
    requires Same(x', u' - l') && Same(x, u - l) && Same(u', u + du) && Same(l', l + dl)
    ensures Same(x', x + du - dl)
  {
    var i :| x' - (u' - l') == Turns(i);
    var j :| x - (u - l) == Turns(j);
    var k :| u' - (u + du) == Turns(k);
    var m :| l' - (l + dl) == Turns(m);
    SameWhen(x', x + du - dl, i - j + k - m);
  }
}
