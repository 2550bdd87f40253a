/** When the instructions that create, empty and close accounts succeed, and what they leave. */
module Accounts {
  import opened Numbers
  import opened TickMath
  import opened Ticks
  import opened Book
  import opened Invariant
  import opened Reachable

  /** A pool is created exactly for one of the three pairs of fee and spacing and a price of the
      band; it has what was asked for, the floor tick of its price, and nothing else. */
  lemma PoolAsAsked(feePips: nat, spacing: nat, price: u128)
    ensures ApplyInitPool(feePips, spacing, price).Ok? <==>
      && (feePips, spacing) in {(500, 8), (3000, 64), (10000, 128)}
      && 4295048016 <= price <= 79226673515399013880257568879
    ensures ApplyInitPool(feePips, spacing, price).Ok? ==>
      var b := ApplyInitPool(feePips, spacing, price).value;
      && b.pool.feePips == feePips && b.pool.spacing == spacing && b.pool.price == price
      && MIN_TICK <= b.pool.tick <= MAX_TICK && PriceAt(b.pool.tick) <= price
      && (b.pool.tick < MAX_TICK ==> price < PriceAt(b.pool.tick + 1))
      && b.pool.liquidity == 0 && b.pool.growth0 == 0 && b.pool.growth1 == 0
      && b.ticks == map[] && b.arrays == {} && b.positions == [] && b.vault0 == 0 && b.vault1 == 0
  {
  }

  /** An array is created exactly when its start is a multiple of 88 spacings, some tick of the
      band lies in its span and it does not exist yet; its ticks are empty and no other changes. */
  lemma ArrayAsAsked(b: Book, start: int)
    requires Sane(b)
    ensures ApplyInitTickArray(b, start).Ok? <==>
      && start % (88 * b.pool.spacing) == 0 && start !in b.arrays
      && start <= 443636 && -443636 < start + 88 * b.pool.spacing
    ensures ApplyInitTickArray(b, start).Ok? ==>
      var n := ApplyInitTickArray(b, start).value;
      && n == b.(arrays := b.arrays + {start}, ticks := n.ticks)
      && (forall t :: t in n.ticks <==>
            t in b.ticks || (start <= t < start + 88 * b.pool.spacing && t % b.pool.spacing == 0))
      && (forall t :: t in n.ticks ==>
            if t in b.ticks then n.ticks[t] == b.ticks[t] else n.ticks[t] == Tick(0, 0, 0, 0))
  {
    StartIsMultiple(start, b.pool.spacing);
    if ApplyInitTickArray(b, start).Ok? {
      forall t | t in b.ticks ensures !(start <= t < start + Span(b.pool.spacing)) {
        assert Stored(b, t);
        InSpan(start, b.pool.spacing, t);
      }
    }
  }

  lemma StartIsMultiple(start: int, spacing: pos)
    ensures StartIndex(start, spacing) == start <==> start % (88 * spacing) == 0
  {
    FloorAligned(start, Span(spacing));
  }

  /** A position is opened exactly for two ordered, aligned ticks of the band, with those bounds
      and nothing in it. */
  lemma PositionAsAsked(b: Book, lower: int, upper: int)
    ensures ApplyOpenPosition(b, lower, upper).Ok? <==>
      && -443636 <= lower < upper <= 443636 && lower % b.pool.spacing == 0 && upper % b.pool.spacing == 0
    ensures ApplyOpenPosition(b, lower, upper).Ok? ==>
      ApplyOpenPosition(b, lower, upper).value
      == b.(positions := b.positions + [PositionData(true, lower, upper, 0, 0, 0, 0, 0)])
  {
  }

  /** Whoever is owed anything in an open position can always collect it, all of it; and a
      position is closed exactly when nothing is left in it and nothing is owed. */
  lemma CollectsAndCloses(b: Book, a: Audit, i: nat)
    requires Inv(b, a)
    ensures Apply(b, Collect(i)).Ok? <==> i < |b.positions| && b.positions[i].open
    ensures Apply(b, Collect(i)).Ok? ==>
      After(b, Collect(i)) == b.(vault0 := b.vault0 - b.positions[i].owed0, vault1 := b.vault1 - b.positions[i].owed1,
                                 positions := b.positions[i := b.positions[i].(owed0 := 0, owed1 := 0)])
    ensures Apply(b, ClosePosition(i)).Ok? <==>
      && i < |b.positions| && b.positions[i].open
      && b.positions[i].liquidity == 0 && b.positions[i].owed0 == 0 && b.positions[i].owed1 == 0
    ensures Apply(b, ClosePosition(i)).Ok? ==>
      After(b, ClosePosition(i)) == b.(positions := b.positions[i := b.positions[i].(open := false)])
  {
    if i < |b.positions| {
      OwedIsHeld(b, a, i);
    }
  }

  /** The `k`-th array from the current tick's in the direction of the walk. */
  function ArrayFrom(tick: int, spacing: pos, down: bool, k: nat): int {
    tick / (88 * spacing) * (88 * spacing) + (if down then -(k as int) else k) * (88 * spacing)
  }

  lemma NextArray(tick: int, spacing: pos, down: bool, k: nat)
    ensures ArrayFrom(tick, spacing, down, 0) == StartIndex(tick, spacing)
    ensures var span: int := Span(spacing);
      ArrayFrom(tick, spacing, down, k + 1) == ArrayFrom(tick, spacing, down, k) + (if down then -span else span)
  {
    ScaleStep(k, 88 * spacing);
  }

  lemma {:induction false} ChainIs(starts: seq<int>, spacing: pos, tick: int, down: bool)
    requires starts != []
    ensures Chained(starts, spacing, tick, down) <==>
      forall k :: 0 <= k < |starts| ==> starts[k] == ArrayFrom(tick, spacing, down, k)
  {
    var n := |starts| - 1;
    NextArray(tick, spacing, down, n);
    if n > 0 {
      NextArray(tick, spacing, down, n - 1);
      ChainIs(starts[..n], spacing, tick, down);
      assert Chained(starts, spacing, tick, down) <==>
        && Chained(starts[..n], spacing, tick, down)
        && starts[n] == (if down then starts[n - 1] - Span(spacing) else starts[n - 1] + Span(spacing));
      assert forall k :: 0 <= k < n ==> starts[..n][k] == starts[k];
    }
  }

  /** The windows a swap accepts, exactly: one to three created arrays, the first one the current
      tick's and each next one a span further in the direction of the swap. */
  lemma WindowAsAsked(b: Book, down: bool, starts: seq<int>)
    ensures CheckWindow(b, starts).Ok? && Chained(starts, b.pool.spacing, b.pool.tick, down) <==>
      && 1 <= |starts| <= 3
      && (forall k :: 0 <= k < |starts| ==>
            starts[k] in b.arrays && starts[k] == ArrayFrom(b.pool.tick, b.pool.spacing, down, k))
  {
    if starts != [] {
      ChainIs(starts, b.pool.spacing, b.pool.tick, down);
    }
  }
}
