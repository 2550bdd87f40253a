/** The instruction handlers as the program runs them: load accounts, call the engine on
    copies, pack the records back, then move tokens (clmm/src/processor.rs). `Process` adds
    the runtime's rule that a failed instruction reverts as a whole, and is proved to do
    exactly what `Book.Apply` says. */
module Market {
  import opened Numbers
  import opened TickMath
  import opened Ticks
  import opened SwapWalk
  import opened Liquidity
  import opened Runs
  import opened Book
  import opened Engine

  /** The tick-array accounts hold what `ticks` says. */
  ghost predicate Filed(arrays: map<int, seq<Tick>>, ticks: map<int, Tick>, spacing: pos) {
    && (forall s :: s in arrays ==> |arrays[s]| == TICK_ARRAY_SIZE && StartIndex(s, spacing) == s)
    && (forall s, t :: s in arrays && TickSlot(s, spacing, t).Ok? ==>
         t in ticks && ticks[t] == arrays[s][TickSlot(s, spacing, t).value])
  }

  /** Only the window's ticks have moved. */
  ghost predicate OnlyWindow(starts: seq<int>, spacing: pos, ticks: map<int, Tick>, after: map<int, Tick>) {
    forall t :: t in ticks && StartIndex(t, spacing) !in starts ==> t in after && after[t] == ticks[t]
  }

  lemma SlotAligned(start: int, spacing: pos, tick: int)
    requires StartIndex(start, spacing) == start && TickSlot(start, spacing, tick).Ok?
    ensures tick % spacing == 0
  {
    var k := TickSlot(start, spacing, tick).value;
    ArrayAligned(start / Span(spacing), 0, spacing);
    AlignedIsMultiple(start, spacing);
    SumOfMultiples(start / spacing, k, spacing);
    MultipleAligned(start / spacing + k, spacing);
  }

  lemma FiledAgain(window: seq<TickArray>, spacing: pos, before: map<int, seq<Tick>>, arrays: map<int, seq<Tick>>,
        ticks: map<int, Tick>, after: map<int, Tick>)
    requires Filed(before, ticks, spacing) && Buffers(window) && Apart(window, spacing)
    requires Shows(window, spacing, after) && OnlyWindow(Starts(window), spacing, ticks, after)
    requires arrays.Keys == before.Keys
    requires forall j :: 0 <= j < |window| ==>
      window[j].start in arrays && arrays[window[j].start] == window[j].slots[..]
    requires forall s :: s in before && s !in Starts(window) ==> arrays[s] == before[s]
    ensures Filed(arrays, after, spacing)
  {
    forall s | s in arrays ensures |arrays[s]| == TICK_ARRAY_SIZE {
      if s in Starts(window) {
        var j :| 0 <= j < |window| && Starts(window)[j] == s;
        assert window[j].start == s;
      }
    }
    forall s, t | s in arrays && TickSlot(s, spacing, t).Ok?
      ensures t in after && after[t] == arrays[s][TickSlot(s, spacing, t).value]
    {
      SlotInSpan(s, spacing, t);
      InSpan(s, spacing, t);
      if s in Starts(window) {
        var j :| 0 <= j < |window| && Starts(window)[j] == s;
        assert window[j].start == s;
      }
    }
  }

  /** Which arrays are supplied matters, not in which order or how often. */
  lemma SameStarts(pool: PoolData, p: PositionData, ticks: map<int, Tick>, a: seq<int>, b: seq<int>, delta: i128)
    requires forall s :: s in a <==> s in b
    ensures Modify(pool, p, ticks, a, delta) == Modify(pool, p, ticks, b, delta)
  {
    ModifyIs(pool, p, ticks, a, delta);
    ModifyIs(pool, p, ticks, b, delta);
  }

  lemma MovesInWindow(pool: PoolData, p: PositionData, ticks: map<int, Tick>, starts: seq<int>, delta: i128)
    requires Modify(pool, p, ticks, starts, delta).Ok?
    ensures OnlyWindow(starts, pool.spacing, ticks, Modify(pool, p, ticks, starts, delta).value.ticks)
  {
    ModifyIs(pool, p, ticks, starts, delta);
  }

  lemma SwapMovesInWindow(b: Book, down: bool, amountIn: u64, limit: u128, starts: seq<int>)
    requires WindowSwap(b, down, amountIn, limit, starts).Ok?
    ensures OnlyWindow(starts, b.pool.spacing, b.ticks, WindowSwap(b, down, amountIn, limit, starts).value.1)
  {
    ChainAligned(starts, b.pool.spacing, b.pool.tick, down);
    var w := Walk(b.pool, down, limit, LowEnd(starts, down), HighEnd(starts, b.pool.spacing, down));
    var s := Start(w, b.ticks, amountIn);
    forall t | t in b.ticks && StartIndex(t, b.pool.spacing) !in starts
      ensures t in Run(w, s).value.ticks && Run(w, s).value.ticks[t] == b.ticks[t]
    {
      if w.lo <= t < w.hi {
        IndexInWindow(starts, b.pool.spacing, b.pool.tick, down, t);
      }
      RunStaysInWindow(w, s, t);
    }
  }

  /** Every copy replaces the account it was read from. */
  method WriteBack(window: seq<TickArray>, arrays: map<int, seq<Tick>>) returns (written: map<int, seq<Tick>>)
    requires forall i :: 0 <= i < |window| ==> window[i].start in arrays
    requires forall i, j :: 0 <= i < j < |window| ==> window[i].start != window[j].start
    ensures written.Keys == arrays.Keys
    ensures forall i :: 0 <= i < |window| ==> written[window[i].start] == window[i].slots[..]
    ensures forall s :: s in arrays && s !in Starts(window) ==> written[s] == arrays[s]
  {
    written := arrays;
    for i := 0 to |window|
      invariant written.Keys == arrays.Keys
      invariant forall j :: 0 <= j < i ==> written[window[j].start] == window[j].slots[..]
      invariant forall s :: s in arrays && (forall j :: 0 <= j < i ==> window[j].start != s) ==> written[s] == arrays[s]
    {
      written := written[window[i].start := window[i].slots[..]];
    }
    forall s | s in arrays && s !in Starts(window) ensures written[s] == arrays[s] {
      assert forall j :: 0 <= j < |window| ==> Starts(window)[j] == window[j].start;
    }
  }

  /** At most three arrays, no two neighbours the same. */
  method CheckNeighbours(starts: seq<int>) returns (r: Result<()>)
    ensures r.Err? ==> r == Err(InvalidTickArraySequence)
    ensures r.Ok? <==> 0 < |starts| <= 3 && forall k :: 0 <= k < |starts| - 1 ==> starts[k] != starts[k + 1]
  {
    if |starts| == 0 || |starts| > 3 {
      return Err(InvalidTickArraySequence);
    }
    for k := 0 to |starts| - 1
      invariant forall j :: 0 <= j < k ==> starts[j] != starts[j + 1]
    {
      if starts[k] == starts[k + 1] {
        return Err(InvalidTickArraySequence);
      }
    }
    return Ok(());
  }

  class Market {
    var pool: PoolData
    var arrays: map<int, seq<Tick>>
    var positions: seq<PositionData>
    var vault0: nat
    var vault1: nat
    ghost var ticks: map<int, Tick>

    ghost predicate Valid()
      reads this
    {
      Filed(arrays, ticks, pool.spacing)
    }

    ghost function State(): Book
      reads this
    {
      Book(pool, ticks, arrays.Keys, positions, vault0, vault1)
    }

    constructor (pool: PoolData)
      ensures Valid() && State() == Book(pool, map[], {}, [], 0, 0)
    {
      this.pool, arrays, positions, vault0, vault1, ticks := pool, map[], [], 0, 0, map[];
    }

    static method InitPool(feePips: nat, spacing: nat, price: u128) returns (r: Result<Market>)
      ensures match ApplyInitPool(feePips, spacing, price)
        case Err(e) => r == Err(e)
        case Ok(b) => r.Ok? && fresh(r.value) && r.value.Valid() && r.value.State() == b
    {
      var _ :- CheckPoolParams(feePips, spacing, price);
      var tick := GetTickAtSqrtPrice(price);
      var m := new Market(PoolData(feePips, spacing, tick.value, price, 0, 0, 0));
      return Ok(m);
    }

    method InitTickArray(start: int) returns (r: Result<()>)
      requires Valid()
      modifies this
      ensures match ApplyInitTickArray(old(State()), start)
        case Err(e) => r == Err(e)
        case Ok(b) => r == Ok(()) && Valid() && State() == b
    {
      var spacing := pool.spacing;
      if StartIndex(start, spacing) != start || start > MAX_TICK || start + Span(spacing) <= MIN_TICK {
        return Err(InvalidParams);
      }
      if start in arrays {
        return Err(AlreadyInitialized);
      }
      arrays := arrays[start := seq(TICK_ARRAY_SIZE, i => EMPTY_TICK)];
      ticks := ticks + EmptyTicks(start, spacing);
      forall s, t | s in arrays && TickSlot(s, spacing, t).Ok?
        ensures t in ticks && ticks[t] == arrays[s][TickSlot(s, spacing, t).value]
      {
        SlotInSpan(s, spacing, t);
        InSpan(s, spacing, t);
        InSpan(start, spacing, t);
        SlotAligned(s, spacing, t);
      }
      return Ok(());
    }

    method OpenPosition(lower: int, upper: int) returns (r: Result<()>)
      requires Valid()
      modifies this`positions
      ensures match ApplyOpenPosition(old(State()), lower, upper)
        case Err(e) => r == Err(e)
        case Ok(b) => r == Ok(()) && Valid() && State() == b
    {
      var _ :- CheckTick(lower, pool.spacing);
      var _ :- CheckTick(upper, pool.spacing);
      if lower >= upper {
        return Err(InvalidTickRange);
      }
      positions := positions + [PositionData(true, lower, upper, 0, 0, 0, 0, 0)];
      return Ok(());
    }

    /** An initialized position account. */
    method LoadPosition(i: nat) returns (r: Result<PositionData>)
      ensures r == OpenAt(State(), i)
    {
      if i < |positions| && positions[i].open {
        return Ok(positions[i]);
      }
      return Err(Uninitialized);
    }

    /** Copies of the tick-array accounts that start at `starts`. */
    method LoadWindow(starts: seq<int>) returns (r: Result<seq<TickArray>>)
      requires Valid()
      ensures r.Ok? <==> AllCreated(State(), starts)
      ensures r.Err? ==> r == Err(Uninitialized)
      ensures r.Ok? ==>
        Starts(r.value) == starts && Buffers(r.value) && Shows(r.value, pool.spacing, ticks) && fresh(Slots(r.value))
    {
      var window: seq<TickArray> := [];
      for i := 0 to |starts|
        invariant |window| == i && forall j :: 0 <= j < i ==> starts[j] in arrays && window[j].start == starts[j]
        invariant forall j :: 0 <= j < i ==> fresh(window[j].slots) && window[j].slots[..] == arrays[starts[j]]
        invariant forall j, k :: 0 <= j < k < i ==> window[j].slots != window[k].slots
      {
        if starts[i] !in arrays {
          ghost var missing := starts[i];
          assert missing in starts && missing !in State().arrays;
          assert !AllCreated(State(), starts);
          return Err(Uninitialized);
        }
        var a := new TickArray(starts[i], arrays[starts[i]]);
        window := window + [a];
      }
      return Ok(window);
    }

    /** The copies written back. */
    method StoreWindow(window: seq<TickArray>, ghost after: map<int, Tick>)
      requires Valid() && Buffers(window) && Apart(window, pool.spacing)
      requires Shows(window, pool.spacing, after) && OnlyWindow(Starts(window), pool.spacing, ticks, after)
      requires AllCreated(State(), Starts(window))
      modifies this`arrays, this`ticks
      ensures Valid() && ticks == after && arrays.Keys == old(arrays.Keys)
    {
      var written := WriteBack(window, arrays);
      FiledAgain(window, pool.spacing, arrays, written, ticks, after);
      arrays, ticks := written, after;
    }

    /** Shared path of increase and decrease. */
    method ModifyLiquidity(i: nat, delta: i128, bound0: u64, bound1: u64, starts: seq<int>) returns (r: Result<()>)
      requires Valid()
      modifies this
      ensures match ApplyModifyLiquidity(old(State()), i, delta, bound0, bound1, starts)
        case Err(e) => r == Err(e)
        case Ok(b) => r == Ok(()) && Valid() && State() == b
    {
      var data :- LoadPosition(i);
      var m :- ModifyWindow(data, delta, starts);
      r := Exchange(i, m, delta, bound0, bound1);
    }

    /** The engine on copies of the records and of the one or two arrays, which are written
        back; the records are not packed yet. */
    method ModifyWindow(data: PositionData, delta: i128, starts: seq<int>) returns (r: Result<Modified>)
      requires Valid()
      modifies this`arrays, this`ticks
      ensures match WindowModify(old(State()), data, delta, starts)
        case Err(e) => r == Err(e)
        case Ok(m) => r == Ok(m.(ticks := map[])) && Valid() && State() == old(State()).(ticks := m.ticks)
      ensures r.Ok? ==> r.value.pool.spacing == pool.spacing
    {
      if !(0 < |starts| <= 2) {
        return Err(Uninitialized);
      }
      var same := |starts| == 2 && starts[0] == starts[1];
      var window :- LoadWindow(if same then [starts[0]] else starts);
      var p := new Pool(pool);
      var q := new Position(data);
      SameStarts(pool, data, ticks, starts, Starts(window), delta);
      var amounts :- Engine.ModifyPosition(p, q, window, delta, ticks);
      MovesInWindow(pool, data, ticks, Starts(window), delta);
      StoreWindow(window, Modify(pool, data, ticks, starts, delta).value.ticks);
      return Ok(Modified(p.Value(), q.Value(), map[], amounts.0, amounts.1));
    }

    /** The records packed, then the two transfers. */
    method Exchange(i: nat, m: Modified, delta: i128, bound0: u64, bound1: u64) returns (r: Result<()>)
      requires i < |positions|
      modifies this`pool, this`positions, this`vault0, this`vault1
      ensures match Exchanged(old(State()), i, m.(ticks := ticks), delta, bound0, bound1)
        case Err(e) => r == Err(e)
        case Ok(b) => r == Ok(()) && State() == b
    {
      var amount0 :- ToU64(m.amount0);
      var amount1 :- ToU64(m.amount1);
      if !WithinBounds(delta, amount0, amount1, bound0, bound1) {
        return Err(SlippageExceeded);
      }
      pool := m.pool;
      positions := positions[i := m.position];
      vault0 :- Moved(vault0, amount0, delta);
      vault1 :- Moved(vault1, amount1, delta);
      return Ok(());
    }

    method Collect(i: nat) returns (r: Result<()>)
      requires Valid()
      modifies this
      ensures match ApplyCollect(old(State()), i)
        case Err(e) => r == Err(e)
        case Ok(b) => r == Ok(()) && Valid() && State() == b
    {
      var p :- LoadPosition(i);
      positions := positions[i := p.(owed0 := 0, owed1 := 0)];
      vault0 :- Moved(vault0, p.owed0, -1);
      vault1 :- Moved(vault1, p.owed1, -1);
      return Ok(());
    }

    method ClosePosition(i: nat) returns (r: Result<()>)
      requires Valid()
      modifies this`positions
      ensures match ApplyClosePosition(old(State()), i)
        case Err(e) => r == Err(e)
        case Ok(b) => r == Ok(()) && Valid() && State() == b
    {
      var p :- LoadPosition(i);
      if p.liquidity != 0 || p.owed0 != 0 || p.owed1 != 0 {
        return Err(InvalidParams);
      }
      positions := positions[i := p.(open := false)];
      return Ok(());
    }

    method Swap(down: bool, amountIn: u64, minOut: u64, limit: u128, starts: seq<int>) returns (r: Result<()>)
      requires Valid()
      modifies this
      ensures match ApplySwap(old(State()), down, amountIn, minOut, limit, starts)
        case Err(e) => r == Err(e)
        case Ok(b) => r == Ok(()) && Valid() && State() == b
    {
      var _ :- CheckNeighbours(starts);
      var o :- SwapWindow(down, amountIn, DefaultLimit(down, limit), starts);
      r := Settle(down, minOut, o);
    }

    /** The engine on copies of the window, written back. */
    method SwapWindow(down: bool, amountIn: u64, limit: u128, starts: seq<int>) returns (r: Result<SwapOutcome>)
      requires Valid()
      modifies this`arrays, this`ticks
      ensures !old(AllCreated(State(), starts)) ==> r == Err(Uninitialized)
      ensures old(AllCreated(State(), starts)) ==> match WindowSwap(old(State()), down, amountIn, limit, starts)
        case Err(e) => r == Err(e)
        case Ok((o, after)) => r == Ok(o) && Valid() && State() == old(State()).(ticks := after)
    {
      var window :- LoadWindow(starts);
      var o :- Engine.Swap(pool, window, down, amountIn, limit, ticks);
      WindowApart(window, pool.spacing, pool.tick, down);
      SwapMovesInWindow(State(), down, amountIn, limit, starts);
      StoreWindow(window, WindowSwap(State(), down, amountIn, limit, starts).value.1);
      return Ok(o);
    }

    /** The pool packed, then the two transfers. */
    method Settle(down: bool, minOut: u64, o: SwapOutcome) returns (r: Result<()>)
      modifies this`pool, this`vault0, this`vault1
      ensures match Settled(old(State()), down, minOut, o)
        case Err(e) => r == Err(e)
        case Ok(b) => r == Ok(()) && State() == b
    {
      if o.amountOut < minOut {
        return Err(SlippageExceeded);
      }
      pool := PoolAfter(pool, down, o);
      var payIn :- ToU64(o.amountIn + o.fee);
      if down {
        vault0 := vault0 + payIn;
        vault1 :- Moved(vault1, o.amountOut, -1);
      } else {
        vault1 := vault1 + payIn;
        vault0 :- Moved(vault0, o.amountOut, -1);
      }
      return Ok(());
    }

    /** One instruction: what a handler left half done when it failed is undone. */
    method Process(op: Op) returns (r: Result<()>)
      requires Valid()
      modifies this
      ensures Valid() && State() == After(old(State()), op)
      ensures match Apply(old(State()), op)
        case Err(e) => r == Err(e)
        case Ok(_) => r == Ok(())
    {
      var saved := (pool, arrays, positions, vault0, vault1);
      ghost var savedTicks := ticks;
      r := Dispatch(op);
      if r.Err? {
        pool, arrays, positions, vault0, vault1, ticks := saved.0, saved.1, saved.2, saved.3, saved.4, savedTicks;
      }
    }

    method Dispatch(op: Op) returns (r: Result<()>)
      requires Valid()
      modifies this
      ensures match Apply(old(State()), op)
        case Err(e) => r == Err(e)
        case Ok(b) => r == Ok(()) && Valid() && State() == b
    {
      match op
      case InitTickArray(start) => r := InitTickArray(start);
      case OpenPosition(lower, upper) => r := OpenPosition(lower, upper);
      case IncreaseLiquidity(i, liquidity, max0, max1, starts) =>
        var delta :- ToI128(liquidity);
        r := ModifyLiquidity(i, delta, max0, max1, starts);
      case DecreaseLiquidity(i, liquidity, min0, min1, starts) =>
        var delta :- ToI128(liquidity);
        r := ModifyLiquidity(i, -delta, min0, min1, starts);
      case Collect(i) => r := Collect(i);
      case ClosePosition(i) => r := ClosePosition(i);
      case Swap(down, amountIn, minOut, limit, starts) => r := Swap(down, amountIn, minOut, limit, starts);
      case Donate(zero, amount) =>
        vault0, vault1 := if zero then vault0 + amount else vault0, if zero then vault1 else vault1 + amount;
        r := Ok(());
    }
  }
}
