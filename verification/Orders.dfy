/** A limit or DCA order over its escrow, from placement to close (orders/src/state.rs,
    orders/src/processor.rs). The DEX is an abstract step that takes at most what it is
    offered and delivers at least its floor, or fails. */
module Orders {
  import opened Numbers

  const MAX_KEEPER_FEE_BPS: int := 50
  const MAX_INTERVAL_SECS: int := 31_536_000
  const BPS_DENOM: int := 10_000
  const LAST_SECOND: int := 0x7fff_ffff_ffff_ffff

  datatype Status = Open | Filled

  datatype OrderData = OrderData(
    status: Status,
    total: u64,
    remaining: u64,
    tranche: u64,
    minOut: u64,
    interval: u64,
    lastExec: timestamp,
    expiry: timestamp,
    feeBps: nat)
  {
    predicate Expired(now: timestamp) {
      now >= expiry
    }

    /** The addition saturates at the largest timestamp. */
    predicate DcaReady(now: timestamp) {
      now >= Min(lastExec + interval, LAST_SECOND)
    }

    function NextTranche(): u64 {
      Min(tranche, remaining)
    }

    /** Floor for a tranche: in full, or scaled to a partial last one and rounded up. */
    function EffectiveMinOut(used: u64): Result<u64> {
      if used >= tranche then Ok(minOut) else ToU64(DivCeil(minOut * used, tranche))
    }

    function Debit(amount: u64): Result<OrderData> {
      if amount > remaining then Err(MathOverflow)
      else Ok(this.(remaining := remaining - amount, status := if remaining == amount then Filled else status))
    }
  }

  /** Keeper fee out of the input tranche, rounded down, and what is left to swap. */
  function SplitOutput(tranche: u64, feeBps: nat): Result<(u64, u64)> {
    var fee := DivFloor(tranche * feeBps, BPS_DENOM) % Q64;
    if fee > tranche then Err(MathOverflow) else Ok((fee, tranche - fee))
  }

  // ---- the desk: one order and its escrow ----

  /** `live` until the order and its escrow are closed. */
  datatype Desk = Desk(order: OrderData, live: bool, escrow: nat)

  datatype Dex = Reverts | Swaps(taken: nat, delivered: nat)

  datatype Op =
    | Execute(now: timestamp, dex: Dex)
    | Cancel(byOwner: bool)
    | CrankExpired(now: timestamp)
    | CloseFilled
    | Donate(tokens: u64)

  function Place(held: nat, total: u64, tranche: u64, minOut: u64, interval: u64, expiry: timestamp, feeBps: nat,
        now: timestamp): Result<Desk> {
    if total == 0 || tranche == 0 || tranche > total then Err(InvalidParams)
    else if feeBps > MAX_KEEPER_FEE_BPS then Err(FeeTooHigh)
    else if interval == 0 && minOut == 0 then Err(InvalidParams)
    else if interval > MAX_INTERVAL_SECS then Err(InvalidParams)
    else if expiry <= now then Err(InvalidParams)
    else Ok(Desk(OrderData(Open, total, total, tranche, minOut, interval, 0, expiry, feeBps), true, held + total))
  }

  function ApplyExecute(d: Desk, now: timestamp, dex: Dex): Result<Desk> {
    if !d.live then Err(Uninitialized)
    else if !d.order.status.Open? || d.order.Expired(now) then Err(NotOpen)
    else if !d.order.DcaReady(now) then Err(IntervalNotElapsed)
    else
      var used := d.order.NextTranche();
      var floor :- d.order.EffectiveMinOut(used);
      var (fee, swapIn) :- SplitOutput(used, d.order.feeBps);
      var debited :- d.order.Debit(used);
      if fee > d.escrow then Err(InsufficientFunds)
      else
        match dex
        case Reverts => Err(SlippageExceeded)
        case Swaps(taken, delivered) =>
          if taken > swapIn || delivered < floor then Err(SlippageExceeded)
          else if taken > d.escrow - fee then Err(InsufficientFunds)
          else Ok(Desk(debited.(lastExec := now), true, d.escrow - fee - taken))
  }

  /** The whole escrow goes back to the owner and both accounts are closed. */
  function Closed(d: Desk): Desk {
    d.(live := false, escrow := 0)
  }

  function Apply(d: Desk, op: Op): Result<Desk> {
    match op
    case Execute(now, dex) => ApplyExecute(d, now, dex)
    case Cancel(byOwner) =>
      if !d.live then Err(Uninitialized)
      else if !byOwner then Err(Unauthorized)
      else if !d.order.status.Open? then Err(NotOpen)
      else Ok(Closed(d))
    case CrankExpired(now) =>
      if !d.live then Err(Uninitialized)
      else if !d.order.status.Open? then Err(NotOpen)
      else if !d.order.Expired(now) then Err(NotExpired)
      else Ok(Closed(d))
    case CloseFilled =>
      if !d.live then Err(Uninitialized)
      else if !d.order.status.Filled? || d.order.remaining != 0 then Err(NotOpen)
      else Ok(Closed(d))
    case Donate(tokens) => if d.live then Ok(d.(escrow := d.escrow + tokens)) else Err(Uninitialized)
  }

  function After(d: Desk, op: Op): Desk {
    match Apply(d, op)
    case Ok(n) => n
    case Err(_) => d
  }

  // ---- what has happened, kept beside the state ----

  datatype Fill = Fill(used: u64, fee: u64, taken: nat, floor: u64, delivered: nat, at: timestamp)

  /** Every execution in order, what strangers added, and what went back to the owner. */
  datatype History = History(fills: seq<Fill>, donated: nat, refunded: nat)

  function HistoryAfter(d: Desk, h: History, op: Op): History {
    if Apply(d, op).Err? then h
    else
      match op
      case Execute(now, dex) =>
        var used := d.order.NextTranche();
        h.(fills := h.fills + [Fill(used, SplitOutput(used, d.order.feeBps).value.0, dex.taken,
            d.order.EffectiveMinOut(used).value, dex.delivered, now)])
      case Donate(tokens) => h.(donated := h.donated + tokens)
      case _ => h.(refunded := h.refunded + d.escrow)
  }

  datatype Column = Used | Fees | Floors | Spent | Delivered

  function Cell(f: Fill, c: Column): nat {
    match c
    case Used => f.used
    case Fees => f.fee
    case Floors => f.floor
    case Spent => f.fee + f.taken
    case Delivered => f.delivered
  }

  function Sum(fills: seq<Fill>, c: Column): nat {
    if fills == [] then 0 else Sum(fills[..|fills| - 1], c) + Cell(fills[|fills| - 1], c)
  }

  lemma SumAppend(fills: seq<Fill>, f: Fill, c: Column)
    ensures Sum(fills + [f], c) == Sum(fills, c) + Cell(f, c)
  {
    assert (fills + [f])[..|fills|] == fills;
  }

  // ---- the invariant ----

  predicate Sound(o: OrderData) {
    && 0 < o.tranche <= o.total && o.remaining <= o.total && o.feeBps <= MAX_KEEPER_FEE_BPS &&
        o.interval <= MAX_INTERVAL_SECS
    && (o.status.Filled? <==> o.remaining == 0)
  }

  /** What is done and what remains make the total, in whole tranches until the last. */
  predicate OnSchedule(o: OrderData, fills: seq<Fill>)
    requires Sound(o)
  {
    && Sum(fills, Used) + o.remaining == o.total
    && (if o.remaining > 0 then |fills| * o.tranche == o.total - o.remaining
        else |fills| == DivCeil(o.total, o.tranche))
    && (if o.remaining > 0 then Sum(fills, Floors) * o.tranche == o.minOut * (o.total - o.remaining)
        else Sum(fills, Floors) == DivCeil(o.minOut * o.total, o.tranche))
  }

  predicate Paid(o: OrderData, fills: seq<Fill>) {
    && BPS_DENOM * Sum(fills, Fees) <= o.feeBps * Sum(fills, Used)
    && Sum(fills, Spent) <= Sum(fills, Used)
    && Sum(fills, Floors) <= Sum(fills, Delivered)
  }

  /** One execution: at most a tranche, a fee within the rate, no more into the exchange than is
      left, and at least its share of the floor delivered. */
  predicate FillOk(o: OrderData, f: Fill) {
    && 0 < f.used <= o.tranche && 10_000 * f.fee <= o.feeBps * f.used < 10_000 * f.fee + 10_000
    && f.fee + f.taken <= f.used
    && o.minOut * f.used <= f.floor * o.tranche && f.floor <= f.delivered
  }

  predicate Spaced(o: OrderData, fills: seq<Fill>) {
    && (forall j :: 0 <= j < |fills| ==> fills[j].at < o.expiry)
    && (forall j :: 0 < j < |fills| ==> fills[j - 1].at + o.interval <= fills[j].at)
    && o.lastExec == if fills == [] then 0 else fills[|fills| - 1].at
  }

  predicate FillsOk(o: OrderData, fills: seq<Fill>) {
    forall j :: 0 <= j < |fills| ==> FillOk(o, fills[j])
  }

  predicate Inv(d: Desk, h: History) {
    Balanced(d, h) && FillsOk(d.order, h.fills)
  }

  predicate Balanced(d: Desk, h: History) {
    && Sound(d.order) && OnSchedule(d.order, h.fills) && Paid(d.order, h.fills) && Spaced(d.order, h.fills)
    && d.escrow + Sum(h.fills, Spent) + h.refunded == d.order.total + h.donated
    && (if d.live then h.refunded == 0 else d.escrow == 0)
  }

  // ---- one execution ----

  lemma CeilShift(whole: nat, num: nat, den: pos)
    ensures DivCeil(whole * den + num, den) == whole + DivCeil(num, den)
  {
    var c := DivCeil(num, den);
    CeilIsSmallest(whole * den + num, den, whole + c);
    BelowBoth(whole, num, den, DivCeil(whole * den + num, den));
  }

  lemma BelowBoth(whole: nat, num: nat, den: pos, q: nat)
    requires whole * den + num <= q * den
    ensures whole + DivCeil(num, den) <= q
  {
    assert (q - whole) * den == q * den - whole * den;
    CeilIsSmallest(num, den, q - whole);
  }

  lemma CeilOfOne(num: pos, den: pos)
    requires num <= den
    ensures DivCeil(num, den) == 1
  {
    CeilIsSmallest(num, den, 1);
  }

  lemma CeilExact(k: nat, den: pos)
    ensures DivCeil(k * den, den) == k
  {
    CeilShift(k, 0, den);
    CeilIsSmallest(0, den, 0);
  }

  lemma WholeTranche(k: nat, tranche: pos, done: nat, minOut: nat, floors: nat)
    requires k * tranche == done && floors * tranche == minOut * done
    ensures (k + 1) * tranche == done + tranche
    ensures (floors + minOut) * tranche == minOut * (done + tranche)
  {
  }

  lemma LastTranche(k: nat, tranche: pos, done: nat, used: pos, minOut: nat, floors: nat, floor: nat)
    requires k * tranche == done && floors * tranche == minOut * done && used <= tranche
    requires floor == if used >= tranche then minOut else DivCeil(minOut * used, tranche)
    ensures DivCeil(done + used, tranche) == k + 1
    ensures DivCeil(minOut * (done + used), tranche) == floors + floor
  {
    CeilShift(k, used, tranche);
    CeilOfOne(used, tranche);
    Distribute(minOut, done, used);
    CeilShift(floors, minOut * used, tranche);
    if used == tranche {
      CeilExact(minOut, tranche);
    }
  }

  lemma Distribute(a: int, b: int, c: int)
    ensures a * (b + c) == a * b + a * c
  {
  }

  /** The schedule after one more tranche: whole ones accumulate, the last one completes the
      count and the floors exactly. */
  lemma ScheduleAdvances(o: OrderData, fills: seq<Fill>, f: Fill)
    requires Sound(o) && 0 < o.remaining && OnSchedule(o, fills)
    requires f.used == o.NextTranche() && o.EffectiveMinOut(f.used) == Ok(f.floor)
    ensures o.Debit(f.used).Ok?
    ensures var n := o.Debit(f.used).value; Sound(n) && OnSchedule(n, fills + [f])
  {
    SumAppend(fills, f, Used);
    SumAppend(fills, f, Floors);
    if o.tranche < o.remaining {
      WholeTranche(|fills|, o.tranche, o.total - o.remaining, o.minOut, Sum(fills, Floors));
    } else {
      LastTranche(|fills|, o.tranche, o.total - o.remaining, o.remaining, o.minOut, Sum(fills, Floors), f.floor);
    }
  }

  lemma FeeFits(used: u64, feeBps: nat)
    requires feeBps <= MAX_KEEPER_FEE_BPS
    ensures DivFloor(used * feeBps, BPS_DENOM) <= used
    ensures SplitOutput(used, feeBps)
        == Ok((DivFloor(used * feeBps, BPS_DENOM), used - DivFloor(used * feeBps, BPS_DENOM)))
  {
    MulMono(feeBps, MAX_KEEPER_FEE_BPS, used);
  }

  lemma FloorExists(o: OrderData, used: u64)
    requires 0 < o.tranche
    ensures o.EffectiveMinOut(used).Ok? && o.EffectiveMinOut(used).value <= o.minOut
  {
    if used < o.tranche {
      MulMono(used, o.tranche, o.minOut);
      CeilIsSmallest(o.minOut * used, o.tranche, o.minOut);
    }
  }

  lemma ExecuteBalances(d: Desk, h: History, now: timestamp, dex: Dex)
    requires Balanced(d, h) && ApplyExecute(d, now, dex).Ok?
    ensures Balanced(ApplyExecute(d, now, dex).value, HistoryAfter(d, h, Execute(now, dex)))
  {
    var n := HistoryAfter(d, h, Execute(now, dex));
    var f := n.fills[|h.fills|];
    FeeFits(f.used, d.order.feeBps);
    ScheduleAdvances(d.order, h.fills, f);
    PaymentAdds(d.order, h.fills, f);
    SpacingAdds(d.order, h.fills, f, d.order.Debit(f.used).value.(lastExec := now));
    SumAppend(h.fills, f, Spent);
  }

  /** The execution that is added. */
  lemma ExecuteFills(d: Desk, h: History, now: timestamp, dex: Dex)
    requires Balanced(d, h) && ApplyExecute(d, now, dex).Ok?
    ensures var n := HistoryAfter(d, h, Execute(now, dex));
      && |n.fills| == |h.fills| + 1 && n.fills[..|h.fills|] == h.fills && FillOk(d.order, n.fills[|h.fills|])
  {
    var f := HistoryAfter(d, h, Execute(now, dex)).fills[|h.fills|];
    FeeFits(f.used, d.order.feeBps);
    FillIsOk(d.order, f);
  }

  lemma ExecuteKeeps(d: Desk, h: History, now: timestamp, dex: Dex)
    requires Inv(d, h) && ApplyExecute(d, now, dex).Ok?
    ensures Inv(ApplyExecute(d, now, dex).value, HistoryAfter(d, h, Execute(now, dex)))
  {
    ExecuteBalances(d, h, now, dex);
    ExecuteFills(d, h, now, dex);
    var n := HistoryAfter(d, h, Execute(now, dex));
    forall j | 0 <= j < |n.fills| ensures FillOk(d.order, n.fills[j]) {
      assert j < |h.fills| ==> n.fills[j] == n.fills[..|h.fills|][j];
    }
  }

  lemma FillIsOk(o: OrderData, f: Fill)
    requires Sound(o) && 0 < o.remaining && f.used == o.NextTranche() && o.EffectiveMinOut(f.used) == Ok(f.floor)
    requires f.fee == DivFloor(f.used * o.feeBps, BPS_DENOM) && f.fee + f.taken <= f.used && f.floor <= f.delivered
    ensures FillOk(o, f)
  {
    Commutes(f.used, o.feeBps);
    Commutes(o.minOut, f.used);
    Commutes(o.minOut, o.tranche);
  }

  lemma SpacingAdds(o: OrderData, fills: seq<Fill>, f: Fill, n: OrderData)
    requires Spaced(o, fills) && f.at < o.expiry && Min(o.lastExec + o.interval, LAST_SECOND) <= f.at
    requires n.expiry == o.expiry && n.interval == o.interval && n.lastExec == f.at
    ensures Spaced(n, fills + [f])
  {
  }

  /** Executions are at least an interval apart, one after the other and on the whole. */
  lemma {:induction false} IntervalsAddUp(o: OrderData, fills: seq<Fill>, i: nat, j: nat)
    requires Spaced(o, fills) && i <= j < |fills|
    ensures fills[i].at + (j - i) * o.interval <= fills[j].at
  {
    if i < j {
      IntervalsAddUp(o, fills, i, j - 1);
      Distribute(o.interval, j - i - 1, 1);
    }
  }

  lemma PaymentAdds(o: OrderData, fills: seq<Fill>, f: Fill)
    requires Paid(o, fills) && BPS_DENOM * f.fee <= o.feeBps * f.used && f.fee + f.taken <= f.used &&
        f.floor <= f.delivered
    ensures Paid(o, fills + [f])
  {
    SumAppend(fills, f, Fees);
    SumAppend(fills, f, Used);
    SumAppend(fills, f, Spent);
    SumAppend(fills, f, Floors);
    SumAppend(fills, f, Delivered);
    Distribute(o.feeBps, Sum(fills, Used), f.used);
  }

  lemma StepKeeps(d: Desk, h: History, op: Op)
    requires Inv(d, h)
    ensures Inv(After(d, op), HistoryAfter(d, h, op))
  {
    if op.Execute? && Apply(d, op).Ok? {
      ExecuteKeeps(d, h, op.now, op.dex);
    }
  }

  // ---- any run ----

  function Play(d: Desk, ops: seq<Op>): Desk {
    if ops == [] then d else After(Play(d, ops[..|ops| - 1]), ops[|ops| - 1])
  }

  function PlayHistory(d: Desk, h: History, ops: seq<Op>): History {
    if ops == [] then h
    else HistoryAfter(Play(d, ops[..|ops| - 1]), PlayHistory(d, h, ops[..|ops| - 1]), ops[|ops| - 1])
  }

  /** From placement, over any run and any behaviour of the DEX. */
  lemma {:induction false} RunKeeps(held: nat, total: u64, tranche: u64, minOut: u64, interval: u64, expiry: timestamp,
        feeBps: nat, now: timestamp, ops: seq<Op>)
    requires Place(held, total, tranche, minOut, interval, expiry, feeBps, now).Ok?
    ensures var d := Place(held, total, tranche, minOut, interval, expiry, feeBps, now).value;
      Inv(Play(d, ops), PlayHistory(d, History([], held, 0), ops))
  {
    var d := Place(held, total, tranche, minOut, interval, expiry, feeBps, now).value;
    if ops != [] {
      var before := ops[..|ops| - 1];
      RunKeeps(held, total, tranche, minOut, interval, expiry, feeBps, now, before);
      StepKeeps(Play(d, before), PlayHistory(d, History([], held, 0), before), ops[|ops| - 1]);
    }
  }

  // ---- what the invariant is worth ----

  /** The escrow always covers what remains, so no transfer of an execution can fail. */
  lemma EscrowCovers(d: Desk, h: History)
    requires Inv(d, h) && d.live
    ensures d.order.remaining <= d.escrow
  {
  }

  /** An execution goes through exactly when the order is open, unexpired and due, and the
      DEX takes no more than it is offered and delivers the floor. */
  lemma ExecutesExactly(d: Desk, h: History, now: timestamp, dex: Dex)
    requires Inv(d, h) && d.live
    ensures d.order.EffectiveMinOut(d.order.NextTranche()).Ok?
    ensures SplitOutput(d.order.NextTranche(), d.order.feeBps).Ok?
    ensures ApplyExecute(d, now, dex).Ok? <==>
      && d.order.status.Open? && now < d.order.expiry && d.order.lastExec + d.order.interval <= now
      && dex.Swaps? && dex.taken <= SplitOutput(d.order.NextTranche(), d.order.feeBps).value.1
      && d.order.EffectiveMinOut(d.order.NextTranche()).value <= dex.delivered
  {
    EscrowCovers(d, h);
    FeeFits(d.order.NextTranche(), d.order.feeBps);
    FloorExists(d.order, d.order.NextTranche());
  }

  lemma FeesBelow(total: nat, bps: nat, fees: nat)
    requires BPS_DENOM * fees <= bps * total
    ensures fees <= DivFloor(total * bps, BPS_DENOM)
  {
    FloorIsLargest(total * bps, BPS_DENOM, fees);
  }

  /** The floor of a whole order, scaled from that of one tranche and rounded up once. */
  function FloorDue(total: nat, tranche: pos, minOut: nat): nat {
    DivCeil(minOut * total, tranche)
  }

  /** The keepers' rate on a whole order, rounded down once. */
  function FeeCap(total: nat, feeBps: nat): nat {
    DivFloor(total * feeBps, BPS_DENOM)
  }

  /** A filled order took exactly ceil(total/tranche) executions; the owner got at least
      ceil(minOut * total / tranche); keepers got at most floor(total * bps / 10000). */
  lemma FilledOrder(d: Desk, h: History)
    requires Inv(d, h) && d.order.status.Filled?
    ensures |h.fills| == DivCeil(d.order.total, d.order.tranche)
    ensures Sum(h.fills, Used) == d.order.total
    ensures Sum(h.fills, Floors) == FloorDue(d.order.total, d.order.tranche, d.order.minOut) <= Sum(h.fills, Delivered)
    ensures Sum(h.fills, Fees) <= FeeCap(d.order.total, d.order.feeBps)
  {
    FeesBelow(d.order.total, d.order.feeBps, Sum(h.fills, Fees));
  }

  /** Nothing is stranded: a closed order has returned everything not spent on fills. */
  lemma NothingStranded(d: Desk, h: History)
    requires Inv(d, h) && !d.live
    ensures h.refunded + Sum(h.fills, Spent) == d.order.total + h.donated
    ensures d.order.remaining <= h.refunded
  {
  }

  /** The ways out, exactly: an order with something left is cancelled by its owner and by nobody
      else, and cranked by anyone once it has expired and not before; one with nothing left is
      closed by anyone; and each of them empties the escrow. A closed order has no way out. */
  lemma AlwaysCloses(d: Desk, h: History, byOwner: bool, now: timestamp)
    requires Inv(d, h)
    ensures Apply(d, Cancel(byOwner)).Ok? <==> d.live && byOwner && d.order.remaining > 0
    ensures Apply(d, CrankExpired(now)).Ok? <==> d.live && d.order.remaining > 0 && d.order.expiry <= now
    ensures Apply(d, CloseFilled).Ok? <==> d.live && d.order.remaining == 0
    ensures forall op: Op :: (op.Cancel? || op.CrankExpired? || op.CloseFilled?) && Apply(d, op).Ok? ==>
      After(d, op) == d.(live := false, escrow := 0) && HistoryAfter(d, h, op) == h.(refunded := h.refunded + d.escrow)
  {
  }

  // ---- the same, from placement ----

  /** An order is placed exactly when its parameters are in range, with the terms asked for,
      everything still to do and the whole input in escrow. */
  lemma PlacesAsAsked(held: nat, total: u64, tranche: u64, minOut: u64, interval: u64, expiry: timestamp, feeBps: nat,
        now: timestamp)
    ensures Place(held, total, tranche, minOut, interval, expiry, feeBps, now).Ok? <==>
      && 0 < tranche <= total && feeBps <= 50 && (0 < interval || 0 < minOut) && interval <= 31_536_000 && now < expiry
    ensures Place(held, total, tranche, minOut, interval, expiry, feeBps, now).Ok? ==>
      var d := Place(held, total, tranche, minOut, interval, expiry, feeBps, now).value;
      && d.live && d.escrow == held + total && d.order.remaining == total && d.order.lastExec == 0
      && d.order.total == total && d.order.tranche == tranche && d.order.minOut == minOut
      && d.order.interval == interval && d.order.expiry == expiry && d.order.feeBps == feeBps
  {
  }

  /** No instruction changes what was ordered. */
  predicate SameTerms(a: OrderData, b: OrderData) {
    && a.total == b.total && a.tranche == b.tranche && a.minOut == b.minOut
    && a.interval == b.interval && a.expiry == b.expiry && a.feeBps == b.feeBps
  }

  lemma {:induction false} TermsKept(d: Desk, ops: seq<Op>)
    ensures SameTerms(Play(d, ops).order, d.order)
  {
    if ops != [] {
      TermsKept(d, ops[..|ops| - 1]);
    }
  }

  /** From placement, over any run, with the terms as they were placed: while the order lives
      its escrow covers what remains; every execution took at most a tranche, paid its keeper the
      floored rate, delivered its share of the floor, came before the expiry and an interval
      after the one before; a filled order took ceil(total/tranche) executions, the owner got
      the scaled floor and keepers at most their rate; and a closed one has returned everything
      that was not spent. */
  lemma FromPlacement(held: nat, total: u64, tranche: u64, minOut: u64, interval: u64, expiry: timestamp, feeBps: nat,
        now: timestamp, ops: seq<Op>)
    requires Place(held, total, tranche, minOut, interval, expiry, feeBps, now).Ok?
    ensures var placed := Place(held, total, tranche, minOut, interval, expiry, feeBps, now).value;
      var d, h := Play(placed, ops), PlayHistory(placed, History([], held, 0), ops);
      && 0 < tranche
      && (d.live ==> d.order.remaining <= d.escrow)
      && (forall j :: 0 <= j < |h.fills| ==>
            var f := h.fills[j];
            && f.used <= tranche && f.at < expiry && f.fee + f.taken <= f.used
            && 10_000 * f.fee <= feeBps * f.used < 10_000 * f.fee + 10_000
            && minOut * f.used <= f.delivered * tranche)
      && (forall j :: 0 < j < |h.fills| ==> h.fills[j - 1].at + interval <= h.fills[j].at)
      && (d.order.status.Filled? ==>
            && |h.fills| == DivCeil(total, tranche) && Sum(h.fills, Used) == total
            && Sum(h.fills, Floors) == FloorDue(total, tranche, minOut) <= Sum(h.fills, Delivered)
            && Sum(h.fills, Fees) <= FeeCap(total, feeBps))
      && (!d.live ==> h.refunded + Sum(h.fills, Spent) == total + h.donated && d.order.remaining <= h.refunded)
  {
    var placed := Place(held, total, tranche, minOut, interval, expiry, feeBps, now).value;
    var d, h := Play(placed, ops), PlayHistory(placed, History([], held, 0), ops);
    RunKeeps(held, total, tranche, minOut, interval, expiry, feeBps, now, ops);
    TermsKept(placed, ops);
    forall j | 0 <= j < |h.fills| ensures minOut * h.fills[j].used <= h.fills[j].delivered * tranche {
      assert FillOk(d.order, h.fills[j]);
      MulMono(h.fills[j].floor, h.fills[j].delivered, tranche);
    }
    if d.live {
      EscrowCovers(d, h);
    } else {
      NothingStranded(d, h);
    }
    if d.order.status.Filled? {
      FilledOrder(d, h);
    }
  }
}
