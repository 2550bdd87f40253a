/** The order handlers as they run: the order is debited and written back before any token
    moves, a terminal handler drains and closes the escrow (orders/src/processor.rs).
    `Process` is proved to do exactly what `Orders.Apply` says. */
module OrderProgram {
  import opened Numbers
  import opened Orders

  class Order {
    const total: u64
    const tranche: u64
    const minOut: u64
    const interval: u64
    const expiry: timestamp
    const feeBps: nat
    var status: Status
    var remaining: u64
    var lastExec: timestamp

    constructor (o: OrderData)
      ensures Value() == o
    {
      total, tranche, minOut, interval, expiry, feeBps := o.total, o.tranche, o.minOut, o.interval, o.expiry, o.feeBps;
      status, remaining, lastExec := o.status, o.remaining, o.lastExec;
    }

    function Value(): OrderData
      reads this
    {
      OrderData(status, total, remaining, tranche, minOut, interval, lastExec, expiry, feeBps)
    }

    /** Subtract executed input; at zero the order is filled. */
    method Debit(amount: u64) returns (r: Result<()>)
      modifies this
      ensures match old(Value()).Debit(amount)
        case Err(e) => r == Err(e)
        case Ok(o) => r == Ok(()) && Value() == o
    {
      if amount > remaining {
        return Err(MathOverflow);
      }
      remaining := remaining - amount;
      if remaining == 0 {
        status := Filled;
      }
      return Ok(());
    }
  }

  class OrderProgram {
    var order: OrderData
    var live: bool
    var escrow: nat

    function State(): Desk
      reads this
    {
      Desk(order, live, escrow)
    }

    constructor (d: Desk)
      ensures State() == d
    {
      order, live, escrow := d.order, d.live, d.escrow;
    }

    static method PlaceOrder(held: nat, total: u64, tranche: u64, minOut: u64, interval: u64, expiry: timestamp,
          feeBps: nat, now: timestamp)
      returns (r: Result<OrderProgram>)
      ensures match Place(held, total, tranche, minOut, interval, expiry, feeBps, now)
        case Err(e) => r == Err(e)
        case Ok(d) => r.Ok? && fresh(r.value) && r.value.State() == d
    {
      if total == 0 || tranche == 0 || tranche > total {
        return Err(InvalidParams);
      }
      if feeBps > MAX_KEEPER_FEE_BPS {
        return Err(FeeTooHigh);
      }
      if interval == 0 && minOut == 0 {
        return Err(InvalidParams);
      }
      if interval > MAX_INTERVAL_SECS {
        return Err(InvalidParams);
      }
      if expiry <= now {
        return Err(InvalidParams);
      }
      var p := new OrderProgram(Desk(OrderData(Open, total, total, tranche, minOut, interval, 0, expiry, feeBps),
          true, held + total));
      return Ok(p);
    }

    /** Effects first: by the time tokens move, the order already shows the debit. */
    method Execute(now: timestamp, dex: Dex) returns (r: Result<()>)
      modifies this
      ensures match ApplyExecute(old(State()), now, dex)
        case Err(e) => r == Err(e)
        case Ok(d) => r == Ok(()) && State() == d
    {
      if !live {
        return Err(Uninitialized);
      }
      var o := new Order(order);
      if !o.status.Open? {
        return Err(NotOpen);
      }
      if o.Value().Expired(now) {
        return Err(NotOpen);
      }
      if !o.Value().DcaReady(now) {
        return Err(IntervalNotElapsed);
      }
      var used := o.Value().NextTranche();
      var floor :- o.Value().EffectiveMinOut(used);
      var split :- SplitOutput(used, o.feeBps);
      var (fee, swapIn) := split;
      var _ :- o.Debit(used);
      o.lastExec := now;
      order := o.Value();
      if fee > 0 {
        if fee > escrow {
          return Err(InsufficientFunds);
        }
        escrow := escrow - fee;
      }
      r := SwapThrough(swapIn, floor, dex);
    }

    /** The DEX takes input from the escrow and delivers to the owner, or fails. */
    method SwapThrough(swapIn: u64, floor: u64, dex: Dex) returns (r: Result<()>)
      modifies this`escrow
      ensures r == match dex
        case Reverts => Err(SlippageExceeded)
        case Swaps(taken, delivered) =>
          if taken > swapIn || delivered < floor then Err(SlippageExceeded)
          else if taken > old(escrow) then Err(InsufficientFunds)
          else Ok(())
      ensures r.Ok? ==> escrow == old(escrow) - dex.taken
    {
      match dex
      case Reverts => return Err(SlippageExceeded);
      case Swaps(taken, delivered) =>
        if taken > swapIn || delivered < floor {
          return Err(SlippageExceeded);
        }
        if taken > escrow {
          return Err(InsufficientFunds);
        }
        escrow := escrow - taken;
        return Ok(());
    }

    /** Refund whatever the escrow holds, then close it and the order. */
    method RefundAndClose()
      modifies this
      ensures State() == Closed(old(State()))
    {
      if escrow > 0 {
        escrow := 0;
      }
      live := false;
    }

    method Dispatch(op: Op) returns (r: Result<()>)
      modifies this
      ensures match Apply(old(State()), op)
        case Err(e) => r == Err(e)
        case Ok(d) => r == Ok(()) && State() == d
    {
      if !live {
        return Err(Uninitialized);
      }
      match op
      case Execute(now, dex) => r := Execute(now, dex);
      case Cancel(byOwner) =>
        if !byOwner {
          return Err(Unauthorized);
        }
        if !order.status.Open? {
          return Err(NotOpen);
        }
        RefundAndClose();
        r := Ok(());
      case CrankExpired(now) =>
        if !order.status.Open? {
          return Err(NotOpen);
        }
        if !order.Expired(now) {
          return Err(NotExpired);
        }
        RefundAndClose();
        r := Ok(());
      case CloseFilled =>
        if !order.status.Filled? || order.remaining != 0 {
          return Err(NotOpen);
        }
        RefundAndClose();
        r := Ok(());
      case Donate(tokens) =>
        escrow := escrow + tokens;
        r := Ok(());
    }

    /** One instruction; a failed one reverts as a whole. */
    method Process(op: Op) returns (r: Result<()>)
      modifies this
      ensures State() == After(old(State()), op)
      ensures match Apply(old(State()), op)
        case Err(e) => r == Err(e)
        case Ok(_) => r == Ok(())
    {
      var saved := State();
      r := Dispatch(op);
      if r.Err? {
        order, live, escrow := saved.order, saved.live, saved.escrow;
      }
    }
  }
}
