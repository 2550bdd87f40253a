/** The farm's handlers as they run: load the farm and the caller's stake, accrue, settle,
    move tokens, write both records back (farm/src/processor.rs, farm/src/state.rs).
    `Process` is proved to do exactly what `Farm.Apply` says. */
module FarmProgram {
  import opened Numbers
  import opened Farm

  class FarmRecord {
    var rate: u64
    var last: timestamp
    var acc: u128
    var total: u64

    constructor (f: FarmData)
      ensures Value() == f
    {
      rate, last, acc, total := f.rate, f.last, f.acc, f.total;
    }

    function Value(): FarmData
      reads this
    {
      FarmData(rate, last, acc, total)
    }

    /** Advance the accumulator; nothing happens at or before the last update. */
    method Accrue(now: timestamp) returns (r: Result<()>)
      modifies this
      ensures match Farm.Accrue(old(Value()), now)
        case Err(e) => r == Err(e)
        case Ok(f) => r == Ok(()) && Value() == f
    {
      if now <= last {
        return Ok(());
      }
      if total > 0 && rate > 0 {
        var product :- ToU128((now - last) * rate);
        var reward :- ToU128(product * PRECISION);
        acc :- ToU128(acc + DivFloor(reward, total));
      }
      last := now;
      return Ok(());
    }
  }

  class UserStake {
    var amount: u64
    var debt: u128
    var pending: u64

    constructor (s: StakeData)
      ensures Value() == s
    {
      amount, debt, pending := s.amount, s.debt, s.pending;
    }

    function Value(): StakeData
      reads this
    {
      StakeData(amount, debt, pending)
    }

    method SetDebt(acc: u128) returns (r: Result<()>)
      modifies this
      ensures match Farm.SetDebt(old(Value()), acc)
        case Err(e) => r == Err(e)
        case Ok(s) => r == Ok(()) && Value() == s
    {
      debt :- Gross(Value(), acc);
      return Ok(());
    }

    /** Fold what accrued since the last settlement into `pending`. */
    method Settle(acc: u128) returns (r: Result<()>)
      modifies this
      ensures match Pending(old(Value()), acc)
        case Err(e) => r == Err(e)
        case Ok(p) => r == Ok(()) && Value() == old(Value()).(pending := p)
    {
      pending :- Pending(Value(), acc);
      return Ok(());
    }
  }

  class FarmProgram {
    var farm: FarmData
    var stakes: seq<StakeData>
    var vault: nat
    var minted: nat

    function State(): Farmstead
      reads this
    {
      Farmstead(farm, stakes, vault, minted)
    }

    constructor (h: Farmstead)
      ensures State() == h
    {
      farm, stakes, vault, minted := h.farm, h.stakes, h.vault, h.minted;
    }

    static method Init(rate: u64, now: timestamp) returns (r: Result<FarmProgram>)
      ensures match InitFarm(rate, now)
        case Err(e) => r == Err(e)
        case Ok(h) => r.Ok? && fresh(r.value) && r.value.State() == h
    {
      if rate > MAX_REWARD_PER_SECOND {
        return Err(RewardRateTooHigh);
      }
      var p := new FarmProgram(Farmstead(FarmData(rate, now, 0, 0), [], 0, 0));
      return Ok(p);
    }

    method Load(i: nat) returns (r: Result<UserStake>)
      ensures match StakeAt(State(), i)
        case Err(e) => r == Err(e)
        case Ok(s) => r.Ok? && fresh(r.value) && r.value.Value() == s
    {
      if i < |stakes| {
        var s := new UserStake(stakes[i]);
        return Ok(s);
      }
      return Err(Uninitialized);
    }

    method Stake(i: nat, amount: u64, now: timestamp) returns (r: Result<()>)
      modifies this
      ensures match ApplyStake(old(State()), i, amount, now)
        case Err(e) => r == Err(e)
        case Ok(h) => r == Ok(()) && State() == h
    {
      var stake :- Load(i);
      var record := new FarmRecord(farm);
      var _ :- record.Accrue(now);
      var _ :- stake.Settle(record.acc);
      vault := vault + amount;
      stake.amount :- ToU64(stake.amount + amount);
      var total := ToU64(record.total + amount);
      if total.Err? {
        return Err(MathOverflow);
      }
      record.total := total.value;
      var _ :- stake.SetDebt(record.acc);
      farm := record.Value();
      stakes := stakes[i := stake.Value()];
      return Ok(());
    }

    method Unstake(i: nat, amount: u64, now: timestamp) returns (r: Result<()>)
      modifies this
      ensures match ApplyUnstake(old(State()), i, amount, now)
        case Err(e) => r == Err(e)
        case Ok(h) => r == Ok(()) && State() == h
    {
      var stake :- Load(i);
      if amount > stake.amount {
        return Err(InsufficientStake);
      }
      var record := new FarmRecord(farm);
      var _ :- record.Accrue(now);
      var _ :- stake.Settle(record.acc);
      if amount > vault {
        return Err(InsufficientFunds);
      }
      vault := vault - amount;
      stake.amount := stake.amount - amount;
      if amount > record.total {
        return Err(MathOverflow);
      }
      record.total := record.total - amount;
      var _ :- stake.SetDebt(record.acc);
      farm := record.Value();
      stakes := stakes[i := stake.Value()];
      return Ok(());
    }

    method Claim(i: nat, now: timestamp) returns (r: Result<()>)
      modifies this
      ensures match ApplyClaim(old(State()), i, now)
        case Err(e) => r == Err(e)
        case Ok(h) => r == Ok(()) && State() == h
    {
      var stake :- Load(i);
      var record := new FarmRecord(farm);
      var _ :- record.Accrue(now);
      var reward :- Pending(stake.Value(), record.acc);
      minted := minted + reward;
      stake.pending := 0;
      r := stake.SetDebt(record.acc);
      farm := record.Value();
      stakes := stakes[i := stake.Value()];
    }

    /** Accrues at the old rate first, so a change is never retroactive. */
    method SetRewardPerSecond(rate: u64, byOwner: bool, now: timestamp) returns (r: Result<()>)
      modifies this`farm
      ensures match ApplySetReward(old(State()), rate, byOwner, now)
        case Err(e) => r == Err(e)
        case Ok(h) => r == Ok(()) && State() == h
    {
      if !byOwner {
        return Err(Unauthorized);
      }
      if rate > MAX_REWARD_PER_SECOND {
        return Err(RewardRateTooHigh);
      }
      var record := new FarmRecord(farm);
      var _ :- record.Accrue(now);
      record.rate := rate;
      farm := record.Value();
      return Ok(());
    }

    /** No reward arithmetic at all. */
    method EmergencyUnstake(i: nat) returns (r: Result<()>)
      modifies this
      ensures match ApplyEmergency(old(State()), i)
        case Err(e) => r == Err(e)
        case Ok(h) => r == Ok(()) && State() == h
    {
      var stake :- Load(i);
      if stake.amount > vault {
        return Err(InsufficientFunds);
      }
      vault := vault - stake.amount;
      if stake.amount > farm.total {
        return Err(MathOverflow);
      }
      farm := farm.(total := farm.total - stake.amount);
      stakes := stakes[i := NO_STAKE];
      return Ok(());
    }

    method Dispatch(op: Op) returns (r: Result<()>)
      modifies this
      ensures match Apply(old(State()), op)
        case Err(e) => r == Err(e)
        case Ok(h) => r == Ok(()) && State() == h
    {
      match op
      case InitUserStake =>
        stakes := stakes + [NO_STAKE];
        r := Ok(());
      case Stake(i, amount, now) => r := Stake(i, amount, now);
      case Unstake(i, amount, now) => r := Unstake(i, amount, now);
      case Claim(i, now) => r := Claim(i, now);
      case SetRewardPerSecond(rate, byOwner, now) => r := SetRewardPerSecond(rate, byOwner, now);
      case EmergencyUnstake(i) => r := EmergencyUnstake(i);
      case Donate(tokens) =>
        vault := vault + tokens;
        r := Ok(());
    }

    /** One instruction; a failed one reverts as a whole. */
    method Process(op: Op) returns (r: Result<()>)
      modifies this
      ensures State() == After(old(State()), op)
      ensures match Apply(old(State()), op)
        case Err(e) => r == Err(e)
        case Ok(_) => r == Ok(())
    {
      var saved := State();
      r := Dispatch(op);
      if r.Err? {
        farm, stakes, vault, minted := saved.farm, saved.stakes, saved.vault, saved.minted;
      }
    }
  }
}
