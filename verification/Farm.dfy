/** The farm's floored reward accumulator and every instruction over it
    (farm/src/state.rs, farm/src/processor.rs), with what no run can break: rewards never
    exceed emission by more than a unit per change of stake, and principal is always there. */
module Farm {
  import opened Numbers

  const PRECISION: int := 1_000_000_000_000
  const MAX_REWARD_PER_SECOND: int := 1_000_000_000

  datatype FarmData = FarmData(rate: u64, last: timestamp, acc: u128, total: u64)
  datatype StakeData = StakeData(amount: u64, debt: u128, pending: u64)

  const NO_STAKE: StakeData := StakeData(0, 0, 0)

  // ---- the accumulator ----

  function Accrue(f: FarmData, now: timestamp): Result<FarmData> {
    if now <= f.last then Ok(f)
    else if f.total > 0 && f.rate > 0 then
      var product :- ToU128((now - f.last) * f.rate);
      var reward :- ToU128(product * PRECISION);
      var acc :- ToU128(f.acc + DivFloor(reward, f.total));
      Ok(f.(acc := acc, last := now))
    else Ok(f.(last := now))
  }

  function Gross(s: StakeData, acc: u128): Result<u128> {
    var product :- ToU128(s.amount * acc);
    Ok(DivFloor(product, PRECISION))
  }

  /** What a stake can claim; the subtraction saturates. */
  function Pending(s: StakeData, acc: u128): Result<u64> {
    var gross :- Gross(s, acc);
    var total :- ToU128(s.pending + Max(0, gross - s.debt));
    ToU64(total)
  }

  function SetDebt(s: StakeData, acc: u128): Result<StakeData> {
    var gross :- Gross(s, acc);
    Ok(s.(debt := gross))
  }

  // ---- the instructions ----

  /** The farm, its stakes, the staked tokens it holds and the rewards it has minted. */
  datatype Farmstead = Farmstead(farm: FarmData, stakes: seq<StakeData>, vault: nat, minted: nat)

  datatype Op =
    | InitUserStake
    | Stake(i: nat, amount: u64, now: timestamp)
    | Unstake(i: nat, amount: u64, now: timestamp)
    | Claim(i: nat, now: timestamp)
    | SetRewardPerSecond(rate: u64, byOwner: bool, now: timestamp)
    | EmergencyUnstake(i: nat)
    | Donate(tokens: u64)

  function InitFarm(rate: u64, now: timestamp): Result<Farmstead> {
    if rate > MAX_REWARD_PER_SECOND then Err(RewardRateTooHigh)
    else Ok(Farmstead(FarmData(rate, now, 0, 0), [], 0, 0))
  }

  function StakeAt(h: Farmstead, i: nat): (r: Result<StakeData>)
    ensures r.Ok? ==> i < |h.stakes| && r.value == h.stakes[i]
  {
    if i < |h.stakes| then Ok(h.stakes[i]) else Err(Uninitialized)
  }

  /** Rewards so far moved to `pending`, then the new amount with its debt. */
  function Restake(s: StakeData, acc: u128, amount: int): Result<StakeData> {
    var pending :- Pending(s, acc);
    var staked :- if amount < 0 then Err(MathOverflow) else ToU64(amount);
    SetDebt(s.(pending := pending, amount := staked), acc)
  }

  function ApplyStake(h: Farmstead, i: nat, amount: u64, now: timestamp): Result<Farmstead> {
    var s :- StakeAt(h, i);
    var farm :- Accrue(h.farm, now);
    var restaked :- Restake(s, farm.acc, s.amount + amount);
    var total :- ToU64(farm.total + amount);
    Ok(h.(farm := farm.(total := total), stakes := h.stakes[i := restaked], vault := h.vault + amount))
  }

  function ApplyUnstake(h: Farmstead, i: nat, amount: u64, now: timestamp): Result<Farmstead> {
    var s :- StakeAt(h, i);
    if amount > s.amount then Err(InsufficientStake)
    else
      var farm :- Accrue(h.farm, now);
      var _ :- Pending(s, farm.acc);
      if amount > h.vault then Err(InsufficientFunds)
      else
        var restaked :- Restake(s, farm.acc, s.amount - amount);
        if amount > farm.total then Err(MathOverflow)
        else Ok(h.(farm := farm.(total := farm.total - amount), stakes := h.stakes[i := restaked],
            vault := h.vault - amount))
  }

  function ApplyClaim(h: Farmstead, i: nat, now: timestamp): Result<Farmstead> {
    var s :- StakeAt(h, i);
    var farm :- Accrue(h.farm, now);
    var pending :- Pending(s, farm.acc);
    var settled :- SetDebt(s.(pending := 0), farm.acc);
    Ok(h.(farm := farm, stakes := h.stakes[i := settled], minted := h.minted + pending))
  }

  function ApplySetReward(h: Farmstead, rate: u64, byOwner: bool, now: timestamp): Result<Farmstead> {
    if !byOwner then Err(Unauthorized)
    else if rate > MAX_REWARD_PER_SECOND then Err(RewardRateTooHigh)
    else
      var farm :- Accrue(h.farm, now);
      Ok(h.(farm := farm.(rate := rate)))
  }

  function ApplyEmergency(h: Farmstead, i: nat): Result<Farmstead> {
    var s :- StakeAt(h, i);
    if s.amount > h.vault then Err(InsufficientFunds)
    else if s.amount > h.farm.total then Err(MathOverflow)
    else Ok(h.(farm := h.farm.(total := h.farm.total - s.amount), stakes := h.stakes[i := NO_STAKE],
        vault := h.vault - s.amount))
  }

  function Apply(h: Farmstead, op: Op): Result<Farmstead> {
    match op
    case InitUserStake => Ok(h.(stakes := h.stakes + [NO_STAKE]))
    case Stake(i, amount, now) => ApplyStake(h, i, amount, now)
    case Unstake(i, amount, now) => ApplyUnstake(h, i, amount, now)
    case Claim(i, now) => ApplyClaim(h, i, now)
    case SetRewardPerSecond(rate, byOwner, now) => ApplySetReward(h, rate, byOwner, now)
    case EmergencyUnstake(i) => ApplyEmergency(h, i)
    case Donate(tokens) => Ok(h.(vault := h.vault + tokens))
  }

  function After(h: Farmstead, op: Op): Farmstead {
    match Apply(h, op)
    case Ok(n) => n
    case Err(_) => h
  }

  // ---- accounting beside the state ----

  /** A clock and a rate of their own: rate times elapsed time while anything was staked, how
      often a stake was changed, the latest time seen and the rate last set. */
  datatype Tally = Tally(emitted: nat, changes: nat, seen: timestamp, rate: u64)

  function Opening(rate: u64, start: timestamp): Tally {
    Tally(0, 0, start, rate)
  }

  function TimeOf(op: Op): Result<timestamp> {
    match op
    case Stake(_, _, now) => Ok(now)
    case Unstake(_, _, now) => Ok(now)
    case Claim(_, now) => Ok(now)
    case SetRewardPerSecond(_, _, now) => Ok(now)
    case _ => Err(Uninitialized)
  }

  /** What the clock adds at `now`. */
  function Flow(t: Tally, staked: nat, now: timestamp): nat {
    if t.seen < now && staked > 0 then (now - t.seen) * t.rate else 0
  }

  function Ticked(h: Farmstead, t: Tally, now: timestamp): Tally {
    t.(emitted := t.emitted + Flow(t, Staked(h.stakes), now), seen := Max(t.seen, now))
  }

  function TallyAfter(h: Farmstead, t: Tally, op: Op): Tally {
    if Apply(h, op).Err? then t
    else
      var n := match TimeOf(op) case Ok(now) => Ticked(h, t, now) case Err(_) => t;
      n.(changes := n.changes + (if op.Stake? || op.Unstake? then 1 else 0),
         rate := if op.SetRewardPerSecond? then op.rate else n.rate)
  }

  function Staked(stakes: seq<StakeData>): nat {
    if stakes == [] then 0 else Staked(stakes[..|stakes| - 1]) + stakes[|stakes| - 1].amount
  }

  /** A stake's claim before flooring, times the precision. */
  function Share(s: StakeData, acc: u128): int {
    PRECISION * s.pending + s.amount * acc - PRECISION * s.debt
  }

  function Claims(stakes: seq<StakeData>, acc: u128): int {
    if stakes == [] then 0 else Claims(stakes[..|stakes| - 1], acc) + Share(stakes[|stakes| - 1], acc)
  }

  predicate StakeOk(s: StakeData, acc: u128) {
    PRECISION * s.debt <= s.amount * acc
  }

  predicate Inv(h: Farmstead, t: Tally) {
    && h.farm.last == t.seen && h.farm.rate == t.rate
    && h.farm.total == Staked(h.stakes) <= h.vault
    && (forall i :: 0 <= i < |h.stakes| ==> StakeOk(h.stakes[i], h.farm.acc))
    && PRECISION * h.minted + Claims(h.stakes, h.farm.acc) <= PRECISION * (t.emitted + t.changes)
  }

  // ---- sums ----

  lemma {:induction false} StakedUpdate(stakes: seq<StakeData>, i: nat, s: StakeData)
    requires i < |stakes|
    ensures Staked(stakes[i := s]) == Staked(stakes) - stakes[i].amount + s.amount
  {
    var n := |stakes| - 1;
    if i == n {
      assert stakes[i := s][..n] == stakes[..n];
    } else {
      assert stakes[i := s][..n] == stakes[..n][i := s];
      StakedUpdate(stakes[..n], i, s);
    }
  }

  lemma {:induction false} StakedAtLeast(stakes: seq<StakeData>, i: nat)
    requires i < |stakes|
    ensures stakes[i].amount <= Staked(stakes)
  {
    if i < |stakes| - 1 {
      StakedAtLeast(stakes[..|stakes| - 1], i);
    }
  }

  lemma {:induction false} ClaimsUpdate(stakes: seq<StakeData>, i: nat, s: StakeData, acc: u128)
    requires i < |stakes|
    ensures Claims(stakes[i := s], acc) == Claims(stakes, acc) - Share(stakes[i], acc) + Share(s, acc)
  {
    var n := |stakes| - 1;
    if i == n {
      assert stakes[i := s][..n] == stakes[..n];
    } else {
      assert stakes[i := s][..n] == stakes[..n][i := s];
      ClaimsUpdate(stakes[..n], i, s, acc);
    }
  }

  lemma {:induction false} ClaimsGrow(stakes: seq<StakeData>, acc: u128, acc': u128)
    ensures Claims(stakes, acc') == Claims(stakes, acc) + (acc' - acc) * Staked(stakes)
  {
    if stakes != [] {
      var n := |stakes| - 1;
      ClaimsGrow(stakes[..n], acc, acc');
      ShareGrows(stakes[n].amount, acc, acc', Staked(stakes[..n]));
    }
  }

  lemma ShareGrows(amount: int, acc: int, acc': int, rest: int)
    ensures amount * acc' - amount * acc + (acc' - acc) * rest == (acc' - acc) * (rest + amount)
  {
  }

  // ---- one instruction ----

  /** The accumulator's step, paid on all stakes, is rate times elapsed time up to less than one
      unit of the accumulator per staked token, and time moves to the later of the two. */
  lemma AccrueShares(f: FarmData, now: timestamp)
    requires Accrue(f, now).Ok?
    ensures var n := Accrue(f, now).value;
      var emission := if f.last < now && f.total > 0 then (now - f.last) * f.rate else 0;
      && n.total == f.total && n.rate == f.rate && n.last == Max(f.last, now) && f.acc <= n.acc
      && (n.acc - f.acc) * f.total <= PRECISION * emission
      && (f.total > 0 ==> PRECISION * emission < (n.acc - f.acc) * f.total + f.total)
  {
  }

  /** Accruing hands out no more than was emitted, and hurts nobody's debt bound. */
  lemma AccrueKeeps(h: Farmstead, t: Tally, now: timestamp)
    requires Inv(h, t) && Accrue(h.farm, now).Ok?
    ensures var f := Accrue(h.farm, now).value;
      f.total == h.farm.total && Inv(h.(farm := f), Ticked(h, t, now))
  {
    var f := Accrue(h.farm, now).value;
    AccrueShares(h.farm, now);
    ClaimsGrow(h.stakes, h.farm.acc, f.acc);
    AccKeeps(h, t, f, now);
  }

  lemma AccKeeps(h: Farmstead, t: Tally, f: FarmData, now: timestamp)
    requires Inv(h, t) && f.total == h.farm.total && f.rate == h.farm.rate && f.last == Max(h.farm.last, now)
    requires h.farm.acc <= f.acc
    requires Claims(h.stakes, f.acc) <= Claims(h.stakes, h.farm.acc) + PRECISION * Flow(t, Staked(h.stakes), now)
    ensures Inv(h.(farm := f), Ticked(h, t, now))
  {
    forall i | 0 <= i < |h.stakes| ensures StakeOk(h.stakes[i], f.acc) {
      MulMono(h.farm.acc, f.acc, h.stakes[i].amount);
    }
  }

  /** Settling exactly, and re-basing the debt at the new amount: the fraction lost or won is
      less than one unit; with the amount unchanged it is nothing. */
  lemma RestakeKeeps(s: StakeData, acc: u128, amount: int)
    requires StakeOk(s, acc) && Restake(s, acc, amount).Ok?
    ensures var n := Restake(s, acc, amount).value;
      && n.amount == amount && StakeOk(n, acc)
      && Share(s, acc) - PRECISION < Share(n, acc) < Share(s, acc) + PRECISION
  {
    FloorIsLargest(s.amount * acc, PRECISION, s.debt);
  }

  lemma ClaimKeeps(s: StakeData, acc: u128)
    requires StakeOk(s, acc) && Pending(s, acc).Ok? && SetDebt(s.(pending := 0), acc).Ok?
    ensures var n := SetDebt(s.(pending := 0), acc).value;
      && n.amount == s.amount && StakeOk(n, acc)
      && Share(n, acc) + PRECISION * Pending(s, acc).value == Share(s, acc)
  {
    FloorIsLargest(s.amount * acc, PRECISION, s.debt);
  }

  /** Staking or unstaking `change` tokens at the accrued accumulator. */
  lemma ChangeKeeps(h: Farmstead, t: Tally, i: nat, change: int)
    requires Inv(h, t) && i < |h.stakes| &&
        Restake(h.stakes[i], h.farm.acc, h.stakes[i].amount + change).Ok?
    requires 0 <= h.farm.total + change < Q64 && 0 <= h.vault + change
    ensures Inv(Farmstead(h.farm.(total := h.farm.total + change),
                          h.stakes[i := Restake(h.stakes[i], h.farm.acc, h.stakes[i].amount + change).value],
                          h.vault + change, h.minted),
                t.(changes := t.changes + 1))
  {
    var s := h.stakes[i];
    var n := Restake(s, h.farm.acc, s.amount + change).value;
    RestakeKeeps(s, h.farm.acc, s.amount + change);
    StakedUpdate(h.stakes, i, n);
    ClaimsUpdate(h.stakes, i, n, h.farm.acc);
  }

  lemma ClaimStep(h: Farmstead, t: Tally, i: nat)
    requires Inv(h, t) && i < |h.stakes|
    requires Pending(h.stakes[i], h.farm.acc).Ok? && SetDebt(h.stakes[i].(pending := 0), h.farm.acc).Ok?
    ensures Inv(Farmstead(h.farm, h.stakes[i := SetDebt(h.stakes[i].(pending := 0), h.farm.acc).value], h.vault,
                          h.minted + Pending(h.stakes[i], h.farm.acc).value), t)
  {
    var n := SetDebt(h.stakes[i].(pending := 0), h.farm.acc).value;
    ClaimKeeps(h.stakes[i], h.farm.acc);
    StakedUpdate(h.stakes, i, n);
    ClaimsUpdate(h.stakes, i, n, h.farm.acc);
  }

  function Accrued(h: Farmstead, now: timestamp): Farmstead
    requires Accrue(h.farm, now).Ok?
  {
    h.(farm := Accrue(h.farm, now).value)
  }

  lemma StakeKeeps(h: Farmstead, t: Tally, i: nat, amount: u64, now: timestamp)
    requires Inv(h, t) && ApplyStake(h, i, amount, now).Ok?
    ensures Inv(ApplyStake(h, i, amount, now).value, Ticked(h, t, now).(changes := t.changes + 1))
  {
    AccrueKeeps(h, t, now);
    ChangeKeeps(Accrued(h, now), Ticked(h, t, now), i, amount);
  }

  lemma UnstakeKeeps(h: Farmstead, t: Tally, i: nat, amount: u64, now: timestamp)
    requires Inv(h, t) && ApplyUnstake(h, i, amount, now).Ok?
    ensures Inv(ApplyUnstake(h, i, amount, now).value, Ticked(h, t, now).(changes := t.changes + 1))
  {
    AccrueKeeps(h, t, now);
    ChangeKeeps(Accrued(h, now), Ticked(h, t, now), i, -(amount as int));
  }

  lemma ClaimingKeeps(h: Farmstead, t: Tally, i: nat, now: timestamp)
    requires Inv(h, t) && ApplyClaim(h, i, now).Ok?
    ensures Inv(ApplyClaim(h, i, now).value, Ticked(h, t, now))
  {
    AccrueKeeps(h, t, now);
    ClaimStep(Accrued(h, now), Ticked(h, t, now), i);
  }

  lemma EmergencyKeeps(h: Farmstead, t: Tally, i: nat)
    requires Inv(h, t) && ApplyEmergency(h, i).Ok?
    ensures Inv(ApplyEmergency(h, i).value, t)
  {
    StakedUpdate(h.stakes, i, NO_STAKE);
    ClaimsUpdate(h.stakes, i, NO_STAKE, h.farm.acc);
  }

  lemma InitUserStakeKeeps(h: Farmstead, t: Tally)
    requires Inv(h, t)
    ensures Inv(h.(stakes := h.stakes + [NO_STAKE]), t)
  {
    assert (h.stakes + [NO_STAKE])[..|h.stakes|] == h.stakes;
  }

  lemma SetRewardKeeps(h: Farmstead, t: Tally, rate: u64, byOwner: bool, now: timestamp)
    requires Inv(h, t) && ApplySetReward(h, rate, byOwner, now).Ok?
    ensures Inv(ApplySetReward(h, rate, byOwner, now).value, Ticked(h, t, now).(rate := rate))
  {
    AccrueKeeps(h, t, now);
  }

  lemma TimedKeeps(h: Farmstead, t: Tally, op: Op)
    requires Inv(h, t) && Apply(h, op).Ok? && (op.Claim? || op.SetRewardPerSecond?)
    ensures Inv(After(h, op), TallyAfter(h, t, op))
  {
    match op
    case Claim(i, now) => ClaimingKeeps(h, t, i, now);
    case SetRewardPerSecond(rate, byOwner, now) => SetRewardKeeps(h, t, rate, byOwner, now);
  }

  lemma ChangesKeep(h: Farmstead, t: Tally, op: Op)
    requires Inv(h, t) && Apply(h, op).Ok? && (op.Stake? || op.Unstake?)
    ensures Inv(After(h, op), TallyAfter(h, t, op))
  {
    match op
    case Stake(i, amount, now) => StakeKeeps(h, t, i, amount, now);
    case Unstake(i, amount, now) => UnstakeKeeps(h, t, i, amount, now);
  }

  lemma UntimedKeeps(h: Farmstead, t: Tally, op: Op)
    requires Inv(h, t) && Apply(h, op).Ok? && (op.InitUserStake? || op.EmergencyUnstake? || op.Donate?)
    ensures Inv(After(h, op), TallyAfter(h, t, op))
  {
    match op
    case InitUserStake => InitUserStakeKeeps(h, t);
    case EmergencyUnstake(i) => EmergencyKeeps(h, t, i);
    case Donate(_) =>
  }

  lemma StepKeeps(h: Farmstead, t: Tally, op: Op)
    requires Inv(h, t)
    ensures Inv(After(h, op), TallyAfter(h, t, op))
  {
    if Apply(h, op).Ok? {
      if op.Stake? || op.Unstake? {
        ChangesKeep(h, t, op);
      } else if op.Claim? || op.SetRewardPerSecond? {
        TimedKeeps(h, t, op);
      } else {
        UntimedKeeps(h, t, op);
      }
    }
  }

  // ---- any run ----

  function Play(h: Farmstead, ops: seq<Op>): Farmstead {
    if ops == [] then h else After(Play(h, ops[..|ops| - 1]), ops[|ops| - 1])
  }

  function PlayTally(h: Farmstead, t: Tally, ops: seq<Op>): Tally {
    if ops == [] then t else TallyAfter(Play(h, ops[..|ops| - 1]), PlayTally(h, t, ops[..|ops| - 1]), ops[|ops| - 1])
  }

  /** From a fresh farm, over any run with any rates, times and stakers. */
  lemma {:induction false} RunKeeps(rate: u64, start: timestamp, ops: seq<Op>)
    requires InitFarm(rate, start).Ok?
    ensures Inv(Play(InitFarm(rate, start).value, ops),
        PlayTally(InitFarm(rate, start).value, Opening(rate, start), ops))
  {
    var h := InitFarm(rate, start).value;
    if ops != [] {
      var before := ops[..|ops| - 1];
      RunKeeps(rate, start, before);
      StepKeeps(Play(h, before), PlayTally(h, Opening(rate, start), before), ops[|ops| - 1]);
    }
  }

  /** What all stakes could claim now, in whole reward units. */
  function Claimable(stakes: seq<StakeData>, acc: u128): int {
    if stakes == [] then 0
    else
      var s := stakes[|stakes| - 1];
      Claimable(stakes[..|stakes| - 1], acc) + s.pending + (DivFloor(s.amount * acc, PRECISION) - s.debt)
  }

  lemma {:induction false} ClaimableBelow(stakes: seq<StakeData>, acc: u128)
    ensures PRECISION * Claimable(stakes, acc) <= Claims(stakes, acc)
  {
    if stakes != [] {
      ClaimableBelow(stakes[..|stakes| - 1], acc);
    }
  }

  /** Rewards minted plus rewards claimable never exceed what was emitted while tokens were
      staked, plus one unit per change of a stake. */
  lemma RewardsBounded(h: Farmstead, t: Tally)
    requires Inv(h, t)
    ensures h.minted + Claimable(h.stakes, h.farm.acc) <= t.emitted + t.changes
  {
    ClaimableBelow(h.stakes, h.farm.acc);
  }

  /** The saturating subtraction never saturates. */
  lemma NeverSaturates(h: Farmstead, t: Tally, i: nat)
    requires Inv(h, t) && i < |h.stakes|
    ensures Gross(h.stakes[i], h.farm.acc).Ok? ==> h.stakes[i].debt <= Gross(h.stakes[i], h.farm.acc).value
  {
    FloorIsLargest(h.stakes[i].amount * h.farm.acc, PRECISION, h.stakes[i].debt);
  }

  /** The emergency exit always works, whatever the accumulator would do, returns exactly the
      principal and touches nobody else. */
  lemma EmergencyAlwaysWorks(h: Farmstead, t: Tally, i: nat)
    requires Inv(h, t) && StakeAt(h, i).Ok?
    ensures var r := Apply(h, EmergencyUnstake(i));
      && r.Ok?
      && h.vault - r.value.vault == h.stakes[i].amount == h.farm.total - r.value.farm.total
      && r.value.stakes == h.stakes[i := NO_STAKE] && r.value.minted == h.minted
      && r.value.farm == h.farm.(total := r.value.farm.total)
  {
    StakedAtLeast(h.stakes, i);
  }

  /** ... also in the states where every other way out is closed. */
  lemma OnlyWayOut(h: Farmstead, t: Tally, i: nat, now: timestamp, amount: u64)
    requires Inv(h, t) && StakeAt(h, i).Ok? && Accrue(h.farm, now).Err?
    ensures Apply(h, Unstake(i, amount, now)).Err? && Apply(h, Claim(i, now)).Err? && Apply(h, EmergencyUnstake(i)).Ok?
  {
    StakedAtLeast(h.stakes, i);
  }

  /** Any part of a stake, and no more than it, can be taken out, and its reward claimed, exactly
      when neither the accumulator nor the claim overflows. */
  lemma UnstakeWorks(h: Farmstead, t: Tally, i: nat, amount: u64, now: timestamp)
    requires Inv(h, t) && StakeAt(h, i).Ok?
    ensures var payable := Accrue(h.farm, now).Ok? && Pending(h.stakes[i], Accrue(h.farm, now).value.acc).Ok?;
      && (Apply(h, Unstake(i, amount, now)).Ok? <==> amount <= h.stakes[i].amount && payable)
      && (Apply(h, Claim(i, now)).Ok? <==> payable)
  {
    StakedAtLeast(h.stakes, i);
    if amount <= h.stakes[i].amount && Accrue(h.farm, now).Ok? {
      MulMono(h.stakes[i].amount - amount, h.stakes[i].amount, Accrue(h.farm, now).value.acc);
    }
  }

  // ---- the cap on the rate ----

  /** The accumulator never outgrows the capped rate times the time since the farm began. */
  predicate AccBounded(h: Farmstead, start: timestamp) {
    h.farm.rate <= MAX_REWARD_PER_SECOND && start <= h.farm.last
        && h.farm.acc <= (h.farm.last - start) * (MAX_REWARD_PER_SECOND * PRECISION)
  }

  lemma AccruedBelow(f: FarmData, now: timestamp)
    requires f.rate <= MAX_REWARD_PER_SECOND && Accrue(f, now).Ok?
    ensures var n := Accrue(f, now).value;
      n.rate == f.rate && f.last <= n.last && n.acc - f.acc <= (n.last - f.last) * (MAX_REWARD_PER_SECOND * PRECISION)
  {
    if f.last < now && f.total > 0 && f.rate > 0 {
      PerShareBelow(now - f.last, f.rate, f.total);
    }
  }

  lemma PerShareBelow(elapsed: pos, rate: nat, total: pos)
    requires rate <= MAX_REWARD_PER_SECOND
    ensures DivFloor(elapsed * rate * PRECISION, total) <= elapsed * (MAX_REWARD_PER_SECOND * PRECISION)
    ensures elapsed * rate <= elapsed * MAX_REWARD_PER_SECOND
  {
    MulMono(rate, MAX_REWARD_PER_SECOND, elapsed);
    var q := DivFloor(elapsed * rate * PRECISION, total);
    MulMono(1, total, q);
  }

  lemma {:induction false} AccStaysBounded(rate: u64, start: timestamp, ops: seq<Op>)
    requires InitFarm(rate, start).Ok?
    ensures AccBounded(Play(InitFarm(rate, start).value, ops), start)
  {
    var h := InitFarm(rate, start).value;
    if ops != [] {
      AccStaysBounded(rate, start, ops[..|ops| - 1]);
      StepBounded(Play(h, ops[..|ops| - 1]), start, ops[|ops| - 1]);
    }
  }

  lemma StepBounded(h: Farmstead, start: timestamp, op: Op)
    requires AccBounded(h, start)
    ensures AccBounded(After(h, op), start)
  {
    var time := TimeOf(op);
    if time.Ok? && Accrue(h.farm, time.value).Ok? {
      AccruedBelow(h.farm, time.value);
    }
  }

  /** With the rate capped, no run of any length can drive the accumulator itself to overflow
      within the first 10^17 seconds. */
  lemma CapPreventsOverflow(rate: u64, start: timestamp, ops: seq<Op>, now: timestamp)
    requires InitFarm(rate, start).Ok? && now <= start + 100_000_000_000_000_000
    ensures Accrue(Play(InitFarm(rate, start).value, ops).farm, now).Ok?
  {
    AccStaysBounded(rate, start, ops);
    var f := Play(InitFarm(rate, start).value, ops).farm;
    if f.last < now && f.total > 0 && f.rate > 0 {
      PerShareBelow(now - f.last, f.rate, f.total);
    }
  }

  // ---- what the cap does not promise: amount times accumulator ----

  /** The product fits 128 bits and the claim fits 64. */
  predicate Payable(s: StakeData, acc: u128) {
    s.amount * acc < TWO_128 && s.pending + (DivFloor(s.amount * acc, PRECISION) - s.debt) < Q64
  }

  lemma PendingIsPayable(s: StakeData, acc: u128)
    requires StakeOk(s, acc)
    ensures Pending(s, acc).Ok? <==> Payable(s, acc)
  {
    FloorIsLargest(s.amount * acc, PRECISION, s.debt);
  }

  /** In a capped farm, within 10^17 seconds and after any run, a whole stake can be taken out,
      or its reward claimed, exactly when it is payable at the accrued accumulator. */
  lemma CappedLeaving(rate: u64, start: timestamp, ops: seq<Op>, i: nat, now: timestamp)
    requires InitFarm(rate, start).Ok? && now <= start + 100_000_000_000_000_000
    requires i < |Play(InitFarm(rate, start).value, ops).stakes|
    ensures var h := Play(InitFarm(rate, start).value, ops);
      && Accrue(h.farm, now).Ok?
      && (Apply(h, Unstake(i, h.stakes[i].amount, now)).Ok? <==> Payable(h.stakes[i], Accrue(h.farm, now).value.acc))
      && (Apply(h, Claim(i, now)).Ok? <==> Payable(h.stakes[i], Accrue(h.farm, now).value.acc))
  {
    var h := Play(InitFarm(rate, start).value, ops);
    var t := PlayTally(InitFarm(rate, start).value, Opening(rate, start), ops);
    CapPreventsOverflow(rate, start, ops, now);
    RunKeeps(rate, start, ops);
    AccrueKeeps(h, t, now);
    assert StakeOk(Accrued(h, now).stakes[i], Accrued(h, now).farm.acc);
    PendingIsPayable(h.stakes[i], Accrue(h.farm, now).value.acc);
    UnstakeWorks(h, t, i, h.stakes[i].amount, now);
  }

  /** Once the product has overflowed, the stake never moves again: no later time and no other
      instruction opens any way out but the emergency exit. */
  lemma LockedForGood(h: Farmstead, i: nat, op: Op)
    requires i < |h.stakes| && TWO_128 <= h.stakes[i].amount * h.farm.acc && op != EmergencyUnstake(i)
    ensures (op.Stake? || op.Unstake? || op.Claim?) && op.i == i ==> Apply(h, op).Err?
    ensures var n := After(h, op);
      i < |n.stakes| && n.stakes[i] == h.stakes[i] && TWO_128 <= n.stakes[i].amount * n.farm.acc
  {
    var time := TimeOf(op);
    if time.Ok? && Accrue(h.farm, time.value).Ok? {
      MulMonoLeft(h.stakes[i].amount, h.farm.acc, Accrue(h.farm, time.value).value.acc);
    }
  }

  function LockingOps(): seq<Op> {
    [InitUserStake, InitUserStake, Stake(0, 1, 0), Stake(1, 10_790_283_070, 31_536_000)]
  }

  function LockingFarm(): Farmstead {
    Farmstead(FarmData(1_000_000_000, 31_536_000, 31_536_000_000_000_000_000_000_000_000, 10_790_283_071),
              [StakeData(1, 0, 0), StakeData(10_790_283_070, 340_282_366_895_520_000_000_000_000, 0)],
              10_790_283_071, 0)
  }

  lemma LockingRun()
    ensures InitFarm(1_000_000_000, 0).Ok?
    ensures Play(InitFarm(1_000_000_000, 0).value, LockingOps()) == LockingFarm()
  {
    var h, ops := InitFarm(1_000_000_000, 0).value, LockingOps();
    assert ops[..3][..2][..1] == [ops[0]] && ops[..3][..2] == [ops[0], ops[1]] && ops[..3] == [ops[0], ops[1], ops[2]];
    assert Play(h, ops[..3][..2][..1]) == h.(stakes := [NO_STAKE]);
    assert Play(h, ops[..3][..2]) == h.(stakes := [NO_STAKE, NO_STAKE]);
    FirstStake(h);
    SecondStake();
  }

  function OneStaked(): Farmstead {
    Farmstead(FarmData(1_000_000_000, 0, 0, 1), [StakeData(1, 0, 0), NO_STAKE], 1, 0)
  }

  lemma FirstStake(h: Farmstead)
    requires h == Farmstead(FarmData(1_000_000_000, 0, 0, 0), [], 0, 0)
    ensures Apply(h.(stakes := [NO_STAKE, NO_STAKE]), Stake(0, 1, 0)) == Ok(OneStaked())
  {
    FreshStake(0, 1);
    StakeResult(h.(stakes := [NO_STAKE, NO_STAKE]), 0, 1, 0, h.farm, StakeData(1, 0, 0));
    assert [NO_STAKE, NO_STAKE][0 := StakeData(1, 0, 0)] == OneStaked().stakes;
  }

  /** A first stake owes the accumulator so far. */
  lemma FreshStake(acc: u128, amount: u64)
    requires amount * acc < TWO_128
    ensures Restake(NO_STAKE, acc, amount) == Ok(StakeData(amount, DivFloor(amount * acc, PRECISION), 0))
    ensures acc == 0 ==> DivFloor(amount * acc, PRECISION) == 0
  {
    ZeroProducts(acc, amount);
  }

  lemma ZeroProducts(acc: int, amount: int)
    ensures 0 * acc == 0 && (acc == 0 ==> amount * acc == 0)
  {
  }

  lemma StakeResult(h: Farmstead, i: nat, amount: u64, now: timestamp, farm: FarmData, restaked: StakeData)
    requires i < |h.stakes| && h.stakes[i] == NO_STAKE && Accrue(h.farm, now) == Ok(farm)
    requires Restake(NO_STAKE, farm.acc, amount) == Ok(restaked) && farm.total + amount < Q64
    ensures Apply(h, Stake(i, amount, now))
         == Ok(Farmstead(farm.(total := farm.total + amount), h.stakes[i := restaked], h.vault + amount, h.minted))
  {
  }

  lemma SecondStake()
    ensures Apply(OneStaked(), Stake(1, 10_790_283_070, 31_536_000)) == Ok(LockingFarm())
  {
    var acc, debt := LockingFarm().farm.acc, LockingFarm().stakes[1].debt;
    assert Accrue(OneStaked().farm, 31_536_000) == Ok(FarmData(1_000_000_000, 31_536_000, acc, 1));
    QuotientIs(10_790_283_070 * acc, PRECISION, debt);
    FreshStake(acc, 10_790_283_070);
    StakeResult(OneStaked(), 1, 10_790_283_070, 31_536_000, FarmData(1_000_000_000, 31_536_000, acc, 1),
                LockingFarm().stakes[1]);
    assert OneStaked().stakes[1 := LockingFarm().stakes[1]] == LockingFarm().stakes;
  }

  /** The cap alone does not keep the ordinary exits open: two stakers of a fresh farm at the
      capped rate, the second of about 10^10 units after a year; a year later the accumulator
      is fine, and the second stake can neither be taken out nor claimed. */
  lemma CapIsNotEnough()
    ensures InitFarm(1_000_000_000, 0).Ok?
    ensures var h := Play(InitFarm(1_000_000_000, 0).value, LockingOps());
      && 1 < |h.stakes| && h.stakes[1].amount == 10_790_283_070
      && Accrue(h.farm, 63_072_000).Ok?
      && Apply(h, Unstake(1, 10_790_283_070, 63_072_000)) == Err(MathOverflow)
      && Apply(h, Claim(1, 63_072_000)) == Err(MathOverflow)
      && Apply(h, EmergencyUnstake(1)).Ok?
  {
    LockingRun();
    var per := DivFloor(31_536_000_000_000_000_000_000_000_000, 10_790_283_071);
    assert per == 2_922_629_535_526_853_464;
    assert Accrue(LockingFarm().farm, 63_072_000)
        == Ok(FarmData(1_000_000_000, 63_072_000, 31_536_000_002_922_629_535_526_853_464, 10_790_283_071));
  }
}
