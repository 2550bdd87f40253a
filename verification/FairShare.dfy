/** What each staker of the farm is paid: its pro-rata share of the emission, from an account
    kept beside the state in exact numbers. */
module FairShare {
  import opened Numbers
  import opened Farm

  // ---- what one instruction moves ----

  /** Every other stake is as it was. */
  predicate OthersStay(h: Farmstead, n: Farmstead, i: nat) {
    |n.stakes| == |h.stakes| && forall j :: 0 <= j < |h.stakes| && j != i ==> n.stakes[j] == h.stakes[j]
  }

  /** Staking takes exactly the tokens it names, unstaking returns exactly them, claiming mints
      exactly the whole units of what the stake has earned and leaves the fraction, and a rate
      change sets the rate and the clock; nothing else moves. */
  lemma StepMoves(h: Farmstead, t: Tally, op: Op)
    requires Inv(h, t) && Apply(h, op).Ok?
    ensures var n := After(h, op);
      match op
      case Stake(i, amount, now) =>
        && i < |h.stakes| && OthersStay(h, n, i) && n.stakes[i].amount == h.stakes[i].amount + amount
        && n.vault == h.vault + amount && n.minted == h.minted && n.farm.last == Max(t.seen, now)
      case Unstake(i, amount, now) =>
        && i < |h.stakes| && OthersStay(h, n, i) && amount <= h.stakes[i].amount
        && n.stakes[i].amount == h.stakes[i].amount - amount
        && n.vault == h.vault - amount && n.minted == h.minted && n.farm.last == Max(t.seen, now)
      case Claim(i, now) =>
        && i < |h.stakes| && OthersStay(h, n, i) && n.stakes[i].amount == h.stakes[i].amount
        && n.vault == h.vault && n.farm.last == Max(t.seen, now)
        && var claim := Share(h.stakes[i], n.farm.acc);
        && PRECISION * (n.minted - h.minted) <= claim < PRECISION * (n.minted - h.minted) + PRECISION
        && Share(n.stakes[i], n.farm.acc) == claim - PRECISION * (n.minted - h.minted)
      case SetRewardPerSecond(rate, byOwner, now) =>
        && byOwner && rate <= 1_000_000_000 && n.farm.rate == rate && n.farm.last == Max(t.seen, now)
        && n.stakes == h.stakes && n.vault == h.vault && n.minted == h.minted
      case EmergencyUnstake(i) =>
        && i < |h.stakes| && OthersStay(h, n, i) && n.stakes[i].amount == 0
        && n.vault == h.vault - h.stakes[i].amount && n.minted == h.minted && n.farm.last == t.seen
      case InitUserStake =>
        && |n.stakes| == |h.stakes| + 1 && OthersStay(h, n.(stakes := n.stakes[..|h.stakes|]), |h.stakes|)
        && n.stakes[|h.stakes|].amount == 0 && n.vault == h.vault && n.minted == h.minted && n.farm == h.farm
      case Donate(tokens) => n == h.(vault := h.vault + tokens)
  {
    match op
    case Stake(_, _, now) => AccrueShares(h.farm, now);
    case Unstake(_, _, now) => AccrueShares(h.farm, now);
    case Claim(i, now) =>
      AccrueShares(h.farm, now);
      ClaimMints(h, t, i, now);
    case SetRewardPerSecond(_, _, now) => AccrueShares(h.farm, now);
    case _ =>
  }

  lemma ClaimMints(h: Farmstead, t: Tally, i: nat, now: timestamp)
    requires Inv(h, t) && ApplyClaim(h, i, now).Ok?
    ensures var n := ApplyClaim(h, i, now).value;
      && i < |h.stakes| && h.minted <= n.minted
      && var claim := Share(h.stakes[i], n.farm.acc);
      && PRECISION * (n.minted - h.minted) <= claim < PRECISION * (n.minted - h.minted) + PRECISION
      && Share(n.stakes[i], n.farm.acc) == claim - PRECISION * (n.minted - h.minted)
  {
    AccrueKeeps(h, t, now);
    var f := Accrue(h.farm, now).value;
    assert StakeOk(h.(farm := f).stakes[i], f.acc);
    ClaimKeeps(h.stakes[i], f.acc);
  }

  // ---- one staker's account ----

  /** Since its last emergency exit: its exact pro-rata share of every emission, what it was
      paid, how often it changed its stake, and the sum of its stakes over the emissions. */
  datatype Account = Account(due: real, paid: nat, changes: nat, slack: nat)

  const NOTHING: Account := Account(0.0, 0, 0, 0)

  function Part(flow: nat, amount: nat, staked: nat): real {
    if staked == 0 then 0.0 else (flow * amount) as real / staked as real
  }

  /** What the emission up to a time adds to the account of stake `i`. */
  function Earning(h: Farmstead, t: Tally, a: Account, i: nat, time: Result<timestamp>): Account {
    match time
    case Err(_) => a
    case Ok(now) =>
      var flow := Flow(t, Staked(h.stakes), now);
      if flow == 0 || i >= |h.stakes| then a
      else a.(due := a.due + Part(flow, h.stakes[i].amount, Staked(h.stakes)), slack := a.slack + h.stakes[i].amount)
  }

  function AccountAfter(h: Farmstead, t: Tally, a: Account, i: nat, op: Op): Account {
    if Apply(h, op).Err? then a
    else if op == EmergencyUnstake(i) then NOTHING
    else
      var e := Earning(h, t, a, i, TimeOf(op));
      if op.Claim? && op.i == i then e.(paid := e.paid + (After(h, op).minted - h.minted))
      else if (op.Stake? || op.Unstake?) && op.i == i then e.(changes := e.changes + 1)
      else e
  }

  /** Paid and still claimable are the exact share, less a unit of the accumulator per staked
      token and emission, give or take a unit per change of the stake. */
  predicate Fair(h: Farmstead, a: Account, i: nat) {
    if i < |h.stakes| then
      var got := PRECISION * a.paid + Share(h.stakes[i], h.farm.acc);
      && PRECISION as real * a.due - (a.slack + PRECISION * a.changes) as real <= got as real
      && got as real <= PRECISION as real * a.due + (PRECISION * a.changes) as real
    else a == NOTHING
  }

  /** One emission: the accumulator's step times the stake against the exact share. */
  lemma PartIsPaid(step: nat, flow: nat, amount: nat, staked: pos)
    requires step * staked <= PRECISION * flow < step * staked + staked
    ensures PRECISION as real * Part(flow, amount, staked) - amount as real <= (amount * step) as real
    ensures (amount * step) as real <= PRECISION as real * Part(flow, amount, staked)
  {
    var n := PRECISION * (flow * amount);
    PartTimes(flow * amount, staked);
    StepTimes(step, flow, amount, staked);
    QuotientBetween(n, staked, amount * step, amount * step + amount, PRECISION as real * Part(flow, amount, staked));
  }

  lemma PartTimes(n: nat, staked: pos)
    ensures (PRECISION as real * (n as real / staked as real)) * staked as real == (PRECISION * n) as real
  {
    var q := n as real / staked as real;
    assert q * staked as real == n as real;
  }

  lemma StepTimes(step: nat, flow: nat, amount: nat, staked: pos)
    requires step * staked <= PRECISION * flow < step * staked + staked
    ensures (amount * step) * staked <= PRECISION * (flow * amount) <= (amount * step + amount) * staked
  {
    MulMono(step * staked, PRECISION * flow, amount);
    MulMono(PRECISION * flow, step * staked + staked, amount);
    assert (amount * step + amount) * staked == (step * staked + staked) * amount;
    assert (amount * step) * staked == (step * staked) * amount;
    assert PRECISION * (flow * amount) == (PRECISION * flow) * amount;
  }

  /** Accruing adds the share of the emission. */
  lemma AccrueIsFair(h: Farmstead, t: Tally, a: Account, i: nat, now: timestamp)
    requires Inv(h, t) && Accrue(h.farm, now).Ok? && Fair(h, a, i)
    ensures Fair(h.(farm := Accrue(h.farm, now).value), Earning(h, t, a, i, Ok(now)), i)
  {
    AccrueShares(h.farm, now);
    var f := Accrue(h.farm, now).value;
    if i < |h.stakes| && t.seen < now && 0 < Staked(h.stakes) {
      var amount, step := h.stakes[i].amount, f.acc - h.farm.acc;
      PartIsPaid(step, Flow(t, Staked(h.stakes), now), amount, Staked(h.stakes));
      assert Share(h.stakes[i], f.acc) == Share(h.stakes[i], h.farm.acc) + amount * step;
    }
  }

  /** Settling moves the claim by less than a unit, and a claim by exactly what it mints. */
  lemma ChangeIsFair(h: Farmstead, t: Tally, a: Account, i: nat, j: nat, amount: int, n: Farmstead)
    requires Inv(h, t) && Fair(h, a, i) && j < |h.stakes| && Restake(h.stakes[j], h.farm.acc, amount).Ok?
    requires n.farm.acc == h.farm.acc && n.stakes == h.stakes[j := Restake(h.stakes[j], h.farm.acc, amount).value]
    ensures Fair(n, if i == j then a.(changes := a.changes + 1) else a, i)
  {
    RestakeKeeps(h.stakes[j], h.farm.acc, amount);
  }

  lemma ClaimIsFair(h: Farmstead, t: Tally, a: Account, i: nat, j: nat, n: Farmstead)
    requires Inv(h, t) && Fair(h, a, i) && j < |h.stakes|
    requires Pending(h.stakes[j], h.farm.acc).Ok? && SetDebt(h.stakes[j].(pending := 0), h.farm.acc).Ok?
    requires n.farm == h.farm && n.minted == h.minted + Pending(h.stakes[j], h.farm.acc).value
    requires n.stakes == h.stakes[j := SetDebt(h.stakes[j].(pending := 0), h.farm.acc).value]
    ensures Fair(n, if i == j then a.(paid := a.paid + (n.minted - h.minted)) else a, i)
  {
    ClaimKeeps(h.stakes[j], h.farm.acc);
  }

  lemma StakingIsFair(h: Farmstead, t: Tally, a: Account, i: nat, j: nat, amount: u64, now: timestamp)
    requires Inv(h, t) && Fair(h, a, i) && ApplyStake(h, j, amount, now).Ok?
    ensures Fair(ApplyStake(h, j, amount, now).value, AccountAfter(h, t, a, i, Stake(j, amount, now)), i)
  {
    AccrueKeeps(h, t, now);
    AccrueIsFair(h, t, a, i, now);
    ChangeIsFair(Accrued(h, now), Ticked(h, t, now), Earning(h, t, a, i, Ok(now)), i, j, h.stakes[j].amount + amount,
                 ApplyStake(h, j, amount, now).value);
  }

  lemma UnstakingIsFair(h: Farmstead, t: Tally, a: Account, i: nat, j: nat, amount: u64, now: timestamp)
    requires Inv(h, t) && Fair(h, a, i) && ApplyUnstake(h, j, amount, now).Ok?
    ensures Fair(ApplyUnstake(h, j, amount, now).value, AccountAfter(h, t, a, i, Unstake(j, amount, now)), i)
  {
    AccrueKeeps(h, t, now);
    AccrueIsFair(h, t, a, i, now);
    ChangeIsFair(Accrued(h, now), Ticked(h, t, now), Earning(h, t, a, i, Ok(now)), i, j, h.stakes[j].amount - amount,
                 ApplyUnstake(h, j, amount, now).value);
  }

  lemma ClaimingIsFair(h: Farmstead, t: Tally, a: Account, i: nat, j: nat, now: timestamp)
    requires Inv(h, t) && Fair(h, a, i) && ApplyClaim(h, j, now).Ok?
    ensures Fair(ApplyClaim(h, j, now).value, AccountAfter(h, t, a, i, Claim(j, now)), i)
  {
    AccrueKeeps(h, t, now);
    AccrueIsFair(h, t, a, i, now);
    ClaimIsFair(Accrued(h, now), Ticked(h, t, now), Earning(h, t, a, i, Ok(now)), i, j, ApplyClaim(h, j, now).value);
  }

  lemma RateIsFair(h: Farmstead, t: Tally, a: Account, i: nat, rate: u64, byOwner: bool, now: timestamp)
    requires Inv(h, t) && Fair(h, a, i) && ApplySetReward(h, rate, byOwner, now).Ok?
    ensures Fair(ApplySetReward(h, rate, byOwner, now).value,
                 AccountAfter(h, t, a, i, SetRewardPerSecond(rate, byOwner, now)), i)
  {
    AccrueIsFair(h, t, a, i, now);
  }

  lemma UntimedIsFair(h: Farmstead, t: Tally, a: Account, i: nat, op: Op)
    requires Inv(h, t) && Fair(h, a, i) && Apply(h, op).Ok?
    requires op.InitUserStake? || op.EmergencyUnstake? || op.Donate?
    ensures Fair(After(h, op), AccountAfter(h, t, a, i, op), i)
  {
  }

  lemma StepKeepsFair(h: Farmstead, t: Tally, a: Account, i: nat, op: Op)
    requires Inv(h, t) && Fair(h, a, i)
    ensures Fair(After(h, op), AccountAfter(h, t, a, i, op), i)
  {
    if Apply(h, op).Ok? {
      match op
      case Stake(j, amount, now) => StakingIsFair(h, t, a, i, j, amount, now);
      case Unstake(j, amount, now) => UnstakingIsFair(h, t, a, i, j, amount, now);
      case Claim(j, now) => ClaimingIsFair(h, t, a, i, j, now);
      case SetRewardPerSecond(rate, byOwner, now) => RateIsFair(h, t, a, i, rate, byOwner, now);
      case _ => UntimedIsFair(h, t, a, i, op);
    }
  }

  // ---- any run ----

  function PlayAccount(h: Farmstead, t: Tally, i: nat, ops: seq<Op>): Account {
    if ops == [] then NOTHING
    else
      var before := ops[..|ops| - 1];
      AccountAfter(Play(h, before), PlayTally(h, t, before), PlayAccount(h, t, i, before), i, ops[|ops| - 1])
  }

  /** From a fresh farm, over any run with any rates, times and stakers: what a staker was paid
      and can still claim is its exact pro-rata share of the emission. */
  lemma {:induction false} EveryoneIsPaid(rate: u64, start: timestamp, ops: seq<Op>, i: nat)
    requires InitFarm(rate, start).Ok?
    ensures Fair(Play(InitFarm(rate, start).value, ops),
                 PlayAccount(InitFarm(rate, start).value, Opening(rate, start), i, ops), i)
  {
    var h, t := InitFarm(rate, start).value, Opening(rate, start);
    if ops != [] {
      var before := ops[..|ops| - 1];
      RunKeeps(rate, start, before);
      EveryoneIsPaid(rate, start, before, i);
      StepKeepsFair(Play(h, before), PlayTally(h, t, before), PlayAccount(h, t, i, before), i, ops[|ops| - 1]);
    }
  }

  /** So after a claim the total paid is the exact share: at most a unit per change of the stake
      more, and less than a unit per change, one for the fraction kept, and 10^-12 of its stake
      per emission less. */
  lemma PaidInFull(rate: u64, start: timestamp, ops: seq<Op>, i: nat, now: timestamp)
    requires InitFarm(rate, start).Ok? && Apply(Play(InitFarm(rate, start).value, ops), Claim(i, now)).Ok?
    ensures var a := PlayAccount(InitFarm(rate, start).value, Opening(rate, start), i, ops + [Claim(i, now)]);
      && a.paid as real <= a.due + a.changes as real
      && a.due - (a.changes + 1) as real - a.slack as real / 1_000_000_000_000.0 < a.paid as real
  {
    var h, t := InitFarm(rate, start).value, Opening(rate, start);
    assert (ops + [Claim(i, now)])[..|ops|] == ops;
    EveryoneIsPaid(rate, start, ops + [Claim(i, now)], i);
    RunKeeps(rate, start, ops);
    StepMoves(Play(h, ops), PlayTally(h, t, ops), Claim(i, now));
  }
}
