/**
 The loyalty token: an ERC-20 balance sheet with stakes, a lock, and rewards that are minted when
 they are claimed and rounded down to whole units.
 */
module Staking {
  import opened Collections
  import opened Ethereum

  const WAD := 1_000_000_000_000_000_000
  const MAX_SUPPLY := 100_000_000 * WAD
  const STAKE_LOCK_SECONDS := 30 * 24 * 3600
  const REWARD_RATE := 1157407407407407

  datatype Token = Token(
    balances: map<Address, int>,
    supply: int,
    staked: map<Address, int>,
    stamps: map<Address, int>,
    totalStaked: int)

  /** The contract's own address and its owner. */
  datatype Config = Config(self: Address, owner: Address)

  function At(m: map<Address, int>, a: Address): int {
    if a in m then m[a] else 0
  }

  function Add(m: map<Address, int>, a: Address, amount: int): map<Address, int> {
    m[a := At(m, a) + amount]
  }

  // ---- ERC-20

  function Mint(t: Token, to: Address, amount: int): Token {
    t.(balances := Add(t.balances, to, amount), supply := t.supply + amount)
  }

  function Transfer(t: Token, from: Address, to: Address, amount: int): Option<Token> {
    if to == ZERO_ADDRESS || At(t.balances, from) < amount then None
    else Some(t.(balances := Add(Add(t.balances, from, -amount), to, amount)))
  }

  // ---- Rewards

  /** The reward for a stake over a period of seconds. */
  function Reward(stake: int, elapsed: int): int {
    stake * elapsed * REWARD_RATE / WAD
  }

  function PendingReward(t: Token, user: Address, now: int): int {
    if At(t.staked, user) == 0 then 0 else Reward(At(t.staked, user), now - At(t.stamps, user))
  }

  function Claim(t: Token, user: Address, now: int): Token {
    var reward := PendingReward(t, user, now);
    if reward > 0 then Mint(t.(stamps := t.stamps[user := now]), user, reward) else t
  }

  // ---- Staking

  function Stake(cfg: Config, t: Token, user: Address, amount: int, now: int): Option<Token> {
    if amount == 0 then None
    else if t.supply + t.totalStaked + amount > MAX_SUPPLY then None
    else
      var c := Claim(t, user, now);
      match Transfer(c, user, cfg.self, amount)
      case None => None
      case Some(d) =>
        Some(d.(staked := Add(d.staked, user, amount), stamps := d.stamps[user := now],
            totalStaked := d.totalStaked + amount))
  }

  function Unstake(cfg: Config, t: Token, user: Address, amount: int, now: int): Option<Token> {
    if amount == 0 then None
    else if At(t.staked, user) < amount then None
    else if now < At(t.stamps, user) + STAKE_LOCK_SECONDS then None
    else
      var c := Claim(t, user, now);
      if c.totalStaked < amount then None
      else
        var d := c.(staked := Add(c.staked, user, -amount), totalStaked := c.totalStaked - amount);
        Transfer(d, cfg.self, user, amount)
  }

  // ---- Airdrop

  function MintAll(t: Token, recipients: seq<Address>, amounts: seq<int>, n: nat): Token
    requires |recipients| == |amounts| && n <= |amounts|
  {
    if n == 0 then t else Mint(MintAll(t, recipients, amounts, n - 1), recipients[n - 1], amounts[n - 1])
  }

  function Airdrop(cfg: Config, t: Token, caller: Address, recipients: seq<Address>, amounts: seq<int>): Option<Token> {
    if caller != cfg.owner || |recipients| != |amounts| || ZERO_ADDRESS in recipients then None
    else
      var d := MintAll(t, recipients, amounts, |amounts|);
      if d.supply > MAX_SUPPLY then None else Some(d)
  }

  // ---- The contract

  class CrowdTicToken {
    const config: Config
    var balances: map<Address, int>
    var supply: int
    var stakedAmount: map<Address, int>
    var stakeTimestamp: map<Address, int>
    var totalStaked: int

    constructor (config: Config)
      ensures this.config == config && View() == Token(map[config.owner := MAX_SUPPLY * 5 / 100], MAX_SUPPLY * 5 / 100,
          map[], map[], 0)
    {
      this.config := config;
      balances, supply := map[config.owner := MAX_SUPPLY * 5 / 100], MAX_SUPPLY * 5 / 100;
      stakedAmount, stakeTimestamp, totalStaked := map[], map[], 0;
    }

    ghost function View(): Token
      reads this
    {
      Token(balances, supply, stakedAmount, stakeTimestamp, totalStaked)
    }

    method MintTo(to: Address, amount: int)
      modifies this
      ensures View() == Mint(old(View()), to, amount)
    {
      balances := Add(balances, to, amount);
      supply := supply + amount;
    }

    method Move(from: Address, to: Address, amount: int) returns (ok: bool)
      modifies this
      ensures var r := Transfer(old(View()), from, to, amount);
              ok == r.Some? && View() == if ok then r.value else old(View())
    {
      if to == ZERO_ADDRESS || At(balances, from) < amount { return false; }
      balances := Add(balances, from, -amount);
      balances := Add(balances, to, amount);
      return true;
    }

    method ClaimReward(user: Address, now: int)
      modifies this
      ensures View() == Claim(old(View()), user, now)
    {
      var stake := At(stakedAmount, user);
      var reward := 0;
      if stake != 0 {
        var elapsed := now - At(stakeTimestamp, user);
        reward := stake * elapsed * REWARD_RATE / WAD;
      }
      if reward > 0 {
        stakeTimestamp := stakeTimestamp[user := now];
        MintTo(user, reward);
      }
    }

    /** What a revert restores. */
    method Revert(was: Token)
      modifies this
      ensures View() == was
    {
      balances, supply, stakedAmount, stakeTimestamp, totalStaked := was.balances, was.supply, was.staked, was.stamps,
          was.totalStaked;
    }

    method StakeTokens(user: Address, amount: int, now: int) returns (ok: bool)
      modifies this
      ensures var r := Stake(config, old(View()), user, amount, now);
              ok == r.Some? && View() == if ok then r.value else old(View())
    {
      var was := Token(balances, supply, stakedAmount, stakeTimestamp, totalStaked);
      if amount == 0 || supply + totalStaked + amount > MAX_SUPPLY { return false; }
      ClaimReward(user, now);
      ok := Move(user, config.self, amount);
      if !ok {
        Revert(was);
        return;
      }
      stakedAmount := Add(stakedAmount, user, amount);
      stakeTimestamp := stakeTimestamp[user := now];
      totalStaked := totalStaked + amount;
    }

    method UnstakeTokens(user: Address, amount: int, now: int) returns (ok: bool)
      modifies this
      ensures var r := Unstake(config, old(View()), user, amount, now);
              ok == r.Some? && View() == if ok then r.value else old(View())
    {
      var was := Token(balances, supply, stakedAmount, stakeTimestamp, totalStaked);
      if amount == 0 || At(stakedAmount, user) < amount { return false; }
      if now < At(stakeTimestamp, user) + STAKE_LOCK_SECONDS { return false; }
      ClaimReward(user, now);
      if totalStaked < amount {
        Revert(was);
        return false;
      }
      stakedAmount := Add(stakedAmount, user, -amount);
      totalStaked := totalStaked - amount;
      ok := Move(config.self, user, amount);
      if !ok {
        Revert(was);
      }
    }

    method AirdropTokens(caller: Address, recipients: seq<Address>, amounts: seq<int>) returns (ok: bool)
      modifies this
      ensures var r := Airdrop(config, old(View()), caller, recipients, amounts);
              ok == r.Some? && View() == if ok then r.value else old(View())
    {
      if caller != config.owner || |recipients| != |amounts| || ZERO_ADDRESS in recipients { return false; }
      var before, minted := balances, supply;
      var i := 0;
      while i < |recipients|
        invariant 0 <= i <= |recipients|
        invariant View() == MintAll(old(View()), recipients, amounts, i)
        invariant stakedAmount == old(stakedAmount) && stakeTimestamp == old(stakeTimestamp)
            && totalStaked == old(totalStaked)
      {
        MintTo(recipients[i], amounts[i]);
        i := i + 1;
      }
      if supply > MAX_SUPPLY {
        balances, supply := before, minted;
        return false;
      }
      return true;
    }
  }

  // ---- Runs

  datatype Tx =
    | TxStake(user: Address, amount: int)
    | TxUnstake(user: Address, amount: int)
    | TxClaim(user: Address)
    | TxTransfer(user: Address, to: Address, amount: int)
    | TxAirdrop(user: Address, recipients: seq<Address>, amounts: seq<int>)
    | TxWait(user: Address, seconds: nat)

  /** The contract at a block time. */
  datatype World = World(token: Token, now: int)

  function Execute(cfg: Config, w: World, tx: Tx): Option<Token> {
    match tx
    case TxStake(user, amount) => Stake(cfg, w.token, user, amount, w.now)
    case TxUnstake(user, amount) => Unstake(cfg, w.token, user, amount, w.now)
    case TxClaim(user) => Some(Claim(w.token, user, w.now))
    case TxTransfer(user, to, amount) => Transfer(w.token, user, to, amount)
    case TxAirdrop(user, recipients, amounts) => Airdrop(cfg, w.token, user, recipients, amounts)
    case TxWait(_, _) => Some(w.token)
  }

  function Step(cfg: Config, w: World, tx: Tx): World {
    World(if Execute(cfg, w, tx).Some? then Execute(cfg, w, tx).value else w.token,
          if tx.TxWait? then w.now + tx.seconds else w.now)
  }

  /** The contract never calls itself, and amounts are unsigned. */
  predicate External(cfg: Config, tx: Tx) {
    && tx.user != cfg.self && tx.user != ZERO_ADDRESS
    && (tx.TxStake? || tx.TxUnstake? || tx.TxTransfer? ==> tx.amount >= 0)
    && (tx.TxAirdrop? ==> forall i :: 0 <= i < |tx.amounts| ==> tx.amounts[i] >= 0)
  }

  /** Stakes add up to the total, and the contract's own balance covers them. */
  ghost predicate Solvent(cfg: Config, w: World) {
    && w.token.totalStaked == Sum(w.token.staked)
    && w.token.supply == Sum(w.token.balances)
    && At(w.token.balances, cfg.self) >= w.token.totalStaked
    && (forall a :: a in w.token.staked ==> w.token.staked[a] >= 0)
    && (forall a :: a in w.token.balances ==> w.token.balances[a] >= 0)
    && (forall a :: a in w.token.stamps ==> w.token.stamps[a] <= w.now)
    && (forall a :: a in w.token.staked ==> a in w.token.stamps)
  }

  lemma AddSum(m: map<Address, int>, a: Address, amount: int)
    ensures Sum(Add(m, a, amount)) == Sum(m) + amount
  {
    SumUpdate(m, a, At(m, a) + amount);
  }

  lemma RewardIsNonNegative(stake: int, elapsed: int)
    requires stake >= 0 && elapsed >= 0
    ensures Reward(stake, elapsed) >= 0
  {
    assert stake * elapsed >= 0;
  }

  lemma ClaimKeeps(cfg: Config, w: World, user: Address)
    requires Solvent(cfg, w) && user != cfg.self
    ensures Solvent(cfg, w.(token := Claim(w.token, user, w.now)))
    ensures var c := Claim(w.token, user, w.now);
            c.staked == w.token.staked && c.totalStaked == w.token.totalStaked
                && At(c.balances, user) >= At(w.token.balances, user)
  {
    AddSum(w.token.balances, user, PendingReward(w.token, user, w.now));
    hide Reward;
  }

  lemma TransferSums(t: Token, from: Address, to: Address, amount: int)
    requires Transfer(t, from, to, amount).Some? && amount >= 0
    requires forall a :: a in t.balances ==> t.balances[a] >= 0
    ensures var r := Transfer(t, from, to, amount).value;
            && Sum(r.balances) == Sum(t.balances)
            && (forall a :: a in r.balances ==> r.balances[a] >= 0)
            && (forall a :: At(r.balances, a)
                  == At(t.balances, a) - (if a == from then amount else 0) + (if a == to then amount else 0))
            && r == t.(balances := r.balances)
  {
    AddSum(t.balances, from, -amount);
    AddSum(Add(t.balances, from, -amount), to, amount);
  }

  lemma StakeKeeps(cfg: Config, w: World, tx: Tx)
    requires Solvent(cfg, w) && External(cfg, tx) && tx.TxStake?
    ensures Solvent(cfg, Step(cfg, w, tx))
  {
    var c := Claim(w.token, tx.user, w.now);
    ClaimKeeps(cfg, w, tx.user);
    hide Claim, Transfer;
    if Execute(cfg, w, tx).Some? {
      TransferSums(c, tx.user, cfg.self, tx.amount);
      AddSum(c.staked, tx.user, tx.amount);
    }
  }

  lemma UnstakeKeeps(cfg: Config, w: World, tx: Tx)
    requires Solvent(cfg, w) && External(cfg, tx) && tx.TxUnstake?
    ensures Solvent(cfg, Step(cfg, w, tx))
  {
    var c := Claim(w.token, tx.user, w.now);
    ClaimKeeps(cfg, w, tx.user);
    hide Claim, Transfer;
    if Execute(cfg, w, tx).Some? {
      var d := c.(staked := Add(c.staked, tx.user, -tx.amount), totalStaked := c.totalStaked - tx.amount);
      TransferSums(d, cfg.self, tx.user, tx.amount);
      AddSum(c.staked, tx.user, -tx.amount);
    }
  }

  lemma {:induction false} MintAllKeeps(t: Token, recipients: seq<Address>, amounts: seq<int>, n: nat)
    requires |recipients| == |amounts| && n <= |amounts| && forall i :: 0 <= i < |amounts| ==> amounts[i] >= 0
    requires t.supply == Sum(t.balances) && forall a :: a in t.balances ==> t.balances[a] >= 0
    ensures var r := MintAll(t, recipients, amounts, n);
            && r.supply == Sum(r.balances) && (forall a :: a in r.balances ==> r.balances[a] >= 0)
            && r == t.(balances := r.balances, supply := r.supply)
            && (forall a :: At(r.balances, a) >= At(t.balances, a))
  {
    if n > 0 {
      MintAllKeeps(t, recipients, amounts, n - 1);
      AddSum(MintAll(t, recipients, amounts, n - 1).balances, recipients[n - 1], amounts[n - 1]);
    }
  }

  lemma StepKeepsSolvent(cfg: Config, w: World, tx: Tx)
    requires Solvent(cfg, w) && External(cfg, tx)
    ensures Solvent(cfg, Step(cfg, w, tx))
  {
    hide Claim, Transfer, Stake, Unstake, MintAll;
    match tx
    case TxStake(_, _) => StakeKeeps(cfg, w, tx);
    case TxUnstake(_, _) => UnstakeKeeps(cfg, w, tx);
    case TxClaim(user) => ClaimKeeps(cfg, w, user);
    case TxTransfer(user, to, amount) =>
      if Transfer(w.token, user, to, amount).Some? { TransferSums(w.token, user, to, amount); }
    case TxAirdrop(user, recipients, amounts) =>
      if |recipients| == |amounts| { MintAllKeeps(w.token, recipients, amounts, |amounts|); }
    case TxWait(_, _) =>
  }

  ghost predicate IsRun(cfg: Config, ws: seq<World>, txs: seq<Tx>) {
    && |ws| == |txs| + 1
    && forall i :: 0 <= i < |txs| ==> External(cfg, txs[i]) && ws[i + 1] == Step(cfg, ws[i], txs[i])
  }

  /** In every state of every run the stakes add up and the contract can pay all of them back. */
  lemma {:induction false} SolventAlways(cfg: Config, ws: seq<World>, txs: seq<Tx>, i: nat)
    requires IsRun(cfg, ws, txs) && i <= |txs| && Solvent(cfg, ws[0])
    ensures Solvent(cfg, ws[i])
  {
    hide Solvent, Step;
    if i > 0 {
      SolventAlways(cfg, ws, txs, i - 1);
      StepKeepsSolvent(cfg, ws[i - 1], txs[i - 1]);
    }
  }

  /** The token as deployed: the owner has 5% of the maximum. */
  function Deployed(cfg: Config, now: int): World {
    World(Token(map[cfg.owner := MAX_SUPPLY * 5 / 100], MAX_SUPPLY * 5 / 100, map[], map[], 0), now)
  }

  lemma DeployedIsSolvent(cfg: Config, now: int)
    requires cfg.owner != cfg.self
    ensures Solvent(cfg, Deployed(cfg, now))
    ensures Deployed(cfg, now).token.supply == 5_000_000 * 1_000_000_000_000_000_000
  {
    var empty: map<Address, int> := map[];
    assert empty.Keys == {} && Sum(empty) == 0;
    SumUpdate(empty, cfg.owner, MAX_SUPPLY * 5 / 100);
    assert empty[cfg.owner := MAX_SUPPLY * 5 / 100] == map[cfg.owner := MAX_SUPPLY * 5 / 100];
  }

  /** Exactly when an unstake succeeds: lack of funds is never a reason. */
  lemma UnstakeSucceedsIff(cfg: Config, w: World, user: Address, amount: int)
    requires Solvent(cfg, w) && user != cfg.self && user != ZERO_ADDRESS && amount >= 0
    ensures Unstake(cfg, w.token, user, amount, w.now).Some?
      <==> amount > 0 && At(w.token.staked, user) >= amount && w.now >= At(w.token.stamps, user) + STAKE_LOCK_SECONDS
  {
    ClaimKeeps(cfg, w, user);
    if user in w.token.staked {
      SumRemove(w.token.staked, user);
      SumNonNegative(w.token.staked - {user});
    }
    hide Claim;
  }

  /** Claiming locks an unlocked stake again if and only if it pays anything. */
  lemma ClaimRelocksIff(cfg: Config, w: World, user: Address, amount: int)
    requires Solvent(cfg, w) && user != cfg.self && user != ZERO_ADDRESS
    requires 0 < amount <= At(w.token.staked, user) && w.now >= At(w.token.stamps, user) + STAKE_LOCK_SECONDS
    ensures Unstake(cfg, Claim(w.token, user, w.now), user, amount, w.now).Some?
        <==> PendingReward(w.token, user, w.now) == 0
  {
    ClaimKeeps(cfg, w, user);
    var v := w.(token := Claim(w.token, user, w.now));
    UnstakeSucceedsIff(cfg, v, user, amount);
    RewardIsNonNegative(At(w.token.staked, user), w.now - At(w.token.stamps, user));
    hide Unstake, Reward;
  }

  // ---- The supply cap

  /** Exactly when a stake succeeds; a pending reward may be staked with the rest. */
  lemma StakeSucceedsIff(cfg: Config, w: World, user: Address, amount: int)
    requires Solvent(cfg, w) && user != cfg.self && cfg.self != ZERO_ADDRESS
    ensures Stake(cfg, w.token, user, amount, w.now).Some?
      <==> && amount != 0 && w.token.supply + w.token.totalStaked + amount <= MAX_SUPPLY
           && At(w.token.balances, user) + PendingReward(w.token, user, w.now) >= amount
  {
    if user in w.token.staked {
      RewardIsNonNegative(At(w.token.staked, user), w.now - At(w.token.stamps, user));
    }
    hide Reward;
  }

  /** The guards of the call let it through to the claim it makes. */
  predicate ReachesClaim(w: World, tx: Tx) {
    var t := w.token;
    match tx
    case TxStake(user, amount) =>
      && amount > 0 && t.supply + t.totalStaked + amount <= MAX_SUPPLY
      && At(t.balances, user) + PendingReward(t, user, w.now) >= amount
    case TxUnstake(user, amount) =>
      amount > 0 && At(t.staked, user) >= amount && w.now >= At(t.stamps, user) + STAKE_LOCK_SECONDS
    case TxClaim(_) => true
    case _ => false
  }

  /** A stake, unstake or claim that its guards let through, with a pending reward that the cap has no room for. */
  predicate Overflows(w: World, tx: Tx) {
    ReachesClaim(w, tx) && w.token.supply + PendingReward(w.token, tx.user, w.now) > MAX_SUPPLY
  }

  /** What a transaction other than an airdrop adds to the supply. */
  lemma SupplyGrowth(cfg: Config, w: World, tx: Tx)
    requires Solvent(cfg, w) && External(cfg, tx) && !tx.TxAirdrop? && cfg.self != ZERO_ADDRESS
    ensures Step(cfg, w, tx).token.supply
      == w.token.supply + (if ReachesClaim(w, tx) then PendingReward(w.token, tx.user, w.now) else 0)
    ensures PendingReward(w.token, tx.user, w.now) >= 0
  {
    if tx.user in w.token.staked {
      RewardIsNonNegative(At(w.token.staked, tx.user), w.now - At(w.token.stamps, tx.user));
    }
    if tx.TxStake? {
      StakeSucceedsIff(cfg, w, tx.user, tx.amount);
    } else if tx.TxUnstake? {
      UnstakeSucceedsIff(cfg, w, tx.user, tx.amount);
    }
    hide Reward;
  }

  /** An airdrop never lowers the supply, and never lifts it over the maximum. */
  lemma AirdropSupply(cfg: Config, w: World, tx: Tx)
    requires Solvent(cfg, w) && External(cfg, tx) && tx.TxAirdrop?
    ensures var supply := Step(cfg, w, tx).token.supply;
            supply == w.token.supply || (supply <= MAX_SUPPLY && supply >= w.token.supply)
  {
    if |tx.recipients| == |tx.amounts| {
      MintAllGrows(w.token, tx.recipients, tx.amounts, |tx.amounts|);
    }
    hide MintAll;
  }

  lemma {:induction false} MintAllGrows(t: Token, recipients: seq<Address>, amounts: seq<int>, n: nat)
    requires |recipients| == |amounts| && n <= |amounts| && forall i :: 0 <= i < |amounts| ==> amounts[i] >= 0
    ensures MintAll(t, recipients, amounts, n).supply >= t.supply
  {
    if n > 0 {
      MintAllGrows(t, recipients, amounts, n - 1);
    }
  }

  /** A transaction keeps the supply within its maximum if and only if it does not overflow; and none lowers it. */
  lemma CapKeptIff(cfg: Config, w: World, tx: Tx)
    requires Solvent(cfg, w) && External(cfg, tx) && cfg.self != ZERO_ADDRESS
    ensures w.token.supply <= MAX_SUPPLY ==> (Step(cfg, w, tx).token.supply <= MAX_SUPPLY <==> !Overflows(w, tx))
    ensures Step(cfg, w, tx).token.supply >= w.token.supply
  {
    hide Step, Solvent, PendingReward;
    if tx.TxAirdrop? {
      AirdropSupply(cfg, w, tx);
    } else {
      SupplyGrowth(cfg, w, tx);
    }
  }

  /** Over any run the supply is within its maximum if and only if no transaction of the run overflowed. */
  lemma {:induction false} CapExactly(cfg: Config, ws: seq<World>, txs: seq<Tx>, i: nat)
    requires IsRun(cfg, ws, txs) && i <= |txs| && Solvent(cfg, ws[0]) && cfg.self != ZERO_ADDRESS
    requires ws[0].token.supply <= MAX_SUPPLY
    ensures ws[i].token.supply <= MAX_SUPPLY <==> forall j :: 0 <= j < i ==> !Overflows(ws[j], txs[j])
  {
    hide Solvent, Step, Overflows;
    if i > 0 {
      CapExactly(cfg, ws, txs, i - 1);
      SolventAlways(cfg, ws, txs, i - 1);
      CapKeptIff(cfg, ws[i - 1], txs[i - 1]);
    }
  }

  /** From deployment: the owner stakes everything, waits 20000 seconds and claims, and the cap is passed. */
  lemma CapIsPassed(cfg: Config, now: int)
    requires cfg.owner != cfg.self && cfg.self != ZERO_ADDRESS && cfg.owner != ZERO_ADDRESS
    ensures var w0 := Deployed(cfg, now);
            var w1 := Step(cfg, w0, TxStake(cfg.owner, MAX_SUPPLY * 5 / 100));
            var w2 := Step(cfg, w1, TxWait(cfg.owner, 20000));
            w0.token.supply <= MAX_SUPPLY && Step(cfg, w2, TxClaim(cfg.owner)).token.supply > MAX_SUPPLY
  {
    assert Reward(MAX_SUPPLY * 5 / 100, 20000) + MAX_SUPPLY * 5 / 100 > MAX_SUPPLY;
    hide Reward;
  }

  // ---- Claim schedules

  lemma FloorOfSum(a: int, b: int)
    requires a >= 0 && b >= 0
    ensures a / WAD + b / WAD <= (a + b) / WAD <= a / WAD + b / WAD + 1
  {
  }

  lemma RewardSplits(stake: int, d1: int, d2: int)
    requires stake >= 0 && d1 >= 0 && d2 >= 0
    ensures Reward(stake, d1) + Reward(stake, d2) <= Reward(stake, d1 + d2) <= Reward(stake, d1) + Reward(stake, d2) + 1
  {
    var x, y := stake * d1 * REWARD_RATE, stake * d2 * REWARD_RATE;
    assert stake * d1 >= 0 && stake * d2 >= 0;
    assert stake * (d1 + d2) == stake * d1 + stake * d2;
    assert stake * (d1 + d2) * REWARD_RATE == x + y;
    FloorOfSum(x, y);
  }

  /** The token after claims at the given times. */
  function ClaimAt(t: Token, user: Address, times: seq<int>, n: nat): Token
    requires n <= |times|
  {
    if n == 0 then t else Claim(ClaimAt(t, user, times, n - 1), user, times[n - 1])
  }

  /** How many of the claims paid. */
  function Paying(t: Token, user: Address, times: seq<int>, n: nat): nat
    requires n <= |times|
  {
    if n == 0 then 0
    else
      var pending := PendingReward(ClaimAt(t, user, times, n - 1), user, times[n - 1]);
      Paying(t, user, times, n - 1) + if pending > 0 then 1 else 0
  }

  /** One claim leaves the user with what waiting would have left, or with one unit less if it paid. */
  lemma ClaimTiming(t: Token, user: Address, now: int, end: int)
    requires At(t.staked, user) >= 0 && At(t.stamps, user) <= now <= end
    ensures var c := Claim(t, user, now);
            var before := At(t.balances, user) + PendingReward(t, user, end);
            var after := At(c.balances, user) + PendingReward(c, user, end);
            && c.staked == t.staked && At(t.stamps, user) <= At(c.stamps, user) <= now
            && before - (if PendingReward(t, user, now) > 0 then 1 else 0) <= after <= before
  {
    RewardSplits(At(t.staked, user), now - At(t.stamps, user), end - now);
    RewardIsNonNegative(At(t.staked, user), now - At(t.stamps, user));
    hide Reward;
  }

  /**
   For a constant stake, any schedule of claims of which k paid yields, together with what is still
   pending at the end, at most the reward of a single claim at the end, and at least that minus k.
   */
  lemma {:induction false} ScheduleYield(t: Token, user: Address, times: seq<int>, n: nat, end: int)
    requires n <= |times| && At(t.staked, user) >= 0
    requires forall i :: 0 <= i < n ==> At(t.stamps, user) <= times[i] <= end
    requires forall i, j :: 0 <= i < j < n ==> times[i] <= times[j]
    requires At(t.stamps, user) <= end
    ensures var c := ClaimAt(t, user, times, n);
            var total := At(c.balances, user) - At(t.balances, user) + PendingReward(c, user, end);
            && c.staked == t.staked && (n == 0 || At(c.stamps, user) <= times[n - 1])
                && At(t.stamps, user) <= At(c.stamps, user)
            && PendingReward(t, user, end) - Paying(t, user, times, n) <= total <= PendingReward(t, user, end)
  {
    hide Claim, PendingReward;
    if n > 0 {
      ScheduleYield(t, user, times, n - 1, end);
      if n >= 2 { assert times[n - 2] <= times[n - 1]; }
      ClaimTiming(ClaimAt(t, user, times, n - 1), user, times[n - 1], end);
    }
  }
}
