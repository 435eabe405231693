/**
 Who is paid what by the loyalty token: for each call, the balances, stakes and stamps of every
 account afterwards, and the way of an amount into a stake and back out of it.
 */
module Payouts {
  import opened Collections
  import opened Ethereum
  import opened Staking

  // ---- Rewards

  /** The pending reward is the stake times the seconds since the stamp times the rate, rounded down. */
  lemma PendingIs(t: Token, user: Address, now: int)
    ensures var p := PendingReward(t, user, now);
            var exact := At(t.staked, user) * (now - At(t.stamps, user)) * 1157407407407407;
            1_000_000_000_000_000_000 * p <= exact < 1_000_000_000_000_000_000 * (p + 1)
  {
    var exact := At(t.staked, user) * (now - At(t.stamps, user)) * REWARD_RATE;
    assert At(t.staked, user) == 0 ==> exact == 0;
  }

  lemma PendingIsNonNegative(cfg: Config, w: World, user: Address)
    requires Solvent(cfg, w)
    ensures PendingReward(w.token, user, w.now) >= 0
  {
    if user in w.token.staked {
      RewardIsNonNegative(At(w.token.staked, user), w.now - At(w.token.stamps, user));
    }
    hide Reward;
  }

  /** Everything the books say about accounts other than `a` and `b` is the same. */
  ghost predicate SameBut(t: Token, u: Token, a: Address, b: Address) {
    forall x :: x != a && x != b ==>
      At(u.balances, x) == At(t.balances, x) && At(u.staked, x) == At(t.staked, x) && At(u.stamps, x) == At(t.stamps, x)
  }

  /** A claim mints the pending reward to its user, and starts the next period exactly if that is more than nothing. */
  lemma ClaimPays(cfg: Config, w: World, user: Address)
    requires Solvent(cfg, w)
    ensures var t, c, p := w.token, Claim(w.token, user, w.now), PendingReward(w.token, user, w.now);
            && SameBut(t, c, user, user) && c.staked == t.staked && c.totalStaked == t.totalStaked
            && At(c.balances, user) == At(t.balances, user) + p && c.supply == t.supply + p
            && At(c.stamps, user) == if p > 0 then w.now else At(t.stamps, user)
  {
    PendingIsNonNegative(cfg, w, user);
    hide PendingReward, Solvent;
  }

  // ---- Stakes

  /** A stake takes the amount from its user, who is paid the pending reward first, and starts a new period. */
  lemma StakeTakes(cfg: Config, w: World, user: Address, amount: int)
    requires Solvent(cfg, w) && user != cfg.self && Stake(cfg, w.token, user, amount, w.now).Some?
    ensures var t, u, p := w.token, Stake(cfg, w.token, user, amount, w.now).value, PendingReward(w.token, user, w.now);
            && SameBut(t, u, user, cfg.self)
            && At(u.balances, user) == At(t.balances, user) + p - amount
            && At(u.balances, cfg.self) == At(t.balances, cfg.self) + amount
            && At(u.staked, user) == At(t.staked, user) + amount && At(u.staked, cfg.self) == At(t.staked, cfg.self)
            && At(u.stamps, user) == w.now && At(u.stamps, cfg.self) == At(t.stamps, cfg.self)
            && u.totalStaked == t.totalStaked + amount && u.supply == t.supply + p
  {
    hide Claim, PendingReward, Solvent;
    ClaimPays(cfg, w, user);
  }

  /** An unstake returns the amount from the contract's balance to its user, together with the pending reward. */
  lemma UnstakePays(cfg: Config, w: World, user: Address, amount: int)
    requires Solvent(cfg, w) && user != cfg.self && Unstake(cfg, w.token, user, amount, w.now).Some?
    ensures var t, u := w.token, Unstake(cfg, w.token, user, amount, w.now).value;
            var p := PendingReward(t, user, w.now);
            && SameBut(t, u, user, cfg.self)
            && At(u.balances, user) == At(t.balances, user) + p + amount
            && At(u.balances, cfg.self) == At(t.balances, cfg.self) - amount
            && At(u.staked, user) == At(t.staked, user) - amount && At(u.staked, cfg.self) == At(t.staked, cfg.self)
            && At(u.stamps, user) == (if p > 0 then w.now else At(t.stamps, user))
            && At(u.stamps, cfg.self) == At(t.stamps, cfg.self)
            && u.totalStaked == t.totalStaked - amount && u.supply == t.supply + p
  {
    hide Claim, PendingReward, Solvent;
    ClaimPays(cfg, w, user);
  }

  /**
   What goes in comes out: an amount staked by somebody without a stake can be unstaked exactly from 30 days on, and
   then leaves the user with the old balance and the reward of the time, and everybody else as before.
   */
  lemma StakeComesBack(cfg: Config, w: World, user: Address, amount: int, wait: nat)
    requires Solvent(cfg, w) && user != cfg.self && user != ZERO_ADDRESS && amount >= 0 && At(w.token.staked, user) == 0
    requires Stake(cfg, w.token, user, amount, w.now).Some?
    ensures var t, s := w.token, Stake(cfg, w.token, user, amount, w.now).value;
            var r := Unstake(cfg, s, user, amount, w.now + wait);
            && (r.Some? <==> wait >= 2_592_000)
            && (r.Some? ==>
                  && SameBut(t, r.value, user, user) && At(r.value.staked, user) == 0
                  && At(r.value.balances, user) == At(t.balances, user) + Reward(amount, wait)
                  && r.value.totalStaked == t.totalStaked && r.value.supply == t.supply + Reward(amount, wait))
  {
    hide Stake, Unstake, Reward;
    var s := Stake(cfg, w.token, user, amount, w.now).value;
    var v := World(s, w.now + wait);
    StakeTakes(cfg, w, user, amount);
    assert amount > 0 by { StakeIsPositive(cfg, w, user, amount); }
    assert Solvent(cfg, v) by { StakeThenWait(cfg, w, user, amount, wait); }
    hide Solvent;
    UnstakeSucceedsIff(cfg, v, user, amount);
    if wait >= 2_592_000 { UnstakePays(cfg, v, user, amount); }
  }

  lemma StakeIsPositive(cfg: Config, w: World, user: Address, amount: int)
    requires amount >= 0 && Stake(cfg, w.token, user, amount, w.now).Some?
    ensures amount > 0
  {
  }

  lemma StakeThenWait(cfg: Config, w: World, user: Address, amount: int, wait: nat)
    requires Solvent(cfg, w) && user != cfg.self && user != ZERO_ADDRESS && amount >= 0
    requires Stake(cfg, w.token, user, amount, w.now).Some?
    ensures Solvent(cfg, World(Stake(cfg, w.token, user, amount, w.now).value, w.now + wait))
  {
    hide Stake, Solvent;
    StepKeepsSolvent(cfg, w, TxStake(user, amount));
    StepKeepsSolvent(cfg, Step(cfg, w, TxStake(user, amount)), TxWait(user, wait));
  }

  // ---- Transfers and airdrops

  /** A transfer succeeds if its giver has the amount and its taker is an account, and moves it. */
  lemma TransferPays(t: Token, from: Address, to: Address, amount: int)
    ensures var r := Transfer(t, from, to, amount);
            && (r.Some? <==> to != ZERO_ADDRESS && At(t.balances, from) >= amount)
            && (r.Some? ==>
                  && r.value == t.(balances := r.value.balances)
                  && forall a ::
                       At(r.value.balances, a)
                         == At(t.balances, a) - (if a == from then amount else 0) + (if a == to then amount else 0))
  {
  }

  /** What the first `n` entries of an airdrop give to the account. */
  function Given(recipients: seq<Address>, amounts: seq<int>, n: nat, a: Address): int
    requires |recipients| == |amounts| && n <= |amounts|
  {
    if n == 0 then 0 else Given(recipients, amounts, n - 1, a) + if recipients[n - 1] == a then amounts[n - 1] else 0
  }

  function TotalOf(amounts: seq<int>, n: nat): int
    requires n <= |amounts|
  {
    if n == 0 then 0 else TotalOf(amounts, n - 1) + amounts[n - 1]
  }

  lemma {:induction false} MintAllGives(t: Token, recipients: seq<Address>, amounts: seq<int>, n: nat, a: Address)
    requires |recipients| == |amounts| && n <= |amounts|
    ensures var r := MintAll(t, recipients, amounts, n);
            && At(r.balances, a) == At(t.balances, a) + Given(recipients, amounts, n, a)
            && r.supply == t.supply + TotalOf(amounts, n)
            && r.staked == t.staked && r.stamps == t.stamps && r.totalStaked == t.totalStaked
  {
    if n > 0 {
      MintAllGives(t, recipients, amounts, n - 1, a);
    }
  }

  /** The owner's airdrop within the maximum of 100 million tokens gives every account all its entries, and no other. */
  lemma AirdropPays(cfg: Config, t: Token, caller: Address, recipients: seq<Address>, amounts: seq<int>)
    ensures var r := Airdrop(cfg, t, caller, recipients, amounts);
            && (r.Some? <==>
                  && caller == cfg.owner && |recipients| == |amounts|
                  && (forall i :: 0 <= i < |recipients| ==> recipients[i] != ZERO_ADDRESS)
                  && t.supply + TotalOf(amounts, |amounts|) <= 100_000_000 * 1_000_000_000_000_000_000)
            && (r.Some? ==>
                  && r.value.supply == t.supply + TotalOf(amounts, |amounts|)
                  && r.value.staked == t.staked && r.value.stamps == t.stamps && r.value.totalStaked == t.totalStaked
                  && forall a ::
                       At(r.value.balances, a) == At(t.balances, a) + Given(recipients, amounts, |amounts|, a))
  {
    if |recipients| == |amounts| {
      forall a
        ensures var r := MintAll(t, recipients, amounts, |amounts|);
                && At(r.balances, a) == At(t.balances, a) + Given(recipients, amounts, |amounts|, a)
                && r.supply == t.supply + TotalOf(amounts, |amounts|)
                && r.staked == t.staked && r.stamps == t.stamps && r.totalStaked == t.totalStaked
      {
        MintAllGives(t, recipients, amounts, |amounts|, a);
      }
      assert At(MintAll(t, recipients, amounts, |amounts|).balances, ZERO_ADDRESS)
          == At(t.balances, ZERO_ADDRESS) + Given(recipients, amounts, |amounts|, ZERO_ADDRESS);
    }
    hide MintAll, Given, TotalOf;
  }
}
