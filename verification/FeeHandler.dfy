/** Fee movement around a transaction: deduct, reimburse and reward, with treasury sharing and the
    anchor exemption (crates/evm/src/handler.rs). */
module FeeHandler {
  import opened Words

  type Address = nat

  const U256_MAX: nat := 0xFFFF_FFFF_FFFF_FFFF_FFFF_FFFF_FFFF_FFFF_FFFF_FFFF_FFFF_FFFF_FFFF_FFFF_FFFF_FFFF

  datatype Tx = Tx(
    caller: Address, nonce: nat, to: Option<Address>, gasLimit: u64,
    maxFee: nat, priorityFee: Option<nat>, value: nat)
  {
    /** What one unit of gas costs at `basefee`; legacy transactions pay their gas price. */
    function EffectivePrice(basefee: u64): nat {
      if priorityFee.None? || maxFee <= basefee + priorityFee.value then maxFee
      else basefee + priorityFee.value
    }

    /** The tip above `basefee`, if the transaction covers it. */
    function EffectiveTip(basefee: u64): Option<nat> {
      if maxFee < basefee then None
      else if priorityFee.Some? && priorityFee.value < maxFee - basefee then Some(priorityFee.value)
      else Some(maxFee - basefee)
    }
  }

  datatype Block = Block(basefee: u64, beneficiary: Address, treasury: Address)

  /** The anchor context of a block; `fromSystemCall` tells the executor's own from a derived one. */
  datatype AnchorCtx = AnchorCtx(sharePctg: u64, caller: Address, nonce: nat, fromSystemCall: bool)

  /** Gas after execution: `limit` split into spent and remaining, part of the spent refunded. */
  datatype Gas = Gas(limit: u64, remaining: u64, refunded: u64) {
    predicate Valid() {
      remaining <= limit && refunded <= limit - remaining
    }

    function Spent(): nat
      requires Valid()
    {
      limit - remaining
    }

    /** Gas the caller ends up paying for. */
    function Net(): nat
      requires Valid()
    {
      Spent() - refunded
    }
  }

  datatype TxError = CallerWithCode | InvalidNonce | OverflowPayment | LackOfFundForMaxFee

  predicate IsAnchor(tx: Tx, block: Block, ctx: Option<AnchorCtx>) {
    ctx.Some? && ctx.value.caller == tx.caller && ctx.value.nonce == tx.nonce && tx.to == Some(block.treasury)
  }

  // ----- Balances -----

  type Balances = map<Address, nat>

  function BalanceOf(m: Balances, a: Address): nat {
    if a in m then m[a] else 0
  }

  ghost function Supply(m: Balances): nat
    decreases |m|
  {
    if m == map[] then 0
    else
      var a :| a in m;
      m[a] + Supply(m - {a})
  }

  lemma {:induction false} SupplyWithout(m: Balances, a: Address)
    requires a in m
    ensures Supply(m) == m[a] + Supply(m - {a})
    decreases |m|
  {
    var b :| b in m && Supply(m) == m[b] + Supply(m - {b});
    if b != a {
      SupplyWithout(m - {b}, a);
      SupplyWithout(m - {a}, b);
      assert m - {b} - {a} == m - {a} - {b};
    }
  }

  lemma SupplyOfUpdate(m: Balances, a: Address, v: nat)
    ensures Supply(m[a := v]) == Supply(m) - BalanceOf(m, a) + v
    ensures BalanceOf(m, a) <= Supply(m)
  {
    SupplyWithout(m[a := v], a);
    if a in m {
      SupplyWithout(m, a);
      assert m[a := v] - {a} == m - {a};
    } else {
      assert m[a := v] - {a} == m;
    }
  }

  /** `amount` more on `a`. */
  function Credit(m: Balances, a: Address, amount: nat): Balances {
    m[a := BalanceOf(m, a) + amount]
  }

  /** The sender can be charged: no payment overflows its word, and unless it is the anchor the
      balance covers the whole gas limit at the maximum fee plus the value. */
  predicate Payable(tx: Tx, block: Block, isAnchor: bool, balance: nat) {
    && (isAnchor || (
          && tx.gasLimit * tx.maxFee <= U128_MAX && tx.gasLimit * tx.maxFee + tx.value <= U256_MAX
          && tx.gasLimit * tx.maxFee + tx.value <= balance))
    && tx.gasLimit * tx.EffectivePrice(block.basefee) <= U128_MAX
    && tx.gasLimit * tx.EffectivePrice(block.basefee) + tx.value <= U256_MAX
  }

  /** The plain 128-bit product of the tip. */
  function Wrap128(n: nat): nat {
    n % (U128_MAX + 1)
  }

  function SaturatingMul128(a: nat, b: nat): nat {
    if a * b > U128_MAX then U128_MAX else a * b
  }

  class Journal {
    var balances: Balances
    var nonces: map<Address, nat>
    /** Accounts with code that is not a delegation. */
    var coded: set<Address>

    constructor (balances: Balances, nonces: map<Address, nat>, coded: set<Address>)
      ensures this.balances == balances && this.nonces == nonces && this.coded == coded
    {
      this.balances, this.nonces, this.coded := balances, nonces, coded;
    }

    /** The sender may send `tx` now: it has no code, the nonce is next, and it can be charged. */
    ghost predicate Accepts(tx: Tx, block: Block, ctx: Option<AnchorCtx>)
      reads this
    {
      && tx.caller !in coded && BalanceOf(nonces, tx.caller) == tx.nonce
      && Payable(tx, block, IsAnchor(tx, block, ctx), BalanceOf(balances, tx.caller))
    }

    /** Increments a balance; an increment past the word is dropped, so a supply within the word
        makes it exact. */
    method BalanceIncr(a: Address, amount: nat)
      modifies this`balances
      ensures Supply(old(balances)) + amount <= U256_MAX ==>
        && Supply(balances) == Supply(old(balances)) + amount
        && balances == Credit(old(balances), a, amount)
    {
      SupplyOfUpdate(balances, a, BalanceOf(balances, a) + amount);
      if BalanceOf(balances, a) + amount <= U256_MAX {
        balances := balances[a := BalanceOf(balances, a) + amount];
      }
    }

    /** Checks the sender and takes the effective gas payment up front; the anchor pays nothing. */
    method ValidateAndDeductCaller(tx: Tx, block: Block, ctx: Option<AnchorCtx>) returns (r: Result<(), TxError>)
      modifies this`balances, this`nonces
      ensures r.Ok? <==> old(Accepts(tx, block, ctx))
      ensures r.Err? ==> balances == old(balances)
      ensures r.Ok? ==> UpFront(tx, block) <= U128_MAX
      ensures r.Ok? && IsAnchor(tx, block, ctx) ==>
        && balances == old(balances)[tx.caller := BalanceOf(old(balances), tx.caller)]
        && Supply(balances) == Supply(old(balances))
      ensures r.Ok? && !IsAnchor(tx, block, ctx) ==>
        && UpFront(tx, block) <= BalanceOf(old(balances), tx.caller)
        && balances == Paid(old(balances), tx, block)
        && Supply(balances) == Supply(old(balances)) - UpFront(tx, block)
      ensures r.Ok? && tx.to.Some? ==> BalanceOf(nonces, tx.caller) == tx.nonce + 1
      ensures r.Err? && r.error == CallerWithCode <==> tx.caller in coded
      ensures r.Err? && r.error == InvalidNonce <==>
        tx.caller !in coded && BalanceOf(old(nonces), tx.caller) != tx.nonce
      ensures r.Ok? && !IsAnchor(tx, block, ctx) ==>
        tx.gasLimit * tx.maxFee + tx.value <= BalanceOf(old(balances), tx.caller)
    {
      var isAnchor := IsAnchor(tx, block, ctx);
      if tx.caller in coded {
        return Err(CallerWithCode);
      }
      if BalanceOf(nonces, tx.caller) != tx.nonce {
        return Err(InvalidNonce);
      }
      if tx.to.Some? {
        nonces := nonces[tx.caller := tx.nonce + 1];
      }
      var balance := BalanceOf(balances, tx.caller);
      var maxSpending := 0;
      if !isAnchor {
        if tx.gasLimit * tx.maxFee > U128_MAX || tx.gasLimit * tx.maxFee + tx.value > U256_MAX {
          return Err(OverflowPayment);
        }
        maxSpending := tx.gasLimit * tx.maxFee + tx.value;
      }
      if maxSpending > balance {
        return Err(LackOfFundForMaxFee);
      }
      var gasFee := tx.gasLimit * tx.EffectivePrice(block.basefee);
      if gasFee > U128_MAX || gasFee + tx.value > U256_MAX {
        return Err(OverflowPayment);
      }
      MulMono(tx.gasLimit, tx.EffectivePrice(block.basefee), tx.maxFee);
      var fee := if isAnchor then 0 else gasFee;
      SupplyOfUpdate(balances, tx.caller, balance - fee);
      balances := balances[tx.caller := SaturatingSub(balance, fee)];
      r := Ok(());
    }

    /** Returns the price of the gas that was not used; the anchor paid nothing and gets nothing. */
    method ReimburseCaller(tx: Tx, block: Block, gas: Gas, ctx: Option<AnchorCtx>)
      requires gas.Valid()
      modifies this`balances
      ensures IsAnchor(tx, block, ctx) ==> balances == old(balances)
      ensures var back := tx.EffectivePrice(block.basefee) * (gas.remaining + gas.refunded);
        !IsAnchor(tx, block, ctx) && back <= U128_MAX && Supply(old(balances)) + back <= U256_MAX ==>
          Supply(balances) == Supply(old(balances)) + back && balances == Credit(old(balances), tx.caller, back)
    {
      if IsAnchor(tx, block, ctx) {
        return;
      }
      BalanceIncr(tx.caller,
        SaturatingMul128(tx.EffectivePrice(block.basefee), gas.remaining + gas.refunded));
    }

    /** Splits a base fee between beneficiary and treasury. */
    method ShareBasefee(block: Block, total: nat, sharePctg: u64)
      modifies this`balances
      ensures Supply(old(balances)) + Shared(total, sharePctg) <= U256_MAX ==>
        && Supply(balances) == Supply(old(balances)) + Shared(total, sharePctg)
        && balances == Split(old(balances), block, total, sharePctg)
      ensures Shared(total, sharePctg) == 0 && Supply(old(balances)) <= U256_MAX ==>
        forall a :: BalanceOf(balances, a) == BalanceOf(old(balances), a)
    {
      var toCoinbase := total * sharePctg / 100;
      BalanceIncr(block.beneficiary, toCoinbase);
      BalanceIncr(block.treasury, SaturatingSub(total, toCoinbase));
    }

    /** Pays the tip to the beneficiary. */
    method PayTip(tx: Tx, block: Block, gas: Gas)
      requires gas.Valid()
      modifies this`balances
      ensures TipFits(tx, block, gas) && Supply(old(balances)) + Tip(tx, block, gas) <= U256_MAX ==>
        && Supply(balances) == Supply(old(balances)) + Tip(tx, block, gas)
        && balances == Credit(old(balances), block.beneficiary, Tip(tx, block, gas))
      ensures Tip(tx, block, gas) == 0 && Supply(old(balances)) <= U256_MAX ==>
        Supply(balances) == Supply(old(balances)) && forall a :: BalanceOf(balances, a) == BalanceOf(old(balances), a)
    {
      var net := SaturatingSub(gas.Spent(), gas.refunded);
      var tip := SaturatingSub(tx.EffectivePrice(block.basefee), block.basefee) * net;
      assert tip == Tip(tx, block, gas);
      KeepsFitting(tip);
      BalanceIncr(block.beneficiary, Wrap128(tip));
    }

    /** Under the executor's own context, shares the base fee of a non-anchor transaction. */
    method ShareInBlock(tx: Tx, block: Block, gas: Gas, ctx: Option<AnchorCtx>)
      requires gas.Valid()
      modifies this`balances
      ensures Supply(old(balances)) + Share(tx, block, gas, ctx) <= U256_MAX ==>
        && Supply(balances) == Supply(old(balances)) + Share(tx, block, gas, ctx)
        && balances == AfterShare(old(balances), tx, block, gas, ctx)
      ensures Share(tx, block, gas, ctx) == 0 && Supply(old(balances)) <= U256_MAX ==>
        forall a :: BalanceOf(balances, a) == BalanceOf(old(balances), a)
    {
      if ctx.Some? && !IsAnchor(tx, block, ctx) && ctx.value.fromSystemCall {
        var net := SaturatingSub(gas.Spent(), gas.refunded);
        var total := SaturatingMul128(block.basefee, net);
        assert total == block.basefee * gas.Net() by { BasefeeFits(block.basefee, net); }
        ShareBasefee(block, total, ctx.value.sharePctg);
      }
    }

    /** Pays the tip to the beneficiary and, under the executor's own context, shares the base fee
        of a non-anchor transaction. */
    method RewardBeneficiary(tx: Tx, block: Block, gas: Gas, ctx: Option<AnchorCtx>)
      requires gas.Valid()
      modifies this`balances
      ensures TipFits(tx, block, gas) && Supply(old(balances)) + Reward(tx, block, gas, ctx) <= U256_MAX ==>
        && Supply(balances) == Supply(old(balances)) + Reward(tx, block, gas, ctx)
        && balances == Rewarded(old(balances), tx, block, gas, ctx)
      ensures Reward(tx, block, gas, ctx) == 0 && Supply(old(balances)) <= U256_MAX ==>
        forall a :: BalanceOf(balances, a) == BalanceOf(old(balances), a)
    {
      PayTip(tx, block, gas);
      ShareInBlock(tx, block, gas, ctx);
    }
  }

  lemma KeepsFitting(n: nat)
    ensures n <= U128_MAX ==> Wrap128(n) == n
  {
  }

  lemma BasefeeFits(a: u64, b: nat)
    requires b <= U64_MAX
    ensures a * b <= U128_MAX
  {
    MulMono(a, b, U64_MAX);
    MulMono(U64_MAX, a, U64_MAX);
  }

  /** What the coinbase and the treasury get of a shared base fee. */
  function Shared(total: nat, pctg: nat): nat {
    var toCoinbase := total * pctg / 100;
    toCoinbase + SaturatingSub(total, toCoinbase)
  }

  /** The beneficiary gets its percentage, rounded down, and the treasury the rest. */
  function Split(m: Balances, block: Block, total: nat, pctg: nat): Balances {
    var toCoinbase := total * pctg / 100;
    Credit(Credit(m, block.beneficiary, toCoinbase), block.treasury, SaturatingSub(total, toCoinbase))
  }

  /** Whether the base fee of this transaction is shared out. */
  predicate Shares(tx: Tx, block: Block, ctx: Option<AnchorCtx>) {
    ctx.Some? && !IsAnchor(tx, block, ctx) && ctx.value.fromSystemCall
  }

  /** The tip for the net gas. */
  function Tip(tx: Tx, block: Block, gas: Gas): nat
    requires gas.Valid()
  {
    SaturatingSub(tx.EffectivePrice(block.basefee), block.basefee) * gas.Net()
  }

  /** What is paid out of the base fee. */
  function Share(tx: Tx, block: Block, gas: Gas, ctx: Option<AnchorCtx>): nat
    requires gas.Valid()
  {
    if Shares(tx, block, ctx) then Shared(block.basefee * gas.Net(), ctx.value.sharePctg) else 0
  }

  function AfterShare(m: Balances, tx: Tx, block: Block, gas: Gas, ctx: Option<AnchorCtx>): Balances
    requires gas.Valid()
  {
    if Shares(tx, block, ctx) then Split(m, block, block.basefee * gas.Net(), ctx.value.sharePctg) else m
  }

  /** Balances after the tip goes to the beneficiary and the base fee, if shared, to both. */
  function Rewarded(m: Balances, tx: Tx, block: Block, gas: Gas, ctx: Option<AnchorCtx>): Balances
    requires gas.Valid()
  {
    AfterShare(Credit(m, block.beneficiary, Tip(tx, block, gas)), tx, block, gas, ctx)
  }

  /** The tip for the net gas fits 128 bits. */
  predicate TipFits(tx: Tx, block: Block, gas: Gas)
    requires gas.Valid()
  {
    Tip(tx, block, gas) <= U128_MAX
  }

  /** A payable transaction's tip always fits. */
  lemma PayableTipFits(tx: Tx, block: Block, gas: Gas)
    requires gas.Valid() && gas.limit * tx.EffectivePrice(block.basefee) <= U128_MAX
    ensures TipFits(tx, block, gas)
  {
    var price, tip := tx.EffectivePrice(block.basefee), SaturatingSub(tx.EffectivePrice(block.basefee), block.basefee);
    MulMono(tip, gas.Net(), gas.limit);
    MulMono(gas.limit, tip, price);
  }

  /** Everything `RewardBeneficiary` pays out. */
  function Reward(tx: Tx, block: Block, gas: Gas, ctx: Option<AnchorCtx>): nat
    requires gas.Valid()
  {
    Tip(tx, block, gas) + Share(tx, block, gas, ctx)
  }

  // ----- A whole transaction -----

  lemma ShareConserves(total: nat, pctg: nat)
    ensures pctg <= 100 ==> Shared(total, pctg) == total
    ensures Shared(total, pctg) >= total
  {
    if pctg <= 100 {
      MulMono(total, pctg, 100);
    }
  }

  /** The fee a caller pays for `net` gas at `price` against what is paid out of it. */
  lemma PaidOutIffPriceCoversBasefee(price: nat, basefee: nat, net: nat)
    ensures SaturatingSub(price, basefee) * net + basefee * net >= price * net
    ensures SaturatingSub(price, basefee) * net + basefee * net == price * net <==> price >= basefee || net == 0
  {
    if price >= basefee {
      assert price * net == (price - basefee) * net + basefee * net;
    } else {
      assert basefee * net == price * net + (basefee - price) * net;
    }
  }

  /** What the caller is paid back, and what is kept of the fee. */
  function Back(tx: Tx, block: Block, gas: Gas): nat {
    tx.EffectivePrice(block.basefee) * (gas.remaining + gas.refunded)
  }

  function Kept(tx: Tx, block: Block, gas: Gas): nat
    requires gas.Valid()
  {
    tx.EffectivePrice(block.basefee) * gas.Net()
  }

  lemma FeeSplits(tx: Tx, block: Block, gas: Gas)
    requires gas.Valid()
    ensures gas.limit == tx.gasLimit ==> UpFront(tx, block) == Back(tx, block, gas) + Kept(tx, block, gas)
  {
    assert gas.limit == gas.remaining + gas.refunded + gas.Net();
  }

  /** The price of the whole gas limit. */
  function UpFront(tx: Tx, block: Block): nat {
    tx.gasLimit * tx.EffectivePrice(block.basefee)
  }

  /** Balances once the whole gas limit is paid for up front. */
  function Paid(m: Balances, tx: Tx, block: Block): Balances {
    m[tx.caller := SaturatingSub(BalanceOf(m, tx.caller), UpFront(tx, block))]
  }

  method ReimburseAndReward(journal: Journal, tx: Tx, block: Block, ctx: Option<AnchorCtx>, gas: Gas,
                            ghost back: nat, ghost reward: nat)
    requires gas.Valid() && !IsAnchor(tx, block, ctx)
    requires back == Back(tx, block, gas) <= U128_MAX && reward == Reward(tx, block, gas, ctx) &&
      TipFits(tx, block, gas)
    requires Supply(journal.balances) + back + reward <= U256_MAX
    modifies journal`balances
    ensures Supply(journal.balances) == Supply(old(journal.balances)) + back + reward
    ensures journal.balances == Rewarded(Credit(old(journal.balances), tx.caller, back), tx, block, gas, ctx)
  {
    journal.ReimburseCaller(tx, block, gas, ctx);
    journal.RewardBeneficiary(tx, block, gas, ctx);
  }

  /** Deducts, executes, reimburses and rewards. `execute` is what the EVM does to the balances in
      between; it moves value but neither creates nor destroys any.

      The supply afterwards is exactly the supply before, less the fee for the net gas, plus what is
      paid out of it. */
  method Settle(journal: Journal, tx: Tx, block: Block, ctx: Option<AnchorCtx>, gas: Gas, execute: Balances -> Balances)
    returns (r: Result<(), TxError>)
    requires gas.Valid() && gas.limit == tx.gasLimit
    requires forall m :: Supply(execute(m)) == Supply(m)
    requires Supply(journal.balances) + Reward(tx, block, gas, ctx) <= U256_MAX
    modifies journal
    ensures r.Ok? <==> old(journal.Accepts(tx, block, ctx))
    ensures r.Err? ==> journal.balances == old(journal.balances)
    ensures r.Ok? && !IsAnchor(tx, block, ctx) ==>
      && Supply(journal.balances) == Supply(old(journal.balances)) - Kept(tx, block, gas) + Reward(tx, block, gas, ctx)
      && UpFront(tx, block) <= BalanceOf(old(journal.balances), tx.caller)
      && journal.balances ==
           Rewarded(Credit(execute(Paid(old(journal.balances), tx, block)), tx.caller, Back(tx, block, gas)),
                    tx, block, gas, ctx)
  {
    r := journal.ValidateAndDeductCaller(tx, block, ctx);
    if r.Ok? {
      if IsAnchor(tx, block, ctx) {
        journal.balances := execute(journal.balances);
        journal.ReimburseCaller(tx, block, gas, ctx);
        journal.RewardBeneficiary(tx, block, gas, ctx);
      } else {
        ExecuteAndPay(journal, tx, block, ctx, gas, execute, old(journal.balances));
      }
    }
  }

  /** Executes a transaction whose whole gas limit is paid for, then reimburses and rewards. */
  method ExecuteAndPay(journal: Journal, tx: Tx, block: Block, ctx: Option<AnchorCtx>, gas: Gas,
                       execute: Balances -> Balances, ghost before: Balances)
    requires gas.Valid() && gas.limit == tx.gasLimit && !IsAnchor(tx, block, ctx) && UpFront(tx, block) <= U128_MAX
    requires journal.balances == Paid(before, tx, block)
    requires Supply(journal.balances) == Supply(before) - UpFront(tx, block)
    requires Supply(execute(journal.balances)) == Supply(journal.balances)
    requires Supply(before) + Reward(tx, block, gas, ctx) <= U256_MAX
    modifies journal`balances
    ensures Supply(journal.balances) == Supply(before) - Kept(tx, block, gas) + Reward(tx, block, gas, ctx)
    ensures journal.balances ==
      Rewarded(Credit(execute(Paid(before, tx, block)), tx.caller, Back(tx, block, gas)), tx, block, gas, ctx)
  {
    FeeSplits(tx, block, gas);
    PayableTipFits(tx, block, gas);
    journal.balances := execute(journal.balances);
    ReimburseAndReward(journal, tx, block, ctx, gas, Back(tx, block, gas), Reward(tx, block, gas, ctx));
  }

  /** The executor's own context with a share of at most 100 percent, around a non-anchor transaction. */
  predicate InBlock(tx: Tx, block: Block, ctx: Option<AnchorCtx>) {
    ctx.Some? && ctx.value.fromSystemCall && ctx.value.sharePctg <= 100 && !IsAnchor(tx, block, ctx)
  }

  /** In a block, a transaction that goes through leaves the sum of all balances unchanged exactly when
      its price covers the base fee or it used no net gas, whoever caller, beneficiary and treasury are. */
  method SettleInBlock(journal: Journal, tx: Tx, block: Block, ctx: Option<AnchorCtx>, gas: Gas,
                       execute: Balances -> Balances)
    returns (r: Result<(), TxError>)
    requires gas.Valid() && gas.limit == tx.gasLimit && InBlock(tx, block, ctx)
    requires forall m :: Supply(execute(m)) == Supply(m)
    requires Supply(journal.balances) + Reward(tx, block, gas, ctx) <= U256_MAX
    modifies journal
    ensures r.Ok? <==> old(journal.Accepts(tx, block, ctx))
    ensures r.Err? ==> journal.balances == old(journal.balances)
    ensures r.Ok? ==>
      (Supply(journal.balances) == Supply(old(journal.balances)) <==>
        tx.EffectivePrice(block.basefee) >= block.basefee || gas.Net() == 0)
  {
    r := Settle(journal, tx, block, ctx, gas, execute);
    FeesConservedIff(tx, block, gas, ctx.value, Reward(tx, block, gas, ctx));
  }

  /** A transaction whose fee cap covers the base fee, as environment validation demands before any of
      this runs, pays a price that covers it. */
  lemma CapCoversBasefee(tx: Tx, basefee: u64)
    ensures tx.maxFee >= basefee <==> tx.EffectivePrice(basefee) >= basefee
  {
  }

  /** 10 gas, all of it used, at fee cap 1. */
  function UncoveredTx(caller: Address): Tx {
    Tx(caller, 0, None, 10, 1, None, 0)
  }

  lemma UncoveredIsPayable(caller: Address, block: Block, balance: nat)
    requires block.basefee == 2 && balance >= 10
    ensures UncoveredTx(caller).EffectivePrice(block.basefee) == 1
    ensures Payable(UncoveredTx(caller), block, false, balance)
  {
  }

  lemma UncoveredReward(tx: Tx, block: Block, gas: Gas, ctx: AnchorCtx, reward: nat)
    requires gas.Valid() && !IsAnchor(tx, block, Some(ctx)) && ctx.fromSystemCall && ctx.sharePctg <= 100
    requires block.basefee == 2 && tx.EffectivePrice(2) == 1 && gas.Net() == 10
    requires reward == Reward(tx, block, gas, Some(ctx))
    ensures reward == 20 && Kept(tx, block, gas) == 10
  {
    RewardPaysBasefee(tx, block, gas, ctx);
  }

  /** Where that validation is off: a caller at fee cap 1 pays 10 for 10 gas at base fee 2 while 20 is
      paid out, so the transaction goes through and the sum of balances grows by 10. */
  method UncoveredPriceMints(journal: Journal, caller: Address, block: Block, gas: Gas, ctx: AnchorCtx)
    returns (r: Result<(), TxError>)
    requires caller !in journal.coded && BalanceOf(journal.nonces, caller) == 0
    requires BalanceOf(journal.balances, caller) >= 10 && Supply(journal.balances) <= U256_MAX - 20
    requires block.basefee == 2 && gas == Gas(10, 0, 0)
    requires ctx.fromSystemCall && ctx.sharePctg <= 100 && ctx.caller != caller
    modifies journal
    ensures r.Ok? && Supply(journal.balances) == old(Supply(journal.balances)) + 10
  {
    var tx := UncoveredTx(caller);
    UncoveredIsPayable(caller, block, BalanceOf(journal.balances, caller));
    UncoveredReward(tx, block, gas, ctx, Reward(tx, block, gas, Some(ctx)));
    r := Settle(journal, tx, block, Some(ctx), gas, (m: Balances) => m);
  }

  /** A share of at most 100 percent pays out the whole base fee on top of the tips. */
  lemma RewardPaysBasefee(tx: Tx, block: Block, gas: Gas, ctx: AnchorCtx)
    requires gas.Valid() && !IsAnchor(tx, block, Some(ctx)) && ctx.fromSystemCall && ctx.sharePctg <= 100
    ensures Reward(tx, block, gas, Some(ctx)) ==
      SaturatingSub(tx.EffectivePrice(block.basefee), block.basefee) * gas.Net() + block.basefee * gas.Net()
  {
    ShareConserves(block.basefee * gas.Net(), ctx.sharePctg);
  }

  /** Under the executor's context with a share of at most 100 percent, a non-anchor transaction's
      fees are conserved exactly when its price covers the base fee, or no net gas was used. */
  lemma FeesConservedIff(tx: Tx, block: Block, gas: Gas, ctx: AnchorCtx, reward: nat)
    requires gas.Valid() && !IsAnchor(tx, block, Some(ctx)) && ctx.fromSystemCall && ctx.sharePctg <= 100
    requires reward == Reward(tx, block, gas, Some(ctx))
    ensures Kept(tx, block, gas) == reward <==>
      tx.EffectivePrice(block.basefee) >= block.basefee || gas.Net() == 0
  {
    RewardPaysBasefee(tx, block, gas, ctx);
    KeptIffCovered(tx.EffectivePrice(block.basefee), block.basefee, gas.Net(), reward);
  }

  lemma KeptIffCovered(price: nat, basefee: nat, net: nat, reward: nat)
    requires reward == SaturatingSub(price, basefee) * net + basefee * net
    ensures price * net == reward <==> price >= basefee || net == 0
  {
    PaidOutIffPriceCoversBasefee(price, basefee, net);
  }

  /** Without the executor's own context the base fee of a covered transaction is burnt. */
  lemma BasefeeBurntOutsideBlocks(tx: Tx, block: Block, gas: Gas, ctx: Option<AnchorCtx>)
    requires gas.Valid() && (ctx.None? || !ctx.value.fromSystemCall)
    requires tx.EffectivePrice(block.basefee) >= block.basefee
    ensures Kept(tx, block, gas) == Reward(tx, block, gas, ctx) + block.basefee * gas.Net()
  {
    PaidOutIffPriceCoversBasefee(tx.EffectivePrice(block.basefee), block.basefee, gas.Net());
  }

  /** A zero tip means the effective price is the base fee. */
  lemma ZeroTipPaysBasefee(tx: Tx, basefee: u64)
    requires tx.EffectiveTip(basefee) == Some(0)
    ensures tx.EffectivePrice(basefee) == basefee
  {}

  /** A validated zero-tip anchor moves no fee: around its execution every balance stays put. */
  method SettleAnchor(journal: Journal, tx: Tx, block: Block, ctx: AnchorCtx, gas: Gas, execute: Balances -> Balances)
    returns (r: Result<(), TxError>, ghost before: Balances)
    requires gas.Valid() && gas.limit == tx.gasLimit && IsAnchor(tx, block, Some(ctx))
    requires tx.EffectiveTip(block.basefee) == Some(0)
    requires forall m :: Supply(execute(m)) == Supply(m)
    requires Supply(journal.balances) <= U256_MAX
    modifies journal
    ensures r.Ok? <==> old(journal.Accepts(tx, block, Some(ctx)))
    ensures r.Ok? ==>
      && (forall a :: BalanceOf(before, a) == BalanceOf(old(journal.balances), a))
      && (forall a :: BalanceOf(journal.balances, a) == BalanceOf(execute(before), a))
  {
    r := journal.ValidateAndDeductCaller(tx, block, Some(ctx));
    before := journal.balances;
    if r.Ok? {
      ZeroTipPaysBasefee(tx, block.basefee);
      PayableTipFits(tx, block, gas);
      journal.balances := execute(journal.balances);
      journal.ReimburseCaller(tx, block, gas, Some(ctx));
      journal.RewardBeneficiary(tx, block, gas, Some(ctx));
    }
  }
}
