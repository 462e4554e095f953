/** Checked zk gas accounting for one metered block (crates/evm/src/zk_gas/meter.rs). */
module ZkGasMeter {
  import opened Words

  type Address = nat

  datatype SpawnEstimates = SpawnEstimates(
    call: u64, callcode: u64, delegatecall: u64, staticcall: u64, create: u64, create2: u64)

  datatype Schedule = Schedule(
    blockLimit: u64,
    txIntrinsic: u64,
    opcodeMultipliers: u8 -> u16,
    precompileMultipliers: seq<(Address, u16)>,
    spawnEstimates: SpawnEstimates)

  const FAILSAFE_MULTIPLIER: u16 := 0xFFFF

  // The two constants of the Unzen schedule that bound a block.
  const BLOCK_ZK_GAS_LIMIT: u64 := 100_000_000
  const TX_INTRINSIC_ZK_GAS: u64 := 243_000

  predicate IsSpawnOpcode(opcode: u8) {
    opcode in {0xf0, 0xf1, 0xf2, 0xf4, 0xf5, 0xfa}
  }

  function SpawnEstimate(e: SpawnEstimates, opcode: u8): u64
    requires IsSpawnOpcode(opcode)
  {
    match opcode
    case 0xf1 => e.call
    case 0xf2 => e.callcode
    case 0xf4 => e.delegatecall
    case 0xfa => e.staticcall
    case 0xf0 => e.create
    case _ => e.create2
  }

  function PrecompileMultiplier(table: seq<(Address, u16)>, address: Address): u16 {
    if table == [] then FAILSAFE_MULTIPLIER
    else if table[0].0 == address then table[0].1
    else PrecompileMultiplier(table[1..], address)
  }

  /** One metered piece of work. */
  datatype Charge =
    | Opcode(opcode: u8, rawGas: u64)
    | Spawn(opcode: u8)
    | Precompile(address: Address, gasUsed: u64)
  {
    predicate WellFormed() {
      Spawn? ==> IsSpawnOpcode(opcode)
    }

    /** The exact zk gas of this work, with no machine width. */
    function Amount(s: Schedule): nat
      requires WellFormed()
    {
      match this
      case Opcode(op, raw) => raw * s.opcodeMultipliers(op)
      case Spawn(op) => SpawnEstimate(s.spawnEstimates, op) * s.opcodeMultipliers(op)
      case Precompile(a, gas) => gas * PrecompileMultiplier(s.precompileMultipliers, a)
    }
  }

  predicate WellFormed(charges: seq<Charge>) {
    forall i :: 0 <= i < |charges| ==> charges[i].WellFormed()
  }

  /** The exact zk gas of each charge. */
  function Amounts(s: Schedule, charges: seq<Charge>): seq<nat>
    requires WellFormed(charges)
  {
    seq(|charges|, i requires 0 <= i < |charges| => charges[i].Amount(s))
  }

  class Meter {
    const schedule: Schedule
    var blockUsed: u64
    var txUsed: u64
    var remaining: u64

    /** Finalized, in-flight and remaining zk gas add up to the block limit. */
    ghost predicate Balanced()
      reads this
    {
      blockUsed + txUsed + remaining == schedule.blockLimit
    }

    constructor (s: Schedule)
      ensures schedule == s && Balanced() && blockUsed == 0 && txUsed == 0
    {
      schedule := s;
      blockUsed, txUsed, remaining := 0, 0, s.blockLimit;
    }

    method ResetTransaction()
      modifies this
      ensures blockUsed == old(blockUsed) && txUsed == 0
      ensures blockUsed <= schedule.blockLimit ==> Balanced()
    {
      txUsed := 0;
      remaining := SaturatingSub(schedule.blockLimit, blockUsed);
    }

    method CommitTransaction() returns (ok: bool)
      modifies this
      ensures ok == old(blockUsed + txUsed <= schedule.blockLimit)
      ensures ok ==> blockUsed == old(blockUsed + txUsed) && txUsed == 0
      ensures !ok ==> blockUsed == old(blockUsed) && txUsed == old(txUsed)
      ensures remaining == old(remaining)
      ensures old(Balanced()) ==> ok && Balanced()
    {
      var next := CheckedAdd(blockUsed, txUsed);
      if next.None? || next.value > schedule.blockLimit {
        return false;
      }
      blockUsed, txUsed := next.value, 0;
      ok := true;
    }

    /** True exactly when `CommitTransaction` would fail. */
    function CommitWouldExceedBlockLimit(): (exceeds: bool)
      reads this
      ensures exceeds == !(blockUsed + txUsed <= schedule.blockLimit)
      ensures Balanced() ==> !exceeds
    {
      match CheckedAdd(blockUsed, txUsed)
      case Some(next) => next > schedule.blockLimit
      case None => true
    }

    function CanFitTxIntrinsic(): (fits: bool)
      reads this
      ensures blockUsed <= schedule.blockLimit ==>
        fits == (blockUsed + schedule.txIntrinsic <= schedule.blockLimit)
    {
      SaturatingSub(schedule.blockLimit, blockUsed) >= schedule.txIntrinsic
    }

    method ReserveBlockBudget(amount: u64) returns (ok: bool)
      modifies this
      ensures ok == old(blockUsed + amount <= schedule.blockLimit && amount <= remaining)
      ensures txUsed == old(txUsed)
      ensures blockUsed == old(blockUsed) + (if ok then amount else 0)
      ensures remaining == old(remaining) - (if ok then amount else 0)
      ensures old(Balanced()) ==> Balanced() && ok == (amount <= old(remaining))
    {
      var next := CheckedAdd(blockUsed, amount);
      if next.None? || next.value > schedule.blockLimit || amount > remaining {
        return false;
      }
      blockUsed := next.value;
      remaining := remaining - amount;
      ok := true;
    }

    method ChargeAmount(charge: u64) returns (ok: bool)
      modifies this
      ensures blockUsed == old(blockUsed)
      ensures ok == old(charge <= remaining && txUsed + charge <= U64_MAX)
      ensures txUsed == old(txUsed) + (if ok then charge else 0)
      ensures remaining == old(remaining) - (if ok then charge else 0)
    {
      if charge > remaining {
        return false;
      }
      var next := CheckedAdd(txUsed, charge);
      if next.None? {
        return false;
      }
      txUsed := next.value;
      remaining := remaining - charge;
      ok := true;
    }

    method ChargeProduct(gas: u64, multiplier: u16) returns (ok: bool)
      modifies this
      ensures blockUsed == old(blockUsed)
      ensures ok == old(gas * multiplier <= remaining && txUsed + gas * multiplier <= U64_MAX)
      ensures txUsed == old(txUsed) + (if ok then gas * multiplier else 0)
      ensures remaining == old(remaining) - (if ok then gas * multiplier else 0)
    {
      var product := CheckedMul(gas, multiplier);
      if product.None? {
        return false;
      }
      ok := ChargeAmount(product.value);
    }

    /** Charges `c`. A balanced meter refuses it exactly when the unbounded amount exceeds what
        remains, and a refusal changes nothing. */
    method ChargeWork(c: Charge) returns (ok: bool)
      requires c.WellFormed()
      modifies this
      ensures blockUsed == old(blockUsed)
      ensures txUsed == old(txUsed) + (if ok then c.Amount(schedule) else 0)
      ensures remaining == old(remaining) - (if ok then c.Amount(schedule) else 0)
      ensures old(Balanced()) ==> Balanced() && ok == (c.Amount(schedule) <= old(remaining))
    {
      match c {
        case Opcode(op, raw) =>
          ok := ChargeProduct(raw, schedule.opcodeMultipliers(op));
        case Spawn(op) =>
          ok := ChargeProduct(SpawnEstimate(schedule.spawnEstimates, op), schedule.opcodeMultipliers(op));
        case Precompile(a, gas) =>
          ok := ChargeProduct(gas, PrecompileMultiplier(schedule.precompileMultipliers, a));
      }
    }

    method ChargeTxIntrinsic() returns (ok: bool)
      modifies this
      ensures blockUsed == old(blockUsed)
      ensures txUsed == old(txUsed) + (if ok then schedule.txIntrinsic else 0)
      ensures remaining == old(remaining) - (if ok then schedule.txIntrinsic else 0)
      ensures old(Balanced()) ==> Balanced() && ok == (schedule.txIntrinsic <= old(remaining))
    {
      ok := ChargeAmount(schedule.txIntrinsic);
    }

    /** Charges a whole run in order, stopping at the first refusal. The run goes through exactly
        when its exact total fits what remains, whatever the order and size of its parts. */
    method ChargeRun(charges: seq<Charge>) returns (ok: bool)
      requires WellFormed(charges)
      requires Balanced()
      modifies this
      ensures Balanced() && blockUsed == old(blockUsed)
      ensures ok == (Sum(Amounts(schedule, charges)) <= old(remaining))
      ensures ok ==> txUsed == old(txUsed) + Sum(Amounts(schedule, charges))
    {
      ghost var amounts := Amounts(schedule, charges);
      var i := 0;
      while i < |charges|
        invariant 0 <= i <= |charges|
        invariant Balanced() && blockUsed == old(blockUsed)
        invariant Sum(amounts[..i]) <= old(remaining)
        invariant txUsed == old(txUsed) + Sum(amounts[..i])
      {
        SumSnoc(amounts[..i], amounts[i]);
        assert amounts[..i] + [amounts[i]] == amounts[..i + 1];
        ok := ChargeWork(charges[i]);
        if !ok {
          SumAppend(amounts[..i + 1], amounts[i + 1..]);
          assert amounts[..i + 1] + amounts[i + 1..] == amounts;
          return false;
        }
        i := i + 1;
      }
      assert amounts[..i] == amounts;
      ok := true;
    }
  }
}
