/** The EIP-4396 base fee (crates/consensus/src/eip4396.rs), with its 64-bit products and casts
    written out. */
module BaseFee {
  import opened Words

  const SHASTA_INITIAL_BASE_FEE: u64 := 25_000_000
  const BASE_FEE_MAX_CHANGE_DENOMINATOR: nat := 8
  const MAX_GAS_TARGET_PERCENT: nat := 95
  const ELASTICITY_MULTIPLIER: nat := 2
  const BLOCK_TIME_TARGET: nat := 2
  const MIN_BASE_FEE: u64 := 5_000_000
  const MAINNET_MIN_BASE_FEE: u64 := 10_000_000
  const MAX_BASE_FEE: u64 := 1_000_000_000

  function Min(a: nat, b: nat): nat {
    if a < b then a else b
  }

  function GasTarget(gasLimit: u64): u64 {
    gasLimit / ELASTICITY_MULTIPLIER
  }

  function AdjustedTarget(gasLimit: u64, blockTime: u64): u64 {
    Min(Wrap64(GasTarget(gasLimit) * blockTime) / BLOCK_TIME_TARGET,
        Wrap64(gasLimit * MAX_GAS_TARGET_PERCENT) / 100)
  }

  /** The adjusted target without machine width. */
  function ExactTarget(gasLimit: nat, blockTime: nat): nat {
    Min(gasLimit / ELASTICITY_MULTIPLIER * blockTime / BLOCK_TIME_TARGET, gasLimit * MAX_GAS_TARGET_PERCENT / 100)
  }

  function Clamp(fee: u64, min: u64): u64
    requires min <= MAX_BASE_FEE
  {
    if fee < min then min else if fee > MAX_BASE_FEE then MAX_BASE_FEE else fee
  }

  /** The clamp without machine width. */
  function ClampExact(fee: int, min: nat): nat
    requires min <= MAX_BASE_FEE
  {
    if fee < min then min else if fee > MAX_BASE_FEE then MAX_BASE_FEE else fee
  }

  /** `fee * delta / target / 8` in 128 bits, which two 64-bit factors never overflow. */
  function FeeDelta(fee: nat, delta: nat, target: nat): nat
    requires target > 0
  {
    fee * delta / target / BASE_FEE_MAX_CHANGE_DENOMINATOR
  }

  /** The unclamped fee after a block that used `gasUsed` against an adjusted target. */
  function Moved(fee: u64, target: u64, gasUsed: u64, adjusted: u64): u64
    requires target > 0
  {
    if gasUsed == adjusted then fee
    else if gasUsed > adjusted then
      var delta := FeeDelta(fee, gasUsed - adjusted, target);
      SaturatingAdd(fee, Wrap64(if delta < 1 then 1 else delta))
    else
      SaturatingSub(fee, Wrap64(FeeDelta(fee, adjusted - gasUsed, target)))
  }

  /** The next block's base fee, or nothing when the computation divides by zero. */
  function NextBaseFee(number: u64, gasLimit: u64, gasUsed: u64, blockTime: u64, fee: u64, min: u64): Option<u64>
    requires min <= MAX_BASE_FEE
  {
    if number == 0 then Some(SHASTA_INITIAL_BASE_FEE)
    else
      var target, adjusted := GasTarget(gasLimit), AdjustedTarget(gasLimit, blockTime);
      if gasUsed == adjusted then Some(Clamp(fee, min))
      else if target == 0 then None
      else Some(Clamp(Moved(fee, target, gasUsed, adjusted), min))
  }

  // ----- The exact computation -----

  /** The 64-bit products do not wrap, and the parent header is sane. */
  predicate InRange(gasLimit: u64, gasUsed: u64, blockTime: u64) {
    && 2 <= gasLimit && gasUsed <= gasLimit
    && GasTarget(gasLimit) * blockTime <= U64_MAX
    && gasLimit * MAX_GAS_TARGET_PERCENT <= U64_MAX
  }

  /** How far the fee moves for gas usage `excess` above (or below) the adjusted target. */
  function Step(fee: nat, target: nat, excess: int): int
    requires target > 0
  {
    if excess == 0 then 0
    else if excess > 0 then
      var delta := FeeDelta(fee, excess, target);
      if delta < 1 then 1 else delta
    else 0 - FeeDelta(fee, -excess, target)
  }

  lemma DivAtMost(a: nat, b: nat, d: nat)
    requires d > 0 && a <= b * d
    ensures a / d <= b
  {
    if a / d >= b + 1 {
      MulMono(d, b + 1, a / d);
    }
  }

  lemma DivMono(a: nat, b: nat, d: nat)
    requires d > 0 && a <= b
    ensures a / d <= b / d
  {
    if a / d >= b / d + 1 {
      MulMono(d, b / d + 1, a / d);
    }
  }

  lemma FeeDeltaMono(fee: nat, a: nat, b: nat, target: nat)
    requires target > 0 && a <= b
    ensures FeeDelta(fee, a, target) <= FeeDelta(fee, b, target)
  {
    MulMono(fee, a, b);
    DivMono(fee * a, fee * b, target);
    DivMono(fee * a / target, fee * b / target, BASE_FEE_MAX_CHANGE_DENOMINATOR);
  }

  lemma FeeDeltaBound(fee: nat, delta: nat, target: nat)
    requires target > 0 && delta <= 3 * target
    ensures FeeDelta(fee, delta, target) <= 3 * fee / 8
  {
    MulMono(fee, delta, 3 * target);
    assert fee * (3 * target) == (3 * fee) * target;
    DivAtMost(fee * delta, 3 * fee, target);
    DivMono(fee * delta / target, 3 * fee, 8);
  }

  lemma TargetsInRange(gasLimit: u64, gasUsed: u64, blockTime: u64)
    requires InRange(gasLimit, gasUsed, blockTime)
    ensures 0 < GasTarget(gasLimit) && gasLimit <= 3 * GasTarget(gasLimit)
    ensures AdjustedTarget(gasLimit, blockTime) <= gasLimit
    ensures AdjustedTarget(gasLimit, blockTime) == ExactTarget(gasLimit, blockTime)
  {
    WrapFits(GasTarget(gasLimit) * blockTime);
    WrapFits(gasLimit * MAX_GAS_TARGET_PERCENT);
  }

  /** The fee moves by at most an eighth of three times itself, or by one. */
  lemma StepBound(fee: nat, target: nat, excess: int)
    requires target > 0 && -3 * target <= excess <= 3 * target
    ensures -(3 * fee / 8) <= Step(fee, target, excess)
    ensures Step(fee, target, excess) <= if 3 * fee / 8 < 1 then 1 else 3 * fee / 8
  {
    FeeDeltaBound(fee, if excess < 0 then -excess else excess, target);
  }

  lemma StepMono(fee: nat, target: nat, a: int, b: int)
    requires target > 0 && a <= b
    ensures Step(fee, target, a) <= Step(fee, target, b)
  {
    if 0 < a {
      FeeDeltaMono(fee, a, b, target);
    } else if b < 0 {
      FeeDeltaMono(fee, -b, -a, target);
    }
  }

  lemma MovedExact(fee: u64, target: u64, gasUsed: u64, adjusted: u64)
    requires target > 0 && gasUsed <= 3 * target && adjusted <= 3 * target
    ensures 0 <= fee + Step(fee, target, gasUsed - adjusted)
    ensures Moved(fee, target, gasUsed, adjusted) == Min(fee + Step(fee, target, gasUsed - adjusted), U64_MAX)
  {
    StepBound(fee, target, gasUsed - adjusted);
    if gasUsed > adjusted {
      var delta := FeeDelta(fee, gasUsed - adjusted, target);
      WrapFits(if delta < 1 then 1 else delta);
    } else if gasUsed < adjusted {
      WrapFits(FeeDelta(fee, adjusted - gasUsed, target));
    }
  }

  /** In range, no product, cast or saturation loses anything: the result is the exact sum of the fee
      and its step from the exact target, clamped. */
  lemma NextBaseFeeExact(number: u64, gasLimit: u64, gasUsed: u64, blockTime: u64, fee: u64, min: u64)
    requires number != 0 && min <= MAX_BASE_FEE && InRange(gasLimit, gasUsed, blockTime)
    ensures 0 < GasTarget(gasLimit)
    ensures NextBaseFee(number, gasLimit, gasUsed, blockTime, fee, min) ==
      Some(ClampExact(fee + Step(fee, gasLimit / 2, gasUsed - ExactTarget(gasLimit, blockTime)), min))
  {
    var target, adjusted := GasTarget(gasLimit), AdjustedTarget(gasLimit, blockTime);
    TargetsInRange(gasLimit, gasUsed, blockTime);
    MovedExact(fee, target, gasUsed, adjusted);
  }

  /** For every parent in range the fee moves by at most three eighths of itself, or by one. */
  lemma StepWithinThreeEighths(gasLimit: u64, gasUsed: u64, blockTime: u64, fee: u64)
    requires InRange(gasLimit, gasUsed, blockTime)
    ensures 0 < GasTarget(gasLimit)
    ensures var step := Step(fee, GasTarget(gasLimit), gasUsed - ExactTarget(gasLimit, blockTime));
      -(3 * fee / 8) <= step <= if 3 * fee / 8 < 1 then 1 else 3 * fee / 8
  {
    TargetsInRange(gasLimit, gasUsed, blockTime);
    StepBound(fee, GasTarget(gasLimit), gasUsed - ExactTarget(gasLimit, blockTime));
  }

  /** Using more gas never lowers the next base fee. */
  lemma NondecreasingInGasUsed(number: u64, gasLimit: u64, used: u64, used': u64, blockTime: u64, fee: u64, min: u64)
    requires number != 0 && min <= MAX_BASE_FEE && used <= used'
    requires InRange(gasLimit, used, blockTime) && InRange(gasLimit, used', blockTime)
    ensures var a, b := NextBaseFee(number, gasLimit, used, blockTime, fee, min),
                        NextBaseFee(number, gasLimit, used', blockTime, fee, min);
      a.Some? && b.Some? && a.value <= b.value
  {
    NextBaseFeeExact(number, gasLimit, used, blockTime, fee, min);
    NextBaseFeeExact(number, gasLimit, used', blockTime, fee, min);
    var target := ExactTarget(gasLimit, blockTime);
    StepMono(fee, GasTarget(gasLimit), used - target, used' - target);
  }

  lemma ExactTargetMono(gasLimit: u64, time: u64, time': u64)
    requires time <= time'
    ensures ExactTarget(gasLimit, time) <= ExactTarget(gasLimit, time')
  {
    MulMono(GasTarget(gasLimit), time, time');
    DivMono(GasTarget(gasLimit) * time, GasTarget(gasLimit) * time', BLOCK_TIME_TARGET);
  }

  /** A slower parent block never raises the next base fee. */
  lemma NonincreasingInBlockTime(number: u64, gasLimit: u64, used: u64, time: u64, time': u64, fee: u64, min: u64)
    requires number != 0 && min <= MAX_BASE_FEE && time <= time'
    requires InRange(gasLimit, used, time) && InRange(gasLimit, used, time')
    ensures var a, b := NextBaseFee(number, gasLimit, used, time, fee, min),
                        NextBaseFee(number, gasLimit, used, time', fee, min);
      a.Some? && b.Some? && a.value >= b.value
  {
    NextBaseFeeExact(number, gasLimit, used, time, fee, min);
    NextBaseFeeExact(number, gasLimit, used, time', fee, min);
    ExactTargetMono(gasLimit, time, time');
    StepMono(fee, GasTarget(gasLimit), used - ExactTarget(gasLimit, time'), used - ExactTarget(gasLimit, time));
  }

  /** Usage at the exact target keeps the fee, any excess raises it, and nothing else does. */
  lemma FeeFollowsUsage(number: u64, gasLimit: u64, gasUsed: u64, blockTime: u64, fee: u64, min: u64)
    requires number != 0 && min < fee < MAX_BASE_FEE && InRange(gasLimit, gasUsed, blockTime)
    ensures var next, target := NextBaseFee(number, gasLimit, gasUsed, blockTime, fee, min),
      ExactTarget(gasLimit, blockTime);
      next.Some? && (next.value > fee <==> gasUsed > target) && (gasUsed == target ==> next.value == fee)
  {
    NextBaseFeeExact(number, gasLimit, gasUsed, blockTime, fee, min);
  }

  /** The computation fails exactly for a used parent whose gas limit is below the elasticity. */
  lemma DividesByZeroIff(number: u64, gasLimit: u64, gasUsed: u64, blockTime: u64, fee: u64, min: u64)
    requires min <= MAX_BASE_FEE
    ensures NextBaseFee(number, gasLimit, gasUsed, blockTime, fee, min).None? <==>
      number != 0 && gasLimit < ELASTICITY_MULTIPLIER && gasUsed != 0
  {
    assert gasLimit < 2 ==> Wrap64(GasTarget(gasLimit) * blockTime) == 0;
  }

  /** Whatever the parent, a computed fee is the initial one or within the clamp. */
  lemma AlwaysWithinClamp(number: u64, gasLimit: u64, gasUsed: u64, blockTime: u64, fee: u64, min: u64)
    requires min <= SHASTA_INITIAL_BASE_FEE
    ensures var next := NextBaseFee(number, gasLimit, gasUsed, blockTime, fee, min);
      next.Some? ==> min <= next.value <= MAX_BASE_FEE
  {}
}
