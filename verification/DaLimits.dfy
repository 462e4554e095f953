/** Per-list gas and DA-size limits with adaptive calibration of the compressed-size estimate
    (crates/block/src/tx_selection/limits.rs). Compression is an unknown length function. */
module DaLimits {
  import opened Words
  import opened BlockExecution

  const RATIO_SCALE: nat := 1_000_000
  const SAMPLE_MID_PCT: nat := 50
  const SAMPLE_HIGH_PCT: nat := 80

  datatype Config = Config(
    gasLimitPerList: u64,
    maxDaBytesPerList: u64,
    zlibGuardBytes: u64,
    maxLists: nat,
    minTip: nat,
    locals: seq<nat>,
    stateSeed: nat,
    advance: (nat, nat) -> nat,
    zlib: seq<Tx> -> u64)

  datatype ExecutedTx = ExecutedTx(tx: Tx, gasUsed: u64, daSize: u64)

  datatype TxList = TxList(transactions: seq<ExecutedTx>, totalGasUsed: u64, totalDaBytes: u64)

  function Txs(list: seq<ExecutedTx>): seq<Tx> {
    seq(|list|, i requires 0 <= i < |list| => list[i].tx)
  }

  datatype DaRatioState = DaRatioState(maxRatioMicros: u64, sampledMid: bool, sampledHigh: bool)

  const NO_SAMPLES := DaRatioState(RATIO_SCALE, false, false)

  // 64-bit factors never saturate 128 bits, so only the cast back to 64 bits can lose something.
  function RatioThreshold(limit: u64, percent: nat): u64 {
    Wrap64(limit * percent / 100)
  }

  function ShouldCheckZlib(c: Config, estimate: u64): bool {
    c.zlibGuardBytes > 0 && SaturatingAdd(estimate, c.zlibGuardBytes) >= c.maxDaBytesPerList
  }

  function ShouldSample(s: DaRatioState, estimate: u64, limit: u64): bool {
    || (!s.sampledMid && estimate >= RatioThreshold(limit, SAMPLE_MID_PCT))
    || (!s.sampledHigh && estimate >= RatioThreshold(limit, SAMPLE_HIGH_PCT))
  }

  function Max(a: u64, b: u64): u64 {
    if a < b then b else a
  }

  function SampledRatio(estimate: u64, actual: u64): u64
    requires estimate > 0
  {
    Wrap64(actual * RATIO_SCALE / estimate)
  }

  function Scaled(estimate: u64, ratioMicros: u64): u64 {
    Wrap64(estimate * ratioMicros / RATIO_SCALE)
  }

  function UpdateRatio(s: DaRatioState, estimate: u64, actual: u64, limit: u64): DaRatioState {
    DaRatioState(
      if estimate > 0 then Max(s.maxRatioMicros, SampledRatio(estimate, actual)) else s.maxRatioMicros,
      s.sampledMid || estimate >= RatioThreshold(limit, SAMPLE_MID_PCT),
      s.sampledHigh || estimate >= RatioThreshold(limit, SAMPLE_HIGH_PCT))
  }

  function AdjustedEstimate(estimate: u64, s: DaRatioState): u64 {
    Scaled(estimate, s.maxRatioMicros)
  }

  /** Checks the DA size of `list` with `tx` added, recalibrating the ratio when it compresses.
      Below the machine limit an accepted list keeps its exact estimate within the limit, and near
      the limit its compressed size too. */
  method ExceedsDaLimit(c: Config, list: TxList, tx: Tx, daSize: u64, s: DaRatioState)
    returns (exceeds: Option<u64>, s': DaRatioState)
    ensures s.maxRatioMicros <= s'.maxRatioMicros
    ensures var estimate, actual := SaturatingAdd(list.totalDaBytes, daSize), c.zlib(Txs(list.transactions) + [tx]);
      if estimate > c.maxDaBytesPerList then exceeds == Some(estimate) && s' == s
      else if c.zlibGuardBytes == 0 then exceeds.None? && s' == s
      else
        && s' == AfterCheck(c, s, estimate, actual)
        && exceeds == (if TriggerOf(c, s, estimate).NoRun? || actual <= c.maxDaBytesPerList then None else Some(actual))
    ensures exceeds.None? && c.maxDaBytesPerList < U64_MAX ==> list.totalDaBytes + daSize <= c.maxDaBytesPerList
    ensures exceeds.None? && c.zlibGuardBytes > 0 &&
            list.totalDaBytes + daSize + c.zlibGuardBytes >= c.maxDaBytesPerList ==>
      c.zlib(Txs(list.transactions) + [tx]) <= c.maxDaBytesPerList
  {
    s' := s;
    var limit := c.maxDaBytesPerList;
    var estimate := SaturatingAdd(list.totalDaBytes, daSize);
    if estimate > limit {
      return Some(estimate), s;
    }
    if c.zlibGuardBytes == 0 {
      return None, s;
    }
    var runZlib := ShouldCheckZlib(c, estimate);
    if !runZlib {
      runZlib := AdjustedEstimate(estimate, s) > limit || ShouldSample(s, estimate, limit);
    }
    if runZlib {
      var actual := c.zlib(Txs(list.transactions) + [tx]);
      s' := UpdateRatio(s, estimate, actual, limit);
      if actual > limit {
        return Some(actual), s';
      }
    }
    exceeds := None;
  }

  /** Checks both limits; the DA check runs, and recalibrates, whatever the gas check says. */
  method ExceedsListLimits(c: Config, list: TxList, tx: Tx, daSize: u64, s: DaRatioState)
    returns (exceedsGas: bool, exceedsDa: Option<u64>, s': DaRatioState)
    requires c.gasLimitPerList < U64_MAX && c.maxDaBytesPerList < U64_MAX
    ensures exceedsGas == (list.totalGasUsed + tx.gasLimit > c.gasLimitPerList)
    ensures exceedsDa.Some? ==>
      || list.totalDaBytes + daSize > c.maxDaBytesPerList
      || c.zlib(Txs(list.transactions) + [tx]) > c.maxDaBytesPerList
    ensures exceedsDa.None? ==> list.totalDaBytes + daSize <= c.maxDaBytesPerList
    ensures exceedsDa.None? && c.zlibGuardBytes > 0 &&
            list.totalDaBytes + daSize + c.zlibGuardBytes >= c.maxDaBytesPerList ==>
      c.zlib(Txs(list.transactions) + [tx]) <= c.maxDaBytesPerList
    ensures s.maxRatioMicros <= s'.maxRatioMicros
  {
    exceedsGas := SaturatingAdd(list.totalGasUsed, tx.gasLimit) > c.gasLimitPerList;
    exceedsDa, s' := ExceedsDaLimit(c, list, tx, daSize, s);
  }

  // ----- Calibration -----

  function CeilDiv(a: nat, b: nat): nat
    requires b > 0
  {
    (a + b - 1) / b
  }

  lemma CalibratedRatio(e: u64, a: u64, m: u64)
    requires 0 < e && SampledRatio(e, a) <= m
    requires a * RATIO_SCALE / e <= U64_MAX && e * m / RATIO_SCALE <= U64_MAX
    ensures Scaled(e, m) + CeilDiv(e - 1, RATIO_SCALE) >= a
  {
    var ratio, product := a * RATIO_SCALE / e, e * m;
    WrapFits(ratio);
    WrapFits(product / RATIO_SCALE);
    SampledProduct(e, a, ratio, m);
    RoundedProduct(e, a, product);
  }

  lemma SampledProduct(e: nat, a: nat, ratio: nat, m: nat)
    requires 0 < e && ratio == a * RATIO_SCALE / e && ratio <= m
    ensures e * m >= a * RATIO_SCALE - (e - 1)
  {
    assert e * ratio + (a * RATIO_SCALE) % e == a * RATIO_SCALE;
    assert e * m == e * ratio + e * (m - ratio);
  }

  lemma RoundedProduct(e: nat, a: nat, product: nat)
    requires 0 < e && product >= a * RATIO_SCALE - (e - 1)
    ensures product / RATIO_SCALE + CeilDiv(e - 1, RATIO_SCALE) >= a
  {}

  /** Sampling flags still unset. */
  function Unsampled(s: DaRatioState): nat {
    (if s.sampledMid then 0 else 1) + (if s.sampledHigh then 0 else 1)
  }

  /** Why a check compresses, if it does. Sampling is only looked at when nothing else asks. */
  datatype Trigger = NoRun | Forced | Sampled

  function TriggerOf(c: Config, s: DaRatioState, estimate: u64): Trigger {
    if ShouldCheckZlib(c, estimate) || AdjustedEstimate(estimate, s) > c.maxDaBytesPerList then Forced
    else if ShouldSample(s, estimate, c.maxDaBytesPerList) then Sampled
    else NoRun
  }

  function AfterCheck(c: Config, s: DaRatioState, estimate: u64, actual: u64): DaRatioState {
    if TriggerOf(c, s, estimate).NoRun? then s else UpdateRatio(s, estimate, actual, c.maxDaBytesPerList)
  }

  /** How many checks of one list compress only because a sampling threshold was crossed. Each
      check is an estimate with the actual size compression would report. */
  function SamplingRuns(c: Config, s: DaRatioState, checks: seq<(u64, u64)>): nat
    decreases |checks|
  {
    if checks == [] then 0
    else
      (if TriggerOf(c, s, checks[0].0).Sampled? then 1 else 0) +
      SamplingRuns(c, AfterCheck(c, s, checks[0].0, checks[0].1), checks[1..])
  }

  lemma SamplingSetsAFlag(c: Config, s: DaRatioState, estimate: u64, actual: u64)
    ensures Unsampled(AfterCheck(c, s, estimate, actual)) +
            (if TriggerOf(c, s, estimate).Sampled? then 1 else 0) <= Unsampled(s)
  {}

  /** The two sampling thresholds cause at most two compressions per list, over any checks. */
  lemma {:induction false} AtMostTwoSamplingRuns(c: Config, s: DaRatioState, checks: seq<(u64, u64)>)
    ensures SamplingRuns(c, s, checks) <= Unsampled(s) <= 2
    decreases |checks|
  {
    if checks != [] {
      SamplingSetsAFlag(c, s, checks[0].0, checks[0].1);
      AtMostTwoSamplingRuns(c, AfterCheck(c, s, checks[0].0, checks[0].1), checks[1..]);
    }
  }

  // ----- What a list has learnt -----

  /** The state of a list after its checks. */
  function AfterChecks(c: Config, s: DaRatioState, checks: seq<(u64, u64)>): DaRatioState
    decreases |checks|
  {
    if checks == [] then s
    else
      var n := |checks| - 1;
      AfterCheck(c, AfterChecks(c, s, checks[..n]), checks[n].0, checks[n].1)
  }

  lemma {:induction false} RatioNeverFalls(c: Config, s: DaRatioState, checks: seq<(u64, u64)>, k: nat)
    requires k <= |checks|
    ensures AfterChecks(c, s, checks[..k]).maxRatioMicros <= AfterChecks(c, s, checks).maxRatioMicros
    decreases |checks|
  {
    if k == |checks| {
      assert checks[..k] == checks;
    } else {
      var n := |checks| - 1;
      RatioNeverFalls(c, s, checks[..n], k);
      assert checks[..n][..k] == checks[..k];
    }
  }

  /** Check `k` of a list compressed a nonempty estimate. */
  predicate Measured(c: Config, s: DaRatioState, checks: seq<(u64, u64)>, k: nat) {
    && k < |checks| && 0 < checks[k].0
    && !TriggerOf(c, AfterChecks(c, s, checks[..k]), checks[k].0).NoRun?
  }

  lemma MeasuredRaises(c: Config, s: DaRatioState, checks: seq<(u64, u64)>, k: nat)
    requires Measured(c, s, checks, k)
    ensures SampledRatio(checks[k].0, checks[k].1) <= AfterChecks(c, s, checks).maxRatioMicros
  {
    assert checks[..k + 1][..k] == checks[..k];
    RatioNeverFalls(c, s, checks, k + 1);
  }

  /** Once a check has compressed an estimate, the adjusted estimate of the same size, after any further
      checks of the list, falls short of what compression reported by at most the rounding of the
      fixed-point ratio. */
  lemma CalibratedEstimate(c: Config, s: DaRatioState, checks: seq<(u64, u64)>, k: nat)
    requires Measured(c, s, checks, k)
    requires checks[k].1 * RATIO_SCALE / checks[k].0 <= U64_MAX
    requires checks[k].0 * AfterChecks(c, s, checks).maxRatioMicros / RATIO_SCALE <= U64_MAX
    ensures AdjustedEstimate(checks[k].0, AfterChecks(c, s, checks)) +
      CeilDiv(checks[k].0 - 1, RATIO_SCALE) >= checks[k].1
  {
    MeasuredRaises(c, s, checks, k);
    CalibratedRatio(checks[k].0, checks[k].1, AfterChecks(c, s, checks).maxRatioMicros);
  }

  const FOUR_GIB: nat := 0x1_0000_0000

  predicate Modest(checks: seq<(u64, u64)>) {
    forall k :: 0 <= k < |checks| ==> checks[k].0 < FOUR_GIB && checks[k].1 < FOUR_GIB
  }

  lemma SampleBounded(e: nat, a: nat)
    requires 0 < e && a < FOUR_GIB
    ensures a * RATIO_SCALE / e <= a * RATIO_SCALE < FOUR_GIB * RATIO_SCALE <= U64_MAX
  {
    assert e * (a * RATIO_SCALE / e) <= a * RATIO_SCALE;
    MulMono(a * RATIO_SCALE / e, 1, e);
  }

  lemma {:induction false} RatioBounded(c: Config, s: DaRatioState, checks: seq<(u64, u64)>)
    requires Modest(checks) && s.maxRatioMicros < FOUR_GIB * RATIO_SCALE
    ensures AfterChecks(c, s, checks).maxRatioMicros < FOUR_GIB * RATIO_SCALE
    decreases |checks|
  {
    if checks != [] {
      var n := |checks| - 1;
      RatioBounded(c, s, checks[..n]);
      if checks[n].0 > 0 {
        SampleBounded(checks[n].0, checks[n].1);
        WrapFits(checks[n].1 * RATIO_SCALE / checks[n].0);
      }
    }
  }

  /** On a fresh list whose sizes stay below 4 GiB nothing truncates: every compression it ever ran
      keeps its estimate calibrated. */
  lemma FreshListStaysCalibrated(c: Config, checks: seq<(u64, u64)>, k: nat)
    requires Modest(checks) && Measured(c, NO_SAMPLES, checks, k)
    ensures AdjustedEstimate(checks[k].0, AfterChecks(c, NO_SAMPLES, checks)) +
      CeilDiv(checks[k].0 - 1, RATIO_SCALE) >= checks[k].1
  {
    RatioBounded(c, NO_SAMPLES, checks);
    SampleBounded(checks[k].0, checks[k].1);
    ProductFits(checks[k].0, AfterChecks(c, NO_SAMPLES, checks).maxRatioMicros);
    CalibratedEstimate(c, NO_SAMPLES, checks, k);
  }

  lemma ProductFits(e: nat, m: nat)
    requires e < FOUR_GIB && m < FOUR_GIB * RATIO_SCALE
    ensures e * m / RATIO_SCALE <= U64_MAX
  {
    MulMono(m, e, FOUR_GIB);
    MulMono(FOUR_GIB, m, FOUR_GIB * RATIO_SCALE);
  }
}
