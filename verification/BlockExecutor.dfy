/** The block executor: checked u64 accounting, the per-transaction zk gas bracket, the sticky
    exhaustion flag and the published block total (crates/block/src/executor.rs), refining the
    value-level semantics of `BlockExecution`. */
module BlockExecutor {
  import opened Words
  import opened ZkGasMeter
  import opened BlockExecution

  class TaikoBlockExecutor {
    const env: Env
    const meter: Meter?
    var state: State
    var gasUsed: u64
    var receipts: seq<Receipt>
    var exhausted: bool
    /** The finalized zk gas shared with the block assembler. */
    var published: u64

    ghost predicate Valid()
      reads this, meter
    {
      && env.Sane()
      && gasUsed <= env.gasLimit
      && (meter == null <==> env.schedule.None?)
      && (meter != null ==>
            && meter.schedule == env.schedule.value
            && meter.Balanced()
            && published == meter.blockUsed)
    }

    ghost function View(): Exec
      reads this
    {
      Exec(state, gasUsed, receipts, exhausted, published)
    }

    /** Zk gas charged since the last reset and not yet committed. */
    ghost function InFlight(): nat
      reads this, meter
    {
      if meter == null then 0 else meter.txUsed
    }

    constructor (env: Env, parent: State)
      requires env.Sane()
      ensures Valid() && this.env == env && (meter != null ==> fresh(meter))
      ensures View() == Exec(parent, 0, [], false, 0) && InFlight() == 0
    {
      this.env := env;
      if env.schedule.Some? {
        meter := new Meter(env.schedule.value);
      } else {
        meter := null;
      }
      state, gasUsed, receipts, exhausted, published := parent, 0, [], false, 0;
    }

    method ResetCurrentTransactionZkGas()
      requires Valid()
      modifies this`published, meter
      ensures Valid() && View() == old(View()) && InFlight() == 0
    {
      if meter != null {
        meter.ResetTransaction();
        published := meter.blockUsed;
      }
    }

    /** Commits the in-flight zk gas. The failing branch of the meter's commit is never taken. */
    method CommitCurrentTransactionZkGas()
      requires Valid()
      modifies this`published, meter
      ensures Valid() && InFlight() == 0
      ensures View() == old(View().(finalized := published + InFlight()))
    {
      if meter != null {
        var ok := meter.CommitTransaction();
        assert ok;
        published := meter.blockUsed;
      }
    }

    /** Reserves finalized zk gas for a mandatory transaction that is not executed here. */
    method ReserveBlockZkGas(amount: u64) returns (ok: bool)
      requires Valid()
      modifies this`published, meter
      ensures Valid() && InFlight() == old(InFlight())
      ensures ok == Fits(env, old(published), old(InFlight()) + amount)
      ensures View() == old(View()).(finalized := old(published) + (if ok && meter != null then amount else 0))
    {
      if meter == null {
        return true;
      }
      ok := meter.ReserveBlockBudget(amount);
      published := meter.blockUsed;
    }

    /** Runs the pre-execution system calls. What they charge stays in flight, where a later reserve
        has to fit beside it; it is never part of the finalized total, whatever runs next. */
    method ApplyPreExecutionChanges() returns (r: Result<(), BlockError>)
      requires Valid() && InFlight() == 0
      modifies this`state, meter
      ensures Valid()
      ensures PreApply(env, old(View())) == (if r.Ok? then Ok(View()) else Err(r.error))
      ensures r.Err? ==> View() == old(View())
      ensures r.Ok? ==> InFlight() == PreDemand(env, old(state))
    {
      var pre := env.pre(state);
      if pre.None? {
        return Err(Internal);
      }
      if meter != null {
        var ok := meter.ChargeRun(pre.value.charges);
        if !ok {
          return Err(Internal);
        }
      }
      state := pre.value.post;
      r := Ok(());
    }

    /** Executes `tx` without committing it. On success the run's whole zk gas is in flight and
        nothing observable has changed. */
    method ExecuteWithoutCommit(tx: Tx) returns (r: Result<EvmEnd, BlockError>)
      requires Valid()
      modifies this`exhausted, this`published, meter
      ensures Valid()
      ensures r.Err? ==>
        && Judge(env, old(View()), tx) == Refused(r.error) && View() == Try(env, old(View()), tx)
        && InFlight() == if TurnedAway(env, old(View()), tx) then old(InFlight()) else 0
      ensures r.Ok? ==>
        && View() == old(View())
        && r.value == env.evm(state, tx).end
        && r.value.Finished?
        && Judge(env, View(), tx) == Committed(r.value.gasUsed)
        && InFlight() == Demand(env, state, tx)
    {
      if exhausted {
        return Err(ZkGasLimitExceeded);
      }
      var available := env.gasLimit - gasUsed;
      if tx.gasLimit > available {
        return Err(GasLimitMoreThanAvailable);
      }
      ResetCurrentTransactionZkGas();
      var run := env.evm(state, tx);
      if meter != null {
        var ok := meter.ChargeTxIntrinsic();
        if ok {
          ok := meter.ChargeRun(run.charges);
        }
        if !ok || meter.CommitWouldExceedBlockLimit() {
          exhausted := true;
          ResetCurrentTransactionZkGas();
          return Err(ZkGasLimitExceeded);
        }
      }
      if run.end.Failed? {
        ResetCurrentTransactionZkGas();
        return Err(FaultError(run.end.fault));
      }
      r := Ok(run.end);
    }

    /** Commits the outcome of `ExecuteWithoutCommit`. */
    method CommitTransaction(end: EvmEnd)
      requires Valid() && end.Finished? && gasUsed + end.gasUsed <= env.gasLimit
      modifies this`state, this`gasUsed, this`receipts, this`published, meter
      ensures Valid() && InFlight() == 0
      ensures View() == old(Exec(end.post, gasUsed + end.gasUsed,
        receipts + [Receipt(end.output, gasUsed + end.gasUsed)], exhausted, published + InFlight()))
    {
      CommitCurrentTransactionZkGas();
      gasUsed := gasUsed + end.gasUsed;
      receipts := receipts + [Receipt(end.output, gasUsed)];
      state := end.post;
    }

    /** Executes `tx` and commits it when `shouldCommit` says so; a declined run leaves no trace. */
    method ExecuteWithCommitCondition(tx: Tx, shouldCommit: EvmEnd -> bool) returns (r: Result<bool, BlockError>)
      requires Valid()
      modifies this`state, this`gasUsed, this`receipts, this`exhausted, this`published, meter
      ensures Valid()
      ensures r.Err? ==> Judge(env, old(View()), tx) == Refused(r.error)
      ensures r.Ok? ==>
        Judge(env, old(View()), tx).Committed? && r.value == shouldCommit(old(env.evm(state, tx).end))
      ensures View() == if r == Ok(false) then old(View()) else Try(env, old(View()), tx)
      ensures InFlight() == if TurnedAway(env, old(View()), tx) then old(InFlight()) else 0
    {
      var executed := ExecuteWithoutCommit(tx);
      if executed.Err? {
        return Err(executed.error);
      }
      if !shouldCommit(executed.value) {
        ResetCurrentTransactionZkGas();
        return Ok(false);
      }
      CommitTransaction(executed.value);
      r := Ok(true);
    }

    /** Executes and commits `tx`: exactly one step of the value-level semantics. */
    method ExecuteTransaction(tx: Tx) returns (v: Verdict)
      requires Valid()
      modifies this`state, this`gasUsed, this`receipts, this`exhausted, this`published, meter
      ensures Valid()
      ensures v == Judge(env, old(View()), tx)
      ensures View() == Try(env, old(View()), tx)
      ensures InFlight() == if TurnedAway(env, old(View()), tx) then old(InFlight()) else 0
    {
      var executed := ExecuteWithoutCommit(tx);
      if executed.Err? {
        return Refused(executed.error);
      }
      CommitTransaction(executed.value);
      v := Committed(executed.value.gasUsed);
    }

    /** Transaction selection only: lets the next candidate run after an overflow. */
    method ClearZkGasExhaustion()
      requires Valid()
      modifies this`exhausted, this`published, meter
      ensures Valid() && InFlight() == 0
      ensures View() == old(View()).(exhausted := false)
    {
      exhausted := false;
      ResetCurrentTransactionZkGas();
    }

    /** Whether the finalized budget can still pay one more intrinsic charge. */
    method CanFitAnotherTransactionZkGas() returns (fits: bool)
      requires Valid()
      ensures fits == (env.schedule.Some? ==> Fits(env, published, env.schedule.value.txIntrinsic))
    {
      fits := meter == null || meter.CanFitTxIntrinsic();
    }

    /** Ends the block; an imported block must carry the recomputed total as its difficulty. */
    method Finish(expectedDifficulty: Option<nat>) returns (r: Result<(seq<Receipt>, u64), BlockError>)
      requires Valid()
      modifies this`published
      ensures Valid() && View() == old(View())
      ensures r.Ok? <==> expectedDifficulty.None? || expectedDifficulty.value == View().finalized
      ensures r == if r.Ok? then Ok((View().receipts, View().gasUsed)) else Err(DifficultyMismatch)
    {
      if meter != null {
        published := meter.blockUsed;
      }
      if expectedDifficulty.Some? && published != expectedDifficulty.value {
        return Err(DifficultyMismatch);
      }
      r := Ok((receipts, gasUsed));
    }
  }

  /** Refused before the in-flight zk gas is reset. */
  ghost predicate TurnedAway(env: Env, x: Exec, tx: Tx) {
    x.exhausted || x.gasUsed + tx.gasLimit > env.gasLimit
  }

  /** The zk gas of the pre-execution system calls on `s`. */
  ghost function PreDemand(env: Env, s: State): nat
    requires env.Sane()
  {
    if env.schedule.None? || env.pre(s).None? then 0 else Sum(Amounts(env.schedule.value, env.pre(s).value.charges))
  }

  /** The block after its pre-execution system calls. */
  ghost function PreApply(env: Env, x: Exec): Result<Exec, BlockError>
    requires env.Sane()
  {
    var pre := env.pre(x.state);
    if pre.None? || !Fits(env, x.finalized, PreDemand(env, x.state)) then Err(Internal)
    else Ok(x.(state := pre.value.post))
  }
}
