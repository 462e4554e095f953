/** What executing transactions on a block means, stated on values with unbounded arithmetic. The
    EVM is a deterministic function of the state and the transaction: it yields the zk gas charges
    of the run and how the run ends (crates/block/src/executor.rs). */
module BlockExecution {
  import opened Words
  import opened ZkGasMeter

  type State(==, !new, 0)

  const ZERO_ADDRESS: Address := 0

  datatype Tx = Tx(hash: nat, signer: Address, gasLimit: u64)

  datatype EvmFault = NonceTooLow | OtherInvalidTx | Fatal

  datatype EvmEnd =
    | Finished(gasUsed: u64, output: nat, post: State)
    | Failed(fault: EvmFault)

  datatype EvmRun = EvmRun(charges: seq<Charge>, end: EvmEnd)

  /** The pre-execution system calls: they are metered but belong to no transaction. */
  datatype PreRun = PreRun(charges: seq<Charge>, post: State)

  datatype Receipt = Receipt(output: nat, cumulativeGasUsed: nat)

  datatype BlockError =
    | ZkGasLimitExceeded
    | GasLimitMoreThanAvailable
    | InvalidTransaction(nonceTooLow: bool)
    | DifficultyMismatch
    | Internal

  /** A block environment. `difficulty` is the one field in which building and importing the same
      block differ; execution does not depend on it. */
  datatype Env = Env(
    schedule: Option<Schedule>,
    gasLimit: u64,
    difficulty: nat,
    pre: State -> Option<PreRun>,
    evm: (State, Tx) -> EvmRun)
  {
    /** No run uses more gas than its transaction's limit. */
    ghost predicate Sane() {
      && (forall s: State, tx: Tx :: WellFormed(evm(s, tx).charges))
      && (forall s: State, tx: Tx :: evm(s, tx).end.Finished? ==> evm(s, tx).end.gasUsed <= tx.gasLimit)
      && (forall s: State :: pre(s).Some? ==> WellFormed(pre(s).value.charges))
    }
  }

  /** The observable state of a block under execution. */
  datatype Exec = Exec(state: State, gasUsed: nat, receipts: seq<Receipt>, exhausted: bool, finalized: nat)

  ghost predicate Within(env: Env, x: Exec) {
    x.gasUsed <= env.gasLimit && (env.schedule.Some? ==> x.finalized <= env.schedule.value.blockLimit)
  }

  /** The zk gas a transaction adds to the block: its intrinsic charge and its metered work. */
  ghost function Demand(env: Env, s: State, tx: Tx): nat
    requires env.Sane()
  {
    if env.schedule.None? then 0
    else env.schedule.value.txIntrinsic + Sum(Amounts(env.schedule.value, env.evm(s, tx).charges))
  }

  ghost predicate Fits(env: Env, finalized: nat, zkGas: nat) {
    env.schedule.Some? ==> finalized + zkGas <= env.schedule.value.blockLimit
  }

  datatype Verdict = Committed(gasUsed: u64) | Refused(error: BlockError)

  function FaultError(fault: EvmFault): BlockError {
    match fault
    case NonceTooLow => InvalidTransaction(true)
    case OtherInvalidTx => InvalidTransaction(false)
    case Fatal => Internal
  }

  /** What happens to `tx` on `x`. */
  ghost function Judge(env: Env, x: Exec, tx: Tx): Verdict
    requires env.Sane()
  {
    if x.exhausted then Refused(ZkGasLimitExceeded)
    else if x.gasUsed + tx.gasLimit > env.gasLimit then Refused(GasLimitMoreThanAvailable)
    else if !Fits(env, x.finalized, Demand(env, x.state, tx)) then Refused(ZkGasLimitExceeded)
    else
      match env.evm(x.state, tx).end
      case Finished(gasUsed, _, _) => Committed(gasUsed)
      case Failed(fault) => Refused(FaultError(fault))
  }

  /** The block after `tx` was tried on it: only a zk gas overflow and a commit leave a trace. */
  ghost function Try(env: Env, x: Exec, tx: Tx): Exec
    requires env.Sane()
  {
    match Judge(env, x, tx)
    case Refused(ZkGasLimitExceeded) => x.(exhausted := true)
    case Refused(_) => x
    case Committed(gasUsed) =>
      var end := env.evm(x.state, tx).end;
      Exec(end.post, x.gasUsed + gasUsed, x.receipts + [Receipt(end.output, x.gasUsed + gasUsed)],
           false, x.finalized + Demand(env, x.state, tx))
  }

  /** Strict execution: every transaction has to commit. */
  ghost function Strict(env: Env, x: Exec, txs: seq<Tx>): Result<Exec, BlockError>
    requires env.Sane()
    decreases |txs|
  {
    if txs == [] then Ok(x)
    else
      match Judge(env, x, txs[0])
      case Refused(error) => Err(error)
      case Committed(_) => Strict(env, Try(env, x, txs[0]), txs[1..])
  }

  lemma {:induction false} StrictSnoc(env: Env, x: Exec, txs: seq<Tx>, tx: Tx)
    requires env.Sane() && Strict(env, x, txs).Ok?
    ensures Strict(env, x, txs + [tx]) ==
      match Judge(env, Strict(env, x, txs).value, tx)
      case Refused(error) => Err(error)
      case Committed(_) => Ok(Try(env, Strict(env, x, txs).value, tx))
    decreases |txs|
  {
    if txs == [] {
      assert (txs + [tx])[0] == tx && (txs + [tx])[1..] == [];
    } else {
      assert (txs + [tx])[0] == txs[0] && (txs + [tx])[1..] == txs[1..] + [tx];
      StrictSnoc(env, Try(env, x, txs[0]), txs[1..], tx);
    }
  }

  lemma TryStaysWithin(env: Env, x: Exec, tx: Tx)
    requires env.Sane() && Within(env, x)
    ensures Within(env, Try(env, x, tx))
    ensures |Try(env, x, tx).receipts| == |x.receipts| + (if Judge(env, x, tx).Committed? then 1 else 0)
  {}

  /** The zk gas of each transaction of a strict run, at the state it ran on. */
  ghost function Demands(env: Env, x: Exec, txs: seq<Tx>): seq<nat>
    requires env.Sane()
    decreases |txs|
  {
    if txs == [] then [] else [Demand(env, x.state, txs[0])] + Demands(env, Try(env, x, txs[0]), txs[1..])
  }

  /** The block's ledger: what is finalized is what it started with plus the demand of every
      committed transaction, there is one more receipt per transaction, and the last receipt's
      cumulative gas is the gas used. */
  lemma {:induction false} StrictLedger(env: Env, x: Exec, txs: seq<Tx>)
    requires env.Sane() && Within(env, x) && Strict(env, x, txs).Ok?
    ensures var end := Strict(env, x, txs).value;
      && Within(env, end)
      && end.finalized == x.finalized + Sum(Demands(env, x, txs))
      && end.exhausted == (x.exhausted && txs == [])
      && |end.receipts| == |x.receipts| + |txs|
      && (txs != [] ==> end.receipts[|end.receipts| - 1].cumulativeGasUsed == end.gasUsed)
    decreases |txs|
  {
    if txs != [] {
      TryStaysWithin(env, x, txs[0]);
      StrictLedger(env, Try(env, x, txs[0]), txs[1..]);
      assert Demands(env, x, txs)[1..] == Demands(env, Try(env, x, txs[0]), txs[1..]);
    }
  }

  lemma {:induction false} DemandsCoverIntrinsic(env: Env, x: Exec, txs: seq<Tx>)
    requires env.Sane() && env.schedule.Some?
    ensures Sum(Demands(env, x, txs)) >= |txs| * env.schedule.value.txIntrinsic
    decreases |txs|
  {
    if txs != [] {
      DemandsCoverIntrinsic(env, Try(env, x, txs[0]), txs[1..]);
      OneMore(|txs| - 1, env.schedule.value.txIntrinsic);
      assert Demands(env, x, txs)[1..] == Demands(env, Try(env, x, txs[0]), txs[1..]);
    }
  }

  /** An Unzen block never holds more than 411 transactions. */
  lemma UnzenBlockHoldsAtMost411(env: Env, x: Exec, txs: seq<Tx>)
    requires env.Sane() && Within(env, x) && Strict(env, x, txs).Ok?
    requires env.schedule.Some?
    requires env.schedule.value.blockLimit == BLOCK_ZK_GAS_LIMIT &&
      env.schedule.value.txIntrinsic == TX_INTRINSIC_ZK_GAS
    ensures |txs| <= 411
  {
    StrictLedger(env, x, txs);
    DemandsCoverIntrinsic(env, x, txs);
  }

  /** Which transactions commit, and to what, does not depend on the environment's difficulty. */
  lemma {:induction false} DifficultyIsIrrelevant(env: Env, difficulty: nat, x: Exec, txs: seq<Tx>)
    requires env.Sane()
    ensures env.(difficulty := difficulty).Sane()
    ensures Strict(env.(difficulty := difficulty), x, txs) == Strict(env, x, txs)
    decreases |txs|
  {
    var other := env.(difficulty := difficulty);
    assert other.Sane();
    if txs != [] {
      assert Judge(other, x, txs[0]) == Judge(env, x, txs[0]);
      assert Try(other, x, txs[0]) == Try(env, x, txs[0]);
      DifficultyIsIrrelevant(env, difficulty, Try(env, x, txs[0]), txs[1..]);
    }
  }
}
