/** Whole runs of a block executor: reservations, executions, declined executions and cleared
    exhaustions in any order (crates/block/src/executor.rs). What is finalized is exactly what was
    accepted, and the block's limits hold throughout. */
module ExecutorRuns {
  import opened Words
  import opened ZkGasMeter
  import opened BlockExecution
  import opened BlockExecutor

  datatype Op =
    | Reserve(amount: u64)
    | Execute(tx: Tx)
    | Decline(tx: Tx)
    | Clear

  /** A block under execution together with the zk gas that is charged and not yet committed. */
  datatype Run = Run(x: Exec, inFlight: nat)

  ghost predicate Kept(env: Env, r: Run) {
    && r.x.gasUsed <= env.gasLimit
    && (env.schedule.Some? ==> r.x.finalized + r.inFlight <= env.schedule.value.blockLimit)
    && (env.schedule.None? ==> r.inFlight == 0)
  }

  /** What an operation adds to the finalized zk gas. */
  ghost function Credit(env: Env, r: Run, op: Op): nat
    requires env.Sane()
  {
    match op
    case Reserve(amount) =>
      if env.schedule.Some? && Fits(env, r.x.finalized, r.inFlight + amount) then amount else 0
    case Execute(tx) => if Judge(env, r.x, tx).Committed? then Demand(env, r.x.state, tx) else 0
    case Decline(_) => 0
    case Clear => 0
  }

  /** Whether an operation commits a transaction. */
  ghost predicate Commits(env: Env, r: Run, op: Op)
    requires env.Sane()
  {
    op.Execute? && Judge(env, r.x, op.tx).Committed?
  }

  ghost function Step(env: Env, r: Run, op: Op): Run
    requires env.Sane()
  {
    match op
    case Reserve(_) => r.(x := r.x.(finalized := r.x.finalized + Credit(env, r, op)))
    case Execute(tx) => Run(Try(env, r.x, tx), if TurnedAway(env, r.x, tx) then r.inFlight else 0)
    case Decline(tx) =>
      Run(if Judge(env, r.x, tx).Committed? then r.x else Try(env, r.x, tx),
          if TurnedAway(env, r.x, tx) then r.inFlight else 0)
    case Clear => Run(r.x.(exhausted := false), 0)
  }

  ghost function After(env: Env, r: Run, ops: seq<Op>): Run
    requires env.Sane()
    decreases |ops|
  {
    if ops == [] then r else After(env, Step(env, r, ops[0]), ops[1..])
  }

  ghost function Credits(env: Env, r: Run, ops: seq<Op>): seq<nat>
    requires env.Sane()
    decreases |ops|
  {
    if ops == [] then [] else [Credit(env, r, ops[0])] + Credits(env, Step(env, r, ops[0]), ops[1..])
  }

  ghost function Commitments(env: Env, r: Run, ops: seq<Op>): nat
    requires env.Sane()
    decreases |ops|
  {
    if ops == [] then 0
    else (if Commits(env, r, ops[0]) then 1 else 0) + Commitments(env, Step(env, r, ops[0]), ops[1..])
  }

  lemma StepKeeps(env: Env, r: Run, op: Op)
    requires env.Sane() && Kept(env, r)
    ensures Kept(env, Step(env, r, op))
    ensures Step(env, r, op).x.finalized == r.x.finalized + Credit(env, r, op)
    ensures |Step(env, r, op).x.receipts| == |r.x.receipts| + (if Commits(env, r, op) then 1 else 0)
    ensures r.x.receipts <= Step(env, r, op).x.receipts
  {
  }

  /** The ledger of any run: the finalized zk gas is the start plus every accepted reservation and
      every committed transaction's demand, there is one receipt per commit and none is ever lost,
      and neither limit is passed. */
  lemma {:induction false} Ledger(env: Env, r: Run, ops: seq<Op>)
    requires env.Sane() && Kept(env, r)
    ensures var end := After(env, r, ops);
      && Kept(env, end)
      && end.x.finalized == r.x.finalized + Sum(Credits(env, r, ops))
      && |end.x.receipts| == |r.x.receipts| + Commitments(env, r, ops)
      && r.x.receipts <= end.x.receipts
    decreases |ops|
  {
    if ops != [] {
      StepKeeps(env, r, ops[0]);
      Ledger(env, Step(env, r, ops[0]), ops[1..]);
      assert Credits(env, r, ops)[1..] == Credits(env, Step(env, r, ops[0]), ops[1..]);
    }
  }

  lemma {:induction false} CreditsCoverIntrinsic(env: Env, r: Run, ops: seq<Op>)
    requires env.Sane() && env.schedule.Some?
    ensures Sum(Credits(env, r, ops)) >= Commitments(env, r, ops) * env.schedule.value.txIntrinsic
    decreases |ops|
  {
    if ops != [] {
      var rest := Commitments(env, Step(env, r, ops[0]), ops[1..]);
      CreditsCoverIntrinsic(env, Step(env, r, ops[0]), ops[1..]);
      OneMore(rest, env.schedule.value.txIntrinsic);
      assert Credits(env, r, ops)[1..] == Credits(env, Step(env, r, ops[0]), ops[1..]);
    }
  }

  /** However executions, reservations, declines and clears are interleaved, an Unzen block commits at
      most 411 transactions. */
  lemma AtMost411Commits(env: Env, r: Run, ops: seq<Op>)
    requires env.Sane() && Kept(env, r) && env.schedule.Some?
    requires env.schedule.value.blockLimit == BLOCK_ZK_GAS_LIMIT &&
      env.schedule.value.txIntrinsic == TX_INTRINSIC_ZK_GAS
    ensures Commitments(env, r, ops) <= 411
  {
    Ledger(env, r, ops);
    CreditsCoverIntrinsic(env, r, ops);
  }

  ghost function RunOf(executor: TaikoBlockExecutor): Run
    reads executor, executor.meter
  {
    Run(executor.View(), executor.InFlight())
  }

  /** One operation on the executor. */
  method Perform(executor: TaikoBlockExecutor, op: Op)
    requires executor.Valid()
    modifies executor`state, executor`gasUsed, executor`receipts, executor`exhausted, executor`published, executor.meter
    ensures executor.Valid()
    ensures RunOf(executor) == Step(executor.env, old(RunOf(executor)), op)
  {
    match op {
      case Reserve(amount) =>
        var _ := executor.ReserveBlockZkGas(amount);
      case Execute(tx) =>
        var _ := executor.ExecuteTransaction(tx);
      case Decline(tx) =>
        var _ := executor.ExecuteWithCommitCondition(tx, _ => false);
      case Clear =>
        executor.ClearZkGasExhaustion();
    }
  }

  /** Any sequence of operations on the executor. */
  method PerformAll(executor: TaikoBlockExecutor, ops: seq<Op>)
    requires executor.Valid()
    modifies executor`state, executor`gasUsed, executor`receipts, executor`exhausted, executor`published, executor.meter
    ensures executor.Valid()
    ensures RunOf(executor) == After(executor.env, old(RunOf(executor)), ops)
    ensures executor.published == old(executor.published) + Sum(Credits(executor.env, old(RunOf(executor)), ops))
    ensures |executor.receipts| == |old(executor.receipts)| + Commitments(executor.env, old(RunOf(executor)), ops)
  {
    for i := 0 to |ops|
      invariant executor.Valid()
      invariant After(executor.env, old(RunOf(executor)), ops) == After(executor.env, RunOf(executor), ops[i..])
    {
      assert ops[i..][1..] == ops[i + 1..];
      Perform(executor, ops[i]);
    }
    Ledger(executor.env, old(RunOf(executor)), ops);
  }
}
