/** Blocks whose transactions are call trees, metered along either path (crates/block/src/executor.rs,
    crates/evm/src/zk_gas/runtime.rs, crates/evm/src/zk_gas/adapter.rs): the production loop and the
    inspector give the same verdicts, the same finalized zk gas and so the same header difficulty. */
module MeteredBlocks {
  import opened Words
  import opened ZkGasMeter
  import opened ZkGasPaths
  import opened BlockExecution
  import opened BlockExecutor
  import opened ProverFilter

  // ----- A call tree as charges -----

  function ChildCharges(child: Child): seq<Charge> {
    match child
    case NoFrame => []
    case SubFrame(steps) => FrameCharges(steps)
    case PrecompileCall(a, limit, left) => [Precompile(a, SaturatingSub(limit, left))]
  }

  function StepCharges(step: Step): seq<Charge> {
    [OpcodeCharge(step.opcode, step.gasBefore, step.gasAfter, step.newFrame.Some?)] +
    (if step.newFrame.Some? then ChildCharges(step.newFrame.value) else [])
  }

  function FrameCharges(steps: seq<Step>): seq<Charge> {
    if steps == [] then [] else StepCharges(steps[0]) + FrameCharges(steps[1..])
  }

  /** The charges are worth the costs, one for one. */
  ghost predicate Worth(s: Schedule, charges: seq<Charge>, costs: seq<nat>) {
    WellFormed(charges) && Amounts(s, charges) == costs
  }

  lemma WorthAppend(s: Schedule, a: seq<Charge>, costs: seq<nat>, b: seq<Charge>, costs': seq<nat>)
    requires Worth(s, a, costs) && Worth(s, b, costs')
    ensures Worth(s, a + b, costs + costs')
  {
  }

  lemma {:induction false} ChildWorth(s: Schedule, child: Child)
    ensures Worth(s, ChildCharges(child), ChildCosts(s, child))
    decreases child, 1
  {
    if child.SubFrame? {
      FrameWorth(s, child.steps);
    }
  }

  lemma {:induction false} StepWorth(s: Schedule, step: Step)
    ensures Worth(s, StepCharges(step), [StepCost(s, step)] + DispatchCosts(s, step))
    decreases step, 2
  {
    var own := [OpcodeCharge(step.opcode, step.gasBefore, step.gasAfter, step.newFrame.Some?)];
    assert Worth(s, own, [StepCost(s, step)]);
    if step.newFrame.Some? {
      ChildWorth(s, step.newFrame.value);
      WorthAppend(s, own, [StepCost(s, step)], ChildCharges(step.newFrame.value), DispatchCosts(s, step));
    } else {
      WorthAppend(s, own, [StepCost(s, step)], [], []);
    }
  }

  lemma {:induction false} FrameWorth(s: Schedule, steps: seq<Step>)
    ensures Worth(s, FrameCharges(steps), FrameCosts(s, steps))
    decreases steps, 0
  {
    if steps != [] {
      StepWorth(s, steps[0]);
      FrameWorth(s, steps[1..]);
      var own := [StepCost(s, steps[0])] + DispatchCosts(s, steps[0]);
      WorthAppend(s, StepCharges(steps[0]), own, FrameCharges(steps[1..]), FrameCosts(s, steps[1..]));
      assert own + FrameCosts(s, steps[1..]) == FrameCosts(s, steps);
    }
  }

  // ----- One transaction, along either path -----

  /** What the EVM does is what running the call tree of the transaction charges. */
  ghost predicate RunsTrees(env: Env, tree: (State, Tx) -> Child) {
    forall s: State, tx: Tx ::
      env.evm(s, tx).charges == ChildCharges(tree(s, tx)) && ChildWithin(tree(s, tx), DEEPEST_FRAME + 1)
  }

  /** The objects an inspector brings along; without one the production path is taken. */
  ghost function Brought(inspector: ZkGasInspector?): set<object> {
    if inspector == null then {} else {inspector, inspector.pendingSteps}
  }

  /** The inspector, if there is one, observes the executor's meter. */
  ghost predicate Attached(executor: TaikoBlockExecutor, inspector: ZkGasInspector?)
    reads inspector, if inspector == null then {} else {inspector.meter, inspector.pendingSteps}
  {
    inspector != null ==> executor.meter == inspector.meter && inspector.Valid()
  }

  /** Charges a call tree along the chosen path. Either way it goes through exactly when its exact
      total fits what remains. */
  method ChargeTree(meter: Meter, inspector: ZkGasInspector?, root: Child) returns (ok: bool)
    requires meter.Balanced() && (inspector != null ==> inspector.meter == meter && inspector.Valid())
    requires ChildWithin(root, DEEPEST_FRAME + 1)
    modifies meter, Brought(inspector)
    ensures meter.Balanced() && meter.blockUsed == old(meter.blockUsed) && (inspector != null ==> inspector.Valid())
    ensures WellFormed(ChildCharges(root))
    ensures ok == (Sum(Amounts(meter.schedule, ChildCharges(root))) <= old(meter.remaining))
    ensures ok ==> meter.txUsed == old(meter.txUsed) + Sum(Amounts(meter.schedule, ChildCharges(root)))
  {
    ghost var costs, budget := ChildCosts(meter.schedule, root), meter.remaining;
    ChildWorth(meter.schedule, root);
    assert costs[..0] == [] && costs[0..|costs|] == costs == costs[..|costs|];
    var done, refused;
    if inspector == null {
      done, refused := RunProduction(meter, root);
    } else {
      done, refused := inspector.InspectChild(root, 0, costs, 0, meter.txUsed, budget);
    }
    WholeRunIffTotalFits(costs, budget, done);
    ok := !refused;
  }

  /** Discards what is in flight, and with it what the inspector has pending. */
  method ResetPath(executor: TaikoBlockExecutor, inspector: ZkGasInspector?)
    requires executor.Valid() && Attached(executor, inspector)
    modifies executor`published, executor.meter, Brought(inspector)
    ensures executor.Valid() && Attached(executor, inspector)
    ensures executor.View() == old(executor.View()) && executor.InFlight() == 0
  {
    if inspector != null {
      inspector.ResetTransaction();
    }
    executor.ResetCurrentTransactionZkGas();
  }

  /** Charges the intrinsic part and then the call tree. What is in flight afterwards is the
      transaction's whole demand, or the transaction does not fit the block. */
  method MeterTree(executor: TaikoBlockExecutor, inspector: ZkGasInspector?, tree: (State, Tx) -> Child, tx: Tx)
    returns (fits: bool)
    requires executor.Valid() && Attached(executor, inspector) && executor.InFlight() == 0
    requires RunsTrees(executor.env, tree)
    modifies executor.meter, Brought(inspector)
    ensures executor.Valid() && Attached(executor, inspector)
    ensures fits == Fits(executor.env, executor.published, Demand(executor.env, executor.state, tx))
    ensures fits ==> executor.InFlight() == Demand(executor.env, executor.state, tx)
  {
    if executor.meter == null {
      return true;
    }
    fits := executor.meter.ChargeTxIntrinsic();
    if fits {
      fits := ChargeTree(executor.meter, inspector, tree(executor.state, tx));
    }
    fits := fits && !executor.meter.CommitWouldExceedBlockLimit();
  }

  /** Executes `tx` along the chosen path without committing it. */
  method RunTree(executor: TaikoBlockExecutor, inspector: ZkGasInspector?, tree: (State, Tx) -> Child, tx: Tx)
    returns (r: Result<EvmEnd, BlockError>)
    requires executor.Valid() && Attached(executor, inspector) && RunsTrees(executor.env, tree)
    modifies executor`exhausted, executor`published, executor.meter, Brought(inspector)
    ensures executor.Valid() && Attached(executor, inspector)
    ensures r.Err? ==>
      Judge(executor.env, old(executor.View()), tx) == Refused(r.error) &&
      executor.View() == Try(executor.env, old(executor.View()), tx)
    ensures r.Ok? ==>
      && executor.View() == old(executor.View()) && r.value.Finished?
      && r.value == executor.env.evm(executor.state, tx).end
      && Judge(executor.env, executor.View(), tx) == Committed(r.value.gasUsed)
      && executor.InFlight() == Demand(executor.env, executor.state, tx)
  {
    if executor.exhausted {
      return Err(ZkGasLimitExceeded);
    }
    if tx.gasLimit > executor.env.gasLimit - executor.gasUsed {
      return Err(GasLimitMoreThanAvailable);
    }
    ResetPath(executor, inspector);
    var fits := MeterTree(executor, inspector, tree, tx);
    if !fits {
      executor.exhausted := true;
      ResetPath(executor, inspector);
      return Err(ZkGasLimitExceeded);
    }
    var end := executor.env.evm(executor.state, tx).end;
    if end.Failed? {
      ResetPath(executor, inspector);
      return Err(FaultError(end.fault));
    }
    r := Ok(end);
  }

  /** Executes and commits `tx`: one step of the value-level semantics, whichever path meters it. */
  method ExecuteTree(executor: TaikoBlockExecutor, inspector: ZkGasInspector?, tree: (State, Tx) -> Child, tx: Tx)
    returns (v: Verdict)
    requires executor.Valid() && Attached(executor, inspector) && RunsTrees(executor.env, tree)
    modifies executor`state, executor`gasUsed, executor`receipts, executor`exhausted, executor`published, executor.meter
    modifies Brought(inspector)
    ensures executor.Valid() && Attached(executor, inspector)
    ensures v == Judge(executor.env, old(executor.View()), tx)
    ensures executor.View() == Try(executor.env, old(executor.View()), tx)
  {
    var r := RunTree(executor, inspector, tree, tx);
    if r.Err? {
      return Refused(r.error);
    }
    executor.CommitTransaction(r.value);
    v := Committed(r.value.gasUsed);
  }

  // ----- Whole blocks -----

  /** The block after every transaction was tried in turn. */
  ghost function TryAll(env: Env, x: Exec, txs: seq<Tx>): Exec
    requires env.Sane()
    decreases |txs|
  {
    if txs == [] then x else TryAll(env, Try(env, x, txs[0]), txs[1..])
  }

  ghost function Verdicts(env: Env, x: Exec, txs: seq<Tx>): seq<Verdict>
    requires env.Sane()
    decreases |txs|
  {
    if txs == [] then [] else [Judge(env, x, txs[0])] + Verdicts(env, Try(env, x, txs[0]), txs[1..])
  }

  /** Trying a strictly executable list is executing it. */
  lemma {:induction false} StrictIsTried(env: Env, x: Exec, txs: seq<Tx>)
    requires env.Sane() && Strict(env, x, txs).Ok?
    ensures TryAll(env, x, txs) == Strict(env, x, txs).value
    ensures forall i :: 0 <= i < |Verdicts(env, x, txs)| ==> Verdicts(env, x, txs)[i].Committed?
    decreases |txs|
  {
    if txs != [] {
      StrictIsTried(env, Try(env, x, txs[0]), txs[1..]);
    }
  }

  /** Tries every transaction along the chosen path. */
  method ExecuteTrees(executor: TaikoBlockExecutor, inspector: ZkGasInspector?, tree: (State, Tx) -> Child,
                      txs: seq<Tx>)
    returns (verdicts: seq<Verdict>)
    requires executor.Valid() && Attached(executor, inspector) && RunsTrees(executor.env, tree)
    modifies executor`state, executor`gasUsed, executor`receipts, executor`exhausted, executor`published, executor.meter
    modifies Brought(inspector)
    ensures executor.Valid() && Attached(executor, inspector)
    ensures verdicts == Verdicts(executor.env, old(executor.View()), txs)
    ensures executor.View() == TryAll(executor.env, old(executor.View()), txs)
  {
    verdicts := [];
    for i := 0 to |txs|
      invariant executor.Valid() && Attached(executor, inspector)
      invariant TryAll(executor.env, old(executor.View()), txs) == TryAll(executor.env, executor.View(), txs[i..])
      invariant Verdicts(executor.env, old(executor.View()), txs) ==
        verdicts + Verdicts(executor.env, executor.View(), txs[i..])
    {
      assert txs[i..][1..] == txs[i + 1..];
      var v := ExecuteTree(executor, inspector, tree, txs[i]);
      verdicts := verdicts + [v];
    }
  }

  /** Runs a block of call trees twice, metered by the production loop and by the inspector: every
      transaction gets the same verdict, both blocks end in the same state with the same receipts, gas
      and finalized zk gas, and both carry the same header difficulty. */
  method RunBlockBothWays(env: Env, tree: (State, Tx) -> Child, parent: State, txs: seq<Tx>)
    returns (plain: TaikoBlockExecutor, inspected: TaikoBlockExecutor, verdicts: seq<Verdict>, observed: seq<Verdict>)
    requires env.Sane() && RunsTrees(env, tree)
    ensures verdicts == observed == Verdicts(env, Fresh(parent), txs)
    ensures plain.View() == inspected.View() == TryAll(env, Fresh(parent), txs)
    ensures AssembledDifficulty(env, plain.published) == AssembledDifficulty(env, inspected.published)
  {
    plain := new TaikoBlockExecutor(env, parent);
    verdicts := ExecuteTrees(plain, null, tree, txs);
    inspected := new TaikoBlockExecutor(env, parent);
    var inspector: ZkGasInspector? := null;
    if inspected.meter != null {
      inspector := new ZkGasInspector.On(inspected.meter);
    }
    observed := ExecuteTrees(inspected, inspector, tree, txs);
  }
}
