/** The two ways zk gas is metered during one transaction: the production interpreter loop
    (crates/evm/src/zk_gas/runtime.rs and crates/evm/src/evm.rs) and the inspector callbacks with
    per-depth bookkeeping (crates/evm/src/zk_gas/adapter.rs). Both are measured against the flat
    list of charges of the call tree they execute. */
module ZkGasPaths {
  import opened Words
  import opened ZkGasMeter

  // ----- What a transaction executes -----

  /** One executed opcode: the gas around it, with a halt already materialized, and the child
      work it selected, if any. A frame is the sequence of steps it executes. */
  datatype Step = Step(opcode: u8, gasBefore: u64, gasAfter: u64, newFrame: Option<Child>)

  /** What a dispatched frame input (of a step or of the transaction itself) turns into. */
  datatype Child =
    | NoFrame
    | SubFrame(steps: seq<Step>)
    | PrecompileCall(address: Address, gasLimit: u64, gasRemaining: u64)

  // ----- The zk gas of a call tree, charge by charge in execution order -----

  function OpcodeCharge(opcode: u8, gasBefore: u64, gasAfter: u64, newFrame: bool): (c: Charge)
    ensures c.WellFormed()
  {
    if IsSpawnOpcode(opcode) && newFrame then Spawn(opcode)
    else Opcode(opcode, SaturatingSub(gasBefore, gasAfter))
  }

  function StepCost(s: Schedule, step: Step): nat {
    OpcodeCharge(step.opcode, step.gasBefore, step.gasAfter, step.newFrame.Some?).Amount(s)
  }

  function ChildCosts(s: Schedule, child: Child): seq<nat> {
    match child
    case NoFrame => []
    case SubFrame(steps) => FrameCosts(s, steps)
    case PrecompileCall(a, limit, left) => [Precompile(a, SaturatingSub(limit, left)).Amount(s)]
  }

  /** The costs of the child work a step dispatches. */
  function DispatchCosts(s: Schedule, step: Step): seq<nat> {
    if step.newFrame.Some? then ChildCosts(s, step.newFrame.value) else []
  }

  function FrameCosts(s: Schedule, steps: seq<Step>): seq<nat> {
    if steps == [] then [] else [StepCost(s, steps[0])] + (DispatchCosts(s, steps[0]) + FrameCosts(s, steps[1..]))
  }

  // ----- How far a meter gets through a list of costs -----

  /** Charging `costs` in order with `budget` left stops after `n` of them: those fit together and
      the next one, if any, would exceed the budget. */
  ghost predicate StopsAfter(costs: seq<nat>, budget: nat, n: nat) {
    && n <= |costs|
    && Sum(costs[..n]) <= budget
    && (n < |costs| ==> Sum(costs[..n + 1]) > budget)
  }

  lemma PrefixSum(costs: seq<nat>, n: nat)
    requires n < |costs|
    ensures Sum(costs[..n + 1]) == Sum(costs[..n]) + costs[n]
  {
    SumSnoc(costs[..n], costs[n]);
    assert costs[..n] + [costs[n]] == costs[..n + 1];
  }

  lemma {:induction false} PrefixSumsGrow(costs: seq<nat>, m: nat, n: nat)
    requires m <= n <= |costs|
    ensures Sum(costs[..m]) <= Sum(costs[..n])
  {
    if m < n {
      PrefixSumsGrow(costs, m, n - 1);
      PrefixSum(costs, n - 1);
    }
  }

  /** There is only one place to stop. */
  lemma StopIsUnique(costs: seq<nat>, budget: nat, m: nat, n: nat)
    requires StopsAfter(costs, budget, m) && StopsAfter(costs, budget, n)
    ensures m == n
  {
    if m < n {
      PrefixSumsGrow(costs, m + 1, n);
    } else if n < m {
      PrefixSumsGrow(costs, n + 1, m);
    }
  }

  /** A run goes through whole exactly when its exact total fits the budget. */
  lemma WholeRunIffTotalFits(costs: seq<nat>, budget: nat, n: nat)
    requires StopsAfter(costs, budget, n)
    ensures n == |costs| <==> Sum(costs) <= budget
  {
    assert costs[..|costs|] == costs;
    if n < |costs| {
      PrefixSumsGrow(costs, n + 1, |costs|);
    }
  }

  /** `meter` has charged the first `n` of `costs`, starting from `base` in flight and `budget` left. */
  ghost predicate Charged(meter: Meter, costs: seq<nat>, n: nat, base: nat, budget: nat)
    reads meter
  {
    && meter.Balanced()
    && n <= |costs|
    && meter.txUsed == base + Sum(costs[..n])
    && meter.remaining == budget - Sum(costs[..n])
  }

  /** Charges the next cost of a run. */
  method ChargeNext(meter: Meter, c: Charge, ghost costs: seq<nat>, ghost n: nat, ghost base: nat, ghost budget: nat)
    returns (ok: bool)
    requires c.WellFormed()
    requires n < |costs| && costs[n] == c.Amount(meter.schedule)
    requires Charged(meter, costs, n, base, budget)
    modifies meter
    ensures meter.blockUsed == old(meter.blockUsed)
    ensures Charged(meter, costs, if ok then n + 1 else n, base, budget)
    ensures !ok ==> StopsAfter(costs, budget, n)
  {
    PrefixSum(costs, n);
    ok := meter.ChargeWork(c);
  }

  // ----- Production path -----

  /** What a frame owes once step `at` is charged: its child work, then its remaining steps. */
  ghost predicate OwesAfter(s: Schedule, steps: seq<Step>, at: nat, costs: seq<nat>, k: nat, end: nat) {
    && at < |steps|
    && Covers(costs, k, DispatchCosts(s, steps[at]))
    && k + |DispatchCosts(s, steps[at])| <= end <= |costs|
    && FrameCosts(s, steps[at + 1..]) == costs[k + |DispatchCosts(s, steps[at])|..end]
  }

  /** One turn of the metered loop: executes step `at` and charges it. */
  method RunStep(meter: Meter, steps: seq<Step>, at: nat,
                 ghost costs: seq<nat>, ghost k: nat, ghost end: nat, ghost base: nat, ghost budget: nat)
    returns (ok: bool)
    requires at < |steps| && k <= end <= |costs|
    requires FrameCosts(meter.schedule, steps[at..]) == costs[k..end]
    requires Charged(meter, costs, k, base, budget)
    modifies meter
    ensures meter.blockUsed == old(meter.blockUsed)
    ensures Charged(meter, costs, if ok then k + 1 else k, base, budget)
    ensures !ok ==> StopsAfter(costs, budget, k)
    ensures OwesAfter(meter.schedule, steps, at, costs, k + 1, end)
    ensures steps[at].newFrame.None? ==> FrameCosts(meter.schedule, steps[at + 1..]) == costs[k + 1..end]
  {
    var step := steps[at];
    FrameCostsCut(meter.schedule, steps, at, costs, k, end);
    CoversHead(costs, k, StepCost(meter.schedule, step), DispatchCosts(meter.schedule, step));
    ok := ChargeNext(meter, OpcodeCharge(step.opcode, step.gasBefore, step.gasAfter, step.newFrame.Some?),
      costs, k, base, budget);
  }

  /** Runs one frame from step `from` until a child frame is selected, the frame ends, or a charge
      is refused. The frame's costs from there on are the run's costs `k..end`. */
  method RunMeteredPlain(meter: Meter, steps: seq<Step>, from: nat,
                         ghost costs: seq<nat>, ghost k: nat, ghost end: nat, ghost base: nat, ghost budget: nat)
    returns (last: nat, refused: bool, ghost pos: nat)
    requires from < |steps| && k <= end <= |costs|
    requires FrameCosts(meter.schedule, steps[from..]) == costs[k..end]
    requires Charged(meter, costs, k, base, budget)
    modifies meter
    ensures meter.blockUsed == old(meter.blockUsed)
    ensures from <= last < |steps| && pos == k + (last - from)
    ensures OwesAfter(meter.schedule, steps, last, costs, pos + 1, end)
    ensures Charged(meter, costs, if refused then pos else pos + 1, base, budget)
    ensures refused ==> StopsAfter(costs, budget, pos)
  {
    last, pos := from, k;
    while true
      invariant from <= last < |steps| && pos == k + (last - from) <= end
      invariant meter.blockUsed == old(meter.blockUsed)
      invariant FrameCosts(meter.schedule, steps[last..]) == costs[pos..end]
      invariant Charged(meter, costs, pos, base, budget)
      decreases |steps| - last
    {
      var ok := RunStep(meter, steps, last, costs, pos, end, base, budget);
      if !ok || steps[last].newFrame.Some? || last + 1 == |steps| {
        return last, !ok, pos;
      }
      last, pos := last + 1, pos + 1;
    }
  }

  /** Initializes a child frame. A precompile runs and is charged here; any other frame is run to
      its end. `done` counts the charges that went through. */
  method RunChild(meter: Meter, child: Child, ghost costs: seq<nat>, ghost k: nat, ghost base: nat, ghost budget: nat)
    returns (done: nat, refused: bool)
    requires Covers(costs, k, ChildCosts(meter.schedule, child))
    requires Charged(meter, costs, k, base, budget)
    modifies meter
    ensures meter.blockUsed == old(meter.blockUsed)
    ensures Charged(meter, costs, k + done, base, budget)
    ensures if refused then StopsAfter(costs, budget, k + done) && k + done < |costs|
            else done == |ChildCosts(meter.schedule, child)|
    decreases child, 1
  {
    match child {
      case NoFrame =>
        done, refused := 0, false;
      case SubFrame(steps) =>
        done, refused := RunFrame(meter, steps, costs, k, base, budget);
      case PrecompileCall(address, gasLimit, gasRemaining) =>
        var c := Precompile(address, SaturatingSub(gasLimit, gasRemaining));
        assert costs[k] == costs[k..k + 1][0];
        var ok := ChargeNext(meter, c, costs, k, base, budget);
        done, refused := if ok then 1 else 0, !ok;
    }
  }

  /** Runs the child work of a step, if it selected any. */
  method RunDispatch(meter: Meter, step: Step, ghost costs: seq<nat>, ghost k: nat, ghost base: nat, ghost budget: nat)
    returns (done: nat, refused: bool)
    requires Covers(costs, k, DispatchCosts(meter.schedule, step))
    requires Charged(meter, costs, k, base, budget)
    modifies meter
    ensures meter.blockUsed == old(meter.blockUsed)
    ensures Charged(meter, costs, k + done, base, budget)
    ensures if refused then StopsAfter(costs, budget, k + done) && k + done < |costs|
            else done == |DispatchCosts(meter.schedule, step)|
    decreases step, 2
  {
    done, refused := 0, false;
    if step.newFrame.Some? {
      done, refused := RunChild(meter, step.newFrame.value, costs, k, base, budget);
    }
  }

  /** Runs a frame from step `at` through the next child frame it selects. */
  method RunSegment(meter: Meter, steps: seq<Step>, at: nat,
                    ghost costs: seq<nat>, ghost k: nat, ghost end: nat, ghost base: nat, ghost budget: nat)
    returns (next: nat, done: nat, refused: bool, ghost pos: nat)
    requires at < |steps| && k <= end <= |costs|
    requires FrameCosts(meter.schedule, steps[at..]) == costs[k..end]
    requires Charged(meter, costs, k, base, budget)
    modifies meter
    ensures meter.blockUsed == old(meter.blockUsed)
    ensures at < next <= |steps|
    ensures pos == k + done && Charged(meter, costs, pos, base, budget)
    ensures refused ==> StopsAfter(costs, budget, pos) && pos < |costs|
    ensures !refused ==> pos <= end && FrameCosts(meter.schedule, steps[next..]) == costs[pos..end]
    decreases steps, 0
  {
    var last;
    last, refused, pos := RunMeteredPlain(meter, steps, at, costs, k, end, base, budget);
    next, done := last + 1, last - at;
    if refused {
      return;
    }
    var inner;
    inner, refused := RunDispatch(meter, steps[last], costs, pos + 1, base, budget);
    done, pos := done + 1 + inner, pos + 1 + inner;
  }

  /** Runs a frame: the metered loop alternates with the child frames it selects. */
  method RunFrame(meter: Meter, steps: seq<Step>, ghost costs: seq<nat>, ghost k: nat, ghost base: nat,
                  ghost budget: nat)
    returns (done: nat, refused: bool)
    requires Covers(costs, k, FrameCosts(meter.schedule, steps))
    requires Charged(meter, costs, k, base, budget)
    modifies meter
    ensures meter.blockUsed == old(meter.blockUsed)
    ensures Charged(meter, costs, k + done, base, budget)
    ensures if refused then StopsAfter(costs, budget, k + done) && k + done < |costs|
            else done == |FrameCosts(meter.schedule, steps)|
    decreases steps, 1
  {
    ghost var end := k + |FrameCosts(meter.schedule, steps)|;
    var at := 0;
    done, refused := 0, false;
    assert steps[0..] == steps;
    ghost var pos := k;
    while at < |steps|
      invariant 0 <= at <= |steps| && pos == k + done <= end
      invariant meter.blockUsed == old(meter.blockUsed)
      invariant !refused
      invariant FrameCosts(meter.schedule, steps[at..]) == costs[pos..end]
      invariant Charged(meter, costs, pos, base, budget)
    {
      var inner;
      at, inner, refused, pos := RunSegment(meter, steps, at, costs, pos, end, base, budget);
      done := done + inner;
      if refused {
        return;
      }
    }
    AllCharged(meter.schedule, steps, costs, pos, end);
  }

  lemma Cut(costs: seq<nat>, k: nat, end: nat, a: seq<nat>, b: seq<nat>)
    requires k <= end <= |costs| && a + b == costs[k..end]
    ensures k + |a| <= end && costs[k..k + |a|] == a && costs[k + |a|..end] == b
  {
    assert |a + b| == end - k;
    assert a == (a + b)[..|a|] && b == (a + b)[|a|..];
  }

  /** Runs a transaction's root frame on the production path. */
  method RunProduction(meter: Meter, root: Child) returns (done: nat, refused: bool)
    requires meter.Balanced()
    modifies meter
    ensures meter.Balanced() && meter.blockUsed == old(meter.blockUsed)
    ensures StopsAfter(ChildCosts(meter.schedule, root), old(meter.remaining), done)
    ensures meter.txUsed == old(meter.txUsed) + Sum(ChildCosts(meter.schedule, root)[..done])
    ensures refused == (done < |ChildCosts(meter.schedule, root)|)
  {
    ghost var costs := ChildCosts(meter.schedule, root);
    assert costs[..0] == [] && costs[0..|costs|] == costs == costs[..|costs|];
    done, refused := RunChild(meter, root, costs, 0, meter.txUsed, meter.remaining);
  }

  // ----- Inspector path -----

  /** One slot per journal depth; the deepest legal frame has depth 1024. */
  const MAX_CALL_DEPTH := 1026
  const DEEPEST_FRAME := 1024

  datatype PendingStep = PendingStep(opcode: u8, gasRemaining: u64)

  const EMPTY_STEP := PendingStep(0, 0)

  class ZkGasInspector {
    const meter: Meter
    const pendingSteps: array<PendingStep>
    var maxActiveDepth: nat

    /** Beyond the deepest depth seen, no slot holds anything. */
    ghost predicate Valid()
      reads this, meter, pendingSteps
    {
      && meter.Balanced()
      && pendingSteps.Length == MAX_CALL_DEPTH
      && maxActiveDepth < MAX_CALL_DEPTH
      && forall d :: maxActiveDepth < d < MAX_CALL_DEPTH ==> pendingSteps[d] == EMPTY_STEP
    }

    constructor (s: Schedule)
      ensures Valid() && fresh(meter) && fresh(pendingSteps)
      ensures meter.schedule == s && meter.blockUsed == 0 && meter.txUsed == 0
    {
      meter := new Meter(s);
      pendingSteps := new PendingStep[MAX_CALL_DEPTH](_ => EMPTY_STEP);
      maxActiveDepth := 0;
    }

    /** Observes charges against a meter that others read. */
    constructor On(meter: Meter)
      requires meter.Balanced()
      ensures Valid() && this.meter == meter && fresh(pendingSteps)
    {
      this.meter := meter;
      pendingSteps := new PendingStep[MAX_CALL_DEPTH](_ => EMPTY_STEP);
      maxActiveDepth := 0;
    }

    /** Discards the in-flight zk gas and every pending step, visiting only depths up to the
        deepest one seen. */
    method ResetTransaction()
      requires Valid()
      modifies this`maxActiveDepth, meter, pendingSteps
      ensures Valid()
      ensures meter.txUsed == 0 && meter.blockUsed == old(meter.blockUsed)
      ensures forall d :: 0 <= d < MAX_CALL_DEPTH ==> pendingSteps[d] == EMPTY_STEP
      ensures maxActiveDepth == 0
    {
      meter.ResetTransaction();
      for index := 0 to maxActiveDepth + 1
        invariant meter.Balanced() && meter.txUsed == 0 && meter.blockUsed == old(meter.blockUsed)
        invariant maxActiveDepth == old(maxActiveDepth)
        invariant forall d :: 0 <= d < index || maxActiveDepth < d < MAX_CALL_DEPTH ==> pendingSteps[d] == EMPTY_STEP
      {
        pendingSteps[index] := EMPTY_STEP;
      }
      maxActiveDepth := 0;
    }

    /** Snapshots the opcode and the gas before it at the current depth. */
    method BeginStep(depth: nat, opcode: u8, gasRemaining: u64)
      requires Valid() && depth < MAX_CALL_DEPTH
      modifies this`maxActiveDepth, pendingSteps
      ensures Valid()
      ensures pendingSteps[depth] == PendingStep(opcode, gasRemaining)
      ensures forall d :: 0 <= d < MAX_CALL_DEPTH && d != depth ==> pendingSteps[d] == old(pendingSteps[d])
      ensures old(maxActiveDepth) <= maxActiveDepth && depth <= maxActiveDepth
    {
      pendingSteps[depth] := PendingStep(opcode, gasRemaining);
      if depth > maxActiveDepth {
        maxActiveDepth := depth;
      }
    }

    /** Charges the pending step of this depth: the spawn estimate when a child frame was selected,
        the measured gas otherwise. */
    method EndStep(depth: nat, gasRemaining: u64, newFrame: bool,
                   ghost costs: seq<nat>, ghost k: nat, ghost base: nat, ghost budget: nat)
      returns (ok: bool)
      requires Valid() && depth < MAX_CALL_DEPTH
      requires k < |costs| && Charged(meter, costs, k, base, budget)
      requires var p := pendingSteps[depth];
        costs[k] == OpcodeCharge(p.opcode, p.gasRemaining, gasRemaining, newFrame).Amount(meter.schedule)
      modifies meter
      ensures Valid() && meter.blockUsed == old(meter.blockUsed)
      ensures Charged(meter, costs, if ok then k + 1 else k, base, budget)
      ensures !ok ==> StopsAfter(costs, budget, k)
    {
      var pending := pendingSteps[depth];
      var spawned := IsSpawnOpcode(pending.opcode) && newFrame;
      ok := ChargeNext(meter,
        if spawned then Spawn(pending.opcode)
        else Opcode(pending.opcode, SaturatingSub(pending.gasRemaining, gasRemaining)),
        costs, k, base, budget);
    }

    /** Observes the callbacks of a step, then of the child work it dispatched. */
    method InspectStep(step: Step, depth: nat, ghost costs: seq<nat>, ghost k: nat, ghost base: nat, ghost budget: nat)
      returns (done: nat, refused: bool)
      requires Valid() && depth <= DEEPEST_FRAME && StepWithin(step, DEEPEST_FRAME - depth)
      requires Covers(costs, k, [StepCost(meter.schedule, step)] + DispatchCosts(meter.schedule, step))
      requires Charged(meter, costs, k, base, budget)
      modifies this`maxActiveDepth, meter, pendingSteps
      ensures Valid() && meter.blockUsed == old(meter.blockUsed)
      ensures Charged(meter, costs, k + done, base, budget)
      ensures if refused then StopsAfter(costs, budget, k + done) && k + done < |costs|
              else done == 1 + |DispatchCosts(meter.schedule, step)|
      decreases step, 3
    {
      CoversHead(costs, k, StepCost(meter.schedule, step), DispatchCosts(meter.schedule, step));
      BeginStep(depth, step.opcode, step.gasBefore);
      var ok := EndStep(depth, step.gasAfter, step.newFrame.Some?, costs, k, base, budget);
      if !ok {
        return 0, true;
      }
      done, refused := 0, false;
      if step.newFrame.Some? {
        done, refused := InspectChild(step.newFrame.value, depth + 1, costs, k + 1, base, budget);
      }
      done := done + 1;
    }

    /** Observes one child: its steps, then `call_end`, which charges precompile work. */
    method InspectChild(child: Child, depth: nat, ghost costs: seq<nat>, ghost k: nat, ghost base: nat,
                        ghost budget: nat)
      returns (done: nat, refused: bool)
      requires Valid() && depth <= DEEPEST_FRAME + 1 && ChildWithin(child, DEEPEST_FRAME + 1 - depth)
      requires Covers(costs, k, ChildCosts(meter.schedule, child))
      requires Charged(meter, costs, k, base, budget)
      modifies this`maxActiveDepth, meter, pendingSteps
      ensures Valid() && meter.blockUsed == old(meter.blockUsed)
      ensures Charged(meter, costs, k + done, base, budget)
      ensures if refused then StopsAfter(costs, budget, k + done) && k + done < |costs|
              else done == |ChildCosts(meter.schedule, child)|
      decreases child, 1
    {
      match child {
        case NoFrame =>
          done, refused := 0, false;
        case SubFrame(steps) =>
          done, refused := InspectFrame(steps, depth, costs, k, base, budget);
        case PrecompileCall(address, gasLimit, gasRemaining) =>
          var c := Precompile(address, SaturatingSub(gasLimit, gasRemaining));
          assert costs[k] == costs[k..k + 1][0];
          var ok := ChargeNext(meter, c, costs, k, base, budget);
          done, refused := if ok then 1 else 0, !ok;
      }
    }

    method InspectFrame(steps: seq<Step>, depth: nat, ghost costs: seq<nat>, ghost k: nat, ghost base: nat,
                        ghost budget: nat)
      returns (done: nat, refused: bool)
      requires Valid() && depth <= DEEPEST_FRAME && StepsWithin(steps, DEEPEST_FRAME - depth)
      requires Covers(costs, k, FrameCosts(meter.schedule, steps))
      requires Charged(meter, costs, k, base, budget)
      modifies this`maxActiveDepth, meter, pendingSteps
      ensures Valid() && meter.blockUsed == old(meter.blockUsed)
      ensures Charged(meter, costs, k + done, base, budget)
      ensures if refused then StopsAfter(costs, budget, k + done) && k + done < |costs|
              else done == |FrameCosts(meter.schedule, steps)|
      decreases steps, 0, 1
    {
      ghost var end := k + |FrameCosts(meter.schedule, steps)|;
      var at := 0;
      done, refused := 0, false;
      assert steps[0..] == steps;
      ghost var pos := k;
      while at < |steps|
        invariant 0 <= at <= |steps| && pos == k + done <= end
        invariant Valid() && meter.blockUsed == old(meter.blockUsed)
        invariant !refused
        invariant StepsWithin(steps[at..], DEEPEST_FRAME - depth)
        invariant FrameCosts(meter.schedule, steps[at..]) == costs[pos..end]
        invariant Charged(meter, costs, pos, base, budget)
      {
        var inner;
        inner, refused, pos := InspectNext(steps, at, depth, costs, pos, end, base, budget);
        done := done + inner;
        if refused {
          return;
        }
        at := at + 1;
      }
      AllCharged(meter.schedule, steps, costs, pos, end);
    }

    /** Observes the next step of a frame. */
    method InspectNext(steps: seq<Step>, at: nat, depth: nat, ghost costs: seq<nat>, ghost k: nat, ghost end: nat,
                       ghost base: nat, ghost budget: nat)
      returns (done: nat, refused: bool, ghost pos: nat)
      requires Valid() && depth <= DEEPEST_FRAME && at < |steps| && StepsWithin(steps[at..], DEEPEST_FRAME - depth)
      requires k <= end <= |costs| && FrameCosts(meter.schedule, steps[at..]) == costs[k..end]
      requires Charged(meter, costs, k, base, budget)
      modifies this`maxActiveDepth, meter, pendingSteps
      ensures Valid() && meter.blockUsed == old(meter.blockUsed)
      ensures pos == k + done && Charged(meter, costs, pos, base, budget)
      ensures refused ==> StopsAfter(costs, budget, pos) && pos < |costs|
      ensures !refused ==> pos <= end && FrameCosts(meter.schedule, steps[at + 1..]) == costs[pos..end]
      ensures StepsWithin(steps[at + 1..], DEEPEST_FRAME - depth)
      decreases steps, 0, 0
    {
      FrameCostsCut(meter.schedule, steps, at, costs, k, end);
      assert steps[at..][1..] == steps[at + 1..];
      done, refused := InspectStep(steps[at], depth, costs, k, base, budget);
      pos := k + done;
    }
  }

  /** `part` is the part of `costs` that starts at `k`. */
  ghost predicate Covers(costs: seq<nat>, k: nat, part: seq<nat>) {
    k + |part| <= |costs| && costs[k..k + |part|] == part
  }

  lemma FrameCostsCut(s: Schedule, steps: seq<Step>, at: nat, costs: seq<nat>, k: nat, end: nat)
    requires at < |steps| && k <= end <= |costs|
    requires FrameCosts(s, steps[at..]) == costs[k..end]
    ensures Covers(costs, k, [StepCost(s, steps[at])] + DispatchCosts(s, steps[at]))
    ensures k + 1 + |DispatchCosts(s, steps[at])| <= end
    ensures FrameCosts(s, steps[at + 1..]) == costs[k + 1 + |DispatchCosts(s, steps[at])|..end]
  {
    var own, rest := [StepCost(s, steps[at])] + DispatchCosts(s, steps[at]), FrameCosts(s, steps[at + 1..]);
    assert steps[at..][1..] == steps[at + 1..];
    assert own + rest == costs[k..end];
    Cut(costs, k, end, own, rest);
  }

  /** A frame without steps left owes nothing. */
  lemma AllCharged(s: Schedule, steps: seq<Step>, costs: seq<nat>, pos: nat, end: nat)
    requires pos <= end <= |costs| && FrameCosts(s, steps[|steps|..]) == costs[pos..end]
    ensures pos == end
  {
    assert steps[|steps|..] == [];
  }

  lemma CoversHead(costs: seq<nat>, k: nat, first: nat, rest: seq<nat>)
    requires Covers(costs, k, [first] + rest)
    ensures k < |costs| && costs[k] == first && Covers(costs, k + 1, rest)
  {
    assert costs[k] == costs[k..k + 1 + |rest|][0];
    assert costs[k + 1..k + 1 + |rest|] == costs[k..k + 1 + |rest|][1..];
  }

  /** Frames nest at most `room` levels below here. */
  predicate ChildWithin(child: Child, room: nat) {
    child.SubFrame? ==> room > 0 && StepsWithin(child.steps, room - 1)
  }

  predicate StepsWithin(steps: seq<Step>, room: nat) {
    steps != [] ==> StepWithin(steps[0], room) && StepsWithin(steps[1..], room)
  }

  predicate StepWithin(step: Step, room: nat) {
    step.newFrame.Some? ==> ChildWithin(step.newFrame.value, room)
  }

  // ----- Agreement -----

  /** From the same meter state, both paths accept the same charges of the same call tree, stop at
      the same one, and leave the same meter state. */
  method RunBothPaths(meter: Meter, inspector: ZkGasInspector, root: Child) returns (done: nat, refused: bool)
    requires meter.Balanced() && inspector.Valid() && meter != inspector.meter
    requires meter.schedule == inspector.meter.schedule
    requires meter.blockUsed == inspector.meter.blockUsed && meter.txUsed == inspector.meter.txUsed
    requires ChildWithin(root, DEEPEST_FRAME + 1)
    modifies meter, inspector, inspector.meter, inspector.pendingSteps
    ensures meter.Balanced() && inspector.Valid()
    ensures meter.blockUsed == inspector.meter.blockUsed == old(meter.blockUsed)
    ensures meter.txUsed == inspector.meter.txUsed && meter.remaining == inspector.meter.remaining
    ensures StopsAfter(ChildCosts(meter.schedule, root), old(meter.remaining), done)
    ensures meter.txUsed == old(meter.txUsed) + Sum(ChildCosts(meter.schedule, root)[..done])
    ensures refused == (done < |ChildCosts(meter.schedule, root)|)
  {
    done, refused := RunProduction(meter, root);
    ghost var costs, m := ChildCosts(meter.schedule, root), inspector.meter;
    assert costs[..0] == [] && costs[0..|costs|] == costs == costs[..|costs|];
    var seen, stopped := inspector.InspectChild(root, 0, costs, 0, m.txUsed, m.remaining);
    StopIsUnique(costs, old(meter.remaining), done, seen);
    assert seen == done && stopped == refused;
  }
}
