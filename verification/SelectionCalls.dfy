/** Selection calls that share one overflow memory (crates/rpc/src/eth/auth/mod.rs,
    crates/block/src/tx_selection/overflow.rs): soundness over every sequence of calls, from
    collision-free digests alone. */
module SelectionCalls {
  import opened Words
  import opened BlockExecution
  import opened BlockExecutor
  import opened DaLimits
  import opened OverflowMemory
  import opened ProverFilter
  import opened TxSelection
  import opened SelectionRun

  /** One call: the block it simulates, whether that block runs the system calls, what is reserved for
      its anchor, what was committed before selection, and what is selected from. */
  datatype Call = Call(
    env: Env, parent: State, runPre: bool, reserve: u64, prefix: seq<Tx>, seed: Digest,
    config: Config, cands: seq<PoolTx>, poolHashes: set<nat>, isCancelled: nat -> bool)

  function Hashes(txs: seq<Tx>): seq<nat> {
    seq(|txs|, i requires 0 <= i < |txs| => txs[i].hash)
  }

  /** The zk gas a call's system calls leave in flight. */
  ghost function LeftInFlight(call: Call): nat
    requires call.env.Sane()
  {
    if call.runPre then PreDemand(call.env, call.parent) else 0
  }

  /** The block a call prepares before anything is committed on it: the system calls have to succeed,
      and the reserve has to fit beside what they leave in flight. */
  ghost function Prepared(call: Call): Result<Exec, BlockError>
    requires call.env.Sane()
  {
    match (if call.runPre then PreApply(call.env, Fresh(call.parent)) else Ok(Fresh(call.parent)))
    case Err(e) => Err(e)
    case Ok(x) =>
      if !Fits(call.env, x.finalized, LeftInFlight(call) + call.reserve) then Err(ZkGasLimitExceeded)
      else Ok(x.(finalized := x.finalized + if call.env.schedule.Some? then call.reserve else 0))
  }

  /** The block selection starts on: the prepared one after what was committed before, if all of it commits. */
  ghost function Opened(call: Call): Result<Exec, BlockError>
    requires call.env.Sane()
  {
    match Prepared(call)
    case Err(e) => Err(e)
    case Ok(x) => Strict(call.env, x, call.prefix)
  }

  /** What a call assumes: sane limits, a seed that stands for the prepared block, a selection seed that
      advances it by what is committed, and hashes that identify transactions. */
  ghost predicate WellPosed(advance: (Digest, nat) -> Digest, seeds: iset<Digest>, start: Digest -> Situation,
                            txOf: nat -> Tx, call: Call)
  {
    && call.env.Sane()
    && call.config.gasLimitPerList < U64_MAX && call.config.maxDaBytesPerList < U64_MAX
    && call.config.advance == advance && call.seed in seeds
    && (Prepared(call).Ok? ==> start(call.seed) == Situation(call.env, Prepared(call).value))
    && call.config.stateSeed == AdvanceAll(advance, call.seed, Hashes(call.prefix))
    && (forall i :: 0 <= i < |call.prefix| ==> txOf(call.prefix[i].hash) == call.prefix[i])
    && Offered(call.cands, call.poolHashes, txOf)
  }

  /** Strictly committing transactions is replaying their hashes. */
  lemma {:induction false} StrictIsReplay(txOf: nat -> Tx, at: Situation, txs: seq<Tx>)
    requires at.env.Sane() && Strict(at.env, at.exec, txs).Ok?
    requires forall i :: 0 <= i < |txs| ==> txOf(txs[i].hash) == txs[i]
    ensures Replay(txOf, at, Hashes(txs)) == Strict(at.env, at.exec, txs).value
    decreases |txs|
  {
    if txs != [] {
      var init, last := txs[..|txs| - 1], txs[|txs| - 1];
      assert txs == init + [last];
      StrictPrefix(at.env, at.exec, init, last);
      StrictSnoc(at.env, at.exec, init, last);
      StrictIsReplay(txOf, at, init);
      assert Hashes(txs)[..|txs| - 1] == Hashes(init);
    }
  }

  lemma {:induction false} StrictPrefix(env: Env, x: Exec, txs: seq<Tx>, tx: Tx)
    requires env.Sane() && Strict(env, x, txs + [tx]).Ok?
    ensures Strict(env, x, txs).Ok?
    decreases |txs|
  {
    if txs != [] {
      assert (txs + [tx])[0] == txs[0] && (txs + [tx])[1..] == txs[1..] + [tx];
      StrictPrefix(env, Try(env, x, txs[0]), txs[1..], tx);
    }
  }

  /** What a call that reached selection leaves behind: where it started, what it remembered of the
      pool, and its told run. */
  datatype Trail = Trail(start: Exec, known: map<nat, Digest>, progress: Progress, log: seq<Entry>)

  /** The call's run is told against the memory it found, leads to the memory it leaves, and ends for
      a reason. */
  ghost predicate LeavesTrail(call: Call, before: map<nat, Digest>, trail: Trail, outcome: Outcome,
                              after: map<nat, Digest>)
  {
    && call.env.Sane() && Opened(call) == Ok(trail.start)
    && trail.known == StillPooled(before, call.poolHashes)
    && Told(call.env, call.config, trail.start, trail.known, call.cands, trail.progress, after, trail.log)
    && Orderly(call.config, trail.log, call.isCancelled)
    && Ends(call.env, call.config, call.cands, call.isCancelled, trail.log, outcome)
  }

  /** A call stops short of selection exactly when its block cannot be opened, and then leaves the
      memory alone; otherwise it leaves a trail. */
  ghost predicate Answers(call: Call, before: map<nat, Digest>, r: Result<Outcome, BlockError>,
                          after: map<nat, Digest>)
    requires call.env.Sane()
  {
    match r
    case Err(error) => Opened(call) == Err(error) && after == before
    case Ok(outcome) => exists trail :: LeavesTrail(call, before, trail, outcome, after)
  }

  /** Calls answered one after another, the memory running on from an empty one. */
  ghost predicate Chained(calls: seq<Call>, results: seq<Result<Outcome, BlockError>>,
                          memories: seq<map<nat, Digest>>)
  {
    && |results| == |calls| && |memories| == |calls| + 1
    && if calls == [] then memories[0] == map[]
       else
         var n := |calls| - 1;
         && Chained(calls[..n], results[..n], memories[..n + 1])
         && calls[n].env.Sane() && Answers(calls[n], memories[n], results[n], memories[n + 1])
  }

  lemma {:induction false} ChainedAt(calls: seq<Call>, results: seq<Result<Outcome, BlockError>>,
                                     memories: seq<map<nat, Digest>>, k: nat)
    requires Chained(calls, results, memories) && k < |calls|
    ensures calls[k].env.Sane() && Answers(calls[k], memories[k], results[k], memories[k + 1])
    decreases |calls|
  {
    var n := |calls| - 1;
    if k < n {
      ChainedAt(calls[..n], results[..n], memories[..n + 1], k);
    }
  }

  /** What a digest stands for across all calls. */
  ghost function Sense(advance: (Digest, nat) -> Digest, seeds: iset<Digest>, start: Digest -> Situation,
                       txOf: nat -> Tx): (sem: Digest -> Situation)
    requires forall s :: s in seeds ==> start(s).env.Sane()
  {
    (d: Digest) => Meaning(advance, seeds, start, txOf, d)
  }

  /** The frame of a call that starts selecting at `x` with its seed advanced by what it committed. */
  lemma CallFrame(advance: (Digest, nat) -> Digest, seeds: iset<Digest>, start: Digest -> Situation, txOf: nat -> Tx,
                  call: Call, x: Exec) returns (f: Frame)
    requires CollisionFree(advance, seeds) && (forall s :: s in seeds ==> start(s).env.Sane())
    requires WellPosed(advance, seeds, start, txOf, call)
    requires Opened(call) == Ok(x)
    ensures f.start == x && f.txOf == txOf && f.sem == Sense(advance, seeds, start, txOf)
    ensures ConfigOk(call.config, f)
    ensures call.config.stateSeed in f.reached && f.sem(call.config.stateSeed) == Situation(call.env, x)
  {
    var sem := Sense(advance, seeds, start, txOf);
    f := Frame(x, sem, txOf, iset d: Digest | IsReachable(advance, seeds, d));
    CollisionFreeIsFaithful(advance, seeds, start, txOf, sem);
    MeaningOfReachable(advance, seeds, start, txOf, call.seed, Hashes(call.prefix));
    StrictIsReplay(txOf, start(call.seed), call.prefix);
    assert Decodes(advance, seeds, call.config.stateSeed, (call.seed, Hashes(call.prefix)));
  }

  /** System calls and the anchor reserve. */
  method PrepareBlock(call: Call) returns (executor: TaikoBlockExecutor, error: Option<BlockError>)
    requires call.env.Sane()
    ensures fresh(executor) && executor.Valid() && executor.env == call.env &&
      (executor.meter != null ==> fresh(executor.meter))
    ensures Prepared(call) == (if error.None? then Ok(executor.View()) else Err(error.value))
    ensures !executor.exhausted
  {
    executor := new TaikoBlockExecutor(call.env, call.parent);
    if call.runPre {
      var pre := executor.ApplyPreExecutionChanges();
      if pre.Err? {
        return executor, Some(pre.error);
      }
    }
    var ok := executor.ReserveBlockZkGas(call.reserve);
    error := if ok then None else Some(ZkGasLimitExceeded);
  }

  /** Opens the block of a call: prepares it, then commits what comes before selection. */
  method OpenBlock(call: Call) returns (executor: TaikoBlockExecutor, error: Option<BlockError>)
    requires call.env.Sane()
    ensures fresh(executor) && executor.Valid() && executor.env == call.env &&
      (executor.meter != null ==> fresh(executor.meter))
    ensures Opened(call) == (if error.None? then Ok(executor.View()) else Err(error.value))
    ensures error.None? ==> !executor.exhausted
  {
    executor, error := PrepareBlock(call);
    if error.None? {
      ghost var x := executor.View();
      var committed := ExecuteAll(executor, call.prefix);
      if committed.Err? {
        return executor, Some(committed.error);
      }
      StaysUnexhausted(call.env, x, call.prefix);
    }
  }

  lemma {:induction false} StaysUnexhausted(env: Env, x: Exec, txs: seq<Tx>)
    requires env.Sane() && !x.exhausted && Strict(env, x, txs).Ok?
    ensures !Strict(env, x, txs).value.exhausted
    decreases |txs|
  {
    if txs != [] {
      StaysUnexhausted(env, Try(env, x, txs[0]), txs[1..]);
    }
  }

  /** Digests do not collide, and every seed stands for a sane environment. */
  ghost predicate Grounded(advance: (Digest, nat) -> Digest, seeds: iset<Digest>, start: Digest -> Situation) {
    CollisionFree(advance, seeds) && (forall s :: s in seeds ==> start(s).env.Sane())
  }

  /** Runs one call against the shared memory. It stops short of selection exactly when the system
      calls fail, the reserve does not fit beside what they leave in flight, or the prefix is refused. */
  method RunCall(memory: ZkOverflowMemory, call: Call, ghost advance: (Digest, nat) -> Digest,
                 ghost seeds: iset<Digest>, ghost start: Digest -> Situation, ghost txOf: nat -> Tx)
    returns (r: Result<Outcome, BlockError>)
    requires Grounded(advance, seeds, start) && WellPosed(advance, seeds, start, txOf, call)
    requires Sound(memory.states, Sense(advance, seeds, start, txOf), txOf)
    modifies memory
    ensures call.env.Sane() && Answers(call, old(memory.states), r, memory.states)
    ensures r.Ok? <==> Opened(call).Ok?
    ensures Sound(memory.states, Sense(advance, seeds, start, txOf), txOf)
  {
    var executor, error := OpenBlock(call);
    if error.Some? {
      return Err(error.value);
    }
    ghost var x := executor.View();
    ghost var f := CallFrame(advance, seeds, start, txOf, call, x);
    var outcome;
    ghost var p, log;
    outcome, p, log :=
      SelectAndExecute(executor, memory, call.config, call.cands, call.poolHashes, call.isCancelled, f);
    ghost var trail := Trail(x, StillPooled(old(memory.states), call.poolHashes), p, log);
    assert LeavesTrail(call, old(memory.states), trail, outcome, memory.states);
    r := Ok(outcome);
  }

  ghost predicate AllSound(memories: seq<map<nat, Digest>>, sem: Digest -> Situation, txOf: nat -> Tx) {
    forall i {:trigger Sound(memories[i], sem, txOf)} :: 0 <= i < |memories| ==> Sound(memories[i], sem, txOf)
  }

  lemma SoundNext(memories: seq<map<nat, Digest>>, sem: Digest -> Situation, txOf: nat -> Tx, after: map<nat, Digest>)
    requires AllSound(memories, sem, txOf) && Sound(after, sem, txOf)
    ensures AllSound(memories + [after], sem, txOf)
  {
    forall i | 0 <= i < |memories + [after]| ensures Sound((memories + [after])[i], sem, txOf) {
      if i < |memories| {
        assert Sound(memories[i], sem, txOf);
      }
    }
  }

  ghost predicate AllPosed(advance: (Digest, nat) -> Digest, seeds: iset<Digest>, start: Digest -> Situation,
                           txOf: nat -> Tx, calls: seq<Call>)
  {
    forall i {:trigger WellPosed(advance, seeds, start, txOf, calls[i])} ::
      0 <= i < |calls| ==> WellPosed(advance, seeds, start, txOf, calls[i])
  }

  lemma ChainNext(calls: seq<Call>, k: nat, results: seq<Result<Outcome, BlockError>>,
                  memories: seq<map<nat, Digest>>, r: Result<Outcome, BlockError>, after: map<nat, Digest>)
    requires k < |calls| && Chained(calls[..k], results, memories)
    requires calls[k].env.Sane() && Answers(calls[k], memories[k], r, after)
    ensures Chained(calls[..k + 1], results + [r], memories + [after])
  {
    assert calls[..k + 1][..k] == calls[..k];
    assert (results + [r])[..k] == results && (memories + [after])[..k + 1] == memories;
  }

  /** Any sequence of calls from an empty memory: every call is answered against the memory the calls
      before it left, and every memory on the way is sound. */
  method RunCalls(calls: seq<Call>, ghost advance: (Digest, nat) -> Digest, ghost seeds: iset<Digest>,
                  ghost start: Digest -> Situation, ghost txOf: nat -> Tx)
    returns (results: seq<Result<Outcome, BlockError>>, ghost memories: seq<map<nat, Digest>>)
    requires Grounded(advance, seeds, start) && AllPosed(advance, seeds, start, txOf, calls)
    ensures Chained(calls, results, memories)
    ensures AllSound(memories, Sense(advance, seeds, start, txOf), txOf)
  {
    var memory := new ZkOverflowMemory();
    ghost var sem := Sense(advance, seeds, start, txOf);
    results, memories := [], [memory.states];
    for k := 0 to |calls|
      invariant Chained(calls[..k], results, memories) && memories[k] == memory.states
      invariant Sound(memory.states, sem, txOf) && AllSound(memories, sem, txOf)
    {
      assert WellPosed(advance, seeds, start, txOf, calls[k]);
      var r := RunCall(memory, calls[k], advance, seeds, start, txOf);
      ChainNext(calls, k, results, memories, r, memory.states);
      SoundNext(memories, sem, txOf, memory.states);
      results, memories := results + [r], memories + [memory.states];
    }
    assert calls[..|calls|] == calls;
  }

  /** Every call of a chain that reached selection leaves a trail in which a candidate skipped because
      it overflowed before at the same state, perhaps in an earlier call, overflows if run at the
      block it met. */
  lemma SkipsAreSound(calls: seq<Call>, results: seq<Result<Outcome, BlockError>>, memories: seq<map<nat, Digest>>,
                      k: nat) returns (trail: Trail)
    requires Chained(calls, results, memories) && k < |calls| && results[k].Ok?
    ensures calls[k].env.Sane() && LeavesTrail(calls[k], memories[k], trail, results[k].value, memories[k + 1])
    ensures forall i :: 0 <= i < |trail.log| && trail.log[i].decision.SameStateSkip? ==>
      var e := trail.log[i];
      && e.cand.tx.hash in memories[k]
      && Strict(calls[k].env, trail.start, IncludedTxs(trail.log[..i])) == Ok(e.at)
      && Judge(calls[k].env, e.at, e.cand.tx) == Refused(ZkGasLimitExceeded)
  {
    ChainedAt(calls, results, memories, k);
    trail :| LeavesTrail(calls[k], memories[k], trail, results[k].value, memories[k + 1]);
    var env, c, known := calls[k].env, calls[k].config, trail.known;
    forall i | 0 <= i < |trail.log| && trail.log[i].decision.SameStateSkip?
      ensures var e := trail.log[i];
        && e.cand.tx.hash in memories[k]
        && Strict(env, trail.start, IncludedTxs(trail.log[..i])) == Ok(e.at)
        && Judge(env, e.at, e.cand.tx) == Refused(ZkGasLimitExceeded)
    {
      SkipIsSound(env, c, trail.start, known, trail.log, i);
    }
  }

  lemma SkipIsSound(env: Env, c: Config, start: Exec, known: map<nat, Digest>, log: seq<Entry>, i: nat)
    requires env.Sane() && AllAccounted(env, c, start, known, log)
    requires i < |log| && log[i].decision.SameStateSkip?
    ensures log[i].cand.tx.hash in known && Strict(env, start, IncludedTxs(log[..i])) == Ok(log[i].at)
    ensures Judge(env, log[i].at, log[i].cand.tx) == Refused(ZkGasLimitExceeded)
  {
    assert Accounted(env, c, start, known, log[..i], log[i]);
  }
}
