/** Prover-mode filtering of a candidate block, strict execution of an imported one, and their
    agreement (crates/block/src/executor.rs, crates/block/src/assembler.rs and
    crates/consensus/src/validation/mod.rs). */
module ProverFilter {
  import opened Words
  import opened BlockExecution
  import opened BlockExecutor

  /** Failures that prover-style execution tolerates for a non-anchor transaction. */
  predicate IsRecoverable(error: BlockError) {
    error.ZkGasLimitExceeded? || error.InvalidTransaction? || error.GasLimitMoreThanAvailable?
  }

  /** The block and the committed transactions of a filtering run over `txs`. Only the first
      transaction may be the anchor, which must not be dropped. */
  ghost function Filter(env: Env, x: Exec, txs: seq<Tx>, anchor: bool): Result<(Exec, seq<Tx>), BlockError>
    requires env.Sane()
    decreases |txs|
  {
    if txs == [] then Ok((x, []))
    else if !anchor && txs[0].signer == ZERO_ADDRESS then Filter(env, x, txs[1..], false)
    else
      var after := Try(env, x, txs[0]);
      match Judge(env, x, txs[0])
      case Committed(_) => Keep(txs[0], Filter(env, after, txs[1..], false))
      case Refused(error) =>
        if anchor || !IsRecoverable(error) then Err(error)
        else if after.exhausted then Ok((after, []))
        else Filter(env, after, txs[1..], false)
  }

  ghost function Keep(tx: Tx, r: Result<(Exec, seq<Tx>), BlockError>): Result<(Exec, seq<Tx>), BlockError> {
    match r
    case Err(e) => Err(e)
    case Ok((x, kept)) => Ok((x, [tx] + kept))
  }

  ghost predicate Subsequence(s: seq<Tx>, t: seq<Tx>)
    decreases |t|
  {
    s == [] || (t != [] && (Subsequence(s, t[1..]) || (s[0] == t[0] && Subsequence(s[1..], t[1..]))))
  }

  /** Strictly executing what a filtering run committed commits all of it again, to the same block. */
  lemma {:induction false} FilteredIsStrict(env: Env, x: Exec, txs: seq<Tx>, anchor: bool)
    requires env.Sane() && !x.exhausted && Filter(env, x, txs, anchor).Ok?
    ensures var (end, kept) := Filter(env, x, txs, anchor).value;
      Strict(env, x, kept) == Ok(end.(exhausted := false))
    decreases |txs|
  {
    if txs == [] {
    } else if !anchor && txs[0].signer == ZERO_ADDRESS {
      FilteredIsStrict(env, x, txs[1..], false);
    } else if Judge(env, x, txs[0]).Committed? {
      FilteredIsStrict(env, Try(env, x, txs[0]), txs[1..], false);
      var kept := Filter(env, x, txs, anchor).value.1;
      assert kept[0] == txs[0] && kept[1..] == Filter(env, Try(env, x, txs[0]), txs[1..], false).value.1;
    } else if !Try(env, x, txs[0]).exhausted {
      FilteredIsStrict(env, x, txs[1..], false);
    }
  }

  /** Filtering only drops transactions, never the anchor, and keeps no unsigned one. */
  lemma {:induction false} FilterOnlyDrops(env: Env, x: Exec, txs: seq<Tx>, anchor: bool)
    requires env.Sane() && Filter(env, x, txs, anchor).Ok?
    ensures var kept := Filter(env, x, txs, anchor).value.1;
      && Subsequence(kept, txs)
      && (anchor && txs != [] ==> kept != [] && kept[0] == txs[0])
      && (forall i :: 0 <= i < |kept| && !(anchor && i == 0) ==> kept[i].signer != ZERO_ADDRESS)
    decreases |txs|
  {
    if txs == [] {
    } else if !anchor && txs[0].signer == ZERO_ADDRESS {
      FilterOnlyDrops(env, x, txs[1..], false);
    } else if Judge(env, x, txs[0]).Committed? {
      FilterOnlyDrops(env, Try(env, x, txs[0]), txs[1..], false);
      var kept := Filter(env, x, txs, anchor).value.1;
      assert kept[1..] == Filter(env, Try(env, x, txs[0]), txs[1..], false).value.1;
      assert forall i :: 1 <= i < |kept| ==> kept[i] == kept[1..][i - 1];
    } else if !Try(env, x, txs[0]).exhausted {
      FilterOnlyDrops(env, x, txs[1..], false);
    }
  }

  /** A list whose first transaction may be the anchor and whose others are all signed. */
  ghost predicate Signed(txs: seq<Tx>, anchor: bool) {
    forall i :: 0 <= i < |txs| && !(anchor && i == 0) ==> txs[i].signer != ZERO_ADDRESS
  }

  lemma {:induction false} StrictIsKept(env: Env, x: Exec, txs: seq<Tx>, anchor: bool)
    requires env.Sane() && Strict(env, x, txs).Ok? && Signed(txs, anchor)
    ensures Filter(env, x, txs, anchor) == Ok((Strict(env, x, txs).value, txs))
    decreases |txs|
  {
    if txs != [] {
      assert Judge(env, x, txs[0]).Committed?;
      StrictIsKept(env, Try(env, x, txs[0]), txs[1..], false);
      assert [txs[0]] + txs[1..] == txs;
    }
  }

  /** The two builds agree on which bodies are whole: filtering keeps a body entirely exactly when
      strict execution accepts it and only the anchor is unsigned. */
  lemma KeptWholeIffStrict(env: Env, x: Exec, txs: seq<Tx>, anchor: bool)
    requires env.Sane() && !x.exhausted
    ensures (Filter(env, x, txs, anchor).Ok? && Filter(env, x, txs, anchor).value.1 == txs) <==>
      Strict(env, x, txs).Ok? && Signed(txs, anchor)
  {
    if Filter(env, x, txs, anchor).Ok? && Filter(env, x, txs, anchor).value.1 == txs {
      FilteredIsStrict(env, x, txs, anchor);
      FilterOnlyDrops(env, x, txs, anchor);
    }
    if Strict(env, x, txs).Ok? && Signed(txs, anchor) {
      StrictIsKept(env, x, txs, anchor);
    }
  }

  /** Filtering is idempotent: filtering what was kept drops nothing more and reaches the same block. */
  lemma FilterKeepsKept(env: Env, x: Exec, txs: seq<Tx>, anchor: bool)
    requires env.Sane() && !x.exhausted && Filter(env, x, txs, anchor).Ok?
    ensures var (end, kept) := Filter(env, x, txs, anchor).value;
      Filter(env, x, kept, anchor) == Ok((end.(exhausted := false), kept))
  {
    FilteredIsStrict(env, x, txs, anchor);
    FilterOnlyDrops(env, x, txs, anchor);
    StrictIsKept(env, x, Filter(env, x, txs, anchor).value.1, anchor);
  }

  ghost function Fresh(parent: State): Exec {
    Exec(parent, 0, [], false, 0)
  }

  /** The header's claim, where there is one, is the recomputed total. */
  ghost predicate Claimed(expected: Option<nat>, finalized: nat) {
    expected.Some? ==> expected.value == finalized
  }

  /** Prover execution of a candidate block on `parent` whose header claims `expected`. */
  ghost function FilterBlock(env: Env, parent: State, txs: seq<Tx>, expected: Option<nat>)
    : Result<(Exec, seq<Tx>), BlockError>
    requires env.Sane()
  {
    match PreApply(env, Fresh(parent))
    case Err(e) => Err(e)
    case Ok(x) =>
      match Filter(env, x, txs, true)
      case Err(e) => Err(e)
      case Ok((end, kept)) => if Claimed(expected, end.finalized) then Ok((end, kept)) else Err(DifficultyMismatch)
  }

  /** Import of a block with body `txs` whose header claims `expected` as its difficulty: strict
      execution, then the difficulty check, then the body-length check. */
  ghost function ImportBlock(env: Env, parent: State, txs: seq<Tx>, expected: Option<nat>): Result<Exec, BlockError>
    requires env.Sane()
  {
    match PreApply(env, Fresh(parent))
    case Err(e) => Err(e)
    case Ok(x) =>
      match Strict(env, x, txs)
      case Err(e) => Err(e)
      case Ok(end) =>
        if !Claimed(expected, end.finalized) then Err(DifficultyMismatch)
        else if env.schedule.Some? && |txs| != |end.receipts| then Err(Internal)
        else Ok(end)
  }

  /** The header difficulty of an assembled block: the finalized zk gas where it is metered. */
  function AssembledDifficulty(env: Env, finalized: nat): nat {
    if env.schedule.Some? then finalized else env.difficulty
  }

  /** What an import checks the recomputed total against. */
  function ExpectedDifficulty(env: Env, difficulty: nat): Option<nat> {
    if env.schedule.Some? then Some(difficulty) else None
  }

  /** The block assembled from a prover run imports: with the finalized zk gas as header difficulty,
      in the environment that difficulty gives, it reaches the same block, in the strict build and in
      the filtering one. */
  lemma FilteringAgreesWithImport(env: Env, parent: State, txs: seq<Tx>, expected: Option<nat>)
    requires env.Sane() && FilterBlock(env, parent, txs, expected).Ok?
    ensures var (end, kept) := FilterBlock(env, parent, txs, expected).value;
            var difficulty := AssembledDifficulty(env, end.finalized);
            var imported := env.(difficulty := difficulty);
            var claim := ExpectedDifficulty(env, difficulty);
      && imported.Sane()
      && ImportBlock(imported, parent, kept, claim) == Ok(end.(exhausted := false))
      && FilterBlock(imported, parent, kept, claim) == Ok((end.(exhausted := false), kept))
      && |kept| == |end.receipts|
  {
    var (end, kept) := FilterBlock(env, parent, txs, expected).value;
    var x := PreApply(env, Fresh(parent)).value;
    FilteredIsStrict(env, x, txs, true);
    StrictLedger(env, x, kept);
    var difficulty := AssembledDifficulty(env, end.finalized);
    DifficultyIsIrrelevant(env, difficulty, x, kept);
    FilterOnlyDrops(env, x, txs, true);
    StrictIsKept(env.(difficulty := difficulty), x, kept, true);
    assert PreApply(env.(difficulty := difficulty), Fresh(parent)) == PreApply(env, Fresh(parent));
  }

  /** Executes `tx`, telling a commit from a tolerated failure. */
  method TryExecuteFiltered(executor: TaikoBlockExecutor, tx: Tx, isAnchor: bool) returns (r: Result<bool, BlockError>)
    requires executor.Valid()
    modifies executor`state, executor`gasUsed, executor`receipts, executor`exhausted, executor`published, executor.meter
    ensures executor.Valid()
    ensures executor.View() == Try(executor.env, old(executor.View()), tx)
    ensures r == match Judge(executor.env, old(executor.View()), tx)
      case Committed(_) => Ok(true)
      case Refused(error) => if !isAnchor && IsRecoverable(error) then Ok(false) else Err(error)
  {
    var v := executor.ExecuteTransaction(tx);
    match v {
      case Committed(_) => r := Ok(true);
      case Refused(error) => r := if !isAnchor && IsRecoverable(error) then Ok(false) else Err(error);
    }
  }

  /** The prover entry point after pre-execution: skips, filters and truncates. */
  method ExecuteWithCommittedTransactions(executor: TaikoBlockExecutor, txs: seq<Tx>)
    returns (r: Result<seq<Tx>, BlockError>)
    requires executor.Valid() && !executor.exhausted
    modifies executor`state, executor`gasUsed, executor`receipts, executor`exhausted, executor`published, executor.meter
    ensures executor.Valid()
    ensures Filter(executor.env, old(executor.View()), txs, true) ==
      (if r.Ok? then Ok((executor.View(), r.value)) else Err(r.error))
  {
    var committed := [];
    KeepAllNone(Filter(executor.env, executor.View(), txs, true));
    assert txs[0..] == txs;
    for idx := 0 to |txs|
      invariant executor.Valid() && !executor.exhausted
      invariant Filter(executor.env, old(executor.View()), txs, true) ==
        KeepAll(committed, Filter(executor.env, executor.View(), txs[idx..], idx == 0))
    {
      var isAnchor, tx := idx == 0, txs[idx];
      assert txs[idx..][1..] == txs[idx + 1..];
      if isAnchor || tx.signer != ZERO_ADDRESS {
        ghost var rest := Filter(executor.env, Try(executor.env, executor.View(), tx), txs[idx + 1..], false);
        var done := TryExecuteFiltered(executor, tx, isAnchor);
        if done.Err? {
          return Err(done.error);
        }
        if done.value {
          KeepAllSnoc(committed, tx, rest);
          committed := committed + [tx];
        }
        if executor.exhausted {
          assert committed + [] == committed;
          return Ok(committed);
        }
      }
    }
    assert committed + [] == committed;
    r := Ok(committed);
  }

  ghost function KeepAll(kept: seq<Tx>, r: Result<(Exec, seq<Tx>), BlockError>): Result<(Exec, seq<Tx>), BlockError> {
    match r
    case Err(e) => Err(e)
    case Ok((x, more)) => Ok((x, kept + more))
  }

  lemma KeepAllNone(r: Result<(Exec, seq<Tx>), BlockError>)
    ensures KeepAll([], r) == r
  {
    if r.Ok? {
      assert [] + r.value.1 == r.value.1;
    }
  }

  lemma KeepAllSnoc(kept: seq<Tx>, tx: Tx, r: Result<(Exec, seq<Tx>), BlockError>)
    ensures KeepAll(kept + [tx], r) == KeepAll(kept, Keep(tx, r))
  {
    if r.Ok? {
      assert kept + [tx] + r.value.1 == kept + ([tx] + r.value.1);
    }
  }

  /** The block a filtering run ends with, without the list of what it committed. */
  ghost function EndOf(r: Result<(Exec, seq<Tx>), BlockError>): Result<Exec, BlockError> {
    match r
    case Err(e) => Err(e)
    case Ok((x, _)) => Ok(x)
  }

  /** The filtering build's block execution: the same run as the prover entry point's. */
  method ExecuteBlock(executor: TaikoBlockExecutor, txs: seq<Tx>) returns (r: Result<(), BlockError>)
    requires executor.Valid() && !executor.exhausted
    modifies executor`state, executor`gasUsed, executor`receipts, executor`exhausted, executor`published, executor.meter
    ensures executor.Valid()
    ensures EndOf(Filter(executor.env, old(executor.View()), txs, true)) ==
      (if r.Ok? then Ok(executor.View()) else Err(r.error))
  {
    assert txs[0..] == txs;
    for idx := 0 to |txs|
      invariant executor.Valid() && !executor.exhausted
      invariant EndOf(Filter(executor.env, old(executor.View()), txs, true)) ==
        EndOf(Filter(executor.env, executor.View(), txs[idx..], idx == 0))
    {
      var isAnchor, tx := idx == 0, txs[idx];
      assert txs[idx..][1..] == txs[idx + 1..];
      if isAnchor || tx.signer != ZERO_ADDRESS {
        var done := TryExecuteFiltered(executor, tx, isAnchor);
        if done.Err? {
          return Err(done.error);
        }
        if executor.exhausted {
          return Ok(());
        }
      }
    }
    r := Ok(());
  }

  /** Strict execution of a list: every transaction has to commit. */
  method ExecuteAll(executor: TaikoBlockExecutor, txs: seq<Tx>) returns (r: Result<(), BlockError>)
    requires executor.Valid()
    modifies executor`state, executor`gasUsed, executor`receipts, executor`exhausted, executor`published, executor.meter
    ensures executor.Valid()
    ensures Strict(executor.env, old(executor.View()), txs) == (if r.Ok? then Ok(executor.View()) else Err(r.error))
  {
    for idx := 0 to |txs|
      invariant executor.Valid()
      invariant Strict(executor.env, old(executor.View()), txs) == Strict(executor.env, executor.View(), txs[idx..])
    {
      assert txs[idx..][1..] == txs[idx + 1..];
      var v := executor.ExecuteTransaction(txs[idx]);
      if v.Refused? {
        return Err(v.error);
      }
    }
    r := Ok(());
  }

  /** Proves a candidate block whose header claims `expected` and imports the result with a second
      executor: the import is accepted and reaches the same state, receipts, gas and finalized zk gas. */
  method ProveThenImport(env: Env, parent: State, txs: seq<Tx>, expected: Option<nat>)
    returns (body: Result<seq<Tx>, BlockError>, imported: Option<TaikoBlockExecutor>)
    requires env.Sane()
    ensures body.Ok? <==> imported.Some?
    ensures body.Err? ==> FilterBlock(env, parent, txs, expected) == Err(body.error)
    ensures body.Ok? ==>
      && FilterBlock(env, parent, txs, expected).Ok?
      && FilterBlock(env, parent, txs, expected).value.1 == body.value
      && imported.value.View() == FilterBlock(env, parent, txs, expected).value.0.(exhausted := false)
      && |imported.value.receipts| == |body.value|
  {
    var prover := new TaikoBlockExecutor(env, parent);
    var pre := prover.ApplyPreExecutionChanges();
    if pre.Err? {
      return Err(pre.error), None;
    }
    body := ExecuteWithCommittedTransactions(prover, txs);
    if body.Err? {
      return body, None;
    }
    var finished := prover.Finish(expected);
    if finished.Err? {
      return Err(finished.error), None;
    }
    FilteringAgreesWithImport(env, parent, txs, expected);
    var difficulty := AssembledDifficulty(env, prover.published);
    var importer := new TaikoBlockExecutor(env.(difficulty := difficulty), parent);
    pre := importer.ApplyPreExecutionChanges();
    var executed := ExecuteAll(importer, body.value);
    finished := importer.Finish(ExpectedDifficulty(env, difficulty));
    assert pre.Ok? && executed.Ok? && finished.Ok?;
    imported := Some(importer);
  }
}
