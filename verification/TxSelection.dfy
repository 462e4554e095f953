/** Selection of pool transactions into lists, executing as it goes, with a cross-call memory of zk
    gas overflows and two waste budgets (crates/block/src/tx_selection/mod.rs). */
module TxSelection {
  import opened Words
  import opened ZkGasMeter
  import opened BlockExecution
  import opened BlockExecutor
  import opened DaLimits
  import opened OverflowMemory

  /** A pool transaction with its effective tip at the block's base fee and its estimated size. */
  datatype PoolTx = PoolTx(tx: Tx, tip: Option<nat>, allowedType: bool, daSize: u64)

  /** The loop's own variables. `invalid` are the senders whose later transactions the pool
      iterator no longer yields. */
  datatype Progress = Progress(
    lists: seq<TxList>, guards: seq<DaRatioState>, digest: Digest,
    firstTimeGas: u64, rerunGas: u64, invalid: set<Address>)

  datatype Flow = Next | Stop | Fail(error: BlockError)

  datatype Outcome = Completed(lists: seq<TxList>) | Cancelled | Aborted(error: BlockError)

  /** What became of one candidate. */
  datatype Decision =
    | Descendant
    | Rejected
    | SameStateSkip
    | AllowanceSkip
    | Overflowed(rerun: bool)
    | Invalid(nonceTooLow: bool)
    | Included
    | NotRun
  {
    predicate MarksSender() {
      Rejected? || SameStateSkip? || AllowanceSkip? || Overflowed? || (Invalid? && !nonceTooLow)
    }
  }

  const EMPTY_LIST := TxList([], 0, 0)

  // ----- Lists -----

  function Flatten(lists: seq<TxList>): seq<Tx> {
    if lists == [] then []
    else Flatten(lists[..|lists| - 1]) + Txs(lists[|lists| - 1].transactions)
  }

  function GasOf(lists: seq<TxList>): nat {
    if lists == [] then 0 else GasOf(lists[..|lists| - 1]) + lists[|lists| - 1].totalGasUsed
  }

  function Gases(list: seq<ExecutedTx>): seq<nat> {
    seq(|list|, i requires 0 <= i < |list| => list[i].gasUsed)
  }

  function DaSizes(list: seq<ExecutedTx>): seq<nat> {
    seq(|list|, i requires 0 <= i < |list| => list[i].daSize)
  }

  /** Totals are the sums over the members, both limits hold, and so does the compressed size of a
      list whose estimate came within the guard of the limit. */
  ghost predicate Packed(c: Config, list: TxList) {
    && list.totalGasUsed == Sum(Gases(list.transactions)) <= c.gasLimitPerList
    && list.totalDaBytes == Sum(DaSizes(list.transactions)) <= c.maxDaBytesPerList
    && (list.transactions != [] && c.zlibGuardBytes > 0 &&
        list.totalDaBytes + c.zlibGuardBytes >= c.maxDaBytesPerList ==>
          c.zlib(Txs(list.transactions)) <= c.maxDaBytesPerList)
  }

  function ListCap(c: Config): nat {
    if c.maxLists < 1 then 1 else c.maxLists
  }

  ghost predicate AllPacked(c: Config, lists: seq<TxList>) {
    && lists != []
    && |lists| <= ListCap(c)
    && forall i :: 0 <= i < |lists| ==> Packed(c, lists[i])
  }

  /** `list` can take `cand` whatever it uses of its gas limit. */
  ghost predicate HasRoom(c: Config, list: TxList, cand: PoolTx) {
    && list.totalGasUsed + cand.tx.gasLimit <= c.gasLimitPerList
    && list.totalDaBytes + cand.daSize <= c.maxDaBytesPerList
    && (c.zlibGuardBytes > 0 && list.totalDaBytes + cand.daSize + c.zlibGuardBytes >= c.maxDaBytesPerList ==>
          c.zlib(Txs(list.transactions) + [cand.tx]) <= c.maxDaBytesPerList)
  }

  /** `list` with the candidate would break a limit. */
  ghost predicate TooBig(c: Config, list: TxList, cand: PoolTx) {
    || list.totalGasUsed + cand.tx.gasLimit > c.gasLimitPerList
    || list.totalDaBytes + cand.daSize > c.maxDaBytesPerList
    || c.zlib(Txs(list.transactions) + [cand.tx]) > c.maxDaBytesPerList
  }

  function Last<T>(s: seq<T>): T
    requires s != []
  {
    s[|s| - 1]
  }

  function Add(list: TxList, cand: PoolTx, gasUsed: u64): TxList
    requires list.totalGasUsed + gasUsed <= U64_MAX && list.totalDaBytes + cand.daSize <= U64_MAX
  {
    TxList(list.transactions + [ExecutedTx(cand.tx, gasUsed, cand.daSize)],
           list.totalGasUsed + gasUsed, list.totalDaBytes + cand.daSize)
  }

  lemma AddKeepsPacked(c: Config, list: TxList, cand: PoolTx, gasUsed: u64)
    requires c.gasLimitPerList < U64_MAX && c.maxDaBytesPerList < U64_MAX
    requires Packed(c, list) && HasRoom(c, list, cand) && gasUsed <= cand.tx.gasLimit
    ensures Packed(c, Add(list, cand, gasUsed))
    ensures Txs(Add(list, cand, gasUsed).transactions) == Txs(list.transactions) + [cand.tx]
  {
    var added := Add(list, cand, gasUsed).transactions;
    assert Gases(added) == Gases(list.transactions) + [gasUsed];
    assert DaSizes(added) == DaSizes(list.transactions) + [cand.daSize];
    SumSnoc(Gases(list.transactions), gasUsed);
    SumSnoc(DaSizes(list.transactions), cand.daSize);
    assert Txs(added) == Txs(list.transactions) + [cand.tx];
  }

  /** Replacing the last list. */
  lemma ReplaceLast(lists: seq<TxList>, list: TxList)
    requires lists != []
    ensures var lists' := lists[|lists| - 1 := list];
      && Flatten(lists') == Flatten(lists[..|lists| - 1]) + Txs(list.transactions)
      && GasOf(lists') == GasOf(lists[..|lists| - 1]) + list.totalGasUsed
  {
    var lists' := lists[|lists| - 1 := list];
    assert lists'[..|lists'| - 1] == lists[..|lists| - 1];
  }

  lemma OpenList(lists: seq<TxList>)
    ensures Flatten(lists + [EMPTY_LIST]) == Flatten(lists)
    ensures GasOf(lists + [EMPTY_LIST]) == GasOf(lists)
  {
    assert (lists + [EMPTY_LIST])[..|lists|] == lists;
    assert Txs(EMPTY_LIST.transactions) == [];
  }

  lemma {:induction false} GasWithinLists(lists: seq<TxList>, perList: nat)
    requires forall i :: 0 <= i < |lists| ==> lists[i].totalGasUsed <= perList
    ensures GasOf(lists) <= |lists| * perList
  {
    if lists != [] {
      GasWithinLists(lists[..|lists| - 1], perList);
      OneMore(|lists| - 1, perList);
    }
  }

  /** A candidate that fits its list also fits the block, when the lists together do. */
  lemma RoomFitsBlock(c: Config, lists: seq<TxList>, cand: PoolTx, startGas: nat, blockGas: nat)
    requires AllPacked(c, lists) && HasRoom(c, Last(lists), cand)
    requires startGas + ListCap(c) * c.gasLimitPerList <= blockGas
    ensures startGas + GasOf(lists) + cand.tx.gasLimit <= blockGas
  {
    var before := lists[..|lists| - 1];
    forall i | 0 <= i < |before|
      ensures before[i].totalGasUsed <= c.gasLimitPerList
    {
      assert Packed(c, lists[i]);
    }
    GasFitsCap(before, Last(lists).totalGasUsed + cand.tx.gasLimit, c.gasLimitPerList, ListCap(c));
  }

  lemma GasFitsCap(before: seq<TxList>, last: nat, perList: nat, cap: nat)
    requires forall i :: 0 <= i < |before| ==> before[i].totalGasUsed <= perList
    requires last <= perList && |before| + 1 <= cap
    ensures GasOf(before) + last <= cap * perList
  {
    GasWithinLists(before, perList);
    OneMore(|before|, perList);
    MulMono(perList, |before| + 1, cap);
  }

  /** Finds a list for `cand`, opening a new one when the current one cannot take it. */
  method PickList(c: Config, p: Progress, cand: PoolTx) returns (p': Progress, fits: bool)
    requires c.gasLimitPerList < U64_MAX && c.maxDaBytesPerList < U64_MAX
    requires AllPacked(c, p.lists) && |p.guards| == |p.lists|
    ensures p' == p.(lists := p'.lists, guards := p'.guards)
    ensures p'.lists == p.lists || p'.lists == p.lists + [EMPTY_LIST]
    ensures AllPacked(c, p'.lists) && |p'.guards| == |p'.lists|
    ensures fits ==> HasRoom(c, Last(p'.lists), cand)
    ensures p'.lists != p.lists ==> |p.lists| < c.maxLists && TooBig(c, Last(p.lists), cand)
    ensures !fits ==> TooBig(c, Last(p'.lists), cand) && (|p'.lists| >= c.maxLists || Last(p'.lists) == EMPTY_LIST)
  {
    p' := p;
    var current := |p.lists| - 1;
    var exceedsGas, exceedsDa, guard := ExceedsListLimits(c, p.lists[current], cand.tx, cand.daSize, p.guards[current]);
    p' := p'.(guards := p'.guards[current := guard]);
    if !exceedsGas && exceedsDa.None? {
      return p', true;
    }
    if |p.lists| >= c.maxLists {
      return p', false;
    }
    p' := p'.(lists := p'.lists + [EMPTY_LIST], guards := p'.guards + [NO_SAMPLES]);
    exceedsGas, exceedsDa, guard := ExceedsListLimits(c, EMPTY_LIST, cand.tx, cand.daSize, NO_SAMPLES);
    p' := p'.(guards := p'.guards[|p.lists| := guard]);
    fits := !exceedsGas && exceedsDa.None?;
  }

  // ----- One candidate -----

  /** What the digests stand for, and the block selection started from. */
  datatype Frame = Frame(start: Exec, sem: Digest -> Situation, txOf: nat -> Tx, reached: iset<Digest>)

  /** The executor is where strictly running exactly the selected transactions leads. */
  ghost predicate Invisible(executor: TaikoBlockExecutor, f: Frame, p: Progress)
    reads executor, executor.meter
  {
    && executor.Valid()
    && !executor.exhausted
    && Strict(executor.env, f.start, Flatten(p.lists)) == Ok(executor.View())
    && executor.gasUsed == f.start.gasUsed + GasOf(p.lists)
  }

  /** The current digest stands for the executor, and the memory is sound. */
  ghost predicate Remembers(executor: TaikoBlockExecutor, memory: ZkOverflowMemory, f: Frame, p: Progress)
    reads executor, memory
  {
    && p.digest in f.reached
    && f.sem(p.digest) == Situation(executor.env, executor.View())
    && Sound(memory.states, f.sem, f.txOf)
  }

  ghost predicate ConfigOk(c: Config, f: Frame) {
    && c.gasLimitPerList < U64_MAX && c.maxDaBytesPerList < U64_MAX
    && Faithful(c.advance, f.sem, f.txOf, f.reached)
  }

  /** The progress once `cand` has committed to the last list. */
  function Include(c: Config, p: Progress, cand: PoolTx, gasUsed: u64): Progress
    requires p.lists != []
    requires Last(p.lists).totalGasUsed + gasUsed <= U64_MAX && Last(p.lists).totalDaBytes + cand.daSize <= U64_MAX
  {
    p.(digest := c.advance(p.digest, cand.tx.hash),
       lists := p.lists[|p.lists| - 1 := Add(Last(p.lists), cand, gasUsed)])
  }

  /** Adding a candidate to the last list that has room for it. */
  lemma IncludePacks(c: Config, p: Progress, cand: PoolTx, gasUsed: u64)
    requires c.gasLimitPerList < U64_MAX && c.maxDaBytesPerList < U64_MAX
    requires AllPacked(c, p.lists) && HasRoom(c, Last(p.lists), cand) && gasUsed <= cand.tx.gasLimit
    ensures Last(p.lists).totalGasUsed + gasUsed <= U64_MAX && Last(p.lists).totalDaBytes + cand.daSize <= U64_MAX
    ensures var p' := Include(c, p, cand, gasUsed);
      && AllPacked(c, p'.lists)
      && Flatten(p'.lists) == Flatten(p.lists) + [cand.tx]
      && GasOf(p'.lists) == GasOf(p.lists) + gasUsed
  {
    AddKeepsPacked(c, Last(p.lists), cand, gasUsed);
    ReplaceLast(p.lists, Add(Last(p.lists), cand, gasUsed));
    ReplaceLast(p.lists, Last(p.lists));
    assert p.lists[|p.lists| - 1 := Last(p.lists)] == p.lists;
  }

  /** Including a committed candidate keeps the lists packed and the run strict. */
  lemma IncludeKeeps(env: Env, c: Config, start: Exec, p: Progress, cand: PoolTx, x: Exec, gasUsed: u64)
    requires c.gasLimitPerList < U64_MAX && c.maxDaBytesPerList < U64_MAX && env.Sane()
    requires AllPacked(c, p.lists) && HasRoom(c, Last(p.lists), cand)
    requires Strict(env, start, Flatten(p.lists)) == Ok(x)
    requires Judge(env, x, cand.tx) == Committed(gasUsed)
    ensures Last(p.lists).totalGasUsed + gasUsed <= U64_MAX && Last(p.lists).totalDaBytes + cand.daSize <= U64_MAX
    ensures var p' := Include(c, p, cand, gasUsed);
      && AllPacked(c, p'.lists)
      && Flatten(p'.lists) == Flatten(p.lists) + [cand.tx]
      && GasOf(p'.lists) == GasOf(p.lists) + gasUsed
      && Strict(env, start, Flatten(p'.lists)) == Ok(Try(env, x, cand.tx))
  {
    assert gasUsed <= cand.tx.gasLimit;
    IncludePacks(c, p, cand, gasUsed);
    StrictSnoc(env, start, Flatten(p.lists), cand.tx);
  }

  /** The decision is called for: each skip, overflow and commit has its cause in the block as it was,
      the memory, or the lists the candidate was tried on. */
  ghost predicate Justified(env: Env, c: Config, x: Exec, p: Progress, mem: map<nat, Digest>, cand: PoolTx,
                            d: Decision, p': Progress)
    requires env.Sane()
  {
    match d
    case Included => Eligible(c, cand) && Judge(env, x, cand.tx).Committed?
    case Overflowed(rerun) => Eligible(c, cand) && rerun == (cand.tx.hash in mem) &&
      Judge(env, x, cand.tx) == Refused(ZkGasLimitExceeded)
    case Invalid(nonceTooLow) => Eligible(c, cand) && Judge(env, x, cand.tx) == Refused(InvalidTransaction(nonceTooLow))
    case SameStateSkip =>
      && Eligible(c, cand) && cand.tx.hash in mem && mem[cand.tx.hash] == p.digest
      && Judge(env, x, cand.tx) == Refused(ZkGasLimitExceeded)
    case AllowanceSkip => Eligible(c, cand) && cand.tx.hash in mem && p.rerunGas >= c.gasLimitPerList
    case Rejected => !Eligible(c, cand) || Homeless(c, p'.lists, cand)
    case NotRun => !PaysIntrinsic(env, x) || (Eligible(c, cand) && Breaks(Judge(env, x, cand.tx)))
    case Descendant => false
  }

  /** A refusal that ends the selection with its error. */
  predicate Breaks(v: Verdict) {
    v.Refused? && IsFatal(v.error)
  }

  /** No list may take the candidate: the last one would break a limit, and is fresh or the last allowed. */
  ghost predicate Homeless(c: Config, lists: seq<TxList>, cand: PoolTx) {
    lists != [] && TooBig(c, Last(lists), cand) && (|lists| >= c.maxLists || Last(lists) == EMPTY_LIST)
  }

  /** How one decision moves the loop's variables, the memory and the selected transactions. `x` is
      the block the candidate met. */
  ghost predicate Moves(env: Env, c: Config, x: Exec, p: Progress, mem: map<nat, Digest>, cand: PoolTx, d: Decision,
                        p': Progress, mem': map<nat, Digest>)
    requires env.Sane()
  {
    && Flatten(p'.lists) == Flatten(p.lists) + (if d.Included? then [cand.tx] else [])
    && mem' == (if d.Included? then mem - {cand.tx.hash}
                else if d.Overflowed? then mem[cand.tx.hash := p.digest] else mem)
    && p'.invalid == p.invalid + (if d.MarksSender() then {cand.tx.signer} else {})
    && p'.firstTimeGas == (if d == Overflowed(false) then SaturatingAdd(p.firstTimeGas, cand.tx.gasLimit)
      else p.firstTimeGas)
    && p'.rerunGas == (if d == Overflowed(true) then SaturatingAdd(p.rerunGas, cand.tx.gasLimit) else p.rerunGas)
    && p'.digest == (if d.Included? then c.advance(p.digest, cand.tx.hash) else p.digest)
    && (d == Overflowed(true) ==> p.rerunGas < c.gasLimitPerList)
    && ListsMove(env, c, x, p.lists, p'.lists, cand, d)
    && Justified(env, c, x, p, mem, cand, d, p')
  }

  /** The lists a candidate was tried on: those there were, or those and a fresh one. */
  function Tried(lists: seq<TxList>, lists': seq<TxList>): seq<TxList> {
    if |lists'| > |lists| then lists + [EMPTY_LIST] else lists
  }

  /** How one decision moves the lists: a fresh list is opened only below the cap for a candidate that
      passes the filters and is too big for the last list; only a committed candidate is added, to a
      last list with room for it and with the gas it used. */
  ghost predicate ListsMove(env: Env, c: Config, x: Exec, lists: seq<TxList>, lists': seq<TxList>,
                            cand: PoolTx, d: Decision)
    requires env.Sane()
  {
    && lists != []
    && var tried := Tried(lists, lists');
    && (|tried| > |lists| ==>
          && |lists| < c.maxLists && Eligible(c, cand) && TooBig(c, Last(lists), cand)
          && !d.Descendant? && !d.SameStateSkip? && !d.AllowanceSkip?)
    && (!d.Included? ==> lists' == tried)
    && (d.Included? ==>
          && HasRoom(c, Last(tried), cand) && Judge(env, x, cand.tx).Committed?
          && lists' == tried[|tried| - 1 := Add(Last(tried), cand, Judge(env, x, cand.tx).gasUsed)])
  }

  /** The loop's variables once `cand`, not included, was decided on. */
  function Leave(p: Progress, cand: PoolTx, d: Decision): Progress {
    p.(invalid := p.invalid + (if d.MarksSender() then {cand.tx.signer} else {}),
       firstTimeGas := if d == Overflowed(false) then SaturatingAdd(p.firstTimeGas, cand.tx.gasLimit)
         else p.firstTimeGas,
       rerunGas := if d == Overflowed(true) then SaturatingAdd(p.rerunGas, cand.tx.gasLimit) else p.rerunGas)
  }

  lemma LeaveMoves(env: Env, c: Config, x: Exec, p: Progress, mem: map<nat, Digest>, cand: PoolTx, d: Decision)
    requires env.Sane() && p.lists != [] && !d.Included? && Justified(env, c, x, p, mem, cand, d, p)
    requires d == Overflowed(true) ==> p.rerunGas < c.gasLimitPerList
    ensures Moves(env, c, x, p, mem, cand, d, Leave(p, cand, d),
                  if d.Overflowed? then mem[cand.tx.hash := p.digest] else mem)
  {
    assert Flatten(p.lists) + [] == Flatten(p.lists);
  }

  lemma IncludeMoves(env: Env, c: Config, x: Exec, p: Progress, mem: map<nat, Digest>, cand: PoolTx, gasUsed: u64)
    requires env.Sane() && p.lists != [] && Eligible(c, cand) && Judge(env, x, cand.tx) == Committed(gasUsed)
    requires HasRoom(c, Last(p.lists), cand)
    requires Last(p.lists).totalGasUsed + gasUsed <= U64_MAX && Last(p.lists).totalDaBytes + cand.daSize <= U64_MAX
    requires Flatten(Include(c, p, cand, gasUsed).lists) == Flatten(p.lists) + [cand.tx]
    ensures Moves(env, c, x, p, mem, cand, Included, Include(c, p, cand, gasUsed), mem - {cand.tx.hash})
  {}

  /** An opened list or a recalibrated guard changes nothing that `Moves` speaks of. */
  lemma MovesFromPicked(env: Env, c: Config, x: Exec, p: Progress, picked: Progress, mem: map<nat, Digest>,
                        cand: PoolTx, d: Decision, p': Progress, mem': map<nat, Digest>)
    requires env.Sane() && Moves(env, c, x, picked, mem, cand, d, p', mem')
    requires picked == p.(lists := picked.lists, guards := picked.guards)
    requires p.lists != [] && |p'.lists| == |picked.lists| && Eligible(c, cand)
    requires picked.lists == p.lists ||
      (picked.lists == p.lists + [EMPTY_LIST] && |p.lists| < c.maxLists && TooBig(c, Last(p.lists), cand))
    requires d.Rejected? || d.Included? || d.Overflowed? || d.Invalid? || d.NotRun?
    ensures Moves(env, c, x, p, mem, cand, d, p', mem')
  {
    OpenList(p.lists);
  }

  /** `x` is the block before the candidate: strictly run from the start, and what the digest means. */
  ghost predicate Before(env: Env, f: Frame, p: Progress, x: Exec)
    requires env.Sane()
  {
    && Strict(env, f.start, Flatten(p.lists)) == Ok(x)
    && x.gasUsed == f.start.gasUsed + GasOf(p.lists)
    && p.digest in f.reached
    && f.sem(p.digest) == Situation(env, x)
  }

  /** Records a transaction that has just committed. */
  method AfterCommit(executor: TaikoBlockExecutor, memory: ZkOverflowMemory, c: Config, p: Progress, cand: PoolTx,
                     remembered: bool, gasUsed: u64, ghost f: Frame, ghost x: Exec)
    returns (p': Progress)
    requires executor.Valid() && ConfigOk(c, f) && f.txOf(cand.tx.hash) == cand.tx && Eligible(c, cand)
    requires AllPacked(c, p.lists) && HasRoom(c, Last(p.lists), cand)
    requires Before(executor.env, f, p, x) && Judge(executor.env, x, cand.tx) == Committed(gasUsed)
    requires executor.View() == Try(executor.env, x, cand.tx)
    requires Sound(memory.states, f.sem, f.txOf) && remembered == (cand.tx.hash in memory.states)
    modifies memory
    ensures AllPacked(c, p'.lists) && p'.guards == p.guards && |p'.lists| == |p.lists|
    ensures Invisible(executor, f, p') && Remembers(executor, memory, f, p')
    ensures Moves(executor.env, c, x, p, old(memory.states), cand, Included, p', memory.states)
  {
    if remembered {
      memory.Forget(cand.tx.hash);
    }
    assert memory.states == old(memory.states) - {cand.tx.hash};
    IncludeKeeps(executor.env, c, f.start, p, cand, x, gasUsed);
    assert Follows(c.advance, f.sem, f.txOf, f.reached, p.digest, cand.tx.hash);
    p' := Include(c, p, cand, gasUsed);
    IncludeMoves(executor.env, c, x, p, old(memory.states), cand, gasUsed);
  }

  /** Clears the exhaustion an overflowing transaction left, and remembers the transaction. */
  method AfterOverflow(executor: TaikoBlockExecutor, memory: ZkOverflowMemory, c: Config, p: Progress, cand: PoolTx,
                       remembered: bool, ghost f: Frame, ghost x: Exec)
    returns (p': Progress)
    requires executor.Valid() && f.txOf(cand.tx.hash) == cand.tx
    requires Before(executor.env, f, p, x) && !x.exhausted && p.lists != []
    requires Judge(executor.env, x, cand.tx) == Refused(ZkGasLimitExceeded)
    requires executor.View() == Try(executor.env, x, cand.tx)
    requires Sound(memory.states, f.sem, f.txOf) && remembered == (cand.tx.hash in memory.states)
    requires remembered ==> p.rerunGas < c.gasLimitPerList
    requires Eligible(c, cand)
    modifies executor`exhausted, executor`published, executor.meter, memory
    ensures p'.lists == p.lists && p'.guards == p.guards
    ensures executor.View() == x && Invisible(executor, f, p') && Remembers(executor, memory, f, p')
    ensures Moves(executor.env, c, x, p, old(memory.states), cand, Overflowed(remembered), p', memory.states)
  {
    executor.ClearZkGasExhaustion();
    memory.Record(cand.tx.hash, p.digest);
    p' := Leave(p, cand, Overflowed(remembered));
    LeaveMoves(executor.env, c, x, p, old(memory.states), cand, Overflowed(remembered));
  }

  /** Refusals that end the selection. */
  predicate IsFatal(error: BlockError) {
    error.GasLimitMoreThanAvailable? || error.Internal?
  }

  /** An invalid transaction is skipped, marking its sender unless its nonce is merely too low; any
      other refusal is fatal. */
  method AfterRefusal(executor: TaikoBlockExecutor, memory: ZkOverflowMemory, c: Config, p: Progress, cand: PoolTx,
                      error: BlockError, ghost f: Frame, ghost x: Exec)
    returns (p': Progress, flow: Flow, ghost d: Decision)
    requires Invisible(executor, f, p) && Remembers(executor, memory, f, p) && executor.View() == x && p.lists != []
    requires Eligible(c, cand) && !error.ZkGasLimitExceeded? && Judge(executor.env, x, cand.tx) == Refused(error)
    ensures p'.lists == p.lists && p'.guards == p.guards && (d.Invalid? || d.NotRun?) && !flow.Stop?
    ensures d.NotRun? <==> flow.Fail?
    ensures Invisible(executor, f, p') && Remembers(executor, memory, f, p')
    ensures Moves(executor.env, c, x, p, memory.states, cand, d, p', memory.states)
    ensures flow.Fail? ==> flow.error == error && IsFatal(error)
  {
    match error {
      case InvalidTransaction(nonceTooLow) =>
        d := Invalid(nonceTooLow);
        p', flow := Leave(p, cand, Invalid(nonceTooLow)), Next;
      case _ =>
        d := NotRun;
        p', flow := Leave(p, cand, NotRun), Fail(error);
    }
    LeaveMoves(executor.env, c, x, p, memory.states, cand, d);
  }

  /** Executes a candidate that has a list to go to. */
  method RunCandidate(executor: TaikoBlockExecutor, memory: ZkOverflowMemory, c: Config, p: Progress, cand: PoolTx,
                      remembered: bool, ghost f: Frame)
    returns (p': Progress, flow: Flow, ghost d: Decision)
    requires ConfigOk(c, f) && f.txOf(cand.tx.hash) == cand.tx
    requires AllPacked(c, p.lists) && |p.guards| == |p.lists| && HasRoom(c, Last(p.lists), cand)
    requires Invisible(executor, f, p) && Remembers(executor, memory, f, p)
    requires remembered == (cand.tx.hash in memory.states)
    requires remembered ==> p.rerunGas < c.gasLimitPerList
    requires Eligible(c, cand)
    modifies executor`state, executor`gasUsed, executor`receipts, executor`exhausted, executor`published, executor.meter
    modifies memory
    ensures AllPacked(c, p'.lists) && |p'.guards| == |p'.lists|
    ensures Invisible(executor, f, p') && Remembers(executor, memory, f, p')
    ensures Moves(executor.env, c, old(executor.View()), p, old(memory.states), cand, d, p', memory.states)
    ensures |p'.lists| == |p.lists| && (d.Included? || d.Overflowed? || d.Invalid? || d.NotRun?)
    ensures flow.Stop? <==> d == Overflowed(false) && p'.firstTimeGas >= c.gasLimitPerList
    ensures d.NotRun? <==> flow.Fail?
    ensures flow.Fail? ==>
      && executor.View() == old(executor.View())
      && Judge(executor.env, executor.View(), cand.tx) == Refused(flow.error)
      && IsFatal(flow.error)
      && p'.lists == p.lists
  {
    flow := Next;
    ghost var x := executor.View();
    var v := executor.ExecuteTransaction(cand.tx);
    match v {
      case Refused(ZkGasLimitExceeded) =>
        p' := AfterOverflow(executor, memory, c, p, cand, remembered, f, x);
        d := Overflowed(remembered);
        if !remembered && p'.firstTimeGas >= c.gasLimitPerList {
          flow := Stop;
        }
      case Refused(error) =>
        p', flow, d := AfterRefusal(executor, memory, c, p, cand, error, f, x);
      case Committed(gasUsed) =>
        d := Included;
        p' := AfterCommit(executor, memory, c, p, cand, remembered, gasUsed, f, x);
    }
  }

  /** Whether a candidate passes the filters that do not look at the block. */
  predicate Eligible(c: Config, cand: PoolTx) {
    && (c.locals == [] || cand.tx.signer in c.locals)
    && cand.tip.Some? && cand.tip.value >= c.minTip
    && cand.allowedType
    && cand.tx.gasLimit <= c.gasLimitPerList
    && cand.daSize <= c.maxDaBytesPerList
  }

  /** Whether a candidate is skipped before any list is looked at. */
  method Screen(executor: TaikoBlockExecutor, memory: ZkOverflowMemory, c: Config, p: Progress, cand: PoolTx,
                ghost f: Frame)
    returns (skip: Option<Decision>, remembered: bool)
    requires executor.Valid() && f.txOf(cand.tx.hash) == cand.tx
    requires Remembers(executor, memory, f, p)
    ensures remembered == (cand.tx.hash in memory.states)
    ensures skip == (
      if !Eligible(c, cand) then Some(Rejected)
      else if remembered && memory.states[cand.tx.hash] == p.digest then Some(SameStateSkip)
      else if remembered && p.rerunGas >= c.gasLimitPerList then Some(AllowanceSkip)
      else None)
    ensures skip == Some(SameStateSkip) ==>
      Judge(executor.env, executor.View(), cand.tx) == Refused(ZkGasLimitExceeded)
  {
    var state := memory.State(cand.tx.hash);
    remembered := state.Some?;
    if !Eligible(c, cand) {
      return Some(Rejected), remembered;
    }
    if state == Some(p.digest) {
      assert Overflows(f.sem(memory.states[cand.tx.hash]), f.txOf(cand.tx.hash));
      return Some(SameStateSkip), remembered;
    }
    if remembered && p.rerunGas >= c.gasLimitPerList {
      return Some(AllowanceSkip), remembered;
    }
    skip := None;
  }

  /** Finds a list for a screened candidate and runs it, or turns it away. */
  method PlaceAndRun(executor: TaikoBlockExecutor, memory: ZkOverflowMemory, c: Config, p: Progress, cand: PoolTx,
                     remembered: bool, ghost f: Frame)
    returns (p': Progress, flow: Flow, ghost d: Decision)
    requires ConfigOk(c, f) && f.txOf(cand.tx.hash) == cand.tx && Eligible(c, cand)
    requires AllPacked(c, p.lists) && |p.guards| == |p.lists|
    requires Invisible(executor, f, p) && Remembers(executor, memory, f, p)
    requires remembered == (cand.tx.hash in memory.states)
    requires remembered ==> p.rerunGas < c.gasLimitPerList
    modifies executor`state, executor`gasUsed, executor`receipts, executor`exhausted, executor`published, executor.meter
    modifies memory
    ensures AllPacked(c, p'.lists) && |p'.guards| == |p'.lists|
    ensures Invisible(executor, f, p') && Remembers(executor, memory, f, p')
    ensures Moves(executor.env, c, old(executor.View()), p, old(memory.states), cand, d, p', memory.states)
    ensures flow.Stop? <==> d == Overflowed(false) && p'.firstTimeGas >= c.gasLimitPerList
    ensures d.NotRun? <==> flow.Fail?
    ensures flow.Fail? ==>
      && executor.View() == old(executor.View())
      && Judge(executor.env, executor.View(), cand.tx) == Refused(flow.error)
      && IsFatal(flow.error)
      && HasRoom(c, Last(p'.lists), cand)
  {
    var picked, hasList := PickList(c, p, cand);
    OpenList(p.lists);
    if !hasList {
      LeaveMoves(executor.env, c, executor.View(), picked, memory.states, cand, Rejected);
      p', flow, d := Leave(picked, cand, Rejected), Next, Rejected;
    } else {
      p', flow, d := RunCandidate(executor, memory, c, picked, cand, remembered, f);
    }
    MovesFromPicked(executor.env, c, old(executor.View()), p, picked, old(memory.states), cand, d, p', memory.states);
  }

  /** The block can still pay one more intrinsic charge. */
  ghost predicate PaysIntrinsic(env: Env, x: Exec) {
    env.schedule.Some? ==> Fits(env, x.finalized, env.schedule.value.txIntrinsic)
  }

  /** How the loop goes on after a decision: it stops when first-time overflows have used up their
      budget or the block cannot pay, fails on a fatal refusal, and otherwise goes on. */
  ghost predicate FlowFits(env: Env, c: Config, x: Exec, cand: PoolTx, d: Decision, firstTimeGas: u64, flow: Flow)
    requires env.Sane()
  {
    && (!PaysIntrinsic(env, x) ==> d.NotRun?)
    && match flow
       case Next => !d.NotRun? && !(d == Overflowed(false) && firstTimeGas >= c.gasLimitPerList)
       case Stop =>
         || (d == Overflowed(false) && firstTimeGas >= c.gasLimitPerList)
         || (d.NotRun? && !PaysIntrinsic(env, x))
       case Fail(error) =>
         d.NotRun? && PaysIntrinsic(env, x) && Judge(env, x, cand.tx) == Refused(error) && IsFatal(error)
  }

  /** Decides on one candidate the pool iterator yields, and runs it unless it is filtered out. */
  method Consider(executor: TaikoBlockExecutor, memory: ZkOverflowMemory, c: Config, p: Progress, cand: PoolTx,
                  ghost f: Frame)
    returns (p': Progress, flow: Flow, ghost d: Decision)
    requires ConfigOk(c, f) && f.txOf(cand.tx.hash) == cand.tx
    requires AllPacked(c, p.lists) && |p.guards| == |p.lists|
    requires Invisible(executor, f, p) && Remembers(executor, memory, f, p)
    modifies executor`state, executor`gasUsed, executor`receipts, executor`exhausted, executor`published, executor.meter
    modifies memory
    ensures AllPacked(c, p'.lists) && |p'.guards| == |p'.lists|
    ensures Invisible(executor, f, p') && Remembers(executor, memory, f, p')
    ensures Moves(executor.env, c, old(executor.View()), p, old(memory.states), cand, d, p', memory.states)
    ensures FlowFits(executor.env, c, old(executor.View()), cand, d, p'.firstTimeGas, flow)
    ensures flow.Fail? ==> executor.View() == old(executor.View()) && HasRoom(c, Last(p'.lists), cand)
  {
    var fits := executor.CanFitAnotherTransactionZkGas();
    if !fits {
      LeaveMoves(executor.env, c, executor.View(), p, memory.states, cand, NotRun);
      return Leave(p, cand, NotRun), Stop, NotRun;
    }
    var skip, remembered := Screen(executor, memory, c, p, cand, f);
    if skip.Some? {
      LeaveMoves(executor.env, c, executor.View(), p, memory.states, cand, skip.value);
      return Leave(p, cand, skip.value), Next, skip.value;
    }
    p', flow, d := PlaceAndRun(executor, memory, c, p, cand, remembered, f);
  }
}
