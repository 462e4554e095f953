/** A whole selection run, told by its log (crates/block/src/tx_selection/mod.rs): every decision and
    every ending has its cause, and nothing that fits and commits is missed. */
module SelectionRun {
  import opened Words
  import opened ZkGasMeter
  import opened BlockExecution
  import opened BlockExecutor
  import opened DaLimits
  import opened OverflowMemory
  import opened TxSelection

  /** One candidate the run got to, the block as it was then, what became of the candidate, and the
      lists afterwards. */
  datatype Entry = Entry(cand: PoolTx, at: Exec, decision: Decision, lists: seq<TxList>)

  // ----- What a log says about the run -----

  function IncludedTxs(log: seq<Entry>): seq<Tx> {
    if log == [] then []
    else IncludedTxs(log[..|log| - 1]) + (if Last(log).decision.Included? then [Last(log).cand.tx] else [])
  }

  /** Gas limits of the overflows of a run: of first-time ones, or of re-run ones. */
  function Wasted(log: seq<Entry>, rerun: bool): nat {
    if log == [] then 0
    else
      Wasted(log[..|log| - 1], rerun) +
      (if Last(log).decision == Overflowed(rerun) then Last(log).cand.tx.gasLimit else 0)
  }

  function ListsAfter(log: seq<Entry>): seq<TxList> {
    if log == [] then [EMPTY_LIST] else Last(log).lists
  }

  /** The digest of the block the log leads to. */
  function DigestAfter(c: Config, log: seq<Entry>): Digest {
    if log == [] then c.stateSeed
    else
      var before := DigestAfter(c, log[..|log| - 1]);
      if Last(log).decision.Included? then c.advance(before, Last(log).cand.tx.hash) else before
  }

  /** The memory the log leads to from `known`: commits are forgotten, overflows remembered at the
      digest they happened at. */
  function MemoryAfter(c: Config, known: map<nat, Digest>, log: seq<Entry>): map<nat, Digest> {
    if log == [] then known
    else
      var init, e := log[..|log| - 1], Last(log);
      var before := MemoryAfter(c, known, init);
      if e.decision.Included? then before - {e.cand.tx.hash}
      else if e.decision.Overflowed? then before[e.cand.tx.hash := DigestAfter(c, init)]
      else before
  }

  /** The senders the pool iterator drops after the decisions of a log. */
  function Dropped(log: seq<Entry>): set<Address> {
    if log == [] then {}
    else Dropped(log[..|log| - 1]) + (if Last(log).decision.MarksSender() then {Last(log).cand.tx.signer} else {})
  }

  /** Why the candidate was decided on as it was, given the run before it and the memory at the start. */
  ghost predicate Caused(env: Env, c: Config, known: map<nat, Digest>, before: seq<Entry>, e: Entry)
    requires env.Sane()
  {
    var hash, verdict := e.cand.tx.hash, Judge(env, e.at, e.cand.tx);
    match e.decision
    case Included => Eligible(c, e.cand) && verdict.Committed?
    case Overflowed(rerun) =>
      && Eligible(c, e.cand) && verdict == Refused(ZkGasLimitExceeded)
      && rerun == (hash in known) && (rerun ==> Wasted(before, true) < c.gasLimitPerList)
    case Invalid(nonceTooLow) => Eligible(c, e.cand) && verdict == Refused(InvalidTransaction(nonceTooLow))
    case SameStateSkip =>
      && Eligible(c, e.cand) && hash in known && known[hash] == DigestAfter(c, before)
      && verdict == Refused(ZkGasLimitExceeded)
    case AllowanceSkip => Eligible(c, e.cand) && hash in known && Wasted(before, true) >= c.gasLimitPerList
    case Rejected => !Eligible(c, e.cand) || Homeless(c, e.lists, e.cand)
    case Descendant => e.cand.tx.signer in Dropped(before)
    case NotRun => !PaysIntrinsic(env, e.at) || (Eligible(c, e.cand) && Breaks(verdict))
  }

  /** An entry after `before` is accounted for: the block it met is the strict run of what was
      included so far, its decision has a cause and moved the lists as it should, exactly the
      candidates of dropped senders are passed by, and none is run on a block that cannot pay. */
  ghost predicate Accounted(env: Env, c: Config, start: Exec, known: map<nat, Digest>, before: seq<Entry>, e: Entry)
    requires env.Sane()
  {
    && Strict(env, start, IncludedTxs(before)) == Ok(e.at)
    && Caused(env, c, known, before, e)
    && (e.cand.tx.signer in Dropped(before) ==> e.decision.Descendant?)
    && (!e.decision.Descendant? && !PaysIntrinsic(env, e.at) ==> e.decision.NotRun?)
    && ListsMove(env, c, e.at, ListsAfter(before), e.lists, e.cand, e.decision)
  }

  ghost predicate AllAccounted(env: Env, c: Config, start: Exec, known: map<nat, Digest>, log: seq<Entry>)
    requires env.Sane()
  {
    forall i {:trigger Accounted(env, c, start, known, log[..i], log[i])} ::
      0 <= i < |log| ==> Accounted(env, c, start, known, log[..i], log[i])
  }

  /** No included transaction is remembered as an overflow. */
  ghost predicate NoneRemembered(log: seq<Entry>, mem: map<nat, Digest>) {
    forall i :: 0 <= i < |log| && log[i].decision.Included? ==> log[i].cand.tx.hash !in mem
  }

  function Capped(n: nat): u64 {
    if n > U64_MAX then U64_MAX else n
  }

  /** The saturating counters track the exact waste, which stays within twice the cap. */
  ghost predicate Counted(c: Config, p: Progress, log: seq<Entry>) {
    && p.firstTimeGas == Capped(Wasted(log, false)) && Wasted(log, false) <= 2 * c.gasLimitPerList
    && p.rerunGas == Capped(Wasted(log, true)) && Wasted(log, true) <= 2 * c.gasLimitPerList
  }

  /** The loop's variables and the memory are what the log says. */
  ghost predicate Tracks(c: Config, known: map<nat, Digest>, p: Progress, mem: map<nat, Digest>, log: seq<Entry>) {
    && p.lists == ListsAfter(log) && Flatten(p.lists) == IncludedTxs(log)
    && p.digest == DigestAfter(c, log)
    && mem == MemoryAfter(c, known, log)
    && p.invalid == Dropped(log)
    && Counted(c, p, log)
  }

  /** The entries are about the candidates, in the order they were offered. */
  ghost predicate Lists(cands: seq<PoolTx>, log: seq<Entry>) {
    |log| <= |cands| && forall i :: 0 <= i < |log| ==> log[i].cand == cands[i]
  }

  /** The run so far as its log tells it. */
  ghost predicate Told(env: Env, c: Config, start: Exec, known: map<nat, Digest>, cands: seq<PoolTx>,
                       p: Progress, mem: map<nat, Digest>, log: seq<Entry>)
    requires env.Sane()
  {
    && Lists(cands, log)
    && Tracks(c, known, p, mem, log)
    && AllAccounted(env, c, start, known, log)
  }

  ghost predicate Offered(cands: seq<PoolTx>, poolHashes: set<nat>, txOf: nat -> Tx) {
    && (forall i :: 0 <= i < |cands| ==> cands[i].tx.hash in poolHashes && txOf(cands[i].tx.hash) == cands[i].tx)
    && (forall i, j :: 0 <= i < j < |cands| ==> cands[i].tx.hash != cands[j].tx.hash)
  }

  // ----- How a run ends -----

  /** First-time overflows have not used up their budget. */
  ghost predicate UnderCap(c: Config, log: seq<Entry>) {
    Wasted(log, false) < c.gasLimitPerList || Wasted(log, false) == 0
  }

  /** Every candidate in the log was decided on. */
  ghost predicate NonePassedOver(log: seq<Entry>) {
    forall i :: 0 <= i < |log| ==> !log[i].decision.NotRun?
  }

  /** A run with this log goes on to its next candidate. */
  ghost predicate GoesOn(c: Config, log: seq<Entry>) {
    UnderCap(c, log) && NonePassedOver(log)
  }

  /** The last entry stops the run: a first-time overflow used up the budget, or the block can no
      longer pay an intrinsic charge. */
  ghost predicate Halts(env: Env, c: Config, log: seq<Entry>) {
    && log != []
    && (|| (Last(log).decision == Overflowed(false) && Wasted(log, false) >= c.gasLimitPerList)
        || (Last(log).decision.NotRun? && !PaysIntrinsic(env, Last(log).at)))
  }

  /** The last entry is a candidate whose run failed with `error`, which is fatal. */
  ghost predicate Fails(env: Env, log: seq<Entry>, error: BlockError)
    requires env.Sane()
  {
    && log != [] && Last(log).decision.NotRun? && PaysIntrinsic(env, Last(log).at)
    && Judge(env, Last(log).at, Last(log).cand.tx) == Refused(error) && IsFatal(error)
  }

  /** No candidate the iterator yielded was looked at once cancellation was asked for. */
  ghost predicate Heeds(log: seq<Entry>, isCancelled: nat -> bool) {
    forall i :: 0 <= i < |log| && isCancelled(i) ==> log[i].decision.Descendant?
  }

  /** The run has this outcome for a reason. */
  ghost predicate Ends(env: Env, c: Config, cands: seq<PoolTx>, isCancelled: nat -> bool, log: seq<Entry>,
                       outcome: Outcome)
    requires env.Sane()
  {
    match outcome
    case Completed(lists) =>
      lists == ListsAfter(log) && ((|log| == |cands| && NonePassedOver(log)) || Halts(env, c, log))
    case Cancelled =>
      |log| < |cands| && isCancelled(|log|) && cands[|log|].tx.signer !in Dropped(log) && NonePassedOver(log)
    case Aborted(error) => Fails(env, log, error)
  }

  // ----- The log grows by one entry -----

  lemma AccountNext(env: Env, c: Config, start: Exec, known: map<nat, Digest>, log: seq<Entry>, e: Entry)
    requires env.Sane() && AllAccounted(env, c, start, known, log) && Accounted(env, c, start, known, log, e)
    ensures AllAccounted(env, c, start, known, log + [e])
  {
    var more := log + [e];
    forall i | 0 <= i < |more| ensures Accounted(env, c, start, known, more[..i], more[i]) {
      if i < |log| {
        assert more[..i] == log[..i] && more[i] == log[i];
        assert Accounted(env, c, start, known, log[..i], log[i]);
      } else {
        assert more[..i] == log && more[i] == e;
      }
    }
  }

  lemma SnocLog(log: seq<Entry>, e: Entry)
    ensures (log + [e])[..|log + [e]| - 1] == log
    ensures IncludedTxs(log + [e]) == IncludedTxs(log) + (if e.decision.Included? then [e.cand.tx] else [])
    ensures forall rerun ::
      Wasted(log + [e], rerun) == Wasted(log, rerun) +
        (if e.decision == Overflowed(rerun) then e.cand.tx.gasLimit else 0)
    ensures ListsAfter(log + [e]) == e.lists
    ensures Dropped(log + [e]) == Dropped(log) + (if e.decision.MarksSender() then {e.cand.tx.signer} else {})
  {
    assert (log + [e])[..|log + [e]| - 1] == log;
  }

  lemma SnocMemory(c: Config, known: map<nat, Digest>, log: seq<Entry>, e: Entry)
    ensures DigestAfter(c, log + [e]) ==
      if e.decision.Included? then c.advance(DigestAfter(c, log), e.cand.tx.hash) else DigestAfter(c, log)
    ensures var before := MemoryAfter(c, known, log);
      MemoryAfter(c, known, log + [e]) ==
      if e.decision.Included? then before - {e.cand.tx.hash}
      else if e.decision.Overflowed? then before[e.cand.tx.hash := DigestAfter(c, log)]
      else before
  {
    assert (log + [e])[..|log + [e]| - 1] == log;
  }

  lemma ListsNext(cands: seq<PoolTx>, log: seq<Entry>, e: Entry)
    requires Lists(cands, log) && |log| < |cands| && e.cand == cands[|log|]
    ensures Lists(cands, log + [e])
  {
  }

  /** Decisions on other transactions leave what is remembered of `hash` alone. */
  lemma {:induction false} UndecidedIsKept(c: Config, known: map<nat, Digest>, log: seq<Entry>, hash: nat)
    requires forall i :: 0 <= i < |log| ==> log[i].cand.tx.hash != hash
    ensures var mem := MemoryAfter(c, known, log);
      (hash in mem <==> hash in known) && (hash in known ==> mem[hash] == known[hash])
    decreases |log|
  {
    if log != [] {
      UndecidedIsKept(c, known, log[..|log| - 1], hash);
    }
  }

  /** An included transaction is forgotten for good. */
  lemma {:induction false} IncludedIsForgotten(c: Config, known: map<nat, Digest>, log: seq<Entry>, i: nat)
    requires i < |log| && log[i].decision.Included?
    requires forall j :: i < j < |log| ==> log[j].cand.tx.hash != log[i].cand.tx.hash
    ensures log[i].cand.tx.hash !in MemoryAfter(c, known, log)
    decreases |log|
  {
    if i < |log| - 1 {
      IncludedIsForgotten(c, known, log[..|log| - 1], i);
    }
  }

  lemma IncludedAreForgotten(c: Config, known: map<nat, Digest>, cands: seq<PoolTx>, poolHashes: set<nat>,
                             txOf: nat -> Tx, log: seq<Entry>)
    requires Offered(cands, poolHashes, txOf) && Lists(cands, log)
    ensures NoneRemembered(log, MemoryAfter(c, known, log))
  {
    forall i | 0 <= i < |log| && log[i].decision.Included?
      ensures log[i].cand.tx.hash !in MemoryAfter(c, known, log)
    {
      IncludedIsForgotten(c, known, log, i);
    }
  }

  lemma CountNext(c: Config, p: Progress, d: Decision, gasLimit: u64, p': Progress, log: seq<Entry>, e: Entry)
    requires Counted(c, p, log) && UnderCap(c, log) && c.gasLimitPerList < U64_MAX
    requires e.decision == d && e.cand.tx.gasLimit == gasLimit && (d.Overflowed? ==> gasLimit <= c.gasLimitPerList)
    requires d == Overflowed(true) ==> p.rerunGas < c.gasLimitPerList
    requires p'.firstTimeGas ==
      if d == Overflowed(false) then SaturatingAdd(p.firstTimeGas, gasLimit) else p.firstTimeGas
    requires p'.rerunGas == if d == Overflowed(true) then SaturatingAdd(p.rerunGas, gasLimit) else p.rerunGas
    ensures Counted(c, p', log + [e])
  {
    SnocLog(log, e);
  }

  lemma TrackNext(env: Env, c: Config, known: map<nat, Digest>, p: Progress, mem: map<nat, Digest>, log: seq<Entry>,
                  x: Exec, cand: PoolTx, d: Decision, p': Progress, mem': map<nat, Digest>)
    requires env.Sane() && c.gasLimitPerList < U64_MAX && Tracks(c, known, p, mem, log) && UnderCap(c, log)
    requires Moves(env, c, x, p, mem, cand, d, p', mem')
    ensures Tracks(c, known, p', mem', log + [Entry(cand, x, d, p'.lists)])
  {
    var e := Entry(cand, x, d, p'.lists);
    SnocLog(log, e);
    SnocMemory(c, known, log, e);
    CountNext(c, p, d, cand.tx.gasLimit, p', log, e);
  }

  /** What justified a decision to the loop is a cause the log can show. */
  lemma CauseShows(env: Env, c: Config, known: map<nat, Digest>, p: Progress, mem: map<nat, Digest>, log: seq<Entry>,
                   x: Exec, cand: PoolTx, d: Decision, p': Progress, mem': map<nat, Digest>)
    requires env.Sane() && c.gasLimitPerList < U64_MAX && Tracks(c, known, p, mem, log)
    requires Moves(env, c, x, p, mem, cand, d, p', mem')
    requires forall i :: 0 <= i < |log| ==> log[i].cand.tx.hash != cand.tx.hash
    ensures Caused(env, c, known, log, Entry(cand, x, d, p'.lists))
  {
    UndecidedIsKept(c, known, log, cand.tx.hash);
  }

  lemma TellSkipped(env: Env, c: Config, start: Exec, known: map<nat, Digest>, cands: seq<PoolTx>,
                    p: Progress, mem: map<nat, Digest>, log: seq<Entry>, x: Exec)
    requires env.Sane() && Told(env, c, start, known, cands, p, mem, log) && p.lists != []
    requires |log| < |cands| && cands[|log|].tx.signer in p.invalid
    requires Strict(env, start, Flatten(p.lists)) == Ok(x)
    ensures Told(env, c, start, known, cands, p, mem, log + [Entry(cands[|log|], x, Descendant, p.lists)])
  {
    var e := Entry(cands[|log|], x, Descendant, p.lists);
    ListsNext(cands, log, e);
    AccountNext(env, c, start, known, log, e);
    TrackSkipped(c, known, p, mem, log, e);
  }

  lemma TrackSkipped(c: Config, known: map<nat, Digest>, p: Progress, mem: map<nat, Digest>, log: seq<Entry>, e: Entry)
    requires Tracks(c, known, p, mem, log) && e.decision.Descendant? && e.lists == p.lists
    ensures Tracks(c, known, p, mem, log + [e])
  {
    SnocLog(log, e);
    SnocMemory(c, known, log, e);
  }

  lemma NotDecidedYet(cands: seq<PoolTx>, poolHashes: set<nat>, txOf: nat -> Tx, log: seq<Entry>)
    requires Offered(cands, poolHashes, txOf) && Lists(cands, log) && |log| < |cands|
    ensures forall i :: 0 <= i < |log| ==> log[i].cand.tx.hash != cands[|log|].tx.hash
  {
  }

  lemma AccountConsidered(env: Env, c: Config, start: Exec, known: map<nat, Digest>, p: Progress,
                          mem: map<nat, Digest>, log: seq<Entry>, x: Exec, cand: PoolTx, d: Decision, p': Progress,
                          mem': map<nat, Digest>)
    requires env.Sane() && c.gasLimitPerList < U64_MAX && Tracks(c, known, p, mem, log)
    requires cand.tx.signer !in p.invalid && Strict(env, start, Flatten(p.lists)) == Ok(x)
    requires Moves(env, c, x, p, mem, cand, d, p', mem') && (!PaysIntrinsic(env, x) ==> d.NotRun?)
    requires forall i :: 0 <= i < |log| ==> log[i].cand.tx.hash != cand.tx.hash
    ensures Accounted(env, c, start, known, log, Entry(cand, x, d, p'.lists))
  {
    CauseShows(env, c, known, p, mem, log, x, cand, d, p', mem');
  }

  lemma TellConsidered(env: Env, c: Config, start: Exec, known: map<nat, Digest>, cands: seq<PoolTx>,
                       poolHashes: set<nat>, txOf: nat -> Tx, p: Progress, mem: map<nat, Digest>,
                       log: seq<Entry>, x: Exec, d: Decision, p': Progress, mem': map<nat, Digest>)
    requires env.Sane() && c.gasLimitPerList < U64_MAX && Offered(cands, poolHashes, txOf)
    requires Told(env, c, start, known, cands, p, mem, log) && UnderCap(c, log)
    requires |log| < |cands| && cands[|log|].tx.signer !in p.invalid
    requires Strict(env, start, Flatten(p.lists)) == Ok(x)
    requires Moves(env, c, x, p, mem, cands[|log|], d, p', mem') && (!PaysIntrinsic(env, x) ==> d.NotRun?)
    ensures Told(env, c, start, known, cands, p', mem', log + [Entry(cands[|log|], x, d, p'.lists)])
  {
    var cand := cands[|log|];
    var e := Entry(cand, x, d, p'.lists);
    NotDecidedYet(cands, poolHashes, txOf, log);
    ListsNext(cands, log, e);
    AccountConsidered(env, c, start, known, p, mem, log, x, cand, d, p', mem');
    AccountNext(env, c, start, known, log, e);
    TrackNext(env, c, known, p, mem, log, x, cand, d, p', mem');
  }

  // ----- Nothing that fits is missed -----

  /** A committing transaction's demand covers the intrinsic charge. */
  lemma CommittedPays(env: Env, x: Exec, tx: Tx)
    requires env.Sane() && Judge(env, x, tx).Committed?
    ensures PaysIntrinsic(env, x)
  {
  }

  /** A candidate the run got to is included whenever its sender was not dropped, it passes the
      filters, is not too big for the list at hand, commits on the block as it is, and, if remembered
      as an overflow, the re-run allowance is not used up. */
  lemma NoneMissed(env: Env, c: Config, start: Exec, known: map<nat, Digest>, log: seq<Entry>, i: nat)
    requires env.Sane() && AllAccounted(env, c, start, known, log) && i < |log|
    requires log[i].cand.tx.signer !in Dropped(log[..i]) && Eligible(c, log[i].cand)
    requires ListsAfter(log[..i]) != [] && !TooBig(c, Last(ListsAfter(log[..i])), log[i].cand)
    requires Judge(env, log[i].at, log[i].cand.tx).Committed?
    requires log[i].cand.tx.hash in known ==> Wasted(log[..i], true) < c.gasLimitPerList
    ensures log[i].decision.Included?
  {
    assert Accounted(env, c, start, known, log[..i], log[i]);
    CommittedPays(env, log[i].at, log[i].cand.tx);
  }

  lemma FatalIsInternal(env: Env, c: Config, start: Exec, x: Exec, lists: seq<TxList>, cand: PoolTx, error: BlockError)
    requires env.Sane() && AllPacked(c, lists) && HasRoom(c, Last(lists), cand)
    requires x.gasUsed == start.gasUsed + GasOf(lists) && !x.exhausted
    requires Judge(env, x, cand.tx) == Refused(error) && IsFatal(error)
    ensures ListsFitBlock(env, c, start) ==> error == Internal
  {
    if ListsFitBlock(env, c, start) {
      RoomFitsBlock(c, lists, cand, start.gasUsed, env.gasLimit);
    }
  }

  /** The block can take the gas of as many full lists as may be produced. */
  ghost predicate ListsFitBlock(env: Env, c: Config, start: Exec) {
    start.gasUsed + ListCap(c) * c.gasLimitPerList <= env.gasLimit
  }

  // ----- The loop -----

  /** What a run starts with: one empty list, nothing told, nothing wasted. */
  function StartOf(c: Config): Progress {
    Progress([EMPTY_LIST], [NO_SAMPLES], c.stateSeed, 0, 0, {})
  }

  lemma StartPacked(c: Config)
    ensures Flatten(StartOf(c).lists) == [] && GasOf(StartOf(c).lists) == 0 && AllPacked(c, StartOf(c).lists)
  {
    OpenList([]);
    assert [] + [EMPTY_LIST] == [EMPTY_LIST];
  }

  lemma StartTold(env: Env, c: Config, start: Exec, known: map<nat, Digest>, cands: seq<PoolTx>)
    requires env.Sane()
    ensures Told(env, c, start, known, cands, StartOf(c), known, []) && GoesOn(c, [])
  {
    StartPacked(c);
  }

  /** What the flow after one more entry means: the run goes on, stops or fails, each for its reason. */
  ghost predicate Means(env: Env, c: Config, start: Exec, flow: Flow, log: seq<Entry>)
    requires env.Sane()
  {
    match flow
    case Next => GoesOn(c, log)
    case Stop => Halts(env, c, log)
    case Fail(error) => Fails(env, log, error) && (ListsFitBlock(env, c, start) ==> error == Internal)
  }

  lemma SkipGoesOn(c: Config, log: seq<Entry>, e: Entry)
    requires GoesOn(c, log) && e.decision.Descendant?
    ensures GoesOn(c, log + [e])
  {
    SnocLog(log, e);
  }

  lemma FlowMeans(env: Env, c: Config, start: Exec, flow: Flow, p': Progress, log: seq<Entry>, e: Entry)
    requires env.Sane() && GoesOn(c, log) && Counted(c, p', log + [e]) && c.gasLimitPerList < U64_MAX
    requires FlowFits(env, c, e.at, e.cand, e.decision, p'.firstTimeGas, flow)
    requires flow.Fail? && ListsFitBlock(env, c, start) ==> flow.error == Internal
    ensures Means(env, c, start, flow, log + [e])
  {
    SnocLog(log, e);
  }

  /** Considers candidate `i` and writes it into the log. */
  method ConsiderNext(executor: TaikoBlockExecutor, memory: ZkOverflowMemory, c: Config, q: Progress, i: nat,
                      ghost f: Frame, cands: seq<PoolTx>, ghost poolHashes: set<nat>,
                      ghost known: map<nat, Digest>, ghost log: seq<Entry>)
    returns (q': Progress, flow: Flow, ghost e: Entry)
    requires ConfigOk(c, f) && Offered(cands, poolHashes, f.txOf)
    requires i == |log| < |cands| && cands[i].tx.signer !in q.invalid
    requires AllPacked(c, q.lists) && |q.guards| == |q.lists|
    requires Invisible(executor, f, q) && Remembers(executor, memory, f, q)
    requires Told(executor.env, c, f.start, known, cands, q, memory.states, log) && GoesOn(c, log)
    modifies executor`state, executor`gasUsed, executor`receipts, executor`exhausted, executor`published, executor.meter
    modifies memory
    ensures AllPacked(c, q'.lists) && |q'.guards| == |q'.lists|
    ensures Invisible(executor, f, q') && Remembers(executor, memory, f, q')
    ensures Told(executor.env, c, f.start, known, cands, q', memory.states, log + [e])
    ensures Means(executor.env, c, f.start, flow, log + [e])
  {
    ghost var x, mem, d := executor.View(), memory.states, NotRun;
    q', flow, d := Consider(executor, memory, c, q, cands[i], f);
    TellConsidered(executor.env, c, f.start, known, cands, poolHashes, f.txOf, q, mem, log, x, d, q', memory.states);
    e := Entry(cands[i], x, d, q'.lists);
    if flow.Fail? {
      FatalIsInternal(executor.env, c, f.start, executor.View(), q'.lists, cands[i], flow.error);
    }
    FlowMeans(executor.env, c, f.start, flow, q', log, e);
  }

  /** The log so far: only its last entry may end the run, and cancellation was heeded. */
  ghost predicate Orderly(c: Config, log: seq<Entry>, isCancelled: nat -> bool) {
    (log != [] ==> GoesOn(c, log[..|log| - 1])) && Heeds(log, isCancelled)
  }

  lemma OrderlyNext(c: Config, log: seq<Entry>, e: Entry, isCancelled: nat -> bool)
    requires GoesOn(c, log) && Orderly(c, log, isCancelled) && (isCancelled(|log|) ==> e.decision.Descendant?)
    ensures Orderly(c, log + [e], isCancelled)
  {
    assert (log + [e])[..|log|] == log;
  }

  /** The outcome a flow stands for, unless the run goes on. */
  function OutcomeOf(flow: Flow, lists: seq<TxList>): Option<Outcome> {
    match flow
    case Next => None
    case Stop => Some(Completed(lists))
    case Fail(error) => Some(Aborted(error))
  }

  /** The run goes on, or ends with this outcome for its reason. */
  ghost predicate Resolves(env: Env, c: Config, start: Exec, cands: seq<PoolTx>, isCancelled: nat -> bool,
                           log: seq<Entry>, end: Option<Outcome>)
    requires env.Sane()
  {
    match end
    case None => GoesOn(c, log)
    case Some(outcome) =>
      && Ends(env, c, cands, isCancelled, log, outcome)
      && (outcome.Aborted? && ListsFitBlock(env, c, start) ==> outcome.error == Internal)
  }

  lemma FlowResolves(env: Env, c: Config, start: Exec, cands: seq<PoolTx>, isCancelled: nat -> bool,
                     log: seq<Entry>, flow: Flow)
    requires env.Sane() && Means(env, c, start, flow, log)
    ensures Resolves(env, c, start, cands, isCancelled, log, OutcomeOf(flow, ListsAfter(log)))
  {
  }

  /** Passing by a candidate of a dropped sender keeps the run told, orderly and going on. */
  lemma PassBy(env: Env, c: Config, start: Exec, known: map<nat, Digest>, cands: seq<PoolTx>,
               isCancelled: nat -> bool, p: Progress, mem: map<nat, Digest>, log: seq<Entry>, x: Exec, e: Entry)
    requires env.Sane() && Told(env, c, start, known, cands, p, mem, log) && p.lists != []
    requires |log| < |cands| && cands[|log|].tx.signer in p.invalid
    requires Strict(env, start, Flatten(p.lists)) == Ok(x) && e == Entry(cands[|log|], x, Descendant, p.lists)
    requires GoesOn(c, log) && Orderly(c, log, isCancelled)
    ensures Told(env, c, start, known, cands, p, mem, log + [e])
    ensures Orderly(c, log + [e], isCancelled) && GoesOn(c, log + [e])
  {
    TellSkipped(env, c, start, known, cands, p, mem, log, x);
    SkipGoesOn(c, log, e);
    OrderlyNext(c, log, e, isCancelled);
  }

  /** The turn of a candidate that is offered and not cancelled. */
  method TakeTurn(executor: TaikoBlockExecutor, memory: ZkOverflowMemory, c: Config, q: Progress, i: nat,
                  ghost isCancelled: nat -> bool, ghost f: Frame, cands: seq<PoolTx>, ghost poolHashes: set<nat>,
                  ghost known: map<nat, Digest>, ghost log: seq<Entry>)
    returns (q': Progress, end: Option<Outcome>, ghost e: Entry)
    requires ConfigOk(c, f) && Offered(cands, poolHashes, f.txOf) && i == |log| < |cands|
    requires cands[i].tx.signer !in q.invalid && !isCancelled(i)
    requires AllPacked(c, q.lists) && |q.guards| == |q.lists|
    requires Invisible(executor, f, q) && Remembers(executor, memory, f, q)
    requires Told(executor.env, c, f.start, known, cands, q, memory.states, log)
    requires GoesOn(c, log) && Orderly(c, log, isCancelled)
    modifies executor`state, executor`gasUsed, executor`receipts, executor`exhausted, executor`published, executor.meter
    modifies memory
    ensures AllPacked(c, q'.lists) && |q'.guards| == |q'.lists|
    ensures Invisible(executor, f, q') && Remembers(executor, memory, f, q')
    ensures Told(executor.env, c, f.start, known, cands, q', memory.states, log + [e])
    ensures Orderly(c, log + [e], isCancelled) && end != Some(Cancelled)
    ensures Resolves(executor.env, c, f.start, cands, isCancelled, log + [e], end)
  {
    var flow;
    q', flow, e := ConsiderNext(executor, memory, c, q, i, f, cands, poolHashes, known, log);
    OrderlyNext(c, log, e, isCancelled);
    FlowResolves(executor.env, c, f.start, cands, isCancelled, log + [e], flow);
    end := OutcomeOf(flow, q'.lists);
  }

  function Extended(log: seq<Entry>, e: Option<Entry>): seq<Entry> {
    match e
    case None => log
    case Some(next) => log + [next]
  }

  /** One turn of the loop: a candidate of a dropped sender is not even offered, then cancellation is
      asked for, then the candidate is considered. A turn adds one entry to the log, unless it
      ends the run by cancellation. */
  method Turn(executor: TaikoBlockExecutor, memory: ZkOverflowMemory, c: Config, q: Progress, i: nat,
              isCancelled: nat -> bool, ghost f: Frame, cands: seq<PoolTx>, ghost poolHashes: set<nat>,
              ghost known: map<nat, Digest>, ghost log: seq<Entry>)
    returns (q': Progress, end: Option<Outcome>, ghost e: Option<Entry>)
    requires ConfigOk(c, f) && Offered(cands, poolHashes, f.txOf) && i == |log| < |cands|
    requires AllPacked(c, q.lists) && |q.guards| == |q.lists|
    requires Invisible(executor, f, q) && Remembers(executor, memory, f, q)
    requires Told(executor.env, c, f.start, known, cands, q, memory.states, log)
    requires GoesOn(c, log) && Orderly(c, log, isCancelled)
    modifies executor`state, executor`gasUsed, executor`receipts, executor`exhausted, executor`published, executor.meter
    modifies memory
    ensures AllPacked(c, q'.lists) && |q'.guards| == |q'.lists|
    ensures Invisible(executor, f, q') && Remembers(executor, memory, f, q')
    ensures e.None? <==> end == Some(Cancelled)
    ensures Told(executor.env, c, f.start, known, cands, q', memory.states, Extended(log, e))
    ensures Orderly(c, Extended(log, e), isCancelled)
    ensures Resolves(executor.env, c, f.start, cands, isCancelled, Extended(log, e), end)
  {
    if cands[i].tx.signer in q.invalid {
      ghost var passed := Entry(cands[i], executor.View(), Descendant, q.lists);
      PassBy(executor.env, c, f.start, known, cands, isCancelled, q, memory.states, log, executor.View(), passed);
      return q, None, Some(passed);
    }
    if isCancelled(i) {
      return q, Some(Cancelled), None;
    }
    ghost var taken;
    q', end, taken := TakeTurn(executor, memory, c, q, i, isCancelled, f, cands, poolHashes, known, log);
    e := Some(taken);
  }

  /** The loop, from a memory that holds nothing but pooled transactions. */
  method RunLoop(executor: TaikoBlockExecutor, memory: ZkOverflowMemory, c: Config, cands: seq<PoolTx>,
                 ghost poolHashes: set<nat>, isCancelled: nat -> bool, ghost f: Frame)
    returns (outcome: Outcome, ghost p: Progress, ghost log: seq<Entry>)
    requires executor.Valid() && !executor.exhausted && f.start == executor.View() && ConfigOk(c, f)
    requires c.stateSeed in f.reached && f.sem(c.stateSeed) == Situation(executor.env, executor.View())
    requires Sound(memory.states, f.sem, f.txOf) && Offered(cands, poolHashes, f.txOf)
    modifies executor`state, executor`gasUsed, executor`receipts, executor`exhausted, executor`published, executor.meter
    modifies memory
    ensures Invisible(executor, f, p) && AllPacked(c, p.lists) && Sound(memory.states, f.sem, f.txOf)
    ensures Told(executor.env, c, f.start, old(memory.states), cands, p, memory.states, log)
    ensures Orderly(c, log, isCancelled)
    ensures Resolves(executor.env, c, f.start, cands, isCancelled, log, Some(outcome))
  {
    ghost var known := memory.states;
    var q, i, end := StartOf(c), 0, None;
    log := [];
    StartPacked(c);
    StartTold(executor.env, c, f.start, known, cands);
    while end.None? && i < |cands|
      invariant AllPacked(c, q.lists) && |q.guards| == |q.lists|
      invariant Invisible(executor, f, q) && Remembers(executor, memory, f, q)
      invariant Told(executor.env, c, f.start, known, cands, q, memory.states, log) && Orderly(c, log, isCancelled)
      invariant i <= |cands| && (end.None? ==> |log| == i)
      invariant Resolves(executor.env, c, f.start, cands, isCancelled, log, end)
    {
      ghost var e;
      q, end, e := Turn(executor, memory, c, q, i, isCancelled, f, cands, poolHashes, known, log);
      log, i := Extended(log, e), i + 1;
    }
    p := q;
    outcome := match end case None => Completed(q.lists) case Some(o) => o;
  }

  /** What is remembered of the transactions still in the pool. */
  ghost function StillPooled(states: map<nat, Digest>, poolHashes: set<nat>): map<nat, Digest> {
    map tx | tx in states && tx in poolHashes :: states[tx]
  }

  /** Selects and executes pool transactions. `cands` is the order in which the iterator offers
      them, `poolHashes` what the pool holds, `isCancelled` the answers of the cancellation check.

      Skipping is invisible: the executor ends where strictly executing the selected transactions
      in order would leave it. Every list is packed within its limits. The memory stays sound and
      holds no included transaction, and the gas limits spent on first-time and on re-run overflows
      are each at most twice the per-list cap. The log tells every decision with its cause, goes on
      as long as it may and as cancellation lets it, and ends as the outcome says: completed once all
      candidates are decided on or one stops the run, cancelled only when asked to, aborted only by a
      candidate's own fatal error. When the lists together fit the block, the only fatal errors left
      are the EVM's own. */
  method SelectAndExecute(executor: TaikoBlockExecutor, memory: ZkOverflowMemory, c: Config, cands: seq<PoolTx>,
                          poolHashes: set<nat>, isCancelled: nat -> bool, ghost f: Frame)
    returns (outcome: Outcome, ghost p: Progress, ghost log: seq<Entry>)
    requires executor.Valid() && !executor.exhausted && f.start == executor.View() && ConfigOk(c, f)
    requires c.stateSeed in f.reached && f.sem(c.stateSeed) == Situation(executor.env, executor.View())
    requires Sound(memory.states, f.sem, f.txOf) && Offered(cands, poolHashes, f.txOf)
    modifies executor`state, executor`gasUsed, executor`receipts, executor`exhausted, executor`published, executor.meter
    modifies memory
    ensures Invisible(executor, f, p)
    ensures AllPacked(c, p.lists)
    ensures Sound(memory.states, f.sem, f.txOf)
    ensures Told(executor.env, c, f.start, StillPooled(old(memory.states), poolHashes), cands, p, memory.states, log)
    ensures NoneRemembered(log, memory.states)
    ensures Orderly(c, log, isCancelled)
    ensures Ends(executor.env, c, cands, isCancelled, log, outcome)
    ensures outcome.Aborted? && ListsFitBlock(executor.env, c, f.start) ==> outcome.error == Internal
  {
    memory.Retain(poolHashes);
    ghost var known := StillPooled(old(memory.states), poolHashes);
    assert memory.states == known;
    outcome, p, log := RunLoop(executor, memory, c, cands, poolHashes, isCancelled, f);
    IncludedAreForgotten(c, known, cands, poolHashes, f.txOf, log);
  }
}
