/** Surviving logs of a whole block and their comparison with the stored receipts
    (crates/rpc/src/trace.rs): indices run through the block in execution order, and the check
    accepts exactly the events that are the receipt logs. */
module FormattedEvents {
  import opened Words
  import opened TraceArena
  import opened TraceTree
  import opened TraceFlatten
  import opened TracePartition
  import opened TraceIds
  import opened TraceLogs
  import TraceBuild
  import opened TraceBlock

  datatype ReceiptLog = ReceiptLog(address: nat, topics: seq<string>, data: string)

  // ----- The logs of a block -----

  /** A surviving log of a block: which transaction, and where in its arena. */
  datatype BlockLog = BlockLog(tx: nat, key: LogKey)

  ghost function Tagged(t: nat, keys: seq<LogKey>): seq<BlockLog> {
    seq(|keys|, r requires 0 <= r < |keys| => BlockLog(t, keys[r]))
  }

  /** Surviving logs of a block in execution order, from the arenas alone. */
  ghost function BlockLogs(txs: seq<Ctx>): seq<BlockLog> {
    if txs == [] then []
    else
      var n := |txs| - 1;
      BlockLogs(txs[..n]) + Tagged(n, LogsOf(txs[n].nodes, [], true))
  }

  /** Up to its index, `event` is the event of the block's log `log`. */
  ghost predicate RendersLog(txs: seq<Ctx>, log: BlockLog, event: DebankEvent) {
    log.tx < |txs| && RendersAt(txs[log.tx], log.key, event)
  }

  /** `exec` are the events of the block's logs `keys`, one for one. */
  ghost predicate RendersBlock(txs: seq<Ctx>, keys: seq<BlockLog>, exec: seq<DebankEvent>) {
    && |keys| == |exec|
    && (forall r {:trigger RendersLog(txs, keys[r], exec[r])} ::
          0 <= r < |keys| ==> RendersLog(txs, keys[r], exec[r]))
  }

  /** `events` are the block's surviving logs in some order; `exec` has them in execution order,
      numbered from 0. */
  ghost predicate Numbers(txs: seq<Ctx>, exec: seq<DebankEvent>, events: seq<DebankEvent>) {
    && RendersBlock(txs, BlockLogs(txs), exec)
    && multiset(events) == multiset(exec)
    && NumberedFrom(exec, 0)
  }

  ghost predicate BlockNumbered(txs: seq<Ctx>, events: seq<DebankEvent>) {
    exists exec :: Numbers(txs, exec, events)
  }

  /** The events of a block's arrays, transaction after transaction. */
  function BlockEvents(arrays: seq<Arrays>): seq<DebankEvent> {
    if arrays == [] then [] else BlockEvents(arrays[..|arrays| - 1]) + arrays[|arrays| - 1].events
  }

  /** Each transaction's arrays are formatted, its log indices running on from those before it. */
  ghost predicate AllFormatted(txs: seq<Ctx>, arrays: seq<Arrays>) {
    && |arrays| == |txs|
    && (txs == [] ||
        var n := |txs| - 1;
        && AllFormatted(txs[..n], arrays[..n])
        && Formatted(txs[n], |BlockEvents(arrays[..n])|, arrays[n]))
  }

  lemma {:induction false} NumberingSnoc(txs: seq<Ctx>, exec: seq<DebankEvent>, events: seq<DebankEvent>,
                      exec': seq<DebankEvent>, events': seq<DebankEvent>)
    requires txs != [] && Numbers(txs[..|txs| - 1], exec, events)
    requires Renders(txs[|txs| - 1], LogsOf(txs[|txs| - 1].nodes, [], true), exec')
    requires multiset(events') == multiset(exec') && NumberedFrom(exec', |events|)
    ensures Numbers(txs, exec + exec', events + events')
  {
    var n := |txs| - 1;
    SameSize(events, exec);
    RendersSnoc(txs, exec, exec');
  }

  lemma {:induction false} RendersSnoc(txs: seq<Ctx>, exec: seq<DebankEvent>, exec': seq<DebankEvent>)
    requires txs != [] && RendersBlock(txs[..|txs| - 1], BlockLogs(txs[..|txs| - 1]), exec)
    requires Renders(txs[|txs| - 1], LogsOf(txs[|txs| - 1].nodes, [], true), exec')
    ensures RendersBlock(txs, BlockLogs(txs), exec + exec')
  {
    var n := |txs| - 1;
    RendersFirst(txs, BlockLogs(txs[..n]), exec, LogsOf(txs[n].nodes, [], true), exec');
  }

  lemma {:induction false} RendersFirst(txs: seq<Ctx>, before: seq<BlockLog>, exec: seq<DebankEvent>,
                                        keys: seq<LogKey>, exec': seq<DebankEvent>)
    requires txs != [] && RendersBlock(txs[..|txs| - 1], before, exec) && Renders(txs[|txs| - 1], keys, exec')
    ensures RendersBlock(txs, before + Tagged(|txs| - 1, keys), exec + exec')
  {
    var n := |txs| - 1;
    var all, events := before + Tagged(n, keys), exec + exec';
    forall r | 0 <= r < |all| ensures RendersLog(txs, all[r], events[r]) {
      if r < |before| {
        assert RendersLog(txs[..n], before[r], exec[r]);
      } else {
        assert RendersAt(txs[n], keys[r - |before|], exec'[r - |before|]);
      }
    }
  }

  /** Over a whole block the surviving logs are numbered 0, 1, ... in execution order. */
  lemma {:induction false} FormattedIsNumbered(txs: seq<Ctx>, arrays: seq<Arrays>)
    requires AllFormatted(txs, arrays)
    ensures BlockNumbered(txs, BlockEvents(arrays))
    decreases |txs|
  {
    if txs == [] {
      assert Numbers(txs, [], []);
    } else {
      var n := |txs| - 1;
      FormattedIsNumbered(txs[..n], arrays[..n]);
      var exec :| Numbers(txs[..n], exec, BlockEvents(arrays[..n]));
      var exec' := FormattedExec(txs[n], |BlockEvents(arrays[..n])|, arrays[n]);
      NumberingSnoc(txs, exec, BlockEvents(arrays[..n]), exec', arrays[n].events);
    }
  }

  lemma {:induction false} FormattedExec(c: Ctx, start: nat, arrays: Arrays) returns (exec: seq<DebankEvent>)
    requires Formatted(c, start, arrays)
    ensures Renders(c, LogsOf(c.nodes, [], true), exec)
    ensures multiset(arrays.events) == multiset(exec) && NumberedFrom(exec, start)
  {
    var failed;
    exec, failed :| Formats(c, exec, failed, start, arrays);
  }

  lemma {:induction false} FormattedSnoc(txs: seq<Ctx>, k: nat, arrays: seq<Arrays>, next: Arrays)
    requires k < |txs| && AllFormatted(txs[..k], arrays) && Formatted(txs[k], |BlockEvents(arrays)|, next)
    ensures AllFormatted(txs[..k + 1], arrays + [next])
    ensures |BlockEvents(arrays + [next])| == |BlockEvents(arrays)| + |next.events|
  {
    assert txs[..k + 1][..k] == txs[..k];
    assert (arrays + [next])[..k] == arrays;
  }

  /** Some transaction cannot be formatted. */
  ghost predicate Refused(txs: seq<Ctx>) {
    exists t :: 0 <= t < |txs| && !Acceptable(txs[t])
  }

  lemma {:induction false} NotRefusedSnoc(txs: seq<Ctx>, k: nat)
    requires k < |txs| && !Refused(txs[..k]) && Acceptable(txs[k])
    ensures !Refused(txs[..k + 1])
  {
    assert forall t :: 0 <= t < k ==> txs[..k][t] == txs[..k + 1][t];
  }

  /** Formats transaction after transaction, the log index running on. */
  method FormatBlock(txs: seq<Ctx>) returns (r: Result<seq<Arrays>, BlockError>)
    ensures r.Err? <==> Refused(txs)
    ensures r.Ok? ==> AllFormatted(txs, r.value) && BlockNumbered(txs, BlockEvents(r.value))
  {
    var arrays: seq<Arrays> := [];
    var logIndex := 0;
    for k := 0 to |txs|
      invariant AllFormatted(txs[..k], arrays) && logIndex == |BlockEvents(arrays)|
      invariant !Refused(txs[..k])
    {
      var built, next := BuildDebankTraces(txs[k], logIndex);
      if built.Err? {
        assert Refused(txs);
        return Err(built.error);
      }
      var a := built.value;
      FormattedSnoc(txs, k, arrays, a.View());
      NotRefusedSnoc(txs, k);
      arrays, logIndex := arrays + [Arrays(a.traces, a.errorTraces, a.events, a.errorEvents)], next;
    }
    assert txs[..|txs|] == txs;
    FormattedIsNumbered(txs, arrays);
    r := Ok(arrays);
  }

  /** In any order, a numbered list is determined by its indices, which are 0, 1, ... each once. */
  lemma {:induction false} NumberedPermutation(events: seq<DebankEvent>, exec: seq<DebankEvent>)
    requires multiset(events) == multiset(exec) && NumberedFrom(exec, 0)
    ensures |events| == |exec|
    ensures forall k :: 0 <= k < |events| ==> events[k].idx < |exec| && events[k] == exec[events[k].idx]
    ensures Distinct(Idx(events))
  {
    SameSize(events, exec);
    forall k | 0 <= k < |events| ensures events[k].idx < |exec| && events[k] == exec[events[k].idx] {
      assert events[k] in multiset(exec);
      var r :| 0 <= r < |exec| && exec[r] == events[k];
    }
    forall j, k | 0 <= j < k < |events| ensures Idx(events)[j] != Idx(events)[k] {
      if events[j].idx == events[k].idx {
        CountTwice(events, j, k);
        CountDistinct(exec, events[j]);
      }
    }
  }

  // ----- The check against stored receipts -----

  predicate Matches(event: DebankEvent, log: ReceiptLog) {
    && event.contractId == log.address
    && event.selector == (if log.topics == [] then "" else log.topics[0])
    && event.topics == (if log.topics == [] then None else Some(log.topics[1..]))
    && event.data == log.data
  }

  /** An event built from a log matches a receipt log exactly when address, topics and data agree. */
  lemma {:induction false} MatchesIffSameLog(c: Ctx, contract: nat, log: CallLog, parentId: string, position: nat,
                                             stored: ReceiptLog)
    ensures Matches(EventFromLog(c, contract, log, parentId, position), stored) <==>
      contract == stored.address && log.topics == stored.topics && log.data == stored.data
  {
    if log.topics != [] && stored.topics != [] {
      assert log.topics == [log.topics[0]] + log.topics[1..];
      assert stored.topics == [stored.topics[0]] + stored.topics[1..];
    }
  }

  /** Indices are a bijection onto the stored logs, with equal contents. */
  ghost predicate Reproduces(events: seq<DebankEvent>, stored: seq<ReceiptLog>) {
    && EachOnce(Idx(events), |stored|)
    && (forall k :: 0 <= k < |events| ==> events[k].idx < |stored| && Matches(events[k], stored[events[k].idx]))
  }

  /** Distinct indices below the number of events hit every index. */
  lemma {:induction false} DistinctFill(idx: seq<nat>, n: nat)
    requires Distinct(idx) && |idx| == n && forall k :: 0 <= k < |idx| ==> idx[k] < n
    ensures EachOnce(idx, n)
  {
    forall p | 0 <= p < n ensures p in idx {
      if p !in idx {
        Pigeonhole(idx + [p], n);
      }
    }
  }

  lemma {:induction false} FillCount(idx: seq<nat>, n: nat)
    requires EachOnce(idx, n)
    ensures |idx| == n
  {
    TraceBuild.EachOnceLength(idx, n);
  }

  ghost predicate SeenSoFar(events: seq<DebankEvent>, k: nat, stored: seq<ReceiptLog>, seen: seq<bool>)
    requires k <= |events|
  {
    && Marked(seen, Idx(events[..k])) && |seen| == |stored|
    && (forall j :: 0 <= j < k ==> events[j].idx < |stored| && Matches(events[j], stored[events[j].idx]))
  }

  lemma {:induction false} IdxSnoc(events: seq<DebankEvent>, k: nat)
    requires k < |events|
    ensures Idx(events[..k + 1]) == Idx(events[..k]) + [events[k].idx]
    ensures Idx(events[..k + 1]) <= Idx(events)
  {
  }

  /** Accepts exactly the events that reproduce the stored logs. */
  method ValidateFormattedEvents(events: seq<DebankEvent>, stored: seq<ReceiptLog>) returns (ok: bool)
    ensures ok <==> Reproduces(events, stored)
  {
    if |events| != |stored| {
      if Reproduces(events, stored) {
        FillCount(Idx(events), |stored|);
      }
      return false;
    }
    var seen := new bool[|stored|](_ => false);
    assert Idx(events[..0]) == [];
    for k := 0 to |events|
      invariant SeenSoFar(events, k, stored, seen[..])
    {
      IdxSnoc(events, k);
      var index := events[k].idx;
      if index >= |stored| {
        return false;
      }
      var repeated := Mark(seen, index, Idx(events[..k]));
      if repeated.Some? {
        RepeatBreaks(Idx(events[..k]), index, Idx(events), |stored|);
        return false;
      }
      if !Matches(events[k], stored[index]) {
        return false;
      }
    }
    assert events[..|events|] == events;
    DistinctFill(Idx(events), |stored|);
    ok := true;
  }

  // ----- The check compares arena logs with receipt logs -----

  /** The log at `key` is the stored one: same contract, topics and data. */
  ghost predicate SameLog(c: Ctx, key: LogKey, stored: ReceiptLog) {
    && IsLog(c.nodes, key.address, key.position)
    && var node := c.nodes[NodeAt(c.nodes, key.address).value];
    && node.executionAddress == stored.address
    && node.logs[key.position].topics == stored.topics && node.logs[key.position].data == stored.data
  }

  lemma {:induction false} EventMatchesLog(c: Ctx, key: LogKey, event: DebankEvent, stored: ReceiptLog)
    requires IsLog(c.nodes, key.address, key.position) && RendersAt(c, key, event)
    ensures Matches(event, stored) <==> SameLog(c, key, stored)
  {
    var node := c.nodes[NodeAt(c.nodes, key.address).value];
    MatchesIffSameLog(c, node.executionAddress, node.logs[key.position], IdAt(c, key.address), key.slot, stored);
    assert Matches(event, stored) <==> Matches(event.(idx := 0), stored);
  }

  lemma {:induction false} MemberOccurs(keys: seq<LogKey>, r: nat)
    requires r < |keys|
    ensures LogOccurs(keys, keys[r].address, keys[r].position) >= 1
    decreases |keys|
  {
    if r < |keys| - 1 {
      MemberOccurs(keys[..|keys| - 1], r);
    }
  }

  /** Every transaction's arena is a tree. */
  ghost predicate AllTrees(txs: seq<Ctx>) {
    txs == [] || (AllTrees(txs[..|txs| - 1]) && IsTree(txs[|txs| - 1].nodes))
  }

  /** Every listed log of a block is a log of its transaction's arena, on a chain that succeeded. */
  lemma {:induction false} BlockLogsAreLogs(txs: seq<Ctx>, r: nat)
    requires r < |BlockLogs(txs)| && AllTrees(txs)
    ensures var l := BlockLogs(txs)[r];
      l.tx < |txs| && IsLog(txs[l.tx].nodes, l.key.address, l.key.position) && ChainOk(txs[l.tx].nodes, l.key.address)
    decreases |txs|
  {
    var n := |txs| - 1;
    var before := BlockLogs(txs[..n]);
    if r < |before| {
      BlockLogsAreLogs(txs[..n], r);
      assert BlockLogs(txs)[r] == before[r];
    } else {
      var keys := LogsOf(txs[n].nodes, [], true);
      var k := r - |before|;
      assert BlockLogs(txs)[r] == BlockLog(n, keys[k]);
      MemberOccurs(keys, k);
      assert IsTree(txs[n].nodes) && NodeAt(txs[n].nodes, []) == Some(0);
      CountLogsOf(txs[n].nodes, [], true, keys[k].address, keys[k].position);
    }
  }

  lemma {:induction false} FormattedAreTrees(txs: seq<Ctx>, arrays: seq<Arrays>)
    requires AllFormatted(txs, arrays)
    ensures AllTrees(txs)
    decreases |txs|
  {
    if txs != [] {
      var n := |txs| - 1;
      FormattedAreTrees(txs[..n], arrays[..n]);
      FormattedIsTree(txs[n], |BlockEvents(arrays[..n])|, arrays[n]);
    }
  }

  lemma {:induction false} FormattedIsTree(c: Ctx, start: nat, arrays: Arrays)
    requires Formatted(c, start, arrays)
    ensures IsTree(c.nodes)
  {
  }

  /** The n-th surviving log of the block's arenas is the n-th receipt log, for every n. */
  ghost predicate LogsAreReceipts(txs: seq<Ctx>, stored: seq<ReceiptLog>) {
    && |BlockLogs(txs)| == |stored|
    && (forall n :: 0 <= n < |stored| ==>
          BlockLogs(txs)[n].tx < |txs| && SameLog(txs[BlockLogs(txs)[n].tx], BlockLogs(txs)[n].key, stored[n]))
  }

  lemma {:induction false} ReproducesIffInOrder(events: seq<DebankEvent>, exec: seq<DebankEvent>,
                                                stored: seq<ReceiptLog>)
    requires multiset(events) == multiset(exec) && NumberedFrom(exec, 0)
    ensures Reproduces(events, stored) <==>
      |exec| == |stored| && forall n :: 0 <= n < |exec| ==> Matches(exec[n], stored[n])
  {
    NumberedPermutation(events, exec);
    if Reproduces(events, stored) {
      FillCount(Idx(events), |stored|);
      forall n | 0 <= n < |exec| ensures Matches(exec[n], stored[n]) {
        assert n in Idx(events);
        var k :| 0 <= k < |Idx(events)| && Idx(events)[k] == n;
      }
    }
    if |exec| == |stored| && forall n :: 0 <= n < |exec| ==> Matches(exec[n], stored[n]) {
      DistinctFill(Idx(events), |stored|);
    }
  }

  lemma {:induction false} MatchAt(txs: seq<Ctx>, exec: seq<DebankEvent>, stored: ReceiptLog, n: nat)
    requires RendersBlock(txs, BlockLogs(txs), exec) && n < |exec|
    requires AllTrees(txs)
    ensures var l := BlockLogs(txs)[n];
      l.tx < |txs| && (Matches(exec[n], stored) <==> SameLog(txs[l.tx], l.key, stored))
  {
    BlockLogsAreLogs(txs, n);
    var l := BlockLogs(txs)[n];
    assert RendersLog(txs, l, exec[n]);
    EventMatchesLog(txs[l.tx], l.key, exec[n], stored);
  }

  lemma {:induction false} InOrderIffReceipts(txs: seq<Ctx>, exec: seq<DebankEvent>, stored: seq<ReceiptLog>)
    requires RendersBlock(txs, BlockLogs(txs), exec) && AllTrees(txs)
    ensures LogsAreReceipts(txs, stored) <==>
      |exec| == |stored| && forall n :: 0 <= n < |exec| ==> Matches(exec[n], stored[n])
  {
    if |exec| == |stored| {
      forall n | 0 <= n < |exec|
        ensures BlockLogs(txs)[n].tx < |txs|
        ensures Matches(exec[n], stored[n]) <==> SameLog(txs[BlockLogs(txs)[n].tx], BlockLogs(txs)[n].key, stored[n])
      {
        MatchAt(txs, exec, stored[n], n);
      }
    }
  }

  /** For a formatted block the check holds exactly when the surviving logs of the arenas, in execution
      order, are the receipt logs. */
  lemma {:induction false} CheckComparesInOrder(txs: seq<Ctx>, arrays: seq<Arrays>, stored: seq<ReceiptLog>)
    requires AllFormatted(txs, arrays)
    ensures Reproduces(BlockEvents(arrays), stored) <==> LogsAreReceipts(txs, stored)
  {
    FormattedIsNumbered(txs, arrays);
    FormattedAreTrees(txs, arrays);
    var exec :| Numbers(txs, exec, BlockEvents(arrays));
    ReproducesIffInOrder(BlockEvents(arrays), exec, stored);
    InOrderIffReceipts(txs, exec, stored);
  }
}
