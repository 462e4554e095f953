/** Identifiers of a formatted block: no two entries of any of its arrays, traces or events, of one
    transaction or several, share one (crates/rpc/src/debank.rs). */
module OutputIds {
  import opened Words
  import opened TraceArena
  import opened TraceTree
  import opened TraceFlatten
  import opened TracePartition
  import opened TraceIds
  import opened TraceLogs
  import opened TraceBlock
  import opened FormattedEvents

  // ----- What an identifier names -----

  /** An entry of an arena, or a log by the address of its frame and its place among the members. */
  datatype Item = Entry(tx: nat, address: seq<nat>) | LogEntry(tx: nat, address: seq<nat>, slot: nat)

  /** Member `slot` of the frame at `a` is a log. */
  ghost predicate LogAt(nodes: seq<TraceNode>, a: seq<nat>, slot: nat) {
    var i := NodeAt(nodes, a);
    i.Some? && i.value < |nodes| && slot < |Slots(nodes[i.value])| && Slots(nodes[i.value])[slot].LogSlot?
  }

  ghost predicate IsItem(txs: seq<Ctx>, item: Item) {
    && item.tx < |txs|
    && match item
       case Entry(t, a) => IsEntry(txs[t].nodes, a)
       case LogEntry(t, a, slot) => LogAt(txs[t].nodes, a, slot)
  }

  ghost function ItemPreimage(c: Ctx, item: Item): string {
    match item
    case Entry(_, a) => Preimage(c, a)
    case LogEntry(_, a, slot) => IdAt(c, a) + Decimal(slot)
  }

  ghost function ItemId(c: Ctx, item: Item): string {
    c.hash(ItemPreimage(c, item))
  }

  /** Transaction names are `0x` and 64 digits; digests are 32 hexadecimal digits. */
  ghost predicate Hexadecimal(c: Ctx) {
    |c.tx| == 66 && c.tx[1] == 'x' && forall text :: |c.hash(text)| == 32 && c.hash(text)[1] != 'x'
  }

  /** The digest does not confuse two things the block names. */
  ghost predicate Separates(txs: seq<Ctx>, i: Item, j: Item)
    requires i.tx < |txs| && j.tx < |txs|
  {
    ItemId(txs[i.tx], i) == ItemId(txs[j.tx], j) ==> ItemPreimage(txs[i.tx], i) == ItemPreimage(txs[j.tx], j)
  }

  /** Transactions have distinct names, and the digest does not collide on what the block hashes. */
  ghost predicate Injective(txs: seq<Ctx>) {
    && (forall s, t :: 0 <= s < t < |txs| ==> txs[s].tx != txs[t].tx)
    && (forall s :: 0 <= s < |txs| ==> IsTree(txs[s].nodes) && Hexadecimal(txs[s]))
    && (forall i, j | IsItem(txs, i) && IsItem(txs, j) :: Separates(txs, i, j))
  }

  lemma {:induction false} InjectiveOnEntries(txs: seq<Ctx>)
    requires Injective(txs)
    ensures CollisionFree(txs)
  {
    forall s, t, a, b | 0 <= s < |txs| && 0 <= t < |txs| && IsEntry(txs[s].nodes, a) && IsEntry(txs[t].nodes, b)
      ensures NoCollision(txs[s], a, txs[t], b)
    {
      assert IsItem(txs, Entry(s, a)) && IsItem(txs, Entry(t, b));
      assert Separates(txs, Entry(s, a), Entry(t, b));
    }
  }

  lemma {:induction false} SplitLogPreimage(parent: string, m: nat, parent': string, n: nat)
    requires |parent| == 32 == |parent'| && parent + Decimal(m) == parent' + Decimal(n)
    ensures parent == parent' && m == n
  {
    var s, t := parent + Decimal(m), parent' + Decimal(n);
    assert s[..32] == parent && t[..32] == parent';
    assert s[32..] == Decimal(m) && t[32..] == Decimal(n);
    DecimalInjective(m, n);
  }

  /** A transaction's name opens what a trace hashes, a digest what an event hashes. */
  lemma {:induction false} TraceIsNoEvent(c: Ctx, a: seq<nat>, d: Ctx, b: seq<nat>, slot: nat)
    requires Hexadecimal(c) && Hexadecimal(d)
    ensures Preimage(c, a) != IdAt(d, b) + Decimal(slot)
  {
    assert Preimage(c, a)[1] == c.tx[1];
    assert (IdAt(d, b) + Decimal(slot))[1] == IdAt(d, b)[1];
  }

  /** An identifier names one thing: entries and logs of a block are all told apart. */
  lemma {:induction false} DistinctItems(txs: seq<Ctx>, i: Item, j: Item)
    requires Injective(txs) && IsItem(txs, i) && IsItem(txs, j) && ItemId(txs[i.tx], i) == ItemId(txs[j.tx], j)
    ensures i == j
  {
    var c, d := txs[i.tx], txs[j.tx];
    assert Separates(txs, i, j);
    InjectiveOnEntries(txs);
    match (i, j) {
      case (Entry(_, a), Entry(_, b)) =>
        DistinctIds(txs, i.tx, a, j.tx, b);
      case (LogEntry(_, a, m), LogEntry(_, b, n)) =>
        SplitLogPreimage(IdAt(c, a), m, IdAt(d, b), n);
        DistinctIds(txs, i.tx, a, j.tx, b);
      case (Entry(_, a), LogEntry(_, b, n)) =>
        TraceIsNoEvent(c, a, d, b, n);
      case (LogEntry(_, a, m), Entry(_, b)) =>
        TraceIsNoEvent(d, b, c, a, m);
    }
  }

  // ----- The keys of an arena's logs -----

  ghost predicate KeyFits(nodes: seq<TraceNode>, key: LogKey) {
    LogAt(nodes, key.address, key.slot) &&
    Slots(nodes[NodeAt(nodes, key.address).value])[key.slot] == LogSlot(key.position)
  }

  ghost predicate AllFit(nodes: seq<TraceNode>, keys: seq<LogKey>) {
    forall r :: 0 <= r < |keys| ==> KeyFits(nodes, keys[r])
  }

  lemma {:induction false} KeysFitUpTo(nodes: seq<TraceNode>, a: seq<nat>, m: nat, ok: bool)
    requires NodeAt(nodes, a).Some? && NodeAt(nodes, a).value < |nodes| && |a| < |nodes|
    requires m <= |Slots(nodes[NodeAt(nodes, a).value])|
    ensures AllFit(nodes, LogsUpTo(nodes, a, m, ok))
    decreases |nodes| - |a|, 0, m
  {
    if m > 0 {
      KeysFitUpTo(nodes, a, m - 1, ok);
      var slot := Slots(nodes[NodeAt(nodes, a).value])[m - 1];
      if slot.CallSlot? {
        KeysFit(nodes, a + [slot.position], ok);
      } else if slot.LogSlot? {
        assert KeyFits(nodes, LogKey(a, m - 1, slot.position));
      }
    }
  }

  lemma {:induction false} KeysFit(nodes: seq<TraceNode>, a: seq<nat>, ok: bool)
    ensures AllFit(nodes, LogsOf(nodes, a, ok))
    decreases |nodes| - |a|, 1, 0
  {
    var i := NodeAt(nodes, a);
    if i.Some? && i.value < |nodes| && |a| < |nodes| {
      KeysFitUpTo(nodes, a, |Slots(nodes[i.value])|, ok);
    }
  }

  lemma {:induction false} OccursTwice(keys: seq<LogKey>, r: nat, r': nat)
    requires r < r' < |keys| && keys[r].address == keys[r'].address && keys[r].position == keys[r'].position
    ensures LogOccurs(keys, keys[r].address, keys[r].position) >= 2
    decreases |keys|
  {
    var n := |keys| - 1;
    if r' == n {
      MemberOccurs(keys[..n], r);
    } else {
      OccursTwice(keys[..n], r, r');
    }
  }

  /** What is known of a listed log of a tree. */
  lemma {:induction false} ListedLog(nodes: seq<TraceNode>, ok: bool, r: nat)
    requires IsTree(nodes) && r < |LogsOf(nodes, [], ok)|
    ensures var key := LogsOf(nodes, [], ok)[r];
      KeyFits(nodes, key) && IsLog(nodes, key.address, key.position) && ChainOk(nodes, key.address) == ok
  {
    var keys := LogsOf(nodes, [], ok);
    KeysFit(nodes, [], ok);
    MemberOccurs(keys, r);
    assert NodeAt(nodes, []) == Some(0);
    CountLogsOf(nodes, [], ok, keys[r].address, keys[r].position);
  }

  /** No two listed logs of a tree share frame and place. */
  lemma {:induction false} ListedOnce(nodes: seq<TraceNode>, ok: bool, r: nat, r': nat)
    requires IsTree(nodes) && r < r' < |LogsOf(nodes, [], ok)|
    ensures var keys := LogsOf(nodes, [], ok);
      keys[r].address != keys[r'].address || keys[r].slot != keys[r'].slot
  {
    var keys := LogsOf(nodes, [], ok);
    ListedLog(nodes, ok, r);
    ListedLog(nodes, ok, r');
    if keys[r].address == keys[r'].address && keys[r].slot == keys[r'].slot {
      OccursTwice(keys, r, r');
      assert NodeAt(nodes, []) == Some(0);
      CountLogsOf(nodes, [], ok, keys[r].address, keys[r].position);
    }
  }

  // ----- One transaction's arrays -----

  function TracesAt(arrays: Arrays, ok: bool): seq<DebankTrace> {
    if ok then arrays.traces else arrays.errorTraces
  }

  function EventsAt(arrays: Arrays, ok: bool): seq<DebankEvent> {
    if ok then arrays.events else arrays.errorEvents
  }

  lemma {:induction false} TraceOccurs(traces: seq<DebankTrace>, k: nat)
    requires k < |traces|
    ensures Occurs(traces, traces[k].traceAddress) >= 1
    decreases |traces|
  {
    if k < |traces| - 1 {
      TraceOccurs(traces[..|traces| - 1], k);
    }
  }

  lemma {:induction false} TraceOccursTwice(traces: seq<DebankTrace>, k: nat, k': nat)
    requires k < k' < |traces| && traces[k].traceAddress == traces[k'].traceAddress
    ensures Occurs(traces, traces[k].traceAddress) >= 2
    decreases |traces|
  {
    var n := |traces| - 1;
    if k' == n {
      TraceOccurs(traces[..n], k);
    } else {
      TraceOccursTwice(traces[..n], k, k');
    }
  }

  lemma {:induction false} TraceNames(c: Ctx, t: nat, start: nat, arrays: Arrays, ok: bool, k: nat)
    requires Formatted(c, start, arrays) && k < |TracesAt(arrays, ok)|
    ensures var trace := TracesAt(arrays, ok)[k];
      Lands(c.nodes, trace.traceAddress, ok) && trace.id == ItemId(c, Entry(t, trace.traceAddress))
  {
    var exec, failed :| Formats(c, exec, failed, start, arrays);
    var traces := TracesAt(arrays, ok);
    assert HoldsEntries(c, traces, ok);
    TraceOccurs(traces, k);
    assert Describes(c, traces[k]);
  }

  lemma {:induction false} TraceOnce(c: Ctx, start: nat, arrays: Arrays, ok: bool, k: nat, k': nat)
    requires Formatted(c, start, arrays) && k < k' < |TracesAt(arrays, ok)|
    ensures TracesAt(arrays, ok)[k].traceAddress != TracesAt(arrays, ok)[k'].traceAddress
  {
    var exec, failed :| Formats(c, exec, failed, start, arrays);
    var traces := TracesAt(arrays, ok);
    assert HoldsEntries(c, traces, ok);
    if traces[k].traceAddress == traces[k'].traceAddress {
      TraceOccursTwice(traces, k, k');
    }
  }

  /** The log an event is built from. */
  lemma {:induction false} EventNames(c: Ctx, t: nat, start: nat, arrays: Arrays, ok: bool, k: nat)
    returns (key: LogKey)
    requires Formatted(c, start, arrays) && k < |EventsAt(arrays, ok)|
    ensures LogAt(c.nodes, key.address, key.slot) && ChainOk(c.nodes, key.address) == ok
    ensures EventsAt(arrays, ok)[k].id == ItemId(c, LogEntry(t, key.address, key.slot))
  {
    var exec := ExecOf(c, start, arrays, ok);
    var event := EventsAt(arrays, ok)[k];
    assert event in multiset(exec);
    var r :| 0 <= r < |exec| && exec[r] == event;
    key := LogsOf(c.nodes, [], ok)[r];
    ListedLog(c.nodes, ok, r);
    assert RendersAt(c, LogsOf(c.nodes, [], ok)[r], exec[r]);
    RenderedId(c, key, event, t);
  }

  lemma {:induction false} RenderedId(c: Ctx, key: LogKey, event: DebankEvent, t: nat)
    requires IsLog(c.nodes, key.address, key.position) && RendersAt(c, key, event)
    ensures event.id == ItemId(c, LogEntry(t, key.address, key.slot))
  {
    assert event.id == event.(idx := 0).id;
  }

  lemma {:induction false} ExecOf(c: Ctx, start: nat, arrays: Arrays, ok: bool) returns (exec: seq<DebankEvent>)
    requires Formatted(c, start, arrays)
    ensures IsTree(c.nodes) && HoldsLogs(c, EventsAt(arrays, ok), exec, ok)
  {
    var yes, no :| Formats(c, yes, no, start, arrays);
    exec := if ok then yes else no;
  }

  /** Events in any order have distinct identifiers when they have them in execution order. */
  lemma {:induction false} PermutedDistinct(events: seq<DebankEvent>, exec: seq<DebankEvent>, k: nat, k': nat)
    requires multiset(events) == multiset(exec) && k < k' < |events|
    requires forall r, r' :: 0 <= r < r' < |exec| ==> exec[r].id != exec[r'].id
    ensures events[k].id != events[k'].id
  {
    if events[k].id == events[k'].id {
      assert events[k] in multiset(exec) && events[k'] in multiset(exec);
      var r :| 0 <= r < |exec| && exec[r] == events[k];
      var r' :| 0 <= r' < |exec| && exec[r'] == events[k'];
      CountTwice(events, k, k');
      CountDistinct(exec, events[k]);
    }
  }

  lemma {:induction false} EventOnce(txs: seq<Ctx>, t: nat, start: nat, arrays: Arrays, ok: bool, k: nat, k': nat)
    requires Injective(txs) && t < |txs| && Formatted(txs[t], start, arrays) && k < k' < |EventsAt(arrays, ok)|
    ensures EventsAt(arrays, ok)[k].id != EventsAt(arrays, ok)[k'].id
  {
    var c := txs[t];
    var exec := ExecOf(c, start, arrays, ok);
    forall r, r' | 0 <= r < r' < |exec| ensures exec[r].id != exec[r'].id {
      ExecOnce(txs, t, exec, ok, r, r');
    }
    PermutedDistinct(EventsAt(arrays, ok), exec, k, k');
  }

  lemma {:induction false} ExecOnce(txs: seq<Ctx>, t: nat, exec: seq<DebankEvent>, ok: bool, r: nat, r': nat)
    requires Injective(txs) && t < |txs| && Renders(txs[t], LogsOf(txs[t].nodes, [], ok), exec)
    requires r < r' < |exec|
    ensures exec[r].id != exec[r'].id
  {
    var c := txs[t];
    var keys := LogsOf(c.nodes, [], ok);
    ListedLog(c.nodes, ok, r);
    ListedLog(c.nodes, ok, r');
    ListedOnce(c.nodes, ok, r, r');
    assert RendersAt(c, keys[r], exec[r]) && RendersAt(c, keys[r'], exec[r']);
    RenderedId(c, keys[r], exec[r], t);
    RenderedId(c, keys[r'], exec[r'], t);
    var i, j := LogEntry(t, keys[r].address, keys[r].slot), LogEntry(t, keys[r'].address, keys[r'].slot);
    if exec[r].id == exec[r'].id {
      DistinctItems(txs, i, j);
    }
  }

  // ----- A block's arrays -----

  /** A place in the output of a block. */
  datatype Place = TracePlace(tx: nat, ok: bool, k: nat) | EventPlace(tx: nat, ok: bool, k: nat)

  ghost predicate InOutput(arrays: seq<Arrays>, p: Place) {
    && p.tx < |arrays|
    && match p
       case TracePlace(t, ok, k) => k < |TracesAt(arrays[t], ok)|
       case EventPlace(t, ok, k) => k < |EventsAt(arrays[t], ok)|
  }

  ghost function IdOf(arrays: seq<Arrays>, p: Place): string
    requires InOutput(arrays, p)
  {
    match p
    case TracePlace(t, ok, k) => TracesAt(arrays[t], ok)[k].id
    case EventPlace(t, ok, k) => EventsAt(arrays[t], ok)[k].id
  }

  lemma {:induction false} FormattedAt(txs: seq<Ctx>, arrays: seq<Arrays>, t: nat) returns (start: nat)
    requires AllFormatted(txs, arrays) && t < |txs|
    ensures |arrays| == |txs| && Formatted(txs[t], start, arrays[t])
    decreases |txs|
  {
    var n := |txs| - 1;
    if t == n {
      start := |BlockEvents(arrays[..n])|;
    } else {
      start := FormattedAt(txs[..n], arrays[..n], t);
    }
  }

  /** What the identifier at a place names, and the status of the chain it stands on. */
  lemma {:induction false} PlaceNames(txs: seq<Ctx>, arrays: seq<Arrays>, p: Place) returns (item: Item)
    requires AllFormatted(txs, arrays) && InOutput(arrays, p)
    ensures IsItem(txs, item) && item.tx == p.tx && (item.Entry? <==> p.TracePlace?)
    ensures IdOf(arrays, p) == ItemId(txs[item.tx], item)
    ensures match item
      case Entry(t, a) => EntryOk(txs[t].nodes, a) == p.ok && a == TracesAt(arrays[t], p.ok)[p.k].traceAddress
      case LogEntry(t, a, _) => ChainOk(txs[t].nodes, a) == p.ok
  {
    var start := FormattedAt(txs, arrays, p.tx);
    match p {
      case TracePlace(t, ok, k) =>
        TraceNames(txs[t], t, start, arrays[t], ok, k);
        item := Entry(t, TracesAt(arrays[t], ok)[k].traceAddress);
      case EventPlace(t, ok, k) =>
        var key := EventNames(txs[t], t, start, arrays[t], ok, k);
        item := LogEntry(t, key.address, key.slot);
    }
  }

  /** No identifier is used twice in the output of a block. */
  lemma {:induction false} DistinctOutputIds(txs: seq<Ctx>, arrays: seq<Arrays>, p: Place, q: Place)
    requires AllFormatted(txs, arrays) && Injective(txs)
    requires InOutput(arrays, p) && InOutput(arrays, q) && IdOf(arrays, p) == IdOf(arrays, q)
    ensures p == q
  {
    var i := PlaceNames(txs, arrays, p);
    var j := PlaceNames(txs, arrays, q);
    DistinctItems(txs, i, j);
    var start := FormattedAt(txs, arrays, p.tx);
    if p.k != q.k {
      var low, high := if p.k < q.k then p.k else q.k, if p.k < q.k then q.k else p.k;
      if p.TracePlace? {
        TraceOnce(txs[p.tx], start, arrays[p.tx], p.ok, low, high);
      } else {
        EventOnce(txs, p.tx, start, arrays[p.tx], p.ok, low, high);
      }
    }
  }
}
