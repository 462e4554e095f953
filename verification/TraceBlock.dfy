/** Formatting whole transactions and blocks (crates/rpc/src/debank.rs, crates/rpc/src/trace.rs):
    one arena to four arrays, log indices running on from one transaction to the next. */
module TraceBlock {
  import opened Words
  import opened TraceArena
  import opened TraceTree
  import opened TraceBuild
  import opened TraceFlatten
  import opened TracePartition
  import opened TraceIds
  import opened TraceLogs

  // ----- One transaction -----

  datatype BlockError = SidecarSize | Arena(arena: ArenaError) | Format(format: FormatError)

  /** A tree whose frames can all be formatted, with one sidecar entry each. */
  ghost predicate Acceptable(c: Ctx) {
    |c.errors| == |c.nodes| && IsTree(c.nodes) && forall i :: 0 <= i < |c.nodes| ==> Formattable(c, i)
  }

  /** One array per status: which entries it holds, in what order, and what each says. */
  ghost predicate HoldsEntries(c: Ctx, traces: seq<DebankTrace>, ok: bool) {
    && (forall b :: Occurs(traces, b) == if Lands(c.nodes, b, ok) then 1 else 0)
    && RootThenDescendantsFirst(traces)
    && AllDescribe(c, traces)
  }

  /** Only the root, when it opens the array, stands before its own descendants. */
  ghost predicate RootThenDescendantsFirst(traces: seq<DebankTrace>) {
    forall j, k :: 0 <= j < k < |traces| && traces[j].traceAddress < traces[k].traceAddress ==>
      j == 0 && traces[0].traceAddress == []
  }

  ghost function Idx(events: seq<DebankEvent>): seq<nat> {
    seq(|events|, k requires 0 <= k < |events| => events[k].idx)
  }

  ghost predicate NumberedFrom(events: seq<DebankEvent>, start: nat) {
    forall r :: 0 <= r < |events| ==> events[r].idx == start + r
  }

  /** `out` projects the whole arena, surviving logs numbered from `start`. */
  ghost predicate WholeTree(c: Ctx, out: Node, start: nat) {
    && FrameAt(c, out, []) && out.trace.id == IdAt(c, [])
    && NumberedFrom(ExecMembers(out.members, out.effectiveSucceeded, true), start)
  }

  /** `events` are, in some order, the arena's logs of status `ok`, which `exec` has in execution order. */
  ghost predicate HoldsLogs(c: Ctx, events: seq<DebankEvent>, exec: seq<DebankEvent>, ok: bool) {
    Renders(c, LogsOf(c.nodes, [], ok), exec) && multiset(events) == multiset(exec)
  }

  /** The arrays hold the arena's entries and logs, each by the status of its frame's chain, and the
      surviving logs are numbered from `start` in execution order. */
  ghost predicate Formats(c: Ctx, exec: seq<DebankEvent>, failed: seq<DebankEvent>, start: nat, arrays: Arrays) {
    && IsTree(c.nodes)
    && HoldsEntries(c, arrays.traces, true) && HoldsEntries(c, arrays.errorTraces, false)
    && HoldsLogs(c, arrays.events, exec, true) && HoldsLogs(c, arrays.errorEvents, failed, false)
    && NumberedFrom(exec, start)
  }

  ghost predicate Formatted(c: Ctx, start: nat, arrays: Arrays) {
    exists exec, failed :: Formats(c, exec, failed, start, arrays)
  }

  lemma RootEntry(nodes: seq<TraceNode>, b: seq<nat>)
    requires IsTree(nodes)
    ensures [] < b || b == []
    ensures Lands(nodes, [], ChainOk(nodes, []))
    ensures !Lands(nodes, [], !ChainOk(nodes, []))
  {
    assert NodeAt(nodes, []) == Some(0);
  }

  /** The root is appended first to its array, everything below it after. */
  lemma HoldsWithRoot(c: Ctx, out: Node, ok: bool)
    requires IsTree(c.nodes) && FrameAt(c, out, []) && out.trace.id == IdAt(c, [])
    ensures HoldsEntries(c, (if out.effectiveSucceeded == ok then [out.trace] else []) + FlatTraces(out, ok), ok)
  {
    forall b ensures Occurs((if out.effectiveSucceeded == ok then [out.trace] else []) + FlatTraces(out, ok), b) ==
      if Lands(c.nodes, b, ok) then 1 else 0 {
      CountWithRoot(c, out, b, ok);
    }
    OrderWithRoot(c, out, ok);
  }

  lemma OrderWithRoot(c: Ctx, out: Node, ok: bool)
    requires IsTree(c.nodes) && FrameAt(c, out, []) && out.trace.id == IdAt(c, [])
    ensures var all := (if out.effectiveSucceeded == ok then [out.trace] else []) + FlatTraces(out, ok);
      RootThenDescendantsFirst(all) && AllDescribe(c, all)
  {
    FrameParts(c, out, []);
    OrderNode(c, out, [], ok);
    RootFirst(if out.effectiveSucceeded == ok then [out.trace] else [], FlatTraces(out, ok));
    assert Describes(c, out.trace);
    DescribeNode(c, out, [], ok);
  }

  lemma CountWithRoot(c: Ctx, out: Node, b: seq<nat>, ok: bool)
    requires IsTree(c.nodes) && FrameAt(c, out, [])
    ensures Occurs((if out.effectiveSucceeded == ok then [out.trace] else []) + FlatTraces(out, ok), b) ==
      if Lands(c.nodes, b, ok) then 1 else 0
  {
    FrameParts(c, out, []);
    CountNode(c, out, [], b, ok);
    OccursAppend(if out.effectiveSucceeded == ok then [out.trace] else [], FlatTraces(out, ok), b);
    OccursOne(out.trace, b);
    RootEntry(c.nodes, b);
  }

  lemma RootFirst(root: seq<DebankTrace>, flat: seq<DebankTrace>)
    requires |root| <= 1 && DescendantsFirst(flat)
    requires root != [] ==> root[0].traceAddress == []
    ensures RootThenDescendantsFirst(root + flat)
  {
    var all := root + flat;
    forall j, k | |root| <= j < k < |all| ensures !(all[j].traceAddress < all[k].traceAddress) {
      assert all[j] == flat[j - |root|] && all[k] == flat[k - |root|];
    }
  }

  ghost function RootArrays(out: Node): Arrays {
    if out.effectiveSucceeded then Arrays([out.trace], [], [], []) else Arrays([], [out.trace], [], [])
  }

  lemma FormatsFlattened(c: Ctx, out: Node, start: nat)
    requires IsTree(c.nodes) && WholeTree(c, out, start)
    ensures var arrays := RootArrays(out).Plus(Flattened(out)); Formatted(c, start, arrays)
    ensures |Flattened(out).events| == |ExecMembers(out.members, out.effectiveSucceeded, true)|
  {
    var arrays := RootArrays(out).Plus(Flattened(out));
    HoldsWithRoot(c, out, true);
    HoldsWithRoot(c, out, false);
    LogsFlattened(c, out, true);
    LogsFlattened(c, out, false);
    var exec := ExecMembers(out.members, out.effectiveSucceeded, true);
    var failed := ExecMembers(out.members, out.effectiveSucceeded, false);
    SameSize(FlatEvents(out, true), exec);
    assert Formats(c, exec, failed, start, arrays);
  }

  lemma LogsFlattened(c: Ctx, out: Node, ok: bool)
    requires IsTree(c.nodes) && FrameAt(c, out, []) && out.trace.id == IdAt(c, [])
    ensures HoldsLogs(c, [] + FlatEvents(out, ok), ExecMembers(out.members, out.effectiveSucceeded, ok), ok)
  {
    RenderNode(c, out, [], ok);
    FlatEventsPermuted(out, ok);
    assert [] + FlatEvents(out, ok) == FlatEvents(out, ok);
  }

  lemma ChildFrame(c: Ctx, parent: Node, a: seq<nat>, p: nat) returns (sub: Node)
    requires IsTree(c.nodes) && FrameAt(c, parent, a) && NodeAt(c.nodes, a + [p]).Some?
    ensures FrameAt(c, sub, a + [p])
  {
    FrameParts(c, parent, a);
    var i := NodeAt(c.nodes, a).value;
    SlotTargets(c.nodes, i);
    ChildAddress(c.nodes, a, p);
    assert Targets(c.nodes[i], |Slots(c.nodes[i])|, p);
    var m := SlotOf(c.nodes[i], p);
    assert Placed(c, i, parent.trace.id, a, m, parent.members[m]);
    sub := parent.members[m].node;
  }

  /** Every frame of the arena is projected somewhere in the tree. */
  lemma {:induction false} FrameInTree(c: Ctx, out: Node, b: seq<nat>) returns (sub: Node)
    requires IsTree(c.nodes) && FrameAt(c, out, []) && NodeAt(c.nodes, b).Some?
    ensures FrameAt(c, sub, b)
    decreases |b|
  {
    if b == [] {
      sub := out;
    } else {
      var a, p := b[..|b| - 1], b[|b| - 1];
      assert a + [p] == b;
      var parent := FrameInTree(c, out, a);
      sub := ChildFrame(c, parent, a, p);
    }
  }

  lemma EveryFrameFormattable(c: Ctx, out: Node)
    requires IsTree(c.nodes) && FrameAt(c, out, [])
    ensures forall i :: 0 <= i < |c.nodes| ==> Formattable(c, i)
  {
    forall i | 0 <= i < |c.nodes| ensures Formattable(c, i) {
      assert Reachable(c.nodes, i);
      var b :| NodeAt(c.nodes, b) == Some(i);
      var sub := FrameInTree(c, out, b);
      FrameParts(c, sub, b);
    }
  }

  lemma RootIsWholeTree(c: Ctx, out: Node, start: nat)
    requires Projects(c, out, [], "", 0, start)
    ensures WholeTree(c, out, start)
  {
    assert FrameAt(c, out, []);
    IndicesFollowExecution(c, c.nodes[NodeAt(c.nodes, []).value], out.trace.id, out.effectiveSucceeded, [],
      out.members, start);
  }

  /** Projects the whole arena, or finds a frame that cannot be formatted. */
  method BuildRoot(c: Ctx, start: nat) returns (r: Result<Node, FormatError>, logIndex: nat)
    requires IsTree(c.nodes)
    ensures r.Ok? <==> forall i :: 0 <= i < |c.nodes| ==> Formattable(c, i)
    ensures r.Ok? ==>
      && WholeTree(c, r.value, start)
      && logIndex == start + |ExecMembers(r.value.members, r.value.effectiveSucceeded, true)|
  {
    assert NodeAt(c.nodes, []) == Some(0);
    r, logIndex := BuildNode(c, "", 0, 0, true, [], start);
    if r.Ok? {
      RootIsWholeTree(c, r.value, start);
      EveryFrameFormattable(c, r.value);
    }
  }

  lemma SameSize<T>(s: seq<T>, t: seq<T>)
    requires multiset(s) == multiset(t)
    ensures |s| == |t|
  {
    assert |multiset(s)| == |multiset(t)|;
  }

  /** Accepts exactly the trees with one sidecar entry per frame whose frames can all be formatted. */
  method BuildDebankTraces(c: Ctx, start: nat) returns (r: Result<TraceArrays, BlockError>, logIndex: nat)
    ensures r.Ok? <==> Acceptable(c)
    ensures r.Ok? ==> fresh(r.value) && Formatted(c, start, r.value.View())
    ensures r.Ok? ==> logIndex == start + |r.value.events|
  {
    logIndex := start;
    if |c.errors| != |c.nodes| {
      return Err(SidecarSize), start;
    }
    var invalid := ValidateTraceArena(c.nodes);
    if invalid.Some? {
      return Err(Arena(invalid.value)), start;
    }
    var root, next := BuildRoot(c, start);
    if root.Err? {
      return Err(Format(root.error)), next;
    }
    logIndex := next;
    var arrays := new TraceArrays();
    arrays.AppendTrace(root.value.trace, root.value.effectiveSucceeded);
    assert arrays.View() == RootArrays(root.value);
    arrays.FlattenDescendants(root.value);
    FormatsFlattened(c, root.value, start);
    r := Ok(arrays);
  }
}
