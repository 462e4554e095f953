/** Projecting a validated arena into the intermediate tree of frames and logs: identifiers,
    addresses, ancestor-aware success and log indices (crates/rpc/src/debank.rs). */
module TraceTree {
  import opened Words
  import opened TraceArena

  const PARENT_CALL_FAILED_ERROR := "parent call failed"

  datatype DebankTrace = DebankTrace(
    id: string, txId: string, parentTraceId: string, posInParentTrace: nat, traceAddress: seq<nat>, subtraces: nat,
    selfStorageChange: bool, storageChange: bool, error: string, suicide: bool)

  datatype DebankEvent = DebankEvent(
    id: string, parentTraceId: string, posInParentTrace: nat, idx: nat,
    contractId: nat, selector: string, topics: Option<seq<string>>, data: string)

  datatype Member = TraceMember(node: Node) | LogMember(event: DebankEvent)

  datatype Node = Node(trace: DebankTrace, members: seq<Member>, frameSucceeded: bool, effectiveSucceeded: bool)

  /** One transaction to format. `hash` is the digest behind identifiers. */
  datatype Ctx = Ctx(tx: string, nodes: seq<TraceNode>, errors: seq<Option<string>>, hash: string -> string)

  // ----- Paths in a tree -----

  lemma {:induction false} PrefixReached(nodes: seq<TraceNode>, path: seq<nat>, k: nat)
    requires NodeAt(nodes, path).Some? && k <= |path|
    ensures NodeAt(nodes, path[..k]).Some?
    decreases |path|
  {
    if k < |path| {
      PrefixReached(nodes, path[..|path| - 1], k);
      assert path[..|path| - 1][..k] == path[..k];
    } else {
      assert path[..k] == path;
    }
  }

  lemma {:induction false} ReachedInRange(nodes: seq<TraceNode>, path: seq<nat>)
    requires IsTree(nodes) && NodeAt(nodes, path).Some?
    ensures NodeAt(nodes, path).value < |nodes|
    ensures var i := NodeAt(nodes, path).value; nodes[i].parent.Some? == (path != [])
    decreases |path|
  {
    if path != [] {
      var init, p := path[..|path| - 1], path[|path| - 1];
      ReachedInRange(nodes, init);
      var v := NodeAt(nodes, init).value;
      assert WellFormedNode(nodes, v) && Links(nodes, v, nodes[v].children[p]);
    }
  }

  /** The last step of a path goes from the parent to one of its children. */
  lemma LastStep(nodes: seq<TraceNode>, path: seq<nat>)
    requires IsTree(nodes) && NodeAt(nodes, path).Some? && path != []
    ensures var v, p := NodeAt(nodes, path[..|path| - 1]), path[|path| - 1];
      && v.Some? && v.value < |nodes| && p < |nodes[v.value].children|
      && NodeAt(nodes, path).value == nodes[v.value].children[p] < |nodes|
      && nodes[NodeAt(nodes, path).value].parent == v
  {
    ReachedInRange(nodes, path[..|path| - 1]);
    var v, p := NodeAt(nodes, path[..|path| - 1]).value, path[|path| - 1];
    assert WellFormedNode(nodes, v) && Links(nodes, v, nodes[v].children[p]);
  }

  /** In a tree each frame is reached once: one path leads to it. */
  lemma {:induction false} UniquePath(nodes: seq<TraceNode>, a: seq<nat>, b: seq<nat>)
    requires IsTree(nodes) && NodeAt(nodes, a).Some? && NodeAt(nodes, a) == NodeAt(nodes, b)
    ensures a == b
    decreases |a|
  {
    ReachedInRange(nodes, a);
    ReachedInRange(nodes, b);
    if a != [] {
      LastStep(nodes, a);
      LastStep(nodes, b);
      UniquePath(nodes, a[..|a| - 1], b[..|b| - 1]);
      SameChild(nodes[NodeAt(nodes, a[..|a| - 1]).value].children, a[|a| - 1], b[|b| - 1]) by {
        var v := NodeAt(nodes, a[..|a| - 1]).value;
        assert WellFormedNode(nodes, v) && Distinct(nodes[v].children);
      }
      assert a == a[..|a| - 1] + [a[|a| - 1]];
      assert b == b[..|b| - 1] + [b[|b| - 1]];
    }
  }

  lemma SameChild(children: seq<nat>, p: nat, q: nat)
    requires Distinct(children) && p < |children| && q < |children| && children[p] == children[q]
    ensures p == q
  {
  }

  lemma {:induction false} Pigeonhole(s: seq<nat>, n: nat)
    requires Distinct(s) && forall i :: 0 <= i < |s| ==> s[i] < n
    ensures |s| <= n
    decreases n
  {
    if s != [] {
      assert s[0] < n;
      if n - 1 in s {
        var i :| 0 <= i < |s| && s[i] == n - 1;
        Pigeonhole(s[..i] + s[i + 1..], n - 1);
      } else {
        forall i | 0 <= i < |s| ensures s[i] < n - 1 {
          assert s[i] in s;
        }
        Pigeonhole(s, n - 1);
      }
    }
  }

  /** Frames on a path are distinct, so no path is longer than the arena: recursion along children ends. */
  lemma PathBound(nodes: seq<TraceNode>, path: seq<nat>)
    requires IsTree(nodes) && NodeAt(nodes, path).Some?
    ensures |path| < |nodes|
  {
    forall k | 0 <= k <= |path| ensures NodeAt(nodes, path[..k]).Some? && NodeAt(nodes, path[..k]).value < |nodes| {
      PrefixReached(nodes, path, k);
      ReachedInRange(nodes, path[..k]);
    }
    var visits := seq(|path| + 1, k requires 0 <= k <= |path| => NodeAt(nodes, path[..k]).value);
    forall j, k | 0 <= j < k < |visits| ensures visits[j] != visits[k] {
      if visits[j] == visits[k] {
        UniquePath(nodes, path[..j], path[..k]);
      }
    }
    Pigeonhole(visits, |nodes|);
  }

  ghost predicate SucceedsAt(nodes: seq<TraceNode>, path: seq<nat>) {
    var i := NodeAt(nodes, path);
    i.Some? && i.value < |nodes| && nodes[i.value].success
  }

  /** The frame at `path` and every ancestor of it succeeded. */
  ghost predicate ChainOk(nodes: seq<TraceNode>, path: seq<nat>) {
    SucceedsAt(nodes, path) && (path == [] || ChainOk(nodes, path[..|path| - 1]))
  }

  lemma ChainStep(nodes: seq<TraceNode>, path: seq<nat>, p: nat)
    ensures ChainOk(nodes, path + [p]) <==> ChainOk(nodes, path) && SucceedsAt(nodes, path + [p])
  {
    assert (path + [p])[..|path|] == path;
  }

  // ----- Formatting one frame or log -----

  /** The frame's error text, or None when none can be given. */
  function ErrorText(node: TraceNode, exact: Option<string>): Option<string> {
    if node.status.None? || (node.status.value.RequiresExactError() && exact.None?) then None
    else if exact.Some? then exact
    else node.formatted
  }

  function Digit(d: nat): char
    requires d < 10
  {
    "0123456789"[d]
  }

  function Decimal(n: nat): string {
    if n < 10 then [Digit(n)] else Decimal(n / 10) + [Digit(n % 10)]
  }

  function TraceId(c: Ctx, parentId: string, position: nat): string {
    c.hash(c.tx + parentId + Decimal(position))
  }

  /** The event for one log, before its index is assigned. */
  function EventFromLog(c: Ctx, contract: nat, log: CallLog, parentId: string, position: nat): DebankEvent {
    DebankEvent(
      c.hash(parentId + Decimal(position)), parentId, position, 0, contract,
      if log.topics == [] then "" else log.topics[0],
      if log.topics == [] then None else Some(log.topics[1..]),
      log.data)
  }

  function SuicideTrace(c: Ctx, parentId: string, position: nat, address: seq<nat>, effective: bool): DebankTrace {
    DebankTrace(
      TraceId(c, parentId, position), c.tx, parentId, position, address, 0, false, false,
      if effective then "" else PARENT_CALL_FAILED_ERROR, true)
  }

  // ----- The members a frame projects to -----

  /** A projected member: a child frame, a log, or the self-destruct that follows them all. */
  datatype Slot = CallSlot(position: nat) | LogSlot(position: nat) | SuicideSlot

  function OrderedSlots(ordering: seq<MemberOrder>): seq<Slot> {
    if ordering == [] then []
    else
      OrderedSlots(ordering[..|ordering| - 1]) +
      match ordering[|ordering| - 1] {
        case Call(p) => [CallSlot(p)]
        case Log(p) => [LogSlot(p)]
        case OpcodeStep(_) => []
      }
  }

  function Slots(node: TraceNode): seq<Slot> {
    OrderedSlots(node.ordering) + (if node.selfdestruct then [SuicideSlot] else [])
  }

  /** Log events of a subtree in execution order, those whose frame has effective status `ok`. */
  ghost function ExecMembers(members: seq<Member>, effective: bool, ok: bool): seq<DebankEvent>
    decreases members
  {
    if members == [] then []
    else
      ExecMembers(members[..|members| - 1], effective, ok) + ExecMember(members[|members| - 1], effective, ok)
  }

  ghost function ExecMember(member: Member, effective: bool, ok: bool): seq<DebankEvent>
    decreases member
  {
    match member
    case LogMember(event) => if effective == ok then [event] else []
    case TraceMember(child) => ExecMembers(child.members, child.effectiveSucceeded, ok)
  }

  /** A direct child that succeeded by itself and whose own subtree changed storage. */
  ghost predicate ChangesStorage(member: Member) {
    member.TraceMember? && member.node.frameSucceeded && member.node.trace.storageChange
  }

  // ----- What the projection is -----

  ghost predicate Formattable(c: Ctx, i: nat) {
    i < |c.nodes| && i < |c.errors| && ErrorText(c.nodes[i], c.errors[i]).Some?
  }

  ghost predicate FrameProjects(c: Ctx, i: nat, out: Node, a: seq<nat>, parentId: string, position: nat)
    requires i < |c.nodes|
  {
    var node, t := c.nodes[i], out.trace;
    && Formattable(c, i)
    && t.id == TraceId(c, parentId, position) && t.txId == c.tx
    && t.parentTraceId == parentId && t.posInParentTrace == position
    && t.traceAddress == a && !t.suicide
    && t.subtraces == |node.children| + (if node.selfdestruct then 1 else 0)
    && t.selfStorageChange == node.sstore
    && t.storageChange == (node.sstore || exists m :: 0 <= m < |out.members| && ChangesStorage(out.members[m]))
    && out.frameSucceeded == node.success
    && out.effectiveSucceeded == ChainOk(c.nodes, a)
    && t.error == (var own := ErrorText(node, c.errors[i]).value;
                   if own == "" && node.success && !ChainOk(c.nodes, a) then PARENT_CALL_FAILED_ERROR else own)
  }

  /** `out` is the projection of the frame at `a`, its surviving logs numbered from `start`. */
  ghost predicate Projects(c: Ctx, out: Node, a: seq<nat>, parentId: string, position: nat, start: nat)
    decreases out
  {
    var i := NodeAt(c.nodes, a);
    && i.Some? && i.value < |c.nodes|
    && FrameProjects(c, i.value, out, a, parentId, position)
    && |out.members| == |Slots(c.nodes[i.value])|
    && MembersProject(c, c.nodes[i.value], out.trace.id, out.effectiveSucceeded, a, out.members, start)
  }

  ghost predicate MembersProject(c: Ctx, node: TraceNode, id: string, effective: bool, a: seq<nat>,
                                 members: seq<Member>, start: nat)
    decreases members
  {
    && |members| <= |Slots(node)|
    && (members == [] ||
        var init := members[..|members| - 1];
        && MembersProject(c, node, id, effective, a, init, start)
        && MemberProjects(c, node, id, effective, a, |init|, members[|init|],
          start + |ExecMembers(init, effective, true)|))
  }

  ghost predicate MemberProjects(c: Ctx, node: TraceNode, id: string, effective: bool, a: seq<nat>, m: nat,
                                 member: Member, start: nat)
    requires m < |Slots(node)|
    decreases member
  {
    match Slots(node)[m]
    case CallSlot(p) => member.TraceMember? && Projects(c, member.node, a + [p], id, m, start)
    case LogSlot(p) =>
      && p < |node.logs|
      && member == LogMember(
           EventFromLog(c, node.executionAddress, node.logs[p], id, m).(idx := if effective then start else 0))
    case SuicideSlot =>
      member == TraceMember(Node(SuicideTrace(c, id, m, a + [|node.children|], effective), [], true, effective))
  }
}
