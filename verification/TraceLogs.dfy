/** The logs of an arena, from its frames alone: every log position of every frame once, in execution
    order, and the events of a projection are these logs (crates/rpc/src/debank.rs). */
module TraceLogs {
  import opened Words
  import opened TraceArena
  import opened TraceTree
  import opened TraceFlatten
  import opened TracePartition
  import opened TraceIds

  /** A log: the address of its frame, its place among the frame's members, its position among the logs. */
  datatype LogKey = LogKey(address: seq<nat>, slot: nat, position: nat)

  /** The logs of the frame at `a` and below, in execution order, of frames with chain status `ok`. */
  ghost function LogsOf(nodes: seq<TraceNode>, a: seq<nat>, ok: bool): seq<LogKey>
    decreases |nodes| - |a|, 1, 0
  {
    var i := NodeAt(nodes, a);
    if i.Some? && i.value < |nodes| && |a| < |nodes| then LogsUpTo(nodes, a, |Slots(nodes[i.value])|, ok) else []
  }

  /** The same for the frame's first `m` members. */
  ghost function LogsUpTo(nodes: seq<TraceNode>, a: seq<nat>, m: nat, ok: bool): seq<LogKey>
    requires NodeAt(nodes, a).Some? && NodeAt(nodes, a).value < |nodes| && |a| < |nodes|
    requires m <= |Slots(nodes[NodeAt(nodes, a).value])|
    decreases |nodes| - |a|, 0, m
  {
    if m == 0 then []
    else
      LogsUpTo(nodes, a, m - 1, ok) +
      match Slots(nodes[NodeAt(nodes, a).value])[m - 1] {
        case CallSlot(p) => LogsOf(nodes, a + [p], ok)
        case LogSlot(p) => if ChainOk(nodes, a) == ok then [LogKey(a, m - 1, p)] else []
        case SuicideSlot => []
      }
  }

  ghost predicate IsLog(nodes: seq<TraceNode>, b: seq<nat>, p: nat) {
    var i := NodeAt(nodes, b);
    i.Some? && i.value < |nodes| && p < |nodes[i.value].logs|
  }

  // ----- Every log position once -----

  ghost function LogOccurs(keys: seq<LogKey>, b: seq<nat>, p: nat): nat {
    if keys == [] then 0
    else
      var last := keys[|keys| - 1];
      LogOccurs(keys[..|keys| - 1], b, p) + (if last.address == b && last.position == p then 1 else 0)
  }

  lemma {:induction false} LogOccursAppend(s: seq<LogKey>, t: seq<LogKey>, b: seq<nat>, p: nat)
    ensures LogOccurs(s + t, b, p) == LogOccurs(s, b, p) + LogOccurs(t, b, p)
    decreases |t|
  {
    if t == [] {
      assert s + t == s;
    } else {
      LogOccursAppend(s, t[..|t| - 1], b, p);
      assert (s + t)[..|s + t| - 1] == s + t[..|t| - 1];
    }
  }

  /** One of the first `n` slots is log position `p`. */
  ghost predicate LogsAt(node: TraceNode, n: nat, p: nat) {
    exists m: nat :: m < n && m < |Slots(node)| && Slots(node)[m] == LogSlot(p)
  }

  lemma {:induction false} LogSlotFacts(ordering: seq<MemberOrder>)
    requires Distinct(LogPositions(ordering))
    ensures forall p :: LogSlot(p) in OrderedSlots(ordering) <==> p in LogPositions(ordering)
    ensures forall j, k :: 0 <= j < k < |OrderedSlots(ordering)| && OrderedSlots(ordering)[j].LogSlot? ==>
      OrderedSlots(ordering)[j] != OrderedSlots(ordering)[k]
    decreases |ordering|
  {
    if ordering != [] {
      var n := |ordering| - 1;
      var ps, before := LogPositions(ordering), LogPositions(ordering[..n]);
      assert before == ps[..|before|];
      LogSlotFacts(ordering[..n]);
      if ordering[n].Log? {
        var p := ordering[n].position;
        assert ps[|before|] == p && p !in before;
        assert OrderedSlots(ordering) == OrderedSlots(ordering[..n]) + [LogSlot(p)];
        assert LogSlot(p) !in OrderedSlots(ordering[..n]);
      }
    }
  }

  /** Each log position of a frame in a tree has one slot. */
  lemma {:induction false} LogSlots(nodes: seq<TraceNode>, i: nat, p: nat)
    requires IsTree(nodes) && i < |nodes|
    ensures LogsAt(nodes[i], |Slots(nodes[i])|, p) <==> p < |nodes[i].logs|
    ensures forall j, k :: 0 <= j < k < |Slots(nodes[i])| && Slots(nodes[i])[j].LogSlot? ==>
      Slots(nodes[i])[j] != Slots(nodes[i])[k]
  {
    var node := nodes[i];
    assert WellFormedNode(nodes, i) && EachOnce(LogPositions(node.ordering), |node.logs|);
    LogSlotFacts(node.ordering);
    var os := OrderedSlots(node.ordering);
    if p < |node.logs| {
      assert p in LogPositions(node.ordering) && LogSlot(p) in os;
      var m :| 0 <= m < |os| && os[m] == LogSlot(p);
      assert Slots(node)[m] == LogSlot(p);
    }
    if LogsAt(node, |Slots(node)|, p) {
      var m: nat :| m < |Slots(node)| && Slots(node)[m] == LogSlot(p);
      assert LogSlot(p) in os;
    }
  }

  /** What the first `n` members of the frame at `a` hold of log `p` of the frame at `b`. */
  ghost predicate HoldsLog(nodes: seq<TraceNode>, i: nat, n: nat, a: seq<nat>, b: seq<nat>, p: nat)
    requires i < |nodes|
  {
    if a == b then LogsAt(nodes[i], n, p) else a < b && Targets(nodes[i], n, b[|a|]) && NodeAt(nodes, b).Some?
  }

  lemma {:induction false} HoldsLogSnoc(nodes: seq<TraceNode>, i: nat, n: nat, a: seq<nat>, b: seq<nat>, p: nat)
    requires IsTree(nodes) && i < |nodes| && n < |Slots(nodes[i])|
    ensures var slot := Slots(nodes[i])[n];
      && (slot.CallSlot? ==>
            && (HoldsLog(nodes, i, n + 1, a, b, p) <==>
                  HoldsLog(nodes, i, n, a, b, p) || (a + [slot.position] <= b && NodeAt(nodes, b).Some?))
            && !(HoldsLog(nodes, i, n, a, b, p) && a + [slot.position] <= b))
      && (slot.LogSlot? ==>
            && (HoldsLog(nodes, i, n + 1, a, b, p) <==>
              HoldsLog(nodes, i, n, a, b, p) || (a == b && p == slot.position))
            && !(HoldsLog(nodes, i, n, a, b, p) && a == b && p == slot.position))
  {
    OneMoreTarget(nodes, i, n, a, b);
    LogSlots(nodes, i, p);
    if Slots(nodes[i])[n].CallSlot? {
      ThroughIsPrefix(a, Slots(nodes[i])[n].position, b);
    }
  }

  lemma {:induction false} OneLogOccurs(key: LogKey, b: seq<nat>, p: nat)
    ensures LogOccurs([key], b, p) == if key.address == b && key.position == p then 1 else 0
  {
    assert [key][..0] == [];
  }

  ghost function Once(condition: bool): nat {
    if condition then 1 else 0
  }

  /** A call slot of a frame in a tree leads to a frame, one level deeper and within the arena's depth. */
  lemma {:induction false} SlotLeads(nodes: seq<TraceNode>, a: seq<nat>, m: nat)
    requires IsTree(nodes) && NodeAt(nodes, a).Some? && NodeAt(nodes, a).value < |nodes|
    requires m < |Slots(nodes[NodeAt(nodes, a).value])| && Slots(nodes[NodeAt(nodes, a).value])[m].CallSlot?
    ensures var b := a + [Slots(nodes[NodeAt(nodes, a).value])[m].position];
      NodeAt(nodes, b).Some? && NodeAt(nodes, b).value < |nodes| && |b| < |nodes|
  {
    var i := NodeAt(nodes, a).value;
    var q := Slots(nodes[i])[m].position;
    SlotInRange(nodes, i, m);
    ChildAddress(nodes, a, q);
    ReachedInRange(nodes, a + [q]);
    PathBound(nodes, a + [q]);
  }

  lemma {:induction false} SlotInRange(nodes: seq<TraceNode>, i: nat, m: nat)
    requires IsTree(nodes) && i < |nodes| && m < |Slots(nodes[i])| && Slots(nodes[i])[m].CallSlot?
    ensures Slots(nodes[i])[m].position < |nodes[i].children|
  {
    var node, q := nodes[i], Slots(nodes[i])[m].position;
    assert WellFormedNode(nodes, i) && EachOnce(CallPositions(node.ordering), |node.children|);
    OrderedSlotsFacts(node.ordering);
    assert CallSlot(q) in OrderedSlots(node.ordering);
    assert q in CallPositions(node.ordering);
  }

  lemma {:induction false} CountLogsUpTo(nodes: seq<TraceNode>, a: seq<nat>, m: nat, ok: bool, b: seq<nat>, p: nat)
    requires IsTree(nodes) && NodeAt(nodes, a).Some? && NodeAt(nodes, a).value < |nodes| && |a| < |nodes|
    requires m <= |Slots(nodes[NodeAt(nodes, a).value])|
    ensures LogOccurs(LogsUpTo(nodes, a, m, ok), b, p) ==
      Once(HoldsLog(nodes, NodeAt(nodes, a).value, m, a, b, p) && IsLog(nodes, b, p) && ChainOk(nodes, b) == ok)
    decreases |nodes| - |a|, 0, m
  {
    var i := NodeAt(nodes, a).value;
    if m > 0 {
      CountLogsUpTo(nodes, a, m - 1, ok, b, p);
      HoldsLogSnoc(nodes, i, m - 1, a, b, p);
      var slot := Slots(nodes[i])[m - 1];
      match slot {
        case CallSlot(q) =>
          SlotLeads(nodes, a, m - 1);
          CountLogsOf(nodes, a + [q], ok, b, p);
          CountChildLogs(nodes, a, m, ok, b, p);
        case LogSlot(q) =>
          CountOwnLog(nodes, a, m, ok, b, p);
        case SuicideSlot =>
          SuicideHoldsNoLog(nodes, i, m - 1, a, b, p);
          assert LogsUpTo(nodes, a, m, ok) == LogsUpTo(nodes, a, m - 1, ok);
      }
    }
  }

  /** A self-destruct slot holds no log. */
  lemma {:induction false} SuicideHoldsNoLog(nodes: seq<TraceNode>, i: nat, n: nat, a: seq<nat>, b: seq<nat>, p: nat)
    requires IsTree(nodes) && i < |nodes| && n < |Slots(nodes[i])| && Slots(nodes[i])[n].SuicideSlot?
    requires NodeAt(nodes, a) == Some(i)
    ensures HoldsLog(nodes, i, n + 1, a, b, p) <==> HoldsLog(nodes, i, n, a, b, p)
  {
    OneMoreTarget(nodes, i, n, a, b);
    var q := |nodes[i].children|;
    ChildAddress(nodes, a, q);
    ThroughIsPrefix(a, q, b);
    if a < b && b[|a|] == q && a + [q] < b {
      NothingBelow(nodes, a, q, b);
    }
  }

  lemma {:induction false} CountChildLogs(nodes: seq<TraceNode>, a: seq<nat>, m: nat, ok: bool, b: seq<nat>, p: nat)
    requires NodeAt(nodes, a).Some? && NodeAt(nodes, a).value < |nodes| && |a| < |nodes|
    requires 0 < m <= |Slots(nodes[NodeAt(nodes, a).value])| && Slots(nodes[NodeAt(nodes, a).value])[m - 1].CallSlot?
    ensures LogOccurs(LogsUpTo(nodes, a, m, ok), b, p) == LogOccurs(LogsUpTo(nodes, a, m - 1, ok), b, p) +
      LogOccurs(LogsOf(nodes, a + [Slots(nodes[NodeAt(nodes, a).value])[m - 1].position], ok), b, p)
  {
    var q := Slots(nodes[NodeAt(nodes, a).value])[m - 1].position;
    LogOccursAppend(LogsUpTo(nodes, a, m - 1, ok), LogsOf(nodes, a + [q], ok), b, p);
  }

  lemma {:induction false} CountOwnLog(nodes: seq<TraceNode>, a: seq<nat>, m: nat, ok: bool, b: seq<nat>, p: nat)
    requires IsTree(nodes) && NodeAt(nodes, a).Some? && NodeAt(nodes, a).value < |nodes| && |a| < |nodes|
    requires 0 < m <= |Slots(nodes[NodeAt(nodes, a).value])| && Slots(nodes[NodeAt(nodes, a).value])[m - 1].LogSlot?
    ensures LogOccurs(LogsUpTo(nodes, a, m, ok), b, p) == LogOccurs(LogsUpTo(nodes, a, m - 1, ok), b, p) +
      Once(a == b && p == Slots(nodes[NodeAt(nodes, a).value])[m - 1].position && IsLog(nodes, b, p) &&
        ChainOk(nodes, b) == ok)
  {
    var i := NodeAt(nodes, a).value;
    var q := Slots(nodes[i])[m - 1].position;
    LogSlots(nodes, i, q);
    assert LogsAt(nodes[i], |Slots(nodes[i])|, q);
    OneLogOccurs(LogKey(a, m - 1, q), b, p);
    var own := if ChainOk(nodes, a) == ok then [LogKey(a, m - 1, q)] else [];
    LogOccursAppend(LogsUpTo(nodes, a, m - 1, ok), own, b, p);
  }

  /** Every log of every frame from `a` down occurs exactly once in the list of its frame's status. */
  lemma {:induction false} CountLogsOf(nodes: seq<TraceNode>, a: seq<nat>, ok: bool, b: seq<nat>, p: nat)
    requires IsTree(nodes) && NodeAt(nodes, a).Some? && NodeAt(nodes, a).value < |nodes| && |a| < |nodes|
    ensures LogOccurs(LogsOf(nodes, a, ok), b, p) == Once(a <= b && IsLog(nodes, b, p) && ChainOk(nodes, b) == ok)
    decreases |nodes| - |a|, 1, 0
  {
    var i := NodeAt(nodes, a).value;
    CountLogsUpTo(nodes, a, |Slots(nodes[i])|, ok, b, p);
    LogSlots(nodes, i, p);
    if a < b && IsLog(nodes, b, p) {
      EntryPassesSlot(nodes, a, b);
    }
  }

  // ----- The events of a projection are the arena's logs -----

  /** The event of a log, from the arena alone, before its index is assigned. */
  ghost function EventAt(c: Ctx, key: LogKey): DebankEvent {
    var i := NodeAt(c.nodes, key.address);
    if i.Some? && i.value < |c.nodes| && key.position < |c.nodes[i.value].logs| then
      var node := c.nodes[i.value];
      EventFromLog(c, node.executionAddress, node.logs[key.position], IdAt(c, key.address), key.slot)
    else DebankEvent("", "", 0, 0, 0, "", None, "")
  }

  /** Up to its index, `event` is the event of the log at `key`. */
  ghost predicate RendersAt(c: Ctx, key: LogKey, event: DebankEvent) {
    event.(idx := 0) == EventAt(c, key)
  }

  /** `events` are the events of the logs `keys`, one for one. */
  ghost predicate Renders(c: Ctx, keys: seq<LogKey>, events: seq<DebankEvent>) {
    && |keys| == |events|
    && (forall r {:trigger RendersAt(c, keys[r], events[r])} ::
          0 <= r < |keys| ==> RendersAt(c, keys[r], events[r]))
  }

  lemma {:induction false} RendersAppend(c: Ctx, k: seq<LogKey>, e: seq<DebankEvent>, k': seq<LogKey>,
                                         e': seq<DebankEvent>)
    requires Renders(c, k, e) && Renders(c, k', e')
    ensures Renders(c, k + k', e + e')
  {
    forall r | 0 <= r < |k + k'| ensures RendersAt(c, (k + k')[r], (e + e')[r]) {
      if r < |k| {
        assert RendersAt(c, k[r], e[r]);
      } else {
        assert RendersAt(c, k'[r - |k|], e'[r - |k|]);
      }
    }
  }

  /** What the log slots of a frame were projected to. */
  ghost predicate LogPlaced(c: Ctx, i: nat, id: string, m: nat, member: Member)
    requires i < |c.nodes| && m < |Slots(c.nodes[i])|
  {
    Slots(c.nodes[i])[m].LogSlot? ==>
      var p := Slots(c.nodes[i])[m].position;
      && p < |c.nodes[i].logs| && member.LogMember?
      && member.event.(idx := 0) == EventFromLog(c, c.nodes[i].executionAddress, c.nodes[i].logs[p], id, m)
  }

  ghost predicate AllLogsPlaced(c: Ctx, i: nat, id: string, members: seq<Member>)
    requires i < |c.nodes|
  {
    && |members| <= |Slots(c.nodes[i])|
    && (forall m {:trigger LogPlaced(c, i, id, m, members[m])} ::
          0 <= m < |members| ==> LogPlaced(c, i, id, m, members[m]))
  }

  lemma {:induction false} LastLogPlaced(c: Ctx, i: nat, id: string, effective: bool, a: seq<nat>,
                                         members: seq<Member>, start: nat)
    requires i < |c.nodes| && members != [] && MembersProject(c, c.nodes[i], id, effective, a, members, start)
    ensures LogPlaced(c, i, id, |members| - 1, members[|members| - 1])
  {
  }

  lemma {:induction false} MembersLogsPlaced(c: Ctx, i: nat, id: string, effective: bool, a: seq<nat>,
                                             members: seq<Member>, start: nat)
    requires i < |c.nodes| && MembersProject(c, c.nodes[i], id, effective, a, members, start)
    ensures AllLogsPlaced(c, i, id, members)
    decreases |members|
  {
    if members != [] {
      var n := |members| - 1;
      MembersLogsPlaced(c, i, id, effective, a, members[..n], start);
      LastLogPlaced(c, i, id, effective, a, members, start);
      LogPlacedSnoc(c, i, id, members);
    }
  }

  lemma {:induction false} LogPlacedSnoc(c: Ctx, i: nat, id: string, members: seq<Member>)
    requires i < |c.nodes| && members != [] && |members| <= |Slots(c.nodes[i])|
    requires AllLogsPlaced(c, i, id, members[..|members| - 1])
    requires LogPlaced(c, i, id, |members| - 1, members[|members| - 1])
    ensures AllLogsPlaced(c, i, id, members)
  {
    var n := |members| - 1;
    forall m | 0 <= m < |members| ensures LogPlaced(c, i, id, m, members[m]) {
      if m < n {
        assert LogPlaced(c, i, id, m, members[..n][m]);
      }
    }
  }

  lemma {:induction false} LogPlacedInit(c: Ctx, i: nat, id: string, members: seq<Member>)
    requires i < |c.nodes| && members != [] && AllLogsPlaced(c, i, id, members)
    ensures AllLogsPlaced(c, i, id, members[..|members| - 1])
    ensures LogPlaced(c, i, id, |members| - 1, members[|members| - 1])
  {
    var n := |members| - 1;
    forall m | 0 <= m < n ensures LogPlaced(c, i, id, m, members[..n][m]) {
      assert LogPlaced(c, i, id, m, members[m]);
    }
    assert LogPlaced(c, i, id, n, members[n]);
  }

  lemma {:induction false} FrameLogs(c: Ctx, out: Node, a: seq<nat>)
    requires FrameAt(c, out, a)
    ensures NodeAt(c.nodes, a).Some? && NodeAt(c.nodes, a).value < |c.nodes|
    ensures AllLogsPlaced(c, NodeAt(c.nodes, a).value, out.trace.id, out.members)
  {
    var parentId, position, start :| Projects(c, out, a, parentId, position, start);
    MembersLogsPlaced(c, NodeAt(c.nodes, a).value, out.trace.id, out.effectiveSucceeded, a, out.members, start);
  }

  /** The members of the frame at `a` that are placed, both as frames and as logs. */
  ghost predicate Filled(c: Ctx, i: nat, a: seq<nat>, members: seq<Member>)
    requires i < |c.nodes|
  {
    AllPlaced(c, i, IdAt(c, a), a, members) && AllLogsPlaced(c, i, IdAt(c, a), members)
  }

  lemma {:induction false} RenderMember(c: Ctx, i: nat, a: seq<nat>, m: nat, member: Member, ok: bool)
    requires IsTree(c.nodes) && NodeAt(c.nodes, a) == Some(i) && i < |c.nodes| && |a| < |c.nodes|
    requires m < |Slots(c.nodes[i])| && Placed(c, i, IdAt(c, a), a, m, member) && LogPlaced(c, i, IdAt(c, a), m, member)
    ensures var slot := Slots(c.nodes[i])[m];
      && (slot.CallSlot? ==>
            Renders(c, LogsOf(c.nodes, a + [slot.position], ok), ExecMember(member, ChainOk(c.nodes, a), ok)))
      && (slot.LogSlot? ==>
            Renders(c, if ChainOk(c.nodes, a) == ok then [LogKey(a, m, slot.position)] else [],
                    ExecMember(member, ChainOk(c.nodes, a), ok)))
      && (slot.SuicideSlot? ==> ExecMember(member, ChainOk(c.nodes, a), ok) == [])
    decreases member
  {
    var slot := Slots(c.nodes[i])[m];
    if slot.CallSlot? {
      ChildId(c, i, a, m, slot.position);
      RenderNode(c, member.node, a + [slot.position], ok);
      FrameParts(c, member.node, a + [slot.position]);
    }
  }

  lemma {:induction false} RenderMembers(c: Ctx, i: nat, a: seq<nat>, members: seq<Member>, ok: bool)
    requires IsTree(c.nodes) && NodeAt(c.nodes, a) == Some(i) && i < |c.nodes| && |a| < |c.nodes| &&
      Filled(c, i, a, members)
    ensures Renders(c, LogsUpTo(c.nodes, a, |members|, ok), ExecMembers(members, ChainOk(c.nodes, a), ok))
    decreases members
  {
    if members != [] {
      var n := |members| - 1;
      var init := members[..n];
      PlacedInit(c, i, IdAt(c, a), a, members);
      LogPlacedInit(c, i, IdAt(c, a), members);
      RenderMembers(c, i, a, init, ok);
      RenderMember(c, i, a, n, members[n], ok);
      var slot := Slots(c.nodes[i])[n];
      var more := match slot {
        case CallSlot(p) => LogsOf(c.nodes, a + [p], ok)
        case LogSlot(p) => if ChainOk(c.nodes, a) == ok then [LogKey(a, n, p)] else []
        case SuicideSlot => []
      };
      RendersAppend(c, LogsUpTo(c.nodes, a, n, ok), ExecMembers(init, ChainOk(c.nodes, a), ok),
                    more, ExecMember(members[n], ChainOk(c.nodes, a), ok));
    }
  }

  /** In execution order, the events of a projected frame are the arena's logs from that frame down. */
  lemma {:induction false} RenderNode(c: Ctx, out: Node, a: seq<nat>, ok: bool)
    requires IsTree(c.nodes) && FrameAt(c, out, a) && out.trace.id == IdAt(c, a)
    ensures Renders(c, LogsOf(c.nodes, a, ok), ExecMembers(out.members, out.effectiveSucceeded, ok))
    decreases out
  {
    FrameParts(c, out, a);
    FrameLogs(c, out, a);
    PathBound(c.nodes, a);
    RenderMembers(c, NodeAt(c.nodes, a).value, a, out.members, ok);
  }
}
