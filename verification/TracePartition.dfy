/** The output arrays are a classified partition of the arena: every frame and self-destruct exactly
    once, in the success array exactly when its whole ancestor chain succeeded, descendants first. */
module TracePartition {
  import opened Words
  import opened TraceArena
  import opened TraceTree
  import opened TraceFlatten

  // ----- Trace entries of an arena, by address -----

  ghost predicate SuicideAt(nodes: seq<TraceNode>, b: seq<nat>) {
    && b != []
    && var i := NodeAt(nodes, b[..|b| - 1]);
    && i.Some? && i.value < |nodes| && nodes[i.value].selfdestruct && b[|b| - 1] == |nodes[i.value].children|
  }

  /** Addresses of frames, and of self-destructs numbered after a frame's children. */
  ghost predicate IsEntry(nodes: seq<TraceNode>, b: seq<nat>) {
    NodeAt(nodes, b).Some? || SuicideAt(nodes, b)
  }

  /** The chain that decides an entry's status: its own for a frame, its frame's for a self-destruct. */
  ghost predicate EntryOk(nodes: seq<TraceNode>, b: seq<nat>) {
    if NodeAt(nodes, b).Some? then ChainOk(nodes, b) else b != [] && ChainOk(nodes, b[..|b| - 1])
  }

  ghost predicate Lands(nodes: seq<TraceNode>, b: seq<nat>, ok: bool) {
    IsEntry(nodes, b) && EntryOk(nodes, b) == ok
  }

  /** The last component of the address a slot's trace gets. */
  function Target(node: TraceNode, m: nat): Option<nat>
    requires m < |Slots(node)|
  {
    match Slots(node)[m]
    case CallSlot(p) => Some(p)
    case SuicideSlot => Some(|node.children|)
    case LogSlot(_) => None
  }

  ghost predicate Targets(node: TraceNode, n: nat, p: nat) {
    exists m: nat :: m < n && m < |Slots(node)| && Target(node, m) == Some(p)
  }

  lemma {:induction false} OrderedSlotsFacts(ordering: seq<MemberOrder>)
    requires Distinct(CallPositions(ordering))
    ensures forall m :: 0 <= m < |OrderedSlots(ordering)| ==> !OrderedSlots(ordering)[m].SuicideSlot?
    ensures forall p :: CallSlot(p) in OrderedSlots(ordering) <==> p in CallPositions(ordering)
    ensures forall j, k :: 0 <= j < k < |OrderedSlots(ordering)| && OrderedSlots(ordering)[j].CallSlot? ==>
      OrderedSlots(ordering)[j] != OrderedSlots(ordering)[k]
    decreases |ordering|
  {
    if ordering != [] {
      var n := |ordering| - 1;
      var ps, before := CallPositions(ordering), CallPositions(ordering[..n]);
      assert before == ps[..|before|];
      OrderedSlotsFacts(ordering[..n]);
      var slots, init := OrderedSlots(ordering), OrderedSlots(ordering[..n]);
      if ordering[n].Call? {
        var p := ordering[n].position;
        assert ps[|before|] == p && p !in before;
        assert slots == init + [CallSlot(p)] && CallSlot(p) !in init;
      }
    }
  }

  /** Slots of a frame in a tree: one per child, one for a self-destruct, no target twice. */
  lemma SlotTargets(nodes: seq<TraceNode>, i: nat)
    requires IsTree(nodes) && i < |nodes|
    ensures var node := nodes[i];
      forall j, k :: 0 <= j < k < |Slots(node)| && Target(node, j).Some? ==> Target(node, j) != Target(node, k)
    ensures forall p: nat :: Targets(nodes[i], |Slots(nodes[i])|, p) <==>
      p < |nodes[i].children| || (nodes[i].selfdestruct && p == |nodes[i].children|)
  {
    var node := nodes[i];
    assert WellFormedNode(nodes, i) && EachOnce(CallPositions(node.ordering), |node.children|);
    OrderedSlotsFacts(node.ordering);
    var os, n := OrderedSlots(node.ordering), |OrderedSlots(node.ordering)|;
    forall m | 0 <= m < n && os[m].CallSlot? ensures os[m].position < |node.children| {
      assert CallSlot(os[m].position) in os;
    }
    forall p: nat ensures Targets(node, |Slots(node)|, p) <==>
      p < |node.children| || (node.selfdestruct && p == |node.children|) {
      if p < |node.children| {
        assert p in CallPositions(node.ordering);
        assert CallSlot(p) in os;
        var m :| 0 <= m < n && os[m] == CallSlot(p);
        assert Slots(node)[m] == CallSlot(p) && Target(node, m) == Some(p);
      } else if node.selfdestruct && p == |node.children| {
        assert Slots(node)[n] == SuicideSlot && Target(node, n) == Some(p);
      }
    }
  }

  /** How many traces sit directly below an entry. */
  ghost function SubtracesAt(nodes: seq<TraceNode>, b: seq<nat>): nat {
    var i := NodeAt(nodes, b);
    if i.Some? && i.value < |nodes| then |nodes[i.value].children| + (if nodes[i.value].selfdestruct then 1 else 0)
    else 0
  }

  // ----- A projection, frame by frame -----

  /** `out` projects the frame at `a` under some parent and starting index. */
  ghost predicate FrameAt(c: Ctx, out: Node, a: seq<nat>) {
    exists parentId, position, start :: Projects(c, out, a, parentId, position, start)
  }

  /** What slot `m` of the frame at `a`, identified by `id`, was projected to. */
  ghost predicate Placed(c: Ctx, i: nat, id: string, a: seq<nat>, m: nat, member: Member)
    requires i < |c.nodes| && m < |Slots(c.nodes[i])|
  {
    match Slots(c.nodes[i])[m]
    case CallSlot(p) =>
      && member.TraceMember? && FrameAt(c, member.node, a + [p])
      && member.node.trace.id == TraceId(c, id, m)
    case LogSlot(_) => member.LogMember?
    case SuicideSlot =>
      && member.TraceMember? && member.node.members == [] && member.node.effectiveSucceeded == ChainOk(c.nodes, a)
      && member.node.trace == SuicideTrace(c, id, m, a + [|c.nodes[i].children|], ChainOk(c.nodes, a))
  }

  ghost predicate AllPlaced(c: Ctx, i: nat, id: string, a: seq<nat>, members: seq<Member>)
    requires i < |c.nodes|
  {
    && |members| <= |Slots(c.nodes[i])|
    && forall m {:trigger Placed(c, i, id, a, m, members[m])} ::
         0 <= m < |members| ==> Placed(c, i, id, a, m, members[m])
  }

  lemma LastPlaced(c: Ctx, i: nat, id: string, effective: bool, a: seq<nat>, members: seq<Member>, start: nat)
    requires i < |c.nodes| && effective == ChainOk(c.nodes, a) && members != []
    requires MembersProject(c, c.nodes[i], id, effective, a, members, start)
    ensures Placed(c, i, id, a, |members| - 1, members[|members| - 1])
  {
    var n := |members| - 1;
    if Slots(c.nodes[i])[n].CallSlot? {
      var p := Slots(c.nodes[i])[n].position;
      assert Projects(c, members[n].node, a + [p], id, n, start + |ExecMembers(members[..n], effective, true)|) == true;
    }
  }

  lemma {:induction false} MembersPlaced(c: Ctx, i: nat, id: string, effective: bool, a: seq<nat>,
                                         members: seq<Member>, start: nat)
    requires i < |c.nodes| && effective == ChainOk(c.nodes, a)
    requires MembersProject(c, c.nodes[i], id, effective, a, members, start)
    ensures AllPlaced(c, i, id, a, members)
    decreases |members|
  {
    if members != [] {
      var n := |members| - 1;
      MembersPlaced(c, i, id, effective, a, members[..n], start);
      LastPlaced(c, i, id, effective, a, members, start);
      PlacedSnoc(c, i, id, a, members);
    }
  }

  lemma PlacedInit(c: Ctx, i: nat, id: string, a: seq<nat>, members: seq<Member>)
    requires i < |c.nodes| && members != [] && AllPlaced(c, i, id, a, members)
    ensures AllPlaced(c, i, id, a, members[..|members| - 1])
    ensures Placed(c, i, id, a, |members| - 1, members[|members| - 1])
  {
    var n := |members| - 1;
    forall m | 0 <= m < n ensures Placed(c, i, id, a, m, members[..n][m]) {
      assert Placed(c, i, id, a, m, members[m]);
    }
    assert Placed(c, i, id, a, n, members[n]);
  }

  lemma PlacedSnoc(c: Ctx, i: nat, id: string, a: seq<nat>, members: seq<Member>)
    requires i < |c.nodes| && members != [] && |members| <= |Slots(c.nodes[i])|
    requires AllPlaced(c, i, id, a, members[..|members| - 1])
    requires Placed(c, i, id, a, |members| - 1, members[|members| - 1])
    ensures AllPlaced(c, i, id, a, members)
  {
    var n := |members| - 1;
    forall m | 0 <= m < |members| ensures Placed(c, i, id, a, m, members[m]) {
      if m < n {
        assert Placed(c, i, id, a, m, members[..n][m]);
      }
    }
  }

  /** A projected frame: its address and status, and every member in its slot. */
  lemma FrameParts(c: Ctx, out: Node, a: seq<nat>)
    requires FrameAt(c, out, a)
    ensures var i := NodeAt(c.nodes, a);
      && i.Some? && i.value < |c.nodes| && Formattable(c, i.value)
      && out.trace.traceAddress == a && out.trace.txId == c.tx && !out.trace.suicide
      && out.trace.subtraces == SubtracesAt(c.nodes, a) && out.effectiveSucceeded == ChainOk(c.nodes, a)
      && |out.members| == |Slots(c.nodes[i.value])| && AllPlaced(c, i.value, out.trace.id, a, out.members)
  {
    var parentId, position, start :| Projects(c, out, a, parentId, position, start);
    MembersPlaced(c, NodeAt(c.nodes, a).value, out.trace.id, out.effectiveSucceeded, a, out.members, start);
  }

  // ----- Counting entries by address -----

  ghost function Occurs(traces: seq<DebankTrace>, b: seq<nat>): nat {
    if traces == [] then 0
    else Occurs(traces[..|traces| - 1], b) + (if traces[|traces| - 1].traceAddress == b then 1 else 0)
  }

  lemma {:induction false} OccursAppend(s: seq<DebankTrace>, t: seq<DebankTrace>, b: seq<nat>)
    ensures Occurs(s + t, b) == Occurs(s, b) + Occurs(t, b)
    decreases |t|
  {
    if t == [] {
      assert s + t == s;
    } else {
      OccursAppend(s, t[..|t| - 1], b);
      assert (s + t)[..|s + t| - 1] == s + t[..|t| - 1];
    }
  }

  /** The next component of `b` below `a` decides which member of the frame at `a` can hold `b`. */
  ghost predicate Through(a: seq<nat>, p: nat, b: seq<nat>) {
    |a| < |b| && a == b[..|a|] && b[|a|] == p
  }

  lemma ThroughIsPrefix(a: seq<nat>, p: nat, b: seq<nat>)
    ensures Through(a, p, b) <==> a + [p] <= b
    ensures Through(a, p, b) <==> a + [p] < b || a + [p] == b
  {
    if Through(a, p, b) {
      assert b[..|a| + 1] == a + [p];
    }
  }

  /** Nothing in the arena lies strictly below a missing child position. */
  lemma NothingBelow(nodes: seq<TraceNode>, a: seq<nat>, p: nat, b: seq<nat>)
    requires NodeAt(nodes, a + [p]).None? && a + [p] < b
    ensures !IsEntry(nodes, b)
  {
    var longer := a + [p];
    assert b[..|longer|] == longer;
    if NodeAt(nodes, b).Some? {
      PrefixReached(nodes, b, |longer|);
    }
    var init := b[..|b| - 1];
    assert init[..|longer|] == longer;
    if NodeAt(nodes, init).Some? {
      PrefixReached(nodes, init, |longer|);
    }
  }

  /** An entry below a frame passes through one of the frame's slots. */
  lemma EntryPassesSlot(nodes: seq<TraceNode>, a: seq<nat>, b: seq<nat>)
    requires IsTree(nodes) && NodeAt(nodes, a).Some? && a < b && IsEntry(nodes, b)
    ensures var i := NodeAt(nodes, a).value; i < |nodes| && Targets(nodes[i], |Slots(nodes[i])|, b[|a|])
  {
    ReachedInRange(nodes, a);
    var i, p := NodeAt(nodes, a).value, b[|a|];
    SlotTargets(nodes, i);
    var longer := a + [p];
    assert longer[..|a|] == a;
    ThroughIsPrefix(a, p, b);
    if NodeAt(nodes, longer).None? && longer < b {
      NothingBelow(nodes, a, p, b);
    }
  }

  /** What the member in slot `m` adds to the count of `b` in the array for status `ok`. */
  lemma {:induction false} CountMember(c: Ctx, i: nat, id: string, a: seq<nat>, m: nat, member: Member, b: seq<nat>,
                                       ok: bool)
    requires IsTree(c.nodes) && NodeAt(c.nodes, a) == Some(i) && i < |c.nodes|
    requires m < |Slots(c.nodes[i])| && Placed(c, i, id, a, m, member)
    ensures var t := Target(c.nodes[i], m);
      Occurs(BelowMember(member, ok), b) + Occurs(Chosen(DirectMember(member), ok), b) ==
        if t.Some? && Through(a, t.value, b) && Lands(c.nodes, b, ok) then 1 else 0
    decreases member
  {
    var node := c.nodes[i];
    if Slots(node)[m].CallSlot? {
      var p, child := Slots(node)[m].position, member.node;
      CountNode(c, child, a + [p], b, ok);
      CountCall(c, child, a, p, b, ok);
    } else if Slots(node)[m].SuicideSlot? {
      OnlyDestroyedHasSuicideSlot(c.nodes, i, m);
      CountSuicide(c, i, a, member.node, b, ok);
    }
  }

  lemma CountCall(c: Ctx, child: Node, a: seq<nat>, p: nat, b: seq<nat>, ok: bool)
    requires FrameAt(c, child, a + [p])
    requires Occurs(FlatTraces(child, ok), b) == if a + [p] < b && Lands(c.nodes, b, ok) then 1 else 0
    ensures Occurs(FlatTraces(child, ok), b) + Occurs(Chosen(DirectMember(TraceMember(child)), ok), b) ==
      if Through(a, p, b) && Lands(c.nodes, b, ok) then 1 else 0
  {
    FrameParts(c, child, a + [p]);
    CountDirect(child, b, ok);
    ThroughIsPrefix(a, p, b);
    if a + [p] == b {
      assert Lands(c.nodes, b, ok) <==> child.effectiveSucceeded == ok;
    }
  }

  lemma OnlyDestroyedHasSuicideSlot(nodes: seq<TraceNode>, i: nat, m: nat)
    requires IsTree(nodes) && i < |nodes| && m < |Slots(nodes[i])| && Slots(nodes[i])[m].SuicideSlot?
    ensures nodes[i].selfdestruct
  {
    assert WellFormedNode(nodes, i);
    OrderedSlotsFacts(nodes[i].ordering);
  }

  lemma CountDirect(child: Node, b: seq<nat>, ok: bool)
    ensures Occurs(Chosen(DirectMember(TraceMember(child)), ok), b) ==
      if child.trace.traceAddress == b && child.effectiveSucceeded == ok then 1 else 0
  {
    ChosenOne(child.trace, child.effectiveSucceeded, ok);
    OccursOne(child.trace, b);
  }

  lemma ChosenOne(trace: DebankTrace, effective: bool, ok: bool)
    ensures Chosen([(trace, effective)], ok) == if effective == ok then [trace] else []
  {
    assert [(trace, effective)][..0] == [];
    assert Chosen([(trace, effective)][..0], ok) == [];
  }

  lemma OccursOne(trace: DebankTrace, b: seq<nat>)
    ensures Occurs([trace], b) == if trace.traceAddress == b then 1 else 0
  {
    assert [trace][..0] == [];
  }

  lemma CountSuicide(c: Ctx, i: nat, a: seq<nat>, child: Node, b: seq<nat>, ok: bool)
    requires IsTree(c.nodes) && NodeAt(c.nodes, a) == Some(i) && i < |c.nodes| && c.nodes[i].selfdestruct
    requires child.members == [] && child.effectiveSucceeded == ChainOk(c.nodes, a)
    requires child.trace.traceAddress == a + [|c.nodes[i].children|]
    ensures Occurs(FlatTraces(child, ok), b) + Occurs(Chosen(DirectMember(TraceMember(child)), ok), b) ==
      if Through(a, |c.nodes[i].children|, b) && Lands(c.nodes, b, ok) then 1 else 0
  {
    var p := |c.nodes[i].children|;
    var longer := a + [p];
    assert longer[..|a|] == a && NodeAt(c.nodes, longer).None?;
    assert SuicideAt(c.nodes, longer);
    ThroughIsPrefix(a, p, b);
    CountDirect(child, b, ok);
    if longer < b {
      NothingBelow(c.nodes, a, p, b);
    }
    assert FlatTraces(child, ok) == [];
  }

  ghost function CountIn(members: seq<Member>, b: seq<nat>, ok: bool): nat {
    Occurs(Below(members, ok), b) + Occurs(Chosen(Direct(members), ok), b)
  }

  lemma CountSnoc(members: seq<Member>, b: seq<nat>, ok: bool)
    requires members != []
    ensures var n := |members| - 1;
      CountIn(members, b, ok) ==
        CountIn(members[..n], b, ok) + Occurs(BelowMember(members[n], ok), b) +
          Occurs(Chosen(DirectMember(members[n]), ok), b)
  {
    var n := |members| - 1;
    var init, last := members[..n], members[n];
    OccursAppend(Below(init, ok), BelowMember(last, ok), b);
    ChosenAppend(Direct(init), DirectMember(last), ok);
    OccursAppend(Chosen(Direct(init), ok), Chosen(DirectMember(last), ok), b);
  }

  lemma {:induction false} CountMembers(c: Ctx, i: nat, id: string, a: seq<nat>, members: seq<Member>, b: seq<nat>,
                                        ok: bool)
    requires IsTree(c.nodes) && NodeAt(c.nodes, a) == Some(i) && i < |c.nodes| && AllPlaced(c, i, id, a, members)
    ensures CountIn(members, b, ok) == Hits(c.nodes, i, |members|, a, b, ok)
    decreases members
  {
    if members != [] {
      var n := |members| - 1;
      PlacedInit(c, i, id, a, members);
      CountMembers(c, i, id, a, members[..n], b, ok);
      CountMember(c, i, id, a, n, members[n], b, ok);
      CountSnoc(members, b, ok);
      HitsSnoc(c.nodes, i, n, a, b, ok);
    }
  }

  /** Whether one of the first `n` slots holds `b`, which occurs once if so. */
  ghost function Hits(nodes: seq<TraceNode>, i: nat, n: nat, a: seq<nat>, b: seq<nat>, ok: bool): nat
    requires i < |nodes|
  {
    if a < b && Targets(nodes[i], n, b[|a|]) && Lands(nodes, b, ok) then 1 else 0
  }

  lemma HitsSnoc(nodes: seq<TraceNode>, i: nat, n: nat, a: seq<nat>, b: seq<nat>, ok: bool)
    requires IsTree(nodes) && i < |nodes| && n < |Slots(nodes[i])|
    ensures var t := Target(nodes[i], n);
      Hits(nodes, i, n + 1, a, b, ok) ==
        Hits(nodes, i, n, a, b, ok) + (if t.Some? && Through(a, t.value, b) && Lands(nodes, b, ok) then 1 else 0)
  {
    OneMoreTarget(nodes, i, n, a, b);
  }

  lemma OneMoreTarget(nodes: seq<TraceNode>, i: nat, n: nat, a: seq<nat>, b: seq<nat>)
    requires IsTree(nodes) && i < |nodes| && n < |Slots(nodes[i])|
    ensures a < b ==> (Targets(nodes[i], n + 1, b[|a|]) <==>
      Targets(nodes[i], n, b[|a|]) || Target(nodes[i], n) == Some(b[|a|]))
    ensures a < b ==> !(Targets(nodes[i], n, b[|a|]) && Target(nodes[i], n) == Some(b[|a|]))
    ensures var t := Target(nodes[i], n); t.Some? ==> (Through(a, t.value, b) <==> a < b && b[|a|] == t.value)
  {
    SlotTargets(nodes, i);
  }

  lemma {:induction false} ChosenAppend(s: seq<(DebankTrace, bool)>, t: seq<(DebankTrace, bool)>, ok: bool)
    requires |t| <= 1
    ensures Chosen(s + t, ok) == Chosen(s, ok) + Chosen(t, ok)
  {
    if t == [] {
      assert s + t == s;
    } else {
      assert (s + t)[..|s|] == s && t[..0] == [];
      assert Chosen(t, ok) == if t[0].1 == ok then [t[0].0] else [];
    }
  }

  /** Below a projected frame, every arena entry occurs exactly once, in the array of its status. */
  lemma {:induction false} CountNode(c: Ctx, out: Node, a: seq<nat>, b: seq<nat>, ok: bool)
    requires IsTree(c.nodes) && FrameAt(c, out, a)
    ensures Occurs(FlatTraces(out, ok), b) == if a < b && Lands(c.nodes, b, ok) then 1 else 0
    decreases out
  {
    FrameParts(c, out, a);
    CountMembers(c, NodeAt(c.nodes, a).value, out.trace.id, a, out.members, b, ok);
    OccursAppend(Below(out.members, ok), Chosen(Direct(out.members), ok), b);
    if a < b && IsEntry(c.nodes, b) {
      EntryPassesSlot(c.nodes, a, b);
    }
  }

  // ----- Descendants come first -----

  /** No trace stands before one of its own descendants. */
  ghost predicate DescendantsFirst(traces: seq<DebankTrace>) {
    forall j, k :: 0 <= j < k < |traces| ==> !(traces[j].traceAddress < traces[k].traceAddress)
  }

  /** `b` lies strictly below position `p` of the frame at `a`. */
  ghost predicate Deep(a: seq<nat>, p: nat, b: seq<nat>) {
    |a| + 1 < |b| && Through(a, p, b)
  }

  ghost predicate AllDeep(node: TraceNode, n: nat, a: seq<nat>, traces: seq<DebankTrace>) {
    forall k :: 0 <= k < |traces| ==>
      var b := traces[k].traceAddress; |a| < |b| && Deep(a, b[|a|], b) && Targets(node, n, b[|a|])
  }

  lemma FirstAppend(s: seq<DebankTrace>, t: seq<DebankTrace>)
    requires DescendantsFirst(s) && DescendantsFirst(t)
    requires forall j, k :: 0 <= j < |s| && 0 <= k < |t| ==> !(s[j].traceAddress < t[k].traceAddress)
    ensures DescendantsFirst(s + t)
  {
    var all := s + t;
    forall j, k | 0 <= j < k < |all| ensures !(all[j].traceAddress < all[k].traceAddress) {
      if j >= |s| {
        assert all[j] == t[j - |s|] && all[k] == t[k - |s|];
      } else if k >= |s| {
        assert all[k] == t[k - |s|];
      }
    }
  }

  ghost predicate Shallow(a: seq<nat>, traces: seq<DebankTrace>) {
    forall k :: 0 <= k < |traces| ==> |traces[k].traceAddress| == |a| + 1 && a < traces[k].traceAddress
  }

  lemma MemberShallow(c: Ctx, i: nat, id: string, a: seq<nat>, m: nat, member: Member, ok: bool)
    requires i < |c.nodes| && m < |Slots(c.nodes[i])| && Placed(c, i, id, a, m, member)
    ensures Shallow(a, Chosen(DirectMember(member), ok))
  {
    if Slots(c.nodes[i])[m].CallSlot? {
      var p := Slots(c.nodes[i])[m].position;
      FrameAddress(c, member.node, a + [p]);
      ChildShallow(a, p, member.node, ok);
    } else if Slots(c.nodes[i])[m].SuicideSlot? {
      ChildShallow(a, |c.nodes[i].children|, member.node, ok);
    }
  }

  lemma ChildShallow(a: seq<nat>, p: nat, child: Node, ok: bool)
    requires child.trace.traceAddress == a + [p]
    ensures Shallow(a, Chosen(DirectMember(TraceMember(child)), ok))
  {
    ChosenOne(child.trace, child.effectiveSucceeded, ok);
  }

  lemma FrameAddress(c: Ctx, out: Node, a: seq<nat>)
    requires FrameAt(c, out, a)
    ensures out.trace.traceAddress == a
  {
  }

  /** Direct children sit one level below the frame. */
  lemma {:induction false} DirectShallow(c: Ctx, i: nat, id: string, a: seq<nat>, members: seq<Member>, ok: bool)
    requires i < |c.nodes| && AllPlaced(c, i, id, a, members)
    ensures Shallow(a, Chosen(Direct(members), ok))
    decreases |members|
  {
    if members != [] {
      var n := |members| - 1;
      var init := members[..n];
      PlacedInit(c, i, id, a, members);
      DirectShallow(c, i, id, a, init, ok);
      MemberShallow(c, i, id, a, n, members[n], ok);
      ChosenAppend(Direct(init), DirectMember(members[n]), ok);
    }
  }

  lemma {:induction false} OrderMember(c: Ctx, i: nat, id: string, a: seq<nat>, m: nat, member: Member, ok: bool)
    requires IsTree(c.nodes) && i < |c.nodes| && m < |Slots(c.nodes[i])| && Placed(c, i, id, a, m, member)
    ensures DescendantsFirst(BelowMember(member, ok))
    ensures Target(c.nodes[i], m).None? ==> BelowMember(member, ok) == []
    ensures var t := Target(c.nodes[i], m); t.Some? ==>
      forall k :: 0 <= k < |BelowMember(member, ok)| ==> Deep(a, t.value, BelowMember(member, ok)[k].traceAddress)
    decreases member
  {
    if Slots(c.nodes[i])[m].CallSlot? {
      var p := Slots(c.nodes[i])[m].position;
      OrderNode(c, member.node, a + [p], ok);
      forall k | 0 <= k < |BelowMember(member, ok)| ensures Deep(a, p, BelowMember(member, ok)[k].traceAddress) {
        ThroughIsPrefix(a, p, BelowMember(member, ok)[k].traceAddress);
      }
    } else if Slots(c.nodes[i])[m].SuicideSlot? {
      assert FlatTraces(member.node, ok) == [];
    }
  }

  lemma {:induction false} OrderMembers(c: Ctx, i: nat, id: string, a: seq<nat>, members: seq<Member>, ok: bool)
    requires IsTree(c.nodes) && i < |c.nodes| && AllPlaced(c, i, id, a, members)
    ensures DescendantsFirst(Below(members, ok)) && AllDeep(c.nodes[i], |members|, a, Below(members, ok))
    decreases members
  {
    if members != [] {
      var n := |members| - 1;
      var init := members[..n];
      PlacedInit(c, i, id, a, members);
      OrderMembers(c, i, id, a, init, ok);
      OrderMember(c, i, id, a, n, members[n], ok);
      OrderNext(c.nodes, i, a, n, Below(init, ok), BelowMember(members[n], ok));
    }
  }

  /** What lies below the next slot goes after what lies below the ones before it. */
  lemma OrderNext(nodes: seq<TraceNode>, i: nat, a: seq<nat>, n: nat, s: seq<DebankTrace>, t: seq<DebankTrace>)
    requires IsTree(nodes) && i < |nodes| && n < |Slots(nodes[i])|
    requires DescendantsFirst(s) && AllDeep(nodes[i], n, a, s) && DescendantsFirst(t)
    requires Target(nodes[i], n).None? ==> t == []
    requires Target(nodes[i], n).Some? ==>
      forall k :: 0 <= k < |t| ==> Deep(a, Target(nodes[i], n).value, t[k].traceAddress)
    ensures DescendantsFirst(s + t) && AllDeep(nodes[i], n + 1, a, s + t)
  {
    SlotTargets(nodes, i);
    FirstAppend(s, t);
  }

  /** In each array below a frame, every trace comes after all its descendants. */
  lemma {:induction false} OrderNode(c: Ctx, out: Node, a: seq<nat>, ok: bool)
    requires IsTree(c.nodes) && FrameAt(c, out, a)
    ensures DescendantsFirst(FlatTraces(out, ok))
    ensures forall k :: 0 <= k < |FlatTraces(out, ok)| ==> a < FlatTraces(out, ok)[k].traceAddress
    decreases out
  {
    FrameParts(c, out, a);
    var i := NodeAt(c.nodes, a).value;
    OrderMembers(c, i, out.trace.id, a, out.members, ok);
    DirectShallow(c, i, out.trace.id, a, out.members, ok);
    FirstAppend(Below(out.members, ok), Chosen(Direct(out.members), ok));
  }
}
