/** The recursive projection of an arena (crates/rpc/src/debank.rs, `build_node`), proved against
    the declarative description in `TraceTree`. */
module TraceBuild {
  import opened Words
  import opened TraceArena
  import opened TraceTree

  datatype FormatError = MissingSidecarEntry | Unformattable

  function TraceCount(members: seq<Member>): nat {
    if members == [] then 0
    else TraceCount(members[..|members| - 1]) + (if members[|members| - 1].TraceMember? then 1 else 0)
  }

  ghost function IndexIn(positions: seq<nat>, p: nat): (i: nat)
    requires p in positions
    ensures i < |positions| && positions[i] == p
  {
    var i: nat :| i < |positions| && positions[i] == p;
    i
  }

  lemma EachOnceLength(positions: seq<nat>, n: nat)
    requires EachOnce(positions, n)
    ensures |positions| == n
  {
    Pigeonhole(positions, n);
    var places := seq(n, p requires 0 <= p < n => assert p in positions; IndexIn(positions, p));
    forall p, q | 0 <= p < q < n ensures places[p] != places[q] {
      assert p in positions && q in positions;
    }
    Pigeonhole(places, |positions|);
  }

  /** Slots of the first `k` ordered members are the first slots of the frame. */
  lemma {:induction false} SlotsPrefix(ordering: seq<MemberOrder>, k: nat)
    requires k <= |ordering|
    ensures OrderedSlots(ordering[..k]) <= OrderedSlots(ordering)
    decreases |ordering| - k
  {
    if k < |ordering| {
      SlotsPrefix(ordering, k + 1);
      assert ordering[..k + 1][..k] == ordering[..k];
    } else {
      assert ordering[..k] == ordering;
    }
  }

  /** The slot a member fills is the one at its position among the slots built so far. */
  lemma NextSlot(node: TraceNode, k: nat)
    requires k < |node.ordering|
    ensures var m := |OrderedSlots(node.ordering[..k])|;
      match node.ordering[k] {
        case Call(p) => m < |Slots(node)| && Slots(node)[m] == CallSlot(p) &&
          |OrderedSlots(node.ordering[..k + 1])| == m + 1
        case Log(p) => m < |Slots(node)| && Slots(node)[m] == LogSlot(p) &&
          |OrderedSlots(node.ordering[..k + 1])| == m + 1
        case OpcodeStep(_) => |OrderedSlots(node.ordering[..k + 1])| == m
      }
  {
    SlotsPrefix(node.ordering, k + 1);
    assert node.ordering[..k + 1][..k] == node.ordering[..k];
    var before, upTo := OrderedSlots(node.ordering[..k]), OrderedSlots(node.ordering[..k + 1]);
    if node.ordering[k].Call? {
      assert upTo[|before|] == CallSlot(node.ordering[k].position);
    } else if node.ordering[k].Log? {
      assert upTo[|before|] == LogSlot(node.ordering[k].position);
    }
  }

  lemma ExtendCounts(members: seq<Member>, effective: bool, member: Member)
    ensures |ExecMembers(members + [member], effective, true)| ==
      |ExecMembers(members, effective, true)| + |ExecMember(member, effective, true)|
    ensures TraceCount(members + [member]) == TraceCount(members) + (if member.TraceMember? then 1 else 0)
  {
    assert (members + [member])[..|members|] == members;
  }

  /** Adding a member that fits the next slot. */
  lemma Extend(c: Ctx, node: TraceNode, id: string, effective: bool, a: seq<nat>, members: seq<Member>, start: nat,
               member: Member)
    requires MembersProject(c, node, id, effective, a, members, start) && |members| < |Slots(node)|
    requires MemberProjects(c, node, id, effective, a, |members|, member,
      start + |ExecMembers(members, effective, true)|)
    ensures MembersProject(c, node, id, effective, a, members + [member], start)
  {
    assert (members + [member])[..|members|] == members;
  }

  ghost predicate StorageTouched(sstore: bool, members: seq<Member>) {
    sstore || exists m :: 0 <= m < |members| && ChangesStorage(members[m])
  }

  lemma TouchStep(sstore: bool, members: seq<Member>, member: Member)
    ensures StorageTouched(sstore, members + [member]) <==> StorageTouched(sstore, members) || ChangesStorage(member)
  {
    var more := members + [member];
    assert more[|members|] == member;
    assert forall m :: 0 <= m < |members| ==> more[m] == members[m];
  }

  /** What the walk over a frame's members has built after `k` of them. */
  ghost predicate Built(c: Ctx, node: TraceNode, k: nat, id: string, effective: bool, a: seq<nat>, start: nat,
                        members: seq<Member>, touched: bool, logIndex: nat)
    requires k <= |node.ordering|
  {
    MembersProject(c, node, id, effective, a, members, start) &&
    Tallied(node, k, effective, start, members, touched, logIndex)
  }

  /** The numbers the walk has after `k` members. */
  ghost predicate Tallied(node: TraceNode, k: nat, effective: bool, start: nat, members: seq<Member>, touched: bool,
                          logIndex: nat)
    requires k <= |node.ordering|
  {
    && |members| == |OrderedSlots(node.ordering[..k])|
    && TraceCount(members) == |CallPositions(node.ordering[..k])|
    && touched == StorageTouched(node.sstore, members)
    && logIndex == start + |ExecMembers(members, effective, true)|
  }

  lemma TallyAdd(node: TraceNode, k: nat, effective: bool, start: nat, members: seq<Member>, touched: bool,
                 logIndex: nat, member: Member)
    requires k < |node.ordering| && Tallied(node, k, effective, start, members, touched, logIndex)
    requires !node.ordering[k].OpcodeStep? && (member.TraceMember? <==> node.ordering[k].Call?)
    ensures Tallied(node, k + 1, effective, start, members + [member], touched || ChangesStorage(member),
                    logIndex + |ExecMember(member, effective, true)|)
  {
    NextSlot(node, k);
    NextMember(node.ordering, k);
    ExtendCounts(members, effective, member);
    TouchStep(node.sstore, members, member);
  }

  /** The member for ordering entry `k` extends what is built. */
  lemma BuiltAdd(c: Ctx, node: TraceNode, k: nat, id: string, effective: bool, a: seq<nat>, start: nat,
                 members: seq<Member>, touched: bool, logIndex: nat, member: Member)
    requires k < |node.ordering| && Built(c, node, k, id, effective, a, start, members, touched, logIndex)
    requires !node.ordering[k].OpcodeStep? && (member.TraceMember? <==> node.ordering[k].Call?)
    requires |members| < |Slots(node)| && MemberProjects(c, node, id, effective, a, |members|, member, logIndex)
    ensures
      Built(c, node, k + 1, id, effective, a, start, members + [member], touched || ChangesStorage(member),
            logIndex + |ExecMember(member, effective, true)|)
  {
    Extend(c, node, id, effective, a, members, start, member);
    TallyAdd(node, k, effective, start, members, touched, logIndex, member);
  }

  /** An opcode step makes no member. */
  lemma BuiltSkip(c: Ctx, node: TraceNode, k: nat, id: string, effective: bool, a: seq<nat>, start: nat,
                  members: seq<Member>, touched: bool, logIndex: nat)
    requires k < |node.ordering| && Built(c, node, k, id, effective, a, start, members, touched, logIndex)
    requires node.ordering[k].OpcodeStep?
    ensures Built(c, node, k + 1, id, effective, a, start, members, touched, logIndex)
  {
    NextSlot(node, k);
    NextMember(node.ordering, k);
  }

  /** The self-destruct that follows a frame's other members. */
  function SuicideMember(c: Ctx, node: TraceNode, id: string, effective: bool, a: seq<nat>, position: nat): Member {
    TraceMember(Node(SuicideTrace(c, id, position, a + [|node.children|], effective), [], true, effective))
  }

  lemma SuicideStep(c: Ctx, node: TraceNode, id: string, effective: bool, a: seq<nat>, start: nat,
                    members: seq<Member>, touched: bool, logIndex: nat)
    requires Built(c, node, |node.ordering|, id, effective, a, start, members, touched, logIndex) && node.selfdestruct
    ensures var all := members + [SuicideMember(c, node, id, effective, a, |members|)];
      && MembersProject(c, node, id, effective, a, all, start) && |all| == |Slots(node)|
      && TraceCount(all) == |CallPositions(node.ordering)| + 1
      && touched == StorageTouched(node.sstore, all)
      && logIndex == start + |ExecMembers(all, effective, true)|
  {
    assert node.ordering[..|node.ordering|] == node.ordering;
    var member := SuicideMember(c, node, id, effective, a, |members|);
    Extend(c, node, id, effective, a, members, start, member);
    ExtendCounts(members, effective, member);
    TouchStep(node.sstore, members, member);
  }

  /** The child of frame `i` at position `p` is reached by extending the frame's address. */
  lemma ChildAt(c: Ctx, i: nat, a: seq<nat>, k: nat)
    requires IsTree(c.nodes) && NodeAt(c.nodes, a) == Some(i) && i < |c.nodes|
    requires k < |c.nodes[i].ordering| && c.nodes[i].ordering[k].Call?
    ensures var p := c.nodes[i].ordering[k].position;
      && p < |c.nodes[i].children| && c.nodes[i].children[p] < |c.nodes|
      && NodeAt(c.nodes, a + [p]) == Some(c.nodes[i].children[p])
      && |a| + 1 < |c.nodes|
  {
    var node, p := c.nodes[i], c.nodes[i].ordering[k].position;
    NextMember(node.ordering, k);
    assert WellFormedNode(c.nodes, i) && EachOnce(CallPositions(node.ordering), |node.children|);
    assert CallPositions(node.ordering[..k + 1])[|CallPositions(node.ordering[..k])|] == p;
    assert Links(c.nodes, i, node.children[p]);
    assert (a + [p])[..|a|] == a;
    PathBound(c.nodes, a + [p]);
  }

  lemma LogInRange(c: Ctx, i: nat, k: nat)
    requires IsTree(c.nodes) && i < |c.nodes| && k < |c.nodes[i].ordering| && c.nodes[i].ordering[k].Log?
    ensures c.nodes[i].ordering[k].position < |c.nodes[i].logs|
  {
    var node := c.nodes[i];
    NextMember(node.ordering, k);
    assert WellFormedNode(c.nodes, i) && EachOnce(LogPositions(node.ordering), |node.logs|);
    assert LogPositions(node.ordering[..k + 1])[|LogPositions(node.ordering[..k])|] == node.ordering[k].position;
  }

  /** Walks the members of frame `i` in order, recursing into child frames. */
  method BuildMembers(c: Ctx, i: nat, id: string, effective: bool, a: seq<nat>, start: nat)
    returns (r: Result<seq<Member>, FormatError>, touched: bool, logIndex: nat)
    requires IsTree(c.nodes) && NodeAt(c.nodes, a) == Some(i) && i < |c.nodes| && |a| < |c.nodes|
    requires effective == ChainOk(c.nodes, a)
    ensures r.Ok? ==>
      Built(c, c.nodes[i], |c.nodes[i].ordering|, id, effective, a, start, r.value, touched, logIndex)
    ensures r.Err? ==> exists j :: 0 <= j < |c.nodes| && !Formattable(c, j)
    decreases |c.nodes| - |a|, 0
  {
    var node := c.nodes[i];
    var members: seq<Member> := [];
    touched, logIndex := node.sstore, start;
    assert node.ordering[..0] == [];
    for k := 0 to |node.ordering|
      invariant Built(c, node, k, id, effective, a, start, members, touched, logIndex)
    {
      NextSlot(node, k);
      match node.ordering[k] {
        case Call(p) =>
          ChildAt(c, i, a, k);
          assert (a + [p])[..|a|] == a;
          var child, next := BuildNode(c, id, |members|, node.children[p], effective, a + [p], logIndex);
          if child.Err? {
            return Err(child.error), touched, logIndex;
          }
          var member := TraceMember(child.value);
          BuiltAdd(c, node, k, id, effective, a, start, members, touched, logIndex, member);
          if child.value.trace.storageChange && child.value.frameSucceeded {
            touched := true;
          }
          members, logIndex := members + [member], next;
        case Log(p) =>
          LogInRange(c, i, k);
          var event := EventFromLog(c, node.executionAddress, node.logs[p], id, |members|);
          var next := logIndex;
          if effective {
            event := event.(idx := logIndex);
            next := logIndex + 1;
          }
          BuiltAdd(c, node, k, id, effective, a, start, members, touched, logIndex, LogMember(event));
          members, logIndex := members + [LogMember(event)], next;
        case OpcodeStep(_) =>
          BuiltSkip(c, node, k, id, effective, a, start, members, touched, logIndex);
      }
    }
    r := Ok(members);
  }

  /** All members of a frame in place, with their counts. */
  ghost predicate Complete(c: Ctx, node: TraceNode, id: string, effective: bool, a: seq<nat>, start: nat,
                           members: seq<Member>, touched: bool, logIndex: nat)
  {
    && MembersProject(c, node, id, effective, a, members, start) && |members| == |Slots(node)|
    && TraceCount(members) == |node.children| + (if node.selfdestruct then 1 else 0)
    && touched == StorageTouched(node.sstore, members)
    && logIndex == start + |ExecMembers(members, effective, true)|
  }

  method AppendSuicide(c: Ctx, i: nat, id: string, effective: bool, a: seq<nat>, ghost start: nat,
                       members: seq<Member>, ghost touched: bool, ghost logIndex: nat)
    returns (all: seq<Member>)
    requires IsTree(c.nodes) && i < |c.nodes|
    requires Built(c, c.nodes[i], |c.nodes[i].ordering|, id, effective, a, start, members, touched, logIndex)
    ensures Complete(c, c.nodes[i], id, effective, a, start, all, touched, logIndex)
  {
    var node := c.nodes[i];
    EachOnceLength(CallPositions(node.ordering), |node.children|) by { assert WellFormedNode(c.nodes, i); }
    assert node.ordering[..|node.ordering|] == node.ordering;
    all := members;
    if node.selfdestruct {
      SuicideStep(c, node, id, effective, a, start, all, touched, logIndex);
      all := all + [SuicideMember(c, node, id, effective, a, |all|)];
    }
  }

  /** Projects the frame at address `a` and everything below it. */
  method BuildNode(c: Ctx, parentId: string, position: nat, i: nat, ancestorsSucceeded: bool, a: seq<nat>, start: nat)
    returns (r: Result<Node, FormatError>, logIndex: nat)
    requires IsTree(c.nodes) && NodeAt(c.nodes, a) == Some(i) && i < |c.nodes| && |a| < |c.nodes|
    requires ancestorsSucceeded == (a == [] || ChainOk(c.nodes, a[..|a| - 1]))
    ensures r.Ok? ==>
      && Projects(c, r.value, a, parentId, position, start)
      && logIndex == start + |ExecMembers(r.value.members, r.value.effectiveSucceeded, true)|
    ensures r.Err? ==> exists j :: 0 <= j < |c.nodes| && !Formattable(c, j)
    decreases |c.nodes| - |a|, 1
  {
    var node := c.nodes[i];
    logIndex := start;
    assert node.idx == i by { assert WellFormedNode(c.nodes, i); }
    if node.idx >= |c.errors| {
      assert !Formattable(c, i);
      return Err(MissingSidecarEntry), logIndex;
    }
    var text := ErrorText(node, c.errors[node.idx]);
    if text.None? {
      assert !Formattable(c, i);
      return Err(Unformattable), logIndex;
    }
    var effective := ancestorsSucceeded && node.success;
    EffectiveIsChain(c, i, a);
    var error := text.value;
    if node.success && !ancestorsSucceeded && error == "" {
      error := PARENT_CALL_FAILED_ERROR;
    }
    var id := TraceId(c, parentId, position);
    var members, touched, next := BuildMembers(c, i, id, effective, a, start);
    logIndex := next;
    if members.Err? {
      return Err(members.error), logIndex;
    }
    var all := AppendSuicide(c, i, id, effective, a, start, members.value, touched, logIndex);
    var trace := DebankTrace(id, c.tx, parentId, position, a, TraceCount(all), node.sstore, touched, error, false);
    r := Ok(Node(trace, all, node.success, effective));
  }

  lemma EffectiveIsChain(c: Ctx, i: nat, a: seq<nat>)
    requires NodeAt(c.nodes, a) == Some(i) && i < |c.nodes|
    ensures ChainOk(c.nodes, a) <==> (a == [] || ChainOk(c.nodes, a[..|a| - 1])) && c.nodes[i].success
  {
  }
}
