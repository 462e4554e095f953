/** Flattening a projected tree into the four output arrays (crates/rpc/src/debank.rs,
    `flatten_descendants`), and what the arrays hold. */
module TraceFlatten {
  import opened TraceArena
  import opened TraceTree

  // ----- The arrays as functions of the tree -----

  /** Strict descendants of a frame with effective status `ok`, in output order. */
  ghost function FlatTraces(node: Node, ok: bool): seq<DebankTrace>
    decreases node
  {
    Below(node.members, ok) + Chosen(Direct(node.members), ok)
  }

  ghost function Below(members: seq<Member>, ok: bool): seq<DebankTrace>
    decreases members
  {
    if members == [] then []
    else Below(members[..|members| - 1], ok) + BelowMember(members[|members| - 1], ok)
  }

  ghost function BelowMember(member: Member, ok: bool): seq<DebankTrace>
    decreases member
  {
    match member
    case TraceMember(child) => FlatTraces(child, ok)
    case LogMember(_) => []
  }

  /** Direct child traces paired with their effective status. */
  function Direct(members: seq<Member>): seq<(DebankTrace, bool)> {
    if members == [] then []
    else Direct(members[..|members| - 1]) + DirectMember(members[|members| - 1])
  }

  function DirectMember(member: Member): seq<(DebankTrace, bool)> {
    match member
    case TraceMember(child) => [(child.trace, child.effectiveSucceeded)]
    case LogMember(_) => []
  }

  ghost function Chosen(pairs: seq<(DebankTrace, bool)>, ok: bool): seq<DebankTrace> {
    if pairs == [] then []
    else
      var last := pairs[|pairs| - 1];
      Chosen(pairs[..|pairs| - 1], ok) + (if last.1 == ok then [last.0] else [])
  }

  /** Logs of a frame and its descendants with effective status `ok`, in output order. */
  ghost function FlatEvents(node: Node, ok: bool): seq<DebankEvent>
    decreases node
  {
    EventsBelow(node.members, ok) + (if node.effectiveSucceeded == ok then Logs(node.members) else [])
  }

  ghost function EventsBelow(members: seq<Member>, ok: bool): seq<DebankEvent>
    decreases members
  {
    if members == [] then []
    else EventsBelow(members[..|members| - 1], ok) + EventsBelowMember(members[|members| - 1], ok)
  }

  ghost function EventsBelowMember(member: Member, ok: bool): seq<DebankEvent>
    decreases member
  {
    match member
    case TraceMember(child) => FlatEvents(child, ok)
    case LogMember(_) => []
  }

  function Logs(members: seq<Member>): seq<DebankEvent> {
    if members == [] then []
    else
      var last := members[|members| - 1];
      Logs(members[..|members| - 1]) + (if last.LogMember? then [last.event] else [])
  }

  /** The four arrays as one value. */
  datatype Arrays = Arrays(traces: seq<DebankTrace>, errorTraces: seq<DebankTrace>, events: seq<DebankEvent>,
                           errorEvents: seq<DebankEvent>)
  {
    ghost function Plus(more: Arrays): Arrays {
      Arrays(traces + more.traces, errorTraces + more.errorTraces, events + more.events, errorEvents + more.errorEvents)
    }
  }

  lemma PlusAssociates(a: Arrays, b: Arrays, c: Arrays)
    ensures a.Plus(b).Plus(c) == a.Plus(b.Plus(c))
  {
    assert a.traces + b.traces + c.traces == a.traces + (b.traces + c.traces);
    assert a.errorTraces + b.errorTraces + c.errorTraces == a.errorTraces + (b.errorTraces + c.errorTraces);
    assert a.events + b.events + c.events == a.events + (b.events + c.events);
    assert a.errorEvents + b.errorEvents + c.errorEvents == a.errorEvents + (b.errorEvents + c.errorEvents);
  }

  ghost function Flattened(node: Node): Arrays {
    Arrays(FlatTraces(node, true), FlatTraces(node, false), FlatEvents(node, true), FlatEvents(node, false))
  }

  ghost function FlattenedBelow(members: seq<Member>): Arrays {
    Arrays(Below(members, true), Below(members, false), EventsBelow(members, true), EventsBelow(members, false))
  }

  ghost function FlattenedMember(member: Member): Arrays {
    Arrays(BelowMember(member, true), BelowMember(member, false), EventsBelowMember(member, true),
      EventsBelowMember(member, false))
  }

  lemma BelowStep(members: seq<Member>, m: nat)
    requires m < |members|
    ensures FlattenedBelow(members[..m + 1]) == FlattenedBelow(members[..m]).Plus(FlattenedMember(members[m]))
    ensures Direct(members[..m + 1]) == Direct(members[..m]) + DirectMember(members[m])
    ensures Logs(members[..m + 1]) == Logs(members[..m]) + (if members[m].LogMember? then [members[m].event] else [])
  {
    assert members[..m + 1][..m] == members[..m];
  }

  /** Nested descendants, then the frame's logs, then its direct children. */
  lemma FlattenedParts(node: Node, base: Arrays)
    ensures var logs, direct := Logs(node.members), Direct(node.members);
      var own := if node.effectiveSucceeded then Arrays([], [], logs, []) else Arrays([], [], [], logs);
      base.Plus(FlattenedBelow(node.members)).Plus(own)
        .Plus(Arrays(Chosen(direct, true), Chosen(direct, false), [], []))
        == base.Plus(Flattened(node))
  {
    var below, logs, direct := FlattenedBelow(node.members), Logs(node.members), Direct(node.members);
    Regroup(base.traces, below.traces, Chosen(direct, true));
    Regroup(base.errorTraces, below.errorTraces, Chosen(direct, false));
    Regroup(base.events, below.events, if node.effectiveSucceeded then logs else []);
    Regroup(base.errorEvents, below.errorEvents, if node.effectiveSucceeded then [] else logs);
  }

  lemma Regroup<T>(x: seq<T>, y: seq<T>, z: seq<T>)
    ensures x + y + [] + z == x + (y + z) == x + y + z + []
  {
  }

  // ----- The flattener -----

  class TraceArrays {
    var traces: seq<DebankTrace>
    var errorTraces: seq<DebankTrace>
    var events: seq<DebankEvent>
    var errorEvents: seq<DebankEvent>

    ghost function View(): Arrays
      reads this
    {
      Arrays(traces, errorTraces, events, errorEvents)
    }

    constructor ()
      ensures View() == Arrays([], [], [], [])
    {
      traces, errorTraces, events, errorEvents := [], [], [], [];
    }

    method AppendTrace(trace: DebankTrace, effectiveSucceeded: bool)
      modifies this
      ensures View() == old(View()).(
          traces := old(traces) + (if effectiveSucceeded then [trace] else []),
          errorTraces := old(errorTraces) + (if effectiveSucceeded then [] else [trace]))
    {
      if effectiveSucceeded {
        traces := traces + [trace];
      } else {
        errorTraces := errorTraces + [trace];
      }
    }

    method AppendDirect(pairs: seq<(DebankTrace, bool)>)
      modifies this
      ensures View() == old(View()).Plus(Arrays(Chosen(pairs, true), Chosen(pairs, false), [], []))
    {
      for k := 0 to |pairs|
        invariant View() == old(View()).Plus(Arrays(Chosen(pairs[..k], true), Chosen(pairs[..k], false), [], []))
      {
        assert pairs[..k + 1][..k] == pairs[..k];
        AppendTrace(pairs[k].0, pairs[k].1);
      }
      assert pairs[..|pairs|] == pairs;
    }

    method AppendLogs(logs: seq<DebankEvent>, effectiveSucceeded: bool)
      modifies this
      ensures View() == old(View()).Plus(if effectiveSucceeded then Arrays([], [], logs, [])
        else Arrays([], [], [], logs))
    {
      for k := 0 to |logs|
        invariant View() == old(View()).Plus(if effectiveSucceeded then Arrays([], [], logs[..k], [])
          else Arrays([], [], [], logs[..k]))
      {
        if effectiveSucceeded {
          events := events + [logs[k]];
        } else {
          errorEvents := errorEvents + [logs[k]];
        }
      }
    }

    /** Flattens the child frames among `members`, collecting direct traces and logs on the way. */
    method FlattenMembers(members: seq<Member>) returns (direct: seq<(DebankTrace, bool)>, logs: seq<DebankEvent>)
      modifies this
      ensures direct == Direct(members) && logs == Logs(members)
      ensures View() == old(View()).Plus(FlattenedBelow(members))
      decreases members
    {
      direct, logs := [], [];
      for m := 0 to |members|
        invariant direct == Direct(members[..m]) && logs == Logs(members[..m])
        invariant View() == old(View()).Plus(FlattenedBelow(members[..m]))
      {
        BelowStep(members, m);
        PlusAssociates(old(View()), FlattenedBelow(members[..m]), FlattenedMember(members[m]));
        var direct', logs' := FlattenMember(members[m]);
        direct, logs := direct + direct', logs + logs';
      }
      assert members[..|members|] == members;
    }

    method FlattenMember(member: Member) returns (direct: seq<(DebankTrace, bool)>, logs: seq<DebankEvent>)
      modifies this
      ensures direct == DirectMember(member) && logs == if member.LogMember? then [member.event] else []
      ensures View() == old(View()).Plus(FlattenedMember(member))
      decreases member
    {
      match member {
        case TraceMember(child) =>
          direct, logs := [(child.trace, child.effectiveSucceeded)], [];
          FlattenDescendants(child);
        case LogMember(event) =>
          direct, logs := [], [event];
      }
    }

    /** Appends everything below `node`: nested descendants first, then its logs, then its direct children. */
    method FlattenDescendants(node: Node)
      modifies this
      ensures View() == old(View()).Plus(Flattened(node))
      decreases node
    {
      var direct, logs := FlattenMembers(node.members);
      AppendLogs(logs, node.effectiveSucceeded);
      AppendDirect(direct);
      FlattenedParts(node, old(View()));
    }
  }

  // ----- Logs: output order is a permutation of execution order -----

  lemma {:induction false} FlatEventsPermuted(node: Node, ok: bool)
    ensures multiset(FlatEvents(node, ok)) == multiset(ExecMembers(node.members, node.effectiveSucceeded, ok))
    decreases node
  {
    MembersPermuted(node.members, node.effectiveSucceeded, ok);
  }

  lemma {:induction false} MembersPermuted(members: seq<Member>, effective: bool, ok: bool)
    ensures multiset(EventsBelow(members, ok) + (if effective == ok then Logs(members) else [])) ==
      multiset(ExecMembers(members, effective, ok))
    decreases members
  {
    if members != [] {
      MembersPermuted(members[..|members| - 1], effective, ok);
      MemberPermuted(members[|members| - 1], ok);
    }
  }

  lemma {:induction false} MemberPermuted(member: Member, ok: bool)
    ensures member.TraceMember? ==>
      multiset(EventsBelowMember(member, ok)) ==
        multiset(ExecMembers(member.node.members, member.node.effectiveSucceeded, ok))
    decreases member
  {
    if member.TraceMember? {
      FlatEventsPermuted(member.node, ok);
    }
  }

  // ----- Logs: indices follow execution order -----

  /** The surviving logs of a projected frame carry consecutive indices in execution order. */
  lemma {:induction false} IndicesFollowExecution(c: Ctx, node: TraceNode, id: string, effective: bool, a: seq<nat>,
                                                  members: seq<Member>, start: nat)
    requires MembersProject(c, node, id, effective, a, members, start)
    ensures forall r :: 0 <= r < |ExecMembers(members, effective, true)| ==>
      ExecMembers(members, effective, true)[r].idx == start + r
    decreases members
  {
    if members != [] {
      var init := members[..|members| - 1];
      IndicesFollowExecution(c, node, id, effective, a, init, start);
      MemberIndices(c, node, id, effective, a, |init|, members[|init|], start + |ExecMembers(init, effective, true)|);
    }
  }

  lemma {:induction false} MemberIndices(c: Ctx, node: TraceNode, id: string, effective: bool, a: seq<nat>, m: nat,
                                         member: Member, start: nat)
    requires m < |Slots(node)| && MemberProjects(c, node, id, effective, a, m, member, start)
    ensures forall r :: 0 <= r < |ExecMember(member, effective, true)| ==>
      ExecMember(member, effective, true)[r].idx == start + r
    decreases member
  {
    match Slots(node)[m] {
      case CallSlot(p) =>
        var child := member.node;
        IndicesFollowExecution(c, c.nodes[NodeAt(c.nodes, a + [p]).value], child.trace.id, child.effectiveSucceeded,
          a + [p], child.members, start);
      case LogSlot(_) =>
      case SuicideSlot =>
    }
  }
}
