/** Trace identifiers: a digest of transaction, parent identifier and decimal position, joined
    without separators, names every frame and self-destruct of a block apart. */
module TraceIds {
  import opened Words
  import opened TraceArena
  import opened TraceTree
  import opened TraceFlatten
  import opened TracePartition

  /** The slot of a frame that holds the trace with last address component `p`. */
  ghost function SlotOf(node: TraceNode, p: nat): (m: nat)
    requires Targets(node, |Slots(node)|, p)
    ensures m < |Slots(node)| && Target(node, m) == Some(p)
  {
    var m: nat :| m < |Slots(node)| && Target(node, m) == Some(p);
    m
  }

  /** Position of the entry at `b` among the members of its parent frame. */
  ghost function PositionAt(nodes: seq<TraceNode>, b: seq<nat>): nat {
    if b == [] then 0
    else
      var i := NodeAt(nodes, b[..|b| - 1]);
      if i.Some? && i.value < |nodes| && Targets(nodes[i.value], |Slots(nodes[i.value])|, b[|b| - 1])
      then SlotOf(nodes[i.value], b[|b| - 1]) else 0
  }

  ghost function ParentIdAt(c: Ctx, b: seq<nat>): string
    decreases |b|, 0
  {
    if b == [] then "" else IdAt(c, b[..|b| - 1])
  }

  /** The identifier of the entry at address `b`, from the arena alone. */
  ghost function IdAt(c: Ctx, b: seq<nat>): string
    decreases |b|, 1
  {
    TraceId(c, ParentIdAt(c, b), PositionAt(c.nodes, b))
  }

  ghost function Preimage(c: Ctx, b: seq<nat>): string {
    c.tx + ParentIdAt(c, b) + Decimal(PositionAt(c.nodes, b))
  }

  /** What an output trace says about the entry at its address. */
  ghost predicate Describes(c: Ctx, t: DebankTrace) {
    && IsEntry(c.nodes, t.traceAddress)
    && t.id == IdAt(c, t.traceAddress) && t.txId == c.tx
    && t.suicide == NodeAt(c.nodes, t.traceAddress).None?
    && t.subtraces == SubtracesAt(c.nodes, t.traceAddress)
  }

  ghost predicate AllDescribe(c: Ctx, traces: seq<DebankTrace>) {
    forall k {:trigger Describes(c, traces[k])} :: 0 <= k < |traces| ==> Describes(c, traces[k])
  }

  lemma DescribeAppend(c: Ctx, s: seq<DebankTrace>, t: seq<DebankTrace>)
    requires AllDescribe(c, s) && AllDescribe(c, t)
    ensures AllDescribe(c, s + t)
  {
    forall k | 0 <= k < |s + t| ensures Describes(c, (s + t)[k]) {
      if k < |s| {
        assert Describes(c, s[k]);
      } else {
        assert Describes(c, t[k - |s|]);
      }
    }
  }

  /** What sits one step below a frame. */
  lemma ChildAddress(nodes: seq<TraceNode>, a: seq<nat>, p: nat)
    requires NodeAt(nodes, a).Some? && NodeAt(nodes, a).value < |nodes|
    ensures var node := nodes[NodeAt(nodes, a).value];
      && (NodeAt(nodes, a + [p]).Some? <==> p < |node.children|)
      && (SuicideAt(nodes, a + [p]) <==> node.selfdestruct && p == |node.children|)
  {
    assert (a + [p])[..|a|] == a;
  }

  lemma ChildId(c: Ctx, i: nat, a: seq<nat>, m: nat, p: nat)
    requires IsTree(c.nodes) && NodeAt(c.nodes, a) == Some(i) && i < |c.nodes|
    requires m < |Slots(c.nodes[i])| && Target(c.nodes[i], m) == Some(p)
    ensures IdAt(c, a + [p]) == TraceId(c, IdAt(c, a), m)
  {
    SlotTargets(c.nodes, i);
    assert (a + [p])[..|a|] == a;
    assert Targets(c.nodes[i], |Slots(c.nodes[i])|, p);
    assert SlotOf(c.nodes[i], p) == m;
  }

  lemma {:induction false} DescribeMember(c: Ctx, i: nat, a: seq<nat>, m: nat, member: Member, ok: bool)
    requires IsTree(c.nodes) && NodeAt(c.nodes, a) == Some(i) && i < |c.nodes|
    requires m < |Slots(c.nodes[i])| && Placed(c, i, IdAt(c, a), a, m, member)
    ensures AllDescribe(c, BelowMember(member, ok)) && AllDescribe(c, Chosen(DirectMember(member), ok))
    decreases member
  {
    var slot := Slots(c.nodes[i])[m];
    if slot.CallSlot? {
      ChildId(c, i, a, m, slot.position);
      DescribeNode(c, member.node, a + [slot.position], ok);
      DescribeFrame(c, member.node, a + [slot.position], ok);
    } else if slot.SuicideSlot? {
      DescribeSuicide(c, i, a, m, member.node, ok);
    }
  }

  lemma DescribeFrame(c: Ctx, child: Node, b: seq<nat>, ok: bool)
    requires FrameAt(c, child, b) && child.trace.id == IdAt(c, b)
    ensures AllDescribe(c, Chosen(DirectMember(TraceMember(child)), ok))
  {
    FrameParts(c, child, b);
    assert Describes(c, child.trace);
    ChosenOne(child.trace, child.effectiveSucceeded, ok);
  }

  lemma DescribeSuicide(c: Ctx, i: nat, a: seq<nat>, m: nat, child: Node, ok: bool)
    requires IsTree(c.nodes) && NodeAt(c.nodes, a) == Some(i) && i < |c.nodes|
    requires m < |Slots(c.nodes[i])| && Slots(c.nodes[i])[m].SuicideSlot? && child.members == []
    requires child.trace == SuicideTrace(c, IdAt(c, a), m, a + [|c.nodes[i].children|], ChainOk(c.nodes, a))
    ensures AllDescribe(c, FlatTraces(child, ok)) && AllDescribe(c, Chosen(DirectMember(TraceMember(child)), ok))
  {
    var p := |c.nodes[i].children|;
    OnlyDestroyedHasSuicideSlot(c.nodes, i, m);
    ChildId(c, i, a, m, p);
    ChildAddress(c.nodes, a, p);
    ChosenOne(child.trace, child.effectiveSucceeded, ok);
    assert Describes(c, child.trace);
    assert FlatTraces(child, ok) == [];
  }

  lemma {:induction false} DescribeMembers(c: Ctx, i: nat, a: seq<nat>, members: seq<Member>, ok: bool)
    requires IsTree(c.nodes) && NodeAt(c.nodes, a) == Some(i) && i < |c.nodes| &&
      AllPlaced(c, i, IdAt(c, a), a, members)
    ensures AllDescribe(c, Below(members, ok)) && AllDescribe(c, Chosen(Direct(members), ok))
    decreases members
  {
    if members != [] {
      var n := |members| - 1;
      var init := members[..n];
      PlacedInit(c, i, IdAt(c, a), a, members);
      DescribeMembers(c, i, a, init, ok);
      DescribeMember(c, i, a, n, members[n], ok);
      ChosenAppend(Direct(init), DirectMember(members[n]), ok);
      DescribeAppend(c, Below(init, ok), BelowMember(members[n], ok));
      DescribeAppend(c, Chosen(Direct(init), ok), Chosen(DirectMember(members[n]), ok));
    }
  }

  /** Every flattened trace carries the identifier and child count of the entry at its address. */
  lemma {:induction false} DescribeNode(c: Ctx, out: Node, a: seq<nat>, ok: bool)
    requires IsTree(c.nodes) && FrameAt(c, out, a) && out.trace.id == IdAt(c, a)
    ensures AllDescribe(c, FlatTraces(out, ok))
    decreases out
  {
    FrameParts(c, out, a);
    DescribeMembers(c, NodeAt(c.nodes, a).value, a, out.members, ok);
  }

  /** The entries directly below a frame are its address followed by 0, 1, ..., subtraces - 1. */
  lemma ChildAddresses(c: Ctx, a: seq<nat>, p: nat)
    requires IsTree(c.nodes) && NodeAt(c.nodes, a).Some?
    ensures IsEntry(c.nodes, a + [p]) <==> p < SubtracesAt(c.nodes, a)
  {
    ReachedInRange(c.nodes, a);
    ChildAddress(c.nodes, a, p);
  }

  // ----- Distinct identifiers -----

  lemma {:induction false} DecimalInjective(m: nat, n: nat)
    requires Decimal(m) == Decimal(n)
    ensures m == n
  {
    if m < 10 || n < 10 {
      DecimalLength(m);
      DecimalLength(n);
      DigitInjective(m % 10, n % 10);
    } else {
      var s, t := Decimal(m / 10), Decimal(n / 10);
      assert Decimal(m)[..|s|] == s && Decimal(n)[..|t|] == t;
      assert Decimal(m)[|s|] == Digit(m % 10) && Decimal(n)[|t|] == Digit(n % 10);
      DecimalInjective(m / 10, n / 10);
      DigitInjective(m % 10, n % 10);
    }
  }

  lemma DecimalLength(n: nat)
    ensures |Decimal(n)| >= 1 && (|Decimal(n)| == 1 <==> n < 10)
  {
    if n >= 10 {
      DecimalLength(n / 10);
    }
  }

  lemma DigitInjective(d: nat, e: nat)
    requires d < 10 && e < 10 && Digit(d) == Digit(e)
    ensures d == e
  {
    var digits := "0123456789";
    assert digits[d] == digits[e];
  }

  /** The fixed widths make the unseparated join readable: transaction, parent, position. */
  lemma SplitPreimage(tx: string, parent: string, m: nat, tx': string, parent': string, n: nat)
    requires |tx| == 66 == |tx'| && |parent| in {0, 32} && |parent'| in {0, 32}
    requires |parent| == 0 ==> m == 0
    requires |parent'| == 0 ==> n == 0
    requires tx + parent + Decimal(m) == tx' + parent' + Decimal(n)
    ensures tx == tx' && parent == parent' && m == n
  {
    var s, t := tx + parent + Decimal(m), tx' + parent' + Decimal(n);
    DecimalLength(m);
    DecimalLength(n);
    assert s[..66] == tx && t[..66] == tx';
    var k := 66 + |parent|;
    assert s[66..k] == parent && t[66..k] == parent';
    assert s[k..] == Decimal(m) && t[k..] == Decimal(n);
    DecimalInjective(m, n);
  }

  ghost predicate NoCollision(c: Ctx, a: seq<nat>, d: Ctx, b: seq<nat>) {
    IdAt(c, a) == IdAt(d, b) ==> Preimage(c, a) == Preimage(d, b)
  }

  /** Transaction names are 66 characters and digests 32. */
  ghost predicate FixedWidths(c: Ctx) {
    |c.tx| == 66 && forall text :: |c.hash(text)| == 32
  }

  /** Transactions have distinct names, and the digest does not collide on what the block's entries hash. */
  ghost predicate CollisionFree(txs: seq<Ctx>) {
    && (forall s, t :: 0 <= s < t < |txs| ==> txs[s].tx != txs[t].tx)
    && (forall s :: 0 <= s < |txs| ==> IsTree(txs[s].nodes) && FixedWidths(txs[s]))
    && (forall s, t, a, b | 0 <= s < |txs| && 0 <= t < |txs| && IsEntry(txs[s].nodes, a) && IsEntry(txs[t].nodes, b)
          :: NoCollision(txs[s], a, txs[t], b))
  }

  lemma ParentIsEntry(c: Ctx, b: seq<nat>)
    requires IsTree(c.nodes) && IsEntry(c.nodes, b) && b != []
    ensures var i := NodeAt(c.nodes, b[..|b| - 1]);
      && i.Some? && i.value < |c.nodes| && Targets(c.nodes[i.value], |Slots(c.nodes[i.value])|, b[|b| - 1])
      && Target(c.nodes[i.value], PositionAt(c.nodes, b)) == Some(b[|b| - 1])
      && PositionAt(c.nodes, b) < |Slots(c.nodes[i.value])|
  {
    var init := b[..|b| - 1];
    ReachedInRange(c.nodes, init);
    SlotTargets(c.nodes, NodeAt(c.nodes, init).value);
  }

  /** All frame and self-destruct identifiers of a block are distinct. */
  lemma {:induction false} DistinctIds(txs: seq<Ctx>, s: nat, a: seq<nat>, t: nat, b: seq<nat>)
    requires CollisionFree(txs) && s < |txs| && t < |txs|
    requires IsEntry(txs[s].nodes, a) && IsEntry(txs[t].nodes, b)
    requires IdAt(txs[s], a) == IdAt(txs[t], b)
    ensures s == t && a == b
    decreases |a|
  {
    var c, d := txs[s], txs[t];
    assert NoCollision(c, a, d, b);
    SameParent(c, a, d, b);
    if a != [] {
      ParentIsEntry(c, a);
      ParentIsEntry(d, b);
      DistinctIds(txs, s, a[..|a| - 1], t, b[..|b| - 1]);
      assert a == a[..|a| - 1] + [a[|a| - 1]] && b == b[..|b| - 1] + [b[|b| - 1]];
    }
  }

  lemma SameParent(c: Ctx, a: seq<nat>, d: Ctx, b: seq<nat>)
    requires FixedWidths(c) && FixedWidths(d) && Preimage(c, a) == Preimage(d, b)
    ensures c.tx == d.tx && (a == [] <==> b == []) && PositionAt(c.nodes, a) == PositionAt(d.nodes, b)
    ensures a != [] ==> IdAt(c, a[..|a| - 1]) == IdAt(d, b[..|b| - 1])
  {
    assert |ParentIdAt(c, a)| == if a == [] then 0 else 32;
    assert |ParentIdAt(d, b)| == if b == [] then 0 else 32;
    SplitPreimage(c.tx, ParentIdAt(c, a), PositionAt(c.nodes, a), d.tx, ParentIdAt(d, b), PositionAt(d.nodes, b));
  }
}
