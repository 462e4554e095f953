/** The inspector's call-trace arena and its validation (crates/rpc/src/debank.rs): a worklist that
    accepts exactly the arenas that are trees with every child and log ordered once. */
module TraceArena {
  import opened Words

  datatype InstructionResult =
    | Stop | Return | SelfDestruct
    | Revert | CallTooDeep | OutOfFunds
    | OutOfGas | OpcodeNotFound | InvalidFEOpcode | NotActivated | StackUnderflow | StackOverflow | PrecompileError
    | OtherHalt
  {
    predicate IsOk() {
      Stop? || Return? || SelfDestruct?
    }

    predicate IsRevert() {
      Revert? || CallTooDeep? || OutOfFunds?
    }

    predicate IsHalt() {
      !IsOk() && !IsRevert()
    }

    /** Results whose exact error text needs opcode-local context. */
    predicate RequiresExactError() {
      OpcodeNotFound? || InvalidFEOpcode? || NotActivated? || StackUnderflow? || StackOverflow? || PrecompileError?
    }
  }

  /** Members of a frame in execution order; positions index its children, logs or steps. */
  datatype MemberOrder = Call(position: nat) | Log(position: nat) | OpcodeStep(index: nat)

  datatype CallLog = CallLog(topics: seq<string>, data: string)

  /** One frame of the arena. `formatted` is the error text derived from the result alone, if the
      result determines one; it is empty for a success. */
  datatype TraceNode = TraceNode(
    idx: nat, parent: Option<nat>, children: seq<nat>, ordering: seq<MemberOrder>, logs: seq<CallLog>,
    success: bool, status: Option<InstructionResult>, executionAddress: nat,
    sstore: bool, selfdestruct: bool, formatted: Option<string>)

  datatype ArenaError =
    | EmptyArena | BadRoot | ReferencedTwice | WrongIndex | NoStatus | StatusMismatch
    | MissingPosition | RepeatedPosition | MissingChild | WrongParent | UnorderedMember | Disconnected

  // ----- What a well-formed arena is -----

  function CallPositions(ordering: seq<MemberOrder>): seq<nat> {
    if ordering == [] then []
    else
      var last := ordering[|ordering| - 1];
      CallPositions(ordering[..|ordering| - 1]) + (if last.Call? then [last.position] else [])
  }

  function LogPositions(ordering: seq<MemberOrder>): seq<nat> {
    if ordering == [] then []
    else
      var last := ordering[|ordering| - 1];
      LogPositions(ordering[..|ordering| - 1]) + (if last.Log? then [last.position] else [])
  }

  /** `positions` lists each of `0..n` exactly once. */
  ghost predicate EachOnce(positions: seq<nat>, n: nat) {
    && Distinct(positions)
    && (forall i :: 0 <= i < |positions| ==> positions[i] < n)
    && (forall p :: 0 <= p < n ==> p in positions)
  }

  ghost predicate Links(nodes: seq<TraceNode>, i: nat, child: nat) {
    child < |nodes| && nodes[child].parent == Some(i)
  }

  /** Every child and log of the frame is ordered once, and the children name it as their parent. */
  ghost predicate Ordered(nodes: seq<TraceNode>, i: nat)
    requires i < |nodes|
  {
    var node := nodes[i];
    && EachOnce(CallPositions(node.ordering), |node.children|)
    && EachOnce(LogPositions(node.ordering), |node.logs|)
    && (forall p :: 0 <= p < |node.children| ==> Links(nodes, i, node.children[p]))
  }

  ghost predicate WellFormedNode(nodes: seq<TraceNode>, i: nat)
    requires i < |nodes|
  {
    var node := nodes[i];
    && node.idx == i
    && node.status.Some? && node.status.value.IsOk() == node.success
    && Ordered(nodes, i)
  }

  /** The frame reached from the root through child positions `path`. */
  function NodeAt(nodes: seq<TraceNode>, path: seq<nat>): Option<nat> {
    if path == [] then (if nodes == [] then None else Some(0))
    else
      match NodeAt(nodes, path[..|path| - 1])
      case None => None
      case Some(i) =>
        var p := path[|path| - 1];
        if i < |nodes| && p < |nodes[i].children| then Some(nodes[i].children[p]) else None
  }

  ghost predicate Reachable(nodes: seq<TraceNode>, c: nat) {
    c < |nodes| && exists path :: NodeAt(nodes, path) == Some(c)
  }

  /** A tree rooted at frame 0 that reaches every frame, each through one child position. */
  ghost predicate IsTree(nodes: seq<TraceNode>) {
    && nodes != [] && nodes[0].parent.None?
    && (forall i {:trigger WellFormedNode(nodes, i)} ::
          0 <= i < |nodes| ==> WellFormedNode(nodes, i) && Distinct(nodes[i].children))
    && (forall i {:trigger Reachable(nodes, i)} :: 0 <= i < |nodes| ==> Reachable(nodes, i))
  }

  // ----- Counting occurrences -----

  lemma {:induction false} CountTwice<T>(s: seq<T>, i: nat, j: nat)
    requires i < j < |s| && s[i] == s[j]
    ensures multiset(s)[s[i]] >= 2
  {
    assert s == s[..j] + s[j..];
    assert s[..j][i] == s[i] && s[j..][0] == s[j];
    assert s[i] in multiset(s[..j]) && s[j] in multiset(s[j..]);
  }

  lemma {:induction false} CountDistinct<T>(s: seq<T>, c: T)
    requires Distinct(s)
    ensures multiset(s)[c] == if c in s then 1 else 0
  {
    if s != [] {
      var init, last := s[..|s| - 1], s[|s| - 1];
      CountDistinct(init, c);
      assert s == init + [last];
      assert last !in init;
    }
  }

  // ----- The children a frame pushes -----

  ghost function Pushed(node: TraceNode, positions: seq<nat>): seq<nat>
    requires forall i :: 0 <= i < |positions| ==> positions[i] < |node.children|
  {
    seq(|positions|, i requires 0 <= i < |positions| => node.children[positions[i]])
  }

  /** What pushing every child once adds to the occurrences of a frame. */
  lemma PushedCounts(node: TraceNode, positions: seq<nat>, c: nat)
    requires EachOnce(positions, |node.children|)
    ensures multiset(Pushed(node, positions))[c] >= 1 <==> c in node.children
    ensures Distinct(node.children) ==> multiset(Pushed(node, positions))[c] <= 1
  {
    var pushed := Pushed(node, positions);
    if c in node.children {
      var p :| 0 <= p < |node.children| && node.children[p] == c;
      assert p in positions;
      var i :| 0 <= i < |positions| && positions[i] == p;
      assert pushed[i] == c;
    }
    if Distinct(node.children) {
      assert Distinct(pushed);
      CountDistinct(pushed, c);
    }
  }

  lemma PushedTwice(node: TraceNode, positions: seq<nat>, p: nat, q: nat)
    requires EachOnce(positions, |node.children|)
    requires p < q < |node.children| && node.children[p] == node.children[q]
    ensures multiset(Pushed(node, positions))[node.children[p]] >= 2
  {
    var pushed := Pushed(node, positions);
    assert p in positions && q in positions;
    var i :| 0 <= i < |positions| && positions[i] == p;
    var j :| 0 <= j < |positions| && positions[j] == q;
    assert pushed[i] == node.children[p] == pushed[j];
    CountTwice(pushed, if i < j then i else j, if i < j then j else i);
  }

  // ----- Checking one frame's ordering -----

  lemma {:induction false} PositionsPrefix(ordering: seq<MemberOrder>, k: nat)
    requires k <= |ordering|
    ensures CallPositions(ordering[..k]) <= CallPositions(ordering)
    ensures LogPositions(ordering[..k]) <= LogPositions(ordering)
    decreases |ordering| - k
  {
    if k < |ordering| {
      PositionsPrefix(ordering, k + 1);
      assert ordering[..k + 1][..k] == ordering[..k];
    } else {
      assert ordering[..k] == ordering;
    }
  }

  /** `seen` marks exactly the positions listed so far, each listed once. */
  ghost predicate Marked(seen: seq<bool>, listed: seq<nat>) {
    && Distinct(listed)
    && (forall i :: 0 <= i < |listed| ==> listed[i] < |seen|)
    && (forall p :: 0 <= p < |seen| ==> seen[p] == (p in listed))
  }

  /** Marks `position` in `seen`; a position out of range or marked already is an error. */
  method Mark(seen: array<bool>, position: nat, ghost listed: seq<nat>) returns (error: Option<ArenaError>)
    requires Marked(seen[..], listed)
    modifies seen
    ensures error.None? <==> position < seen.Length && position !in listed
    ensures error.None? ==> Marked(seen[..], listed + [position])
  {
    if position >= seen.Length {
      return Some(MissingPosition);
    }
    if seen[position] {
      return Some(RepeatedPosition);
    }
    seen[position] := true;
    error := None;
  }

  lemma RepeatBreaks(prefix: seq<nat>, position: nat, all: seq<nat>, n: nat)
    requires prefix + [position] <= all
    requires position >= n || position in prefix
    ensures !EachOnce(all, n)
  {
    assert all[|prefix|] == position;
    if position in prefix {
      var i :| 0 <= i < |prefix| && prefix[i] == position;
      assert all[i] == all[|prefix|];
    }
  }

  ghost predicate Listed(nodes: seq<TraceNode>, x: nat, ps: seq<nat>)
    requires x < |nodes|
  {
    forall i :: 0 <= i < |ps| ==> ps[i] < |nodes[x].children| && Links(nodes, x, nodes[x].children[ps[i]])
  }

  /** One `Call` member: its position is marked, and the child it names must point back. */
  method CheckCall(nodes: seq<TraceNode>, x: nat, calls: array<bool>, position: nat, ghost ps: seq<nat>)
    returns (error: Option<ArenaError>)
    requires x < |nodes| && calls.Length == |nodes[x].children|
    requires Marked(calls[..], ps) && Listed(nodes, x, ps)
    requires ps + [position] <= CallPositions(nodes[x].ordering)
    modifies calls
    ensures error.Some? ==> !Ordered(nodes, x)
    ensures error.None? ==>
      position < calls.Length && Marked(calls[..], ps + [position]) && Listed(nodes, x, ps + [position])
  {
    error := Mark(calls, position, ps);
    if error.Some? {
      RepeatBreaks(ps, position, CallPositions(nodes[x].ordering), calls.Length);
      return;
    }
    var child := nodes[x].children[position];
    if child >= |nodes| {
      return Some(MissingChild);
    }
    if nodes[child].parent != Some(x) {
      return Some(WrongParent);
    }
  }

  /** Once every member is walked, the frame is ordered exactly when both arrays are full. */
  lemma OrderedIffFull(nodes: seq<TraceNode>, x: nat, calls: seq<bool>, logs: seq<bool>)
    requires x < |nodes| && |calls| == |nodes[x].children| && |logs| == |nodes[x].logs|
    requires Marked(calls, CallPositions(nodes[x].ordering)) && Listed(nodes, x, CallPositions(nodes[x].ordering))
    requires Marked(logs, LogPositions(nodes[x].ordering))
    ensures Ordered(nodes, x) <==> Full(calls) && Full(logs)
  {
    var node, ps, qs := nodes[x], CallPositions(nodes[x].ordering), LogPositions(nodes[x].ordering);
    if Full(calls) && Full(logs) {
      forall p | 0 <= p < |calls| ensures p in ps && Links(nodes, x, node.children[p]) {
        assert calls[p] && p in ps;
        var i :| 0 <= i < |ps| && ps[i] == p;
      }
      assert forall p :: 0 <= p < |logs| ==> logs[p] && p in qs;
    }
  }

  /** Taking one more member appends its position to the list of its kind. */
  lemma NextMember(ordering: seq<MemberOrder>, k: nat)
    requires k < |ordering|
    ensures CallPositions(ordering[..k + 1]) ==
      CallPositions(ordering[..k]) + (if ordering[k].Call? then [ordering[k].position] else [])
    ensures LogPositions(ordering[..k + 1]) ==
      LogPositions(ordering[..k]) + (if ordering[k].Log? then [ordering[k].position] else [])
    ensures CallPositions(ordering[..k + 1]) <= CallPositions(ordering)
    ensures LogPositions(ordering[..k + 1]) <= LogPositions(ordering)
  {
    assert ordering[..k + 1][..k] == ordering[..k];
    PositionsPrefix(ordering, k + 1);
  }

  /** The first `k` members are marked, their children point back, and were pushed on `base`. */
  ghost predicate Walked(nodes: seq<TraceNode>, x: nat, k: nat, calls: seq<bool>, logs: seq<bool>, base: seq<nat>,
                         pending: seq<nat>)
    requires x < |nodes| && k <= |nodes[x].ordering|
    requires |calls| == |nodes[x].children|
  {
    var ps := CallPositions(nodes[x].ordering[..k]);
    && Marked(calls, ps) && Listed(nodes, x, ps)
    && Marked(logs, LogPositions(nodes[x].ordering[..k]))
    && pending == base + Pushed(nodes[x], ps)
  }

  method CheckMember(nodes: seq<TraceNode>, x: nat, k: nat, calls: array<bool>, logs: array<bool>,
                     ghost base: seq<nat>, pending: seq<nat>)
    returns (error: Option<ArenaError>, pending': seq<nat>)
    requires x < |nodes| && k < |nodes[x].ordering| && calls != logs
    requires calls.Length == |nodes[x].children| && logs.Length == |nodes[x].logs|
    requires Walked(nodes, x, k, calls[..], logs[..], base, pending)
    modifies calls, logs
    ensures error.Some? ==> !Ordered(nodes, x)
    ensures error.None? ==> Walked(nodes, x, k + 1, calls[..], logs[..], base, pending')
  {
    var node := nodes[x];
    NextMember(node.ordering, k);
    ghost var ps, qs := CallPositions(node.ordering[..k]), LogPositions(node.ordering[..k]);
    error, pending' := None, pending;
    match node.ordering[k] {
      case Call(position) =>
        error := CheckCall(nodes, x, calls, position, ps);
        if error.None? {
          pending' := pending + [node.children[position]];
          assert Pushed(node, ps + [position]) == Pushed(node, ps) + [node.children[position]];
        }
      case Log(position) =>
        error := Mark(logs, position, qs);
        if error.Some? {
          RepeatBreaks(qs, position, LogPositions(node.ordering), |node.logs|);
        }
      case OpcodeStep(_) =>
    }
  }

  /** Walks a frame's members, marking positions and pushing children; succeeds exactly when the
      frame is `Ordered`. */
  method CheckOrdering(nodes: seq<TraceNode>, x: nat, pending: seq<nat>)
    returns (error: Option<ArenaError>, pending': seq<nat>)
    requires x < |nodes|
    ensures error.None? <==> Ordered(nodes, x)
    ensures error.None? ==> pending' == pending + Pushed(nodes[x], CallPositions(nodes[x].ordering))
  {
    var node := nodes[x];
    var calls := new bool[|node.children|](_ => false);
    var logs := new bool[|node.logs|](_ => false);
    pending' := pending;
    assert Walked(nodes, x, 0, calls[..], logs[..], pending, pending') by {
      assert node.ordering[..0] == [];
      assert Pushed(node, []) == [];
    }
    for k := 0 to |node.ordering|
      invariant Walked(nodes, x, k, calls[..], logs[..], pending, pending')
    {
      error, pending' := CheckMember(nodes, x, k, calls, logs, pending, pending');
      if error.Some? {
        return;
      }
    }
    assert node.ordering[..|node.ordering|] == node.ordering;
    OrderedIffFull(nodes, x, calls[..], logs[..]);
    var allCalls := AllSet(calls);
    var allLogs := AllSet(logs);
    error := if allCalls && allLogs then None else Some(UnorderedMember);
  }

  ghost predicate Full(seen: seq<bool>) {
    forall p :: 0 <= p < |seen| ==> seen[p]
  }

  method AllSet(seen: array<bool>) returns (all: bool)
    ensures all == Full(seen[..])
  {
    for i := 0 to seen.Length
      invariant forall j :: 0 <= j < i ==> seen[j]
    {
      if !seen[i] {
        assert !seen[..][i];
        return false;
      }
    }
    all := true;
  }

  // ----- The worklist -----

  /** How often a frame has been met: pending occurrences, plus one once visited. */
  ghost function Weight(visited: seq<bool>, pending: seq<nat>, c: nat): nat {
    multiset(pending)[c] + (if c < |visited| && visited[c] then 1 else 0)
  }

  ghost predicate Met(nodes: seq<TraceNode>, visited: seq<bool>, pending: seq<nat>, v: nat)
    requires v < |nodes|
  {
    var children := nodes[v].children;
    && (forall p :: 0 <= p < |children| ==> Weight(visited, pending, children[p]) >= 1)
    && (forall p, q :: 0 <= p < q < |children| && children[p] == children[q] ==>
      Weight(visited, pending, children[p]) >= 2)
  }

  /** What the worklist has established, whatever the arena. */
  ghost predicate Explored(nodes: seq<TraceNode>, visited: seq<bool>, pending: seq<nat>) {
    && |visited| == |nodes| && nodes != [] && nodes[0].parent.None?
    && Weight(visited, pending, 0) >= 1
    && (forall c: nat :: Weight(visited, pending, c) >= 1 ==> Reachable(nodes, c))
    && (forall v :: 0 <= v < |nodes| && visited[v] ==> WellFormedNode(nodes, v) && Met(nodes, visited, pending, v))
  }

  /** What it has established when the arena is a tree. */
  ghost predicate Lean(nodes: seq<TraceNode>, visited: seq<bool>, pending: seq<nat>) {
    forall c: nat :: c < |nodes| && Weight(visited, pending, c) >= 1 ==>
      && Weight(visited, pending, c) == 1
      && (c == 0 || (nodes[c].parent.Some? && nodes[c].parent.value < |visited| && visited[nodes[c].parent.value]))
  }

  lemma PopKeepsWeight(visited: seq<bool>, base: seq<nat>, x: nat, c: nat)
    requires x < |visited|
    ensures visited[x] ==> Weight(visited, base + [x], x) >= 2
    ensures !visited[x] ==> Weight(visited[x := true], base, c) == Weight(visited, base + [x], c)
  {
    assert multiset(base + [x]) == multiset(base) + multiset{x};
  }

  lemma PushAddsWeight(visited: seq<bool>, base: seq<nat>, pushed: seq<nat>, c: nat)
    ensures Weight(visited, base + pushed, c) == Weight(visited, base, c) + multiset(pushed)[c]
  {
    assert multiset(base + pushed) == multiset(base) + multiset(pushed);
  }

  lemma ChildReachable(nodes: seq<TraceNode>, x: nat, p: nat)
    requires Reachable(nodes, x) && p < |nodes[x].children| && Links(nodes, x, nodes[x].children[p])
    ensures Reachable(nodes, nodes[x].children[p])
  {
    var path :| NodeAt(nodes, path) == Some(x);
    assert (path + [p])[..|path|] == path;
    assert NodeAt(nodes, path + [p]) == Some(nodes[x].children[p]);
  }

  /** The weight of any frame after visiting `x`: what it was, plus its occurrences among the children. */
  lemma VisitWeight(nodes: seq<TraceNode>, visited: seq<bool>, base: seq<nat>, x: nat, c: nat)
    requires x < |nodes| == |visited| && !visited[x] && WellFormedNode(nodes, x)
    ensures
      var w, w' := Weight(visited, base + [x], c),
        Weight(visited[x := true], base + Pushed(nodes[x], CallPositions(nodes[x].ordering)), c);
      && w' >= w
      && (w' > w <==> c in nodes[x].children)
      && (Distinct(nodes[x].children) ==> w' <= w + 1)
  {
    PopKeepsWeight(visited, base, x, c);
    PushAddsWeight(visited[x := true], base, Pushed(nodes[x], CallPositions(nodes[x].ordering)), c);
    PushedCounts(nodes[x], CallPositions(nodes[x].ordering), c);
  }

  lemma VisitedIsMet(nodes: seq<TraceNode>, visited: seq<bool>, base: seq<nat>, x: nat)
    requires x < |nodes| == |visited| && !visited[x] && WellFormedNode(nodes, x)
    ensures Met(nodes, visited[x := true], base + Pushed(nodes[x], CallPositions(nodes[x].ordering)), x)
  {
    var node, positions := nodes[x], CallPositions(nodes[x].ordering);
    var visited', pending' := visited[x := true], base + Pushed(node, positions);
    forall p | 0 <= p < |node.children| ensures Weight(visited', pending', node.children[p]) >= 1 {
      VisitWeight(nodes, visited, base, x, node.children[p]);
    }
    forall p, q | 0 <= p < q < |node.children| && node.children[p] == node.children[q]
      ensures Weight(visited', pending', node.children[p]) >= 2
    {
      PushedTwice(node, positions, p, q);
      PushAddsWeight(visited', base, Pushed(node, positions), node.children[p]);
    }
  }

  lemma VisitKeepsExplored(nodes: seq<TraceNode>, visited: seq<bool>, base: seq<nat>, x: nat)
    requires x < |nodes| && Explored(nodes, visited, base + [x]) && !visited[x] && WellFormedNode(nodes, x)
    ensures Explored(nodes, visited[x := true], base + Pushed(nodes[x], CallPositions(nodes[x].ordering)))
  {
    var node := nodes[x];
    var visited', pending' := visited[x := true], base + Pushed(node, CallPositions(node.ordering));
    forall c: nat ensures Weight(visited', pending', c) >= Weight(visited, base + [x], c) {
      VisitWeight(nodes, visited, base, x, c);
    }
    PopKeepsWeight(visited, base, x, x);
    assert Weight(visited, base + [x], x) >= 1;
    forall c: nat | Weight(visited', pending', c) >= 1 ensures Reachable(nodes, c) {
      VisitWeight(nodes, visited, base, x, c);
      if Weight(visited, base + [x], c) == 0 {
        var p :| 0 <= p < |node.children| && node.children[p] == c;
        ChildReachable(nodes, x, p);
      }
    }
    forall v | 0 <= v < |nodes| && visited'[v] ensures WellFormedNode(nodes, v) && Met(nodes, visited', pending', v) {
      if v == x {
        VisitedIsMet(nodes, visited, base, x);
      } else {
        assert Met(nodes, visited, base + [x], v);
      }
    }
  }

  lemma VisitKeepsLean(nodes: seq<TraceNode>, visited: seq<bool>, base: seq<nat>, x: nat)
    requires IsTree(nodes) && x < |nodes| == |visited| && !visited[x] && WellFormedNode(nodes, x)
    requires Lean(nodes, visited, base + [x])
    ensures Lean(nodes, visited[x := true], base + Pushed(nodes[x], CallPositions(nodes[x].ordering)))
  {
    var node := nodes[x];
    var visited', pending' := visited[x := true], base + Pushed(node, CallPositions(node.ordering));
    assert WellFormedNode(nodes, x) && Distinct(node.children);
    forall c: nat | c < |nodes| && Weight(visited', pending', c) >= 1
      ensures Weight(visited', pending', c) == 1
      ensures c == 0 || (nodes[c].parent.Some? && nodes[c].parent.value < |visited'| && visited'[nodes[c].parent.value])
    {
      VisitWeight(nodes, visited, base, x, c);
      if c in node.children {
        var p :| 0 <= p < |node.children| && node.children[p] == c;
        assert Links(nodes, x, node.children[p]);
      }
    }
  }

  /** Frames closed under children and holding the root hold every frame a path reaches. */
  lemma {:induction false} ClosedReaches(nodes: seq<TraceNode>, visited: seq<bool>, path: seq<nat>)
    requires Explored(nodes, visited, [])
    ensures var i := NodeAt(nodes, path); i.Some? ==> i.value < |nodes| && visited[i.value]
    decreases |path|
  {
    if path != [] {
      var init := path[..|path| - 1];
      ClosedReaches(nodes, visited, init);
      if NodeAt(nodes, path).Some? {
        var v := NodeAt(nodes, init).value;
        assert Met(nodes, visited, [], v);
        assert Weight(visited, [], nodes[v].children[path[|path| - 1]]) >= 1;
      }
    }
  }

  /** When nothing is pending, the arena is a tree exactly when every frame was visited. */
  lemma TreeIffAllVisited(nodes: seq<TraceNode>, visited: seq<bool>)
    requires Explored(nodes, visited, [])
    ensures IsTree(nodes) <==> Full(visited)
  {
    if IsTree(nodes) {
      forall i | 0 <= i < |visited| ensures visited[i] {
        assert Reachable(nodes, i);
        var path :| NodeAt(nodes, path) == Some(i);
        ClosedReaches(nodes, visited, path);
      }
    }
    if Full(visited) {
      forall i | 0 <= i < |nodes|
        ensures WellFormedNode(nodes, i) && Distinct(nodes[i].children) && Reachable(nodes, i)
      {
        assert visited[i] && Met(nodes, visited, [], i);
        assert Weight(visited, [], i) == 1;
      }
    }
  }

  /** The checks on one frame as it is popped. */
  method CheckNode(nodes: seq<TraceNode>, x: nat, base: seq<nat>) returns (error: Option<ArenaError>, pending: seq<nat>)
    requires x < |nodes|
    ensures error.None? <==> WellFormedNode(nodes, x)
    ensures error.None? ==> pending == base + Pushed(nodes[x], CallPositions(nodes[x].ordering))
  {
    var node := nodes[x];
    pending := base;
    if node.idx != x {
      return Some(WrongIndex), pending;
    }
    if node.status.None? {
      return Some(NoStatus), pending;
    }
    if node.status.value.IsOk() != node.success {
      return Some(StatusMismatch), pending;
    }
    error, pending := CheckOrdering(nodes, x, base);
  }

  /** How many frames are still to be visited. */
  ghost function Left(visited: seq<bool>): nat {
    if visited == [] then 0
    else Left(visited[..|visited| - 1]) + (if visited[|visited| - 1] then 0 else 1)
  }

  lemma {:induction false} VisitLeavesFewer(visited: seq<bool>, x: nat)
    requires x < |visited| && !visited[x]
    ensures Left(visited[x := true]) == Left(visited) - 1
    decreases |visited|
  {
    var n := |visited| - 1;
    if x < n {
      VisitLeavesFewer(visited[..n], x);
      assert visited[x := true][..n] == visited[..n][x := true];
    } else {
      assert visited[x := true][..n] == visited[..n];
    }
  }

  lemma StartsExplored(nodes: seq<TraceNode>, visited: seq<bool>)
    requires nodes != [] && nodes[0].parent.None? && |visited| == |nodes|
    requires forall i :: 0 <= i < |visited| ==> !visited[i]
    ensures Explored(nodes, visited, [0]) && Lean(nodes, visited, [0])
  {
    assert NodeAt(nodes, []) == Some(0);
    assert forall c: nat :: Weight(visited, [0], c) == if c == 0 then 1 else 0;
  }

  /** One more visit keeps everything known and leaves one frame fewer. */
  lemma VisitKeeps(nodes: seq<TraceNode>, visited: seq<bool>, base: seq<nat>, x: nat)
    requires x < |nodes| && Explored(nodes, visited, base + [x]) && !visited[x] && WellFormedNode(nodes, x)
    requires IsTree(nodes) ==> Lean(nodes, visited, base + [x])
    ensures var visited', pending' := visited[x := true], base + Pushed(nodes[x], CallPositions(nodes[x].ordering));
      && Explored(nodes, visited', pending')
      && (IsTree(nodes) ==> Lean(nodes, visited', pending'))
      && Left(visited') < Left(visited)
  {
    VisitKeepsExplored(nodes, visited, base, x);
    if IsTree(nodes) {
      VisitKeepsLean(nodes, visited, base, x);
    }
    VisitLeavesFewer(visited, x);
  }

  /** A pending frame is in range, and in a tree it is not visited yet. */
  lemma PendingIsNew(nodes: seq<TraceNode>, visited: seq<bool>, base: seq<nat>, x: nat)
    requires Explored(nodes, visited, base + [x])
    requires IsTree(nodes) ==> Lean(nodes, visited, base + [x])
    ensures x < |nodes| && (visited[x] ==> !IsTree(nodes))
  {
    assert Weight(visited, base + [x], x) >= 1;
    PopKeepsWeight(visited, base, x, x);
  }

  lemma TreeStartsAtRoot(nodes: seq<TraceNode>)
    requires nodes != []
    ensures IsTree(nodes) ==> nodes[0].idx == 0 && nodes[0].parent.None?
  {
    if IsTree(nodes) {
      assert WellFormedNode(nodes, 0);
    }
  }

  /** What the worklist knows: everything met is accounted for, and in a tree nothing is met twice. */
  ghost predicate OnTrack(nodes: seq<TraceNode>, visited: seq<bool>, pending: seq<nat>) {
    Explored(nodes, visited, pending) && (IsTree(nodes) ==> Lean(nodes, visited, pending))
  }

  /** Visits the last pending frame and pushes its children, or finds that the arena is no tree. */
  method VisitNext(nodes: seq<TraceNode>, visited: array<bool>, pending: seq<nat>)
    returns (error: Option<ArenaError>, pending': seq<nat>)
    requires pending != [] && OnTrack(nodes, visited[..], pending)
    modifies visited
    ensures error.Some? ==> !IsTree(nodes)
    ensures error.None? ==> OnTrack(nodes, visited[..], pending') && Left(visited[..]) < old(Left(visited[..]))
  {
    ghost var seen := visited[..];
    var base, x := pending[..|pending| - 1], pending[|pending| - 1];
    assert pending == base + [x];
    PendingIsNew(nodes, seen, base, x);
    if visited[x] {
      return Some(ReferencedTwice), pending;
    }
    visited[x] := true;
    assert visited[..] == seen[x := true];
    error, pending' := CheckNode(nodes, x, base);
    if error.None? {
      VisitKeeps(nodes, seen, base, x);
    }
  }

  /** Accepts exactly the arenas that are trees. */
  method ValidateTraceArena(nodes: seq<TraceNode>) returns (error: Option<ArenaError>)
    ensures error.None? <==> IsTree(nodes)
  {
    if nodes == [] {
      return Some(EmptyArena);
    }
    TreeStartsAtRoot(nodes);
    if nodes[0].idx != 0 || nodes[0].parent.Some? {
      return Some(BadRoot);
    }
    var visited := new bool[|nodes|](_ => false);
    var pending: seq<nat> := [0];
    StartsExplored(nodes, visited[..]);
    while pending != []
      invariant OnTrack(nodes, visited[..], pending)
      decreases Left(visited[..])
    {
      error, pending := VisitNext(nodes, visited, pending);
      if error.Some? {
        return;
      }
    }
    TreeIffAllVisited(nodes, visited[..]);
    var all := AllSet(visited);
    error := if all then None else Some(Disconnected);
  }
}
