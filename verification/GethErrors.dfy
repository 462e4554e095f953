/** The sidecar that keeps exact error texts per call frame (crates/rpc/src/geth_error.rs), proved
    fail-closed over every sequence of callbacks. */
module GethErrors {
  import opened Words
  import opened TraceArena
  import opened TraceTree

  /** A precompile halt put aside by the wrapper; `text` is None when it has no exact wording. */
  datatype Captured = Captured(address: nat, text: Option<string>)

  /** Error texts an opcode would end with: before gas is charged, or on running out of gas. */
  datatype PendingStep = PendingStep(precheck: Option<string>, dynamic: Option<string>)

  datatype Event =
    | StartFrame
    | Step(step: PendingStep)
    | StepEnd(result: Option<InstructionResult>)
    | PrecompileHalt(captured: Captured)
    | PrecompileEnd(address: nat)
    | EndFrame(final: InstructionResult)

  // ----- What a callback history means -----

  /** How many frames were started; the n-th start is frame n - 1. */
  ghost function Opens(h: seq<Event>): nat {
    if h == [] then 0 else Opens(h[..|h| - 1]) + (if h[|h| - 1].StartFrame? then 1 else 0)
  }

  /** Frames started and not ended, innermost last. */
  ghost function Stack(h: seq<Event>): seq<nat> {
    if h == [] then []
    else
      var init := h[..|h| - 1];
      match h[|h| - 1]
      case StartFrame => Stack(init) + [Opens(init)]
      case EndFrame(_) => if Stack(init) == [] then [] else Stack(init)[..|Stack(init)| - 1]
      case _ => Stack(init)
  }

  ghost predicate Innermost(h: seq<Event>, i: nat) {
    Stack(h) != [] && Stack(h)[|Stack(h)| - 1] == i
  }

  /** The opcode step begun and not ended. */
  ghost function OpenStep(h: seq<Event>): Option<PendingStep> {
    if h == [] then None
    else
      match h[|h| - 1]
      case Step(step) => Some(step)
      case StepEnd(_) => None
      case _ => OpenStep(h[..|h| - 1])
  }

  /** Precompile halts not yet claimed by a frame, oldest first. */
  ghost function Queue(h: seq<Event>): seq<Captured> {
    if h == [] then []
    else
      var init := h[..|h| - 1];
      match h[|h| - 1]
      case PrecompileHalt(captured) => Queue(init) + [captured]
      case PrecompileEnd(_) => if Queue(init) == [] then [] else Queue(init)[1..]
      case _ => Queue(init)
  }

  /** The exact text a callback establishes for the innermost frame. */
  ghost function TextOf(h: seq<Event>, e: Event): Option<string> {
    match e
    case StepEnd(result) =>
      var open := OpenStep(h);
      if open.None? then None
      else if open.value.precheck.Some? then open.value.precheck
      else if result == Some(OutOfGas) then open.value.dynamic
      else None
    case PrecompileEnd(address) =>
      if Queue(h) != [] && Queue(h)[0].address == address then Queue(h)[0].text else None
    case _ => None
  }

  /** The latest text established while frame `i` was innermost. */
  ghost function Text(h: seq<Event>, i: nat): Option<string> {
    if h == [] then None
    else
      var init, e := h[..|h| - 1], h[|h| - 1];
      if TextOf(init, e).Some? && Innermost(init, i) then TextOf(init, e) else Text(init, i)
  }

  ghost predicate HasText(h: seq<Event>) {
    Stack(h) != [] && Text(h, Stack(h)[|Stack(h)| - 1]).Some?
  }

  /** Callback `e` after `h` breaks the bracketing or leaves a text unexplained. */
  ghost predicate Faulty(h: seq<Event>, e: Event) {
    match e
    case StartFrame => OpenStep(h).Some?
    case Step(_) => Stack(h) == [] || OpenStep(h).Some?
    case StepEnd(result) =>
      || OpenStep(h).None?
      || (TextOf(h, e).Some? && (!(result.Some? && result.value.IsHalt()) || Stack(h) == [] || HasText(h)))
      || (TextOf(h, e).None? && result.Some? && result.value.RequiresExactError())
    case PrecompileHalt(_) => false
    case PrecompileEnd(_) => TextOf(h, e).None? || Stack(h) == [] || HasText(h)
    case EndFrame(result) =>
      || OpenStep(h).Some? || Stack(h) == []
      || (HasText(h) && !result.IsHalt())
      || (!HasText(h) && result.RequiresExactError())
  }

  ghost predicate Clean(h: seq<Event>) {
    forall k {:trigger Faulty(h[..k], h[k])} :: 0 <= k < |h| ==> !Faulty(h[..k], h[k])
  }

  /** Cleanly bracketed from end to end: nothing open, nothing unclaimed, `n` frames. */
  ghost predicate Finished(h: seq<Event>, n: nat) {
    Clean(h) && OpenStep(h).None? && Stack(h) == [] && Queue(h) == [] && Opens(h) == n
  }

  // ----- Histories grow by one callback -----

  lemma Snoc(h: seq<Event>, e: Event)
    ensures (h + [e])[..|h|] == h
    ensures Clean(h + [e]) <==> Clean(h) && !Faulty(h, e)
  {
    var more := h + [e];
    assert more[..|h|] == h && more[|h|] == e;
    if Clean(more) {
      assert !Faulty(more[..|h|], more[|h|]);
      forall k | 0 <= k < |h| ensures !Faulty(h[..k], h[k]) {
        assert more[..k] == h[..k] && more[k] == h[k];
        assert !Faulty(more[..k], more[k]);
      }
    }
    if Clean(h) && !Faulty(h, e) {
      forall k | 0 <= k < |more| ensures !Faulty(more[..k], more[k]) {
        if k < |h| {
          assert more[..k] == h[..k] && more[k] == h[k];
          assert !Faulty(h[..k], h[k]);
        }
      }
    }
  }

  /** Open frames are numbered upwards below the number of starts. */
  lemma {:induction false} StackOrdered(h: seq<Event>)
    ensures forall d :: 0 <= d < |Stack(h)| ==> Stack(h)[d] < Opens(h)
    ensures forall d, e :: 0 <= d < e < |Stack(h)| ==> Stack(h)[d] < Stack(h)[e]
    decreases |h|
  {
    if h != [] {
      StackOrdered(h[..|h| - 1]);
    }
  }

  /** A frame that has not started has no text. */
  lemma {:induction false} NoTextBeforeStart(h: seq<Event>, i: nat)
    requires i >= Opens(h)
    ensures Text(h, i).None?
    decreases |h|
  {
    if h != [] {
      NoTextBeforeStart(h[..|h| - 1], i);
      StackOrdered(h[..|h| - 1]);
    }
  }

  // ----- The inspector -----

  datatype FrameCapture = FrameCapture(nodeIndex: nat, exactError: Option<string>)

  datatype Fault =
    | FrameDuringStep | StepOutsideFrame | StepDuringStep | StepEndWithoutStep | PrecheckDidNotHalt
    | DuplicateText | LostContext | NoTypedHalt | WrongPrecompile | NoPrecompileText | EndWithoutStart
    | TextWithoutHalt | UnfinishedStep | ActiveFrames | WrongCount | UnmatchedHalts

  /** The fields as one value. */
  datatype Sidecar = Sidecar(frames: seq<FrameCapture>, errors: seq<Option<string>>, pending: Option<PendingStep>,
                             queue: seq<Captured>)

  ghost predicate FramesMirror(h: seq<Event>, frames: seq<FrameCapture>) {
    && |frames| == |Stack(h)|
    && (forall d :: 0 <= d < |frames| ==> frames[d] == FrameCapture(Stack(h)[d], Text(h, Stack(h)[d])))
  }

  ghost predicate ErrorsMirror(h: seq<Event>, errors: seq<Option<string>>) {
    && |errors| == Opens(h)
    && (forall i :: 0 <= i < |errors| ==> errors[i] == if i in Stack(h) then None else Text(h, i))
  }

  /** The fields say of a clean history what it means. */
  ghost predicate Mirrors(h: seq<Event>, s: Sidecar) {
    FramesMirror(h, s.frames) && ErrorsMirror(h, s.errors) && s.pending == OpenStep(h) && s.queue == Queue(h)
  }

  lemma MirrorStart(h: seq<Event>, s: Sidecar)
    requires Mirrors(h, s)
    ensures Mirrors(h + [StartFrame],
      s.(frames := s.frames + [FrameCapture(|s.errors|, None)], errors := s.errors + [None]))
  {
    Snoc(h, StartFrame);
    StackOrdered(h);
    NoTextBeforeStart(h, Opens(h));
    var more := h + [StartFrame];
    assert Stack(more) == Stack(h) + [Opens(h)];
    assert forall i :: Text(more, i) == Text(h, i);
    assert Stack(more)[|Stack(h)|] == Opens(h);
  }

  /** Callbacks that neither open nor close a frame nor establish a text. */
  lemma MirrorQuiet(h: seq<Event>, s: Sidecar, e: Event)
    requires Mirrors(h, s) && !e.StartFrame? && !e.EndFrame? && TextOf(h, e).None?
    ensures Mirrors(h + [e], s.(pending := OpenStep(h + [e]), queue := Queue(h + [e])))
  {
    Snoc(h, e);
    assert forall i :: Text(h + [e], i) == Text(h, i);
  }

  lemma MirrorText(h: seq<Event>, s: Sidecar, e: Event)
    requires Mirrors(h, s) && Stack(h) != [] && (e.StepEnd? || e.PrecompileEnd?) && TextOf(h, e).Some?
    ensures var d := |s.frames| - 1;
      Mirrors(h + [e], s.(frames := s.frames[d := s.frames[d].(exactError := TextOf(h, e))],
        pending := OpenStep(h + [e]), queue := Queue(h + [e])))
  {
    Snoc(h, e);
    StackOrdered(h);
    var more, top := h + [e], Stack(h)[|Stack(h)| - 1];
    assert forall i :: Text(more, i) == if i == top then TextOf(h, e) else Text(h, i);
    assert top in Stack(h);
  }

  lemma PopLeavesRest(stack: seq<nat>, i: nat)
    requires stack != [] && forall d, e :: 0 <= d < e < |stack| ==> stack[d] < stack[e]
    ensures var d := |stack| - 1; i in stack[..d] <==> i in stack && i != stack[d]
  {
    var d := |stack| - 1;
    assert stack == stack[..d] + [stack[d]];
  }

  /** Ending a frame leaves every text as it was and takes the innermost frame off. */
  lemma AfterEnd(h: seq<Event>, e: Event)
    requires e.EndFrame? && Stack(h) != []
    ensures Stack(h + [e]) == Stack(h)[..|Stack(h)| - 1] && Opens(h + [e]) == Opens(h)
    ensures OpenStep(h + [e]) == OpenStep(h) && Queue(h + [e]) == Queue(h)
    ensures forall i :: Text(h + [e], i) == Text(h, i)
  {
    Snoc(h, e);
  }

  lemma MirrorEnd(h: seq<Event>, s: Sidecar, e: Event)
    requires Mirrors(h, s) && Stack(h) != [] && e.EndFrame?
    ensures var d := |s.frames| - 1; s.frames[d].nodeIndex < |s.errors|
    ensures var d := |s.frames| - 1;
      Mirrors(h + [e], s.(frames := s.frames[..d], errors := s.errors[s.frames[d].nodeIndex := s.frames[d].exactError]))
  {
    AfterEnd(h, e);
    StackOrdered(h);
    forall i: nat ensures i in Stack(h + [e]) <==> i in Stack(h) && i != Stack(h)[|Stack(h)| - 1] {
      PopLeavesRest(Stack(h), i);
    }
  }

  ghost predicate Indexed(frames: seq<FrameCapture>, errors: seq<Option<string>>) {
    forall d :: 0 <= d < |frames| ==> frames[d].nodeIndex < |errors|
  }

  class GethErrorInspector {
    var frames: seq<FrameCapture>
    var errors: seq<Option<string>>
    var pendingStep: Option<PendingStep>
    var precompileErrors: seq<Captured>
    var fault: Option<Fault>
    ghost var history: seq<Event>

    ghost function View(): Sidecar
      reads this
    {
      Sidecar(frames, errors, pendingStep, precompileErrors)
    }

    /** A fault is recorded exactly when the history is not clean; until then the fields mirror it. */
    ghost predicate Valid()
      reads this
    {
      && Indexed(frames, errors)
      && (fault.None? <==> Clean(history))
      && (fault.None? ==> Mirrors(history, View()))
    }

    ghost predicate Fresh()
      reads this
    {
      View() == Sidecar([], [], None, []) && fault.None? && history == []
    }

    constructor ()
      ensures Valid() && Fresh()
    {
      frames, errors, pendingStep, precompileErrors, fault := [], [], None, [], None;
      history := [];
    }

    method RecordFault(detail: Fault)
      modifies this`fault
      ensures fault.Some?
    {
      if fault.None? {
        fault := Some(detail);
      }
    }

    method StartFrame()
      requires Valid()
      modifies this
      ensures Valid() && history == old(history) + [Event.StartFrame]
    {
      Snoc(history, Event.StartFrame);
      if fault.None? {
        MirrorStart(history, View());
      }
      if pendingStep.Some? {
        RecordFault(FrameDuringStep);
      }
      var nodeIndex := |errors|;
      errors := errors + [None];
      frames := frames + [FrameCapture(nodeIndex, None)];
      history := history + [Event.StartFrame];
    }

    method InspectStep(step: PendingStep)
      requires Valid()
      modifies this
      ensures Valid() && history == old(history) + [Step(step)]
    {
      Snoc(history, Step(step));
      if fault.None? {
        MirrorQuiet(history, View(), Step(step));
      }
      history := history + [Step(step)];
      if frames == [] {
        RecordFault(StepOutsideFrame);
        return;
      }
      if pendingStep.Some? {
        RecordFault(StepDuringStep);
        return;
      }
      pendingStep := Some(step);
    }

    method InspectStepEnd(result: Option<InstructionResult>)
      requires Valid()
      modifies this
      ensures Valid() && history == old(history) + [StepEnd(result)]
    {
      ghost var h, was := history, View();
      ghost var clean := fault.None?;
      history := history + [StepEnd(result)];
      if clean {
        AfterStepEnd(h, was, result);
      } else {
        Snoc(h, StepEnd(result));
      }
      if pendingStep.None? {
        RecordFault(StepEndWithoutStep);
        return;
      }
      var exactError := StepText(pendingStep.value, result);
      pendingStep := None;
      if exactError.Some? {
        if !(result.Some? && result.value.IsHalt()) {
          RecordFault(PrecheckDidNotHalt);
          return;
        }
        if frames == [] {
          RecordFault(StepOutsideFrame);
          return;
        }
        ReplaceText(exactError);
      } else if result.Some? && result.value.RequiresExactError() {
        RecordFault(LostContext);
      }
    }

    /** Sets the innermost frame's text; a second text is a fault. */
    method ReplaceText(text: Option<string>)
      requires frames != []
      modifies this`frames, this`fault
      ensures frames == WithText(old(frames), text)
      ensures fault.Some? <==> old(fault).Some? || old(frames)[|old(frames)| - 1].exactError.Some?
    {
      var d := |frames| - 1;
      var duplicate := frames[d].exactError.Some?;
      frames := frames[d := frames[d].(exactError := text)];
      if duplicate {
        RecordFault(DuplicateText);
      }
    }

    /** The wrapper of a precompile puts a halt aside. */
    method CapturePrecompileHalt(captured: Captured)
      requires Valid()
      modifies this
      ensures Valid() && history == old(history) + [PrecompileHalt(captured)]
    {
      Snoc(history, PrecompileHalt(captured));
      if fault.None? {
        MirrorQuiet(history, View(), PrecompileHalt(captured));
      }
      precompileErrors := precompileErrors + [captured];
      history := history + [PrecompileHalt(captured)];
    }

    method InspectPrecompileError(address: nat)
      requires Valid()
      modifies this
      ensures Valid() && history == old(history) + [PrecompileEnd(address)]
    {
      ghost var h, was := history, View();
      ghost var clean := fault.None?;
      history := history + [PrecompileEnd(address)];
      if clean {
        AfterPrecompileEnd(h, was, address);
      } else {
        Snoc(h, PrecompileEnd(address));
      }
      if precompileErrors == [] {
        RecordFault(NoTypedHalt);
        return;
      }
      var captured := precompileErrors[0];
      precompileErrors := precompileErrors[1..];
      if captured.address != address {
        RecordFault(WrongPrecompile);
        return;
      }
      if captured.text.None? {
        RecordFault(NoPrecompileText);
        return;
      }
      if frames == [] {
        RecordFault(StepOutsideFrame);
        return;
      }
      ReplaceText(captured.text);
    }

    method EndFrame(result: InstructionResult)
      requires Valid()
      modifies this
      ensures Valid() && history == old(history) + [Event.EndFrame(result)]
    {
      ghost var h, was := history, View();
      ghost var clean := fault.None?;
      history := history + [Event.EndFrame(result)];
      if clean {
        AfterEndFrame(h, was, result);
      } else {
        Snoc(h, Event.EndFrame(result));
      }
      if pendingStep.Some? {
        RecordFault(FrameDuringStep);
        pendingStep := None;
      }
      if frames == [] {
        RecordFault(EndWithoutStart);
        return;
      }
      CloseTop(result);
    }

    /** Pops the innermost frame and stores its text by start order. */
    method CloseTop(result: InstructionResult)
      requires frames != [] && Indexed(frames, errors)
      modifies this`frames, this`errors, this`fault
      ensures Indexed(frames, errors)
      ensures var d := |old(frames)| - 1;
        && frames == old(frames)[..d]
        && errors == old(errors)[old(frames)[d].nodeIndex := old(frames)[d].exactError]
      ensures fault.Some? <==>
        old(fault).Some? || if TopHasText(old(frames)) then !result.IsHalt() else result.RequiresExactError()
    {
      var frame := frames[|frames| - 1];
      frames := frames[..|frames| - 1];
      CheckText(frame.exactError, result);
      errors := errors[frame.nodeIndex := frame.exactError];
    }

    /** A text needs a halt, and some halts need a text. */
    method CheckText(text: Option<string>, result: InstructionResult)
      modifies this`fault
      ensures fault.Some? <==> old(fault).Some? || if text.Some? then !result.IsHalt() else result.RequiresExactError()
    {
      if text.Some? && !result.IsHalt() {
        RecordFault(TextWithoutHalt);
      }
      if text.None? && result.RequiresExactError() {
        RecordFault(LostContext);
      }
    }

    /** Succeeds exactly on finished histories, with one text per frame in start order; always resets. */
    method FinishTransaction(expectedNodes: nat) returns (r: Result<seq<Option<string>>, Fault>)
      requires Valid()
      modifies this
      ensures Valid() && Fresh()
      ensures r.Ok? <==> Finished(old(history), expectedNodes)
      ensures r.Ok? ==>
        |r.value| == expectedNodes && forall i :: 0 <= i < |r.value| ==> r.value[i] == Text(old(history), i)
    {
      var found := fault;
      if found.None? && pendingStep.Some? {
        found := Some(UnfinishedStep);
      }
      if found.None? && frames != [] {
        found := Some(ActiveFrames);
      }
      if found.None? && |errors| != expectedNodes {
        found := Some(WrongCount);
      }
      if found.None? && |precompileErrors| != 0 {
        found := Some(UnmatchedHalts);
      }
      var texts := errors;
      fault, precompileErrors, errors, frames, pendingStep := None, [], [], [], None;
      history := [];
      r := if found.Some? then Err(found.value) else Ok(texts);
    }
  }

  function StepText(pending: PendingStep, result: Option<InstructionResult>): Option<string> {
    if pending.precheck.Some? then pending.precheck
    else if result == Some(OutOfGas) then pending.dynamic
    else None
  }

  ghost function WithText(frames: seq<FrameCapture>, text: Option<string>): seq<FrameCapture>
    requires frames != []
  {
    frames[|frames| - 1 := frames[|frames| - 1].(exactError := text)]
  }

  ghost predicate TopHasText(frames: seq<FrameCapture>) {
    frames != [] && frames[|frames| - 1].exactError.Some?
  }

  /** Ending a step, in terms of the fields: when it is faulty, and what a clean one leaves. */
  lemma AfterStepEnd(h: seq<Event>, s: Sidecar, result: Option<InstructionResult>)
    requires Mirrors(h, s)
    ensures var e, halts := StepEnd(result), result.Some? && result.value.IsHalt();
      var text := if s.pending.None? then None else StepText(s.pending.value, result);
      && (Clean(h + [e]) <==> (
            && Clean(h) && s.pending.Some?
            && if text.Some? then halts && s.frames != [] && !TopHasText(s.frames)
               else !(result.Some? && result.value.RequiresExactError())))
      && (text.None? ==> Mirrors(h + [e], s.(pending := None)))
      && (text.Some? && s.frames != [] ==> Mirrors(h + [e], s.(pending := None, frames := WithText(s.frames, text))))
  {
    var e := StepEnd(result);
    Snoc(h, e);
    if TextOf(h, e).None? {
      MirrorQuiet(h, s, e);
    } else if s.frames != [] {
      MirrorText(h, s, e);
    }
  }

  lemma AfterPrecompileEnd(h: seq<Event>, s: Sidecar, address: nat)
    requires Mirrors(h, s)
    ensures var e := PrecompileEnd(address);
      && (Clean(h + [e]) <==> (
            && Clean(h) && s.queue != [] && s.queue[0].address == address && s.queue[0].text.Some?
            && s.frames != [] && !TopHasText(s.frames)))
      && (Clean(h + [e]) ==> Mirrors(h + [e], s.(queue := s.queue[1..], frames := WithText(s.frames, s.queue[0].text))))
  {
    var e := PrecompileEnd(address);
    Snoc(h, e);
    if TextOf(h, e).Some? && s.frames != [] {
      MirrorText(h, s, e);
    }
  }

  lemma AfterEndFrame(h: seq<Event>, s: Sidecar, result: InstructionResult)
    requires Mirrors(h, s)
    ensures var e, d := Event.EndFrame(result), |s.frames| - 1;
      && (Clean(h + [e]) <==> (
            && Clean(h) && s.pending.None? && s.frames != []
            && if TopHasText(s.frames) then result.IsHalt() else !result.RequiresExactError()))
      && (s.frames != [] ==>
            && s.frames[d].nodeIndex < |s.errors|
            && Mirrors(h + [e], s.(frames := s.frames[..d],
              errors := s.errors[s.frames[d].nodeIndex := s.frames[d].exactError])))
  {
    Snoc(h, Event.EndFrame(result));
    if s.frames != [] {
      MirrorEnd(h, s, Event.EndFrame(result));
    }
  }

  // ----- What a finished history guarantees -----

  ghost function Closes(h: seq<Event>): nat {
    if h == [] then 0 else Closes(h[..|h| - 1]) + (if h[|h| - 1].EndFrame? then 1 else 0)
  }

  lemma CleanPrefix(h: seq<Event>, k: nat)
    requires Clean(h) && k <= |h|
    ensures Clean(h[..k])
  {
    forall j | 0 <= j < k ensures !Faulty(h[..k][..j], h[..k][j]) {
      assert h[..k][..j] == h[..j] && h[..k][j] == h[j];
      assert !Faulty(h[..j], h[j]);
    }
  }

  /** In a clean history ends never outrun starts; the difference is open. */
  lemma {:induction false} Balanced(h: seq<Event>)
    requires Clean(h)
    ensures |Stack(h)| == Opens(h) - Closes(h)
    decreases |h|
  {
    if h != [] {
      var n := |h| - 1;
      CleanPrefix(h, n);
      Balanced(h[..n]);
      assert !Faulty(h[..n], h[n]);
    }
  }

  ghost predicate OnlyPrecompiles(h: seq<Event>, from: nat, to: nat)
    requires to <= |h|
  {
    forall j :: from <= j < to ==> h[j].PrecompileHalt? || h[j].PrecompileEnd?
  }

  /** While a step is open, only its end or precompile callbacks can come. */
  lemma OpenStepNext(h: seq<Event>, m: nat)
    requires Clean(h) && m < |h| && OpenStep(h[..m]).Some? && !h[m].StepEnd?
    ensures OpenStep(h[..m + 1]) == OpenStep(h[..m]) && (h[m].PrecompileHalt? || h[m].PrecompileEnd?)
  {
    assert !Faulty(h[..m], h[m]);
    assert h[..m + 1][..m] == h[..m];
  }

  lemma {:induction false} StepStaysOpen(h: seq<Event>, k: nat, m: nat)
    requires Clean(h) && k < m <= |h| && h[k].Step? && forall j :: k < j < m ==> !h[j].StepEnd?
    ensures OpenStep(h[..m]) == Some(h[k].step) && OnlyPrecompiles(h, k + 1, m)
    decreases m
  {
    if m > k + 1 {
      StepStaysOpen(h, k, m - 1);
      OpenStepNext(h, m - 1);
    } else {
      assert h[..m][m - 1] == h[k];
    }
  }

  /** Every step of a finished history is ended, with no frame or step callback in between. */
  lemma StepIsEnded(h: seq<Event>, n: nat, k: nat) returns (l: nat)
    requires Finished(h, n) && k < |h| && h[k].Step?
    ensures k < l < |h| && h[l].StepEnd? && OnlyPrecompiles(h, k + 1, l)
  {
    l := k + 1;
    while l < |h| && !h[l].StepEnd?
      invariant k < l <= |h| && forall j :: k < j < l ==> !h[j].StepEnd?
    {
      l := l + 1;
    }
    StepStaysOpen(h, k, l);
    assert h[..|h|] == h;
  }

  /** Callback `k` ends frame `i`. */
  ghost predicate Ends(h: seq<Event>, k: nat, i: nat) {
    k < |h| && h[k].EndFrame? && Innermost(h[..k], i)
  }

  lemma InnermostIsOpen(h: seq<Event>, i: nat)
    ensures i !in Stack(h) ==> !Innermost(h, i)
  {
  }

  lemma ClosedNext(h: seq<Event>, e: Event, i: nat)
    requires i < Opens(h) && i !in Stack(h)
    ensures i < Opens(h + [e]) && i !in Stack(h + [e]) && Text(h + [e], i) == Text(h, i)
  {
    Snoc(h, e);
    InnermostIsOpen(h, i);
  }

  /** A frame that is started and no longer open stays closed, and its text stays. */
  lemma {:induction false} StaysClosed(h: seq<Event>, k: nat, m: nat, i: nat)
    requires k <= m <= |h| && i < Opens(h[..k]) && i !in Stack(h[..k])
    ensures i < Opens(h[..m]) && i !in Stack(h[..m]) && Text(h[..m], i) == Text(h[..k], i)
    decreases m
  {
    if k < m {
      StaysClosed(h, k, m - 1, i);
      ClosedNext(h[..m - 1], h[m - 1], i);
      assert h[..m - 1] + [h[m - 1]] == h[..m];
    }
  }

  /** Ending a frame closes it without touching its text. */
  lemma EndCloses(h: seq<Event>, k: nat, i: nat)
    requires Ends(h, k, i)
    ensures i < Opens(h[..k + 1]) && i !in Stack(h[..k + 1]) && Text(h[..k + 1], i) == Text(h[..k], i)
  {
    assert h[..k + 1][..k] == h[..k];
    StackOrdered(h[..k]);
  }

  /** Every started frame that is not open was ended. */
  lemma {:induction false} WasEnded(h: seq<Event>, m: nat, i: nat) returns (k: nat)
    requires m <= |h| && i < Opens(h[..m]) && i !in Stack(h[..m])
    ensures k < m && Ends(h, k, i)
    decreases m
  {
    var init := h[..m - 1];
    assert h[..m][..m - 1] == init && h[..m][m - 1] == h[m - 1];
    assert h[m - 1].StartFrame? ==> Stack(h[..m])[|Stack(init)|] == Opens(init);
    if i in Stack(init) {
      k := m - 1;
      OnlyTopLeaves(init, h[m - 1], i);
      assert Stack(init + [h[m - 1]]) == Stack(h[..m]) by { assert init + [h[m - 1]] == h[..m]; }
    } else {
      k := WasEnded(h, m - 1, i);
    }
  }

  lemma OnlyTopLeaves(h: seq<Event>, e: Event, i: nat)
    requires i in Stack(h) && i !in Stack(h + [e])
    ensures e.EndFrame? && Innermost(h, i)
  {
    var d :| 0 <= d < |Stack(h)| && Stack(h)[d] == i;
    if !e.EndFrame? || d < |Stack(h)| - 1 {
      OthersStay(h, e, d);
    }
  }

  lemma OthersStay(h: seq<Event>, e: Event, d: nat)
    requires d < |Stack(h)| && (!e.EndFrame? || d < |Stack(h)| - 1)
    ensures Stack(h)[d] in Stack(h + [e])
  {
    Snoc(h, e);
    assert Stack(h + [e])[d] == Stack(h)[d];
  }

  /** Every frame of a finished history ends exactly once; a text only ever explains a halt, and
      every result that needs a text has one. */
  lemma FrameExplained(h: seq<Event>, n: nat, i: nat) returns (k: nat)
    requires Finished(h, n) && i < n
    ensures Ends(h, k, i) && forall l :: Ends(h, l, i) ==> l == k
    ensures Text(h, i).Some? ==> h[k].final.IsHalt()
    ensures h[k].final.RequiresExactError() ==> Text(h, i).Some?
  {
    assert h[..|h|] == h;
    k := WasEnded(h, |h|, i);
    EndCloses(h, k, i);
    StaysClosed(h, k + 1, |h|, i);
    assert !Faulty(h[..k], h[k]);
    forall l | Ends(h, l, i) ensures l == k {
      EndOnce(h, k, l, i);
    }
  }

  lemma EndOnce(h: seq<Event>, k: nat, l: nat, i: nat)
    requires Ends(h, k, i) && Ends(h, l, i)
    ensures k == l
  {
    EndCloses(h, k, i);
    EndCloses(h, l, i);
    if k < l {
      StaysClosed(h, k + 1, l, i);
    } else if l < k {
      StaysClosed(h, l + 1, k, i);
    }
  }

  /** With statuses that are the frames' results, the formatter never misses a text it needs: a frame
      fails to format only for want of a wording for its result. */
  lemma SidecarSuffices(h: seq<Event>, c: Ctx, i: nat)
    requires Finished(h, |c.nodes|) && |c.errors| == |c.nodes| && i < |c.nodes|
    requires c.errors[i] == Text(h, i)
    requires forall k: nat :: Ends(h, k, i) ==> c.nodes[i].status == Some(h[k].final)
    ensures c.nodes[i].status.Some?
    ensures c.nodes[i].status.value.RequiresExactError() ==> c.errors[i].Some?
    ensures Formattable(c, i) <==> c.errors[i].Some? || c.nodes[i].formatted.Some?
  {
    var k := FrameExplained(h, |c.nodes|, i);
  }

  /** A frame's text was established by a callback made while the frame was innermost. */
  lemma {:induction false} TextHasSource(h: seq<Event>, m: nat, i: nat) returns (k: nat)
    requires m <= |h| && Text(h[..m], i).Some?
    ensures k < m && Innermost(h[..k], i) && TextOf(h[..k], h[k]) == Text(h[..m], i)
    decreases m
  {
    assert h[..m][..m - 1] == h[..m - 1] && h[..m][m - 1] == h[m - 1];
    if TextOf(h[..m - 1], h[m - 1]).Some? && Innermost(h[..m - 1], i) {
      k := m - 1;
    } else {
      k := TextHasSource(h, m - 1, i);
    }
  }
}
