/** Error texts meet the formatter: the sidecar's result goes straight into formatting, as a traced
    transaction does it (crates/rpc/src/trace.rs, crates/rpc/src/geth_error.rs, crates/rpc/src/debank.rs). */
module SidecarFormat {
  import opened Words
  import opened TraceArena
  import opened TraceTree
  import opened TraceFlatten
  import opened TraceBlock
  import opened GethErrors

  datatype TraceError = Context(fault: Fault) | Formatting(error: BlockError)

  /** Every frame's status is the result its frame ended with. */
  ghost predicate StatusesAreResults(h: seq<Event>, nodes: seq<TraceNode>) {
    forall i: nat, k: nat :: i < |nodes| && Ends(h, k, i) ==> nodes[i].status == Some(h[k].final)
  }

  /** The exact texts of a history's first `n` frames. */
  ghost function Texts(h: seq<Event>, n: nat): seq<Option<string>> {
    seq(n, i requires 0 <= i < n => Text(h, i))
  }

  /** The frame has an exact text or a wording for its result. */
  ghost predicate Worded(h: seq<Event>, nodes: seq<TraceNode>, i: nat)
    requires i < |nodes|
  {
    Text(h, i).Some? || nodes[i].formatted.Some?
  }

  /** With the texts of a finished history, an arena is acceptable exactly when it is a tree whose
      frames are all worded: no frame lacks its status or a text it needs. */
  lemma AcceptableIffWorded(h: seq<Event>, c: Ctx)
    requires Finished(h, |c.nodes|) && StatusesAreResults(h, c.nodes)
    requires c.errors == Texts(h, |c.nodes|)
    ensures Acceptable(c) <==> IsTree(c.nodes) && forall i :: 0 <= i < |c.nodes| ==> Worded(h, c.nodes, i)
  {
    forall i | 0 <= i < |c.nodes| ensures Formattable(c, i) <==> Worded(h, c.nodes, i) {
      SidecarSuffices(h, c, i);
    }
  }

  /** Ends the sidecar's transaction and formats its arena. The sidecar fails exactly for a history
      that is not finished; after it succeeds, formatting fails exactly for an arena that is no tree
      or a frame without any wording. */
  method FormatTraced(sidecar: GethErrorInspector, tx: string, nodes: seq<TraceNode>, hash: string -> string,
                      start: nat)
    returns (r: Result<TraceArrays, TraceError>)
    requires sidecar.Valid() && StatusesAreResults(sidecar.history, nodes)
    modifies sidecar
    ensures sidecar.Valid() && sidecar.Fresh()
    ensures r.Err? && r.error.Context? <==> !Finished(old(sidecar.history), |nodes|)
    ensures r.Ok? <==>
      && Finished(old(sidecar.history), |nodes|) && IsTree(nodes)
      && forall i :: 0 <= i < |nodes| ==> Worded(old(sidecar.history), nodes, i)
    ensures r.Ok? ==>
      fresh(r.value) && Formatted(Ctx(tx, nodes, Texts(old(sidecar.history), |nodes|), hash), start, r.value.View())
  {
    ghost var h := sidecar.history;
    var texts := sidecar.FinishTransaction(|nodes|);
    if texts.Err? {
      return Err(Context(texts.error));
    }
    var c := Ctx(tx, nodes, texts.value, hash);
    assert c.errors == Texts(h, |nodes|);
    AcceptableIffWorded(h, c);
    var built, _ := BuildDebankTraces(c, start);
    if built.Err? {
      return Err(Formatting(built.error));
    }
    r := Ok(built.value);
  }
}
