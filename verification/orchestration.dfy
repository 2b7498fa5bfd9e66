/** The two-phase request processing shared by the replenishment and the
    dispatch flows: look for one warehouse that can serve the whole request;
    failing that, serve each item on its own from whatever warehouse the
    search finds, against the ledgers as the earlier items left them. */
module Orchestration {
  import opened Ledger
  import opened Graphs
  import opened Allocation
  import opened Search
  import opened Runs

  /** The search as the mode runs it. */
  method SearchFor(g: Graph, start: string, b: Bundle, daysUntil: string -> int, mode: Mode)
    returns (r: Option<Found>)
    requires start in g && Closed(g)
    ensures r.Some? ==> Sourced(g, start, b, daysUntil, mode, r.value.cost, r.value.path)
    ensures r.None? <==> NoSource(g, start, b, mode)
    ensures mode == Dispatch && Fulfils(g[start].stock, b) ==> r == Some(Found(0, [start]))
  {
    match mode
    case Optimization =>
      r := FindBestOptimization(g, start, b, daysUntil);
    case Dispatch =>
      r := FindBestDispatch(g, start, b, daysUntil);
  }

  /** The next item of the per-item phase, `b[0]`: search for a source of
      the item alone and, when one is found, execute the item from it. An
      error here ends the phase's record. */
  method ServeFirst(g: Graph, start: string, b: Bundle, daysUntil: string -> int, mode: Mode)
    returns (o: Outcome, next: Graph, err: Option<StockError>)
    requires start in g && Closed(g) && |b| > 0
    ensures ItemStep(g, start, b[0], daysUntil, mode, o, next, err)
    ensures start in next && Closed(next)
    ensures err.Some? ==> Steps([g, next], [o], b, start, daysUntil, mode, err)
  {
    var it := b[0];
    var found := SearchFor(g, start, [it], daysUntil, mode);
    if found.None? {
      return ItemUnmet(it.code, it.qty), g, None;
    }
    var e := ExecuteItem(g, start, mode, Last(found.value.path), it);
    o, next, err := ItemServed(it.code, found.value.cost, found.value.path), e.graph, ErrorOf(e);
    ItemStepShape(g, start, it, daysUntil, mode, o, next, err);
    SameShapeClosed(g, next);
    if err.Some? {
      StepsLast(g, next, o, b, start, daysUntil, mode, err);
    }
  }

  /** The per-item phase: each item in request order, on the ledgers as the
      earlier items left them, until the end or the first executor error. */
  method ServeEach(g: Graph, start: string, b: Bundle, daysUntil: string -> int, mode: Mode)
    returns (outcomes: seq<Outcome>, final: Graph, err: Option<StockError>, ghost trace: seq<Graph>)
    requires start in g && Closed(g)
    ensures Steps(trace, outcomes, b, start, daysUntil, mode, err)
    ensures trace[0] == g && trace[|trace| - 1] == final
    ensures |outcomes| <= |b| && (err.None? ==> |outcomes| == |b|)
    ensures err.Some? ==> |outcomes| > 0
    decreases |b|, 1
  {
    if |b| == 0 {
      return [], g, None, [g];
    }
    var o, next, e := ServeFirst(g, start, b, daysUntil, mode);
    if e.Some? {
      return [o], next, e, [g, next];
    }
    outcomes, final, err, trace := ServeRest(g, next, o, start, b, daysUntil, mode);
    StepsLength(trace, outcomes, b, start, daysUntil, mode, err);
  }

  /** The rest of the per-item phase after the item `b[0]` went through
      without error, leaving `next`. */
  method ServeRest(g: Graph, next: Graph, o: Outcome, start: string, b: Bundle, daysUntil: string -> int, mode: Mode)
    returns (outcomes: seq<Outcome>, final: Graph, err: Option<StockError>, ghost trace: seq<Graph>)
    requires |b| > 0 && start in next && Closed(next)
    requires ItemStep(g, start, b[0], daysUntil, mode, o, next, None)
    ensures Steps(trace, outcomes, b, start, daysUntil, mode, err)
    ensures trace[0] == g && trace[|trace| - 1] == final
    decreases |b|, 0
  {
    var rest, fin, err1, tr := ServeEach(next, start, b[1..], daysUntil, mode);
    StepsCons(g, next, tr, o, rest, b, start, daysUntil, mode, err1);
    outcomes, final, err, trace := [o] + rest, fin, err1, [g] + tr;
  }

  /** The per-item phase as the report and the final listing present it. */
  method PerItem(g: Graph, start: string, b: Bundle, daysUntil: string -> int, mode: Mode)
    returns (r: Processed, ghost trace: seq<Graph>)
    requires start in g && Closed(g)
    ensures SameShape(g, r.graph)
    ensures |r.report| >= 1 && r.report[0] == NoSingleSource
    ensures Steps(trace, r.report[1..], b, start, daysUntil, mode, r.error)
    ensures trace[0] == g && r.graph == trace[|trace| - 1]
    ensures r.error.None? ==> |r.report| == |b| + 1 && r.unmet == UnmetOf(b, r.report[1..])
    ensures r.error.Some? ==> r.unmet == []
    ensures AllUnique(g) && Positive(b) ==> r.error.None?
  {
    var outcomes, final, err;
    outcomes, final, err, trace := ServeEach(g, start, b, daysUntil, mode);
    StepsLength(trace, outcomes, b, start, daysUntil, mode, err);
    StepsShape(trace, outcomes, b, start, daysUntil, mode, err);
    if AllUnique(g) && Positive(b) {
      StepsUnique(trace, outcomes, b, start, daysUntil, mode, err);
    }
    var report := [NoSingleSource] + outcomes;
    assert report[1..] == outcomes;
    if err.Some? {
      r := Processed(final, report, [], err);
    } else {
      var remaining := ZeroServed(b, outcomes);
      PendingIsUnmet(b, outcomes);
      r := Processed(final, report, Pending(remaining), None);
    }
  }

  /** Processing a request. The whole request is tried first: when the
      search finds a source, that one source serves it and the report has
      the single line for it. Otherwise the report says so and then carries,
      for each item in request order, either the source found for it alone
      (on the ledgers as the earlier items left them) or the fact that none
      exists; the unmet requirements are listed at the end. An executor error
      stops the run where it happened, keeping the changes made so far. With
      one record per item code and positive quantities, no error can occur.
      Only ledgers ever change. */
  method Process(g: Graph, start: string, b: Bundle, daysUntil: string -> int, mode: Mode)
    returns (r: Processed, ghost trace: seq<Graph>)
    requires start in g && Closed(g)
    requires DistinctCodes(b)
    ensures SameShape(g, r.graph)
    ensures |r.report| >= 1
    ensures r.report[0].BundleServed? <==> !NoSource(g, start, b, mode)
    ensures r.report[0].BundleServed? ==>
              var path := r.report[0].path;
              && |r.report| == 1 && r.unmet == []
              && Sourced(g, start, b, daysUntil, mode, r.report[0].cost, path)
              && r.graph == Execute(g, start, mode, Last(path), b).graph
              && r.error == ErrorOf(Execute(g, start, mode, Last(path), b))
    ensures mode == Dispatch && Fulfils(g[start].stock, b) ==> r.report == [BundleServed(0, [start])]
    ensures !r.report[0].BundleServed? ==>
              && r.report[0] == NoSingleSource
              && Steps(trace, r.report[1..], b, start, daysUntil, mode, r.error)
              && trace[0] == g && r.graph == trace[|trace| - 1]
              && (r.error.None? ==> |r.report| == |b| + 1 && r.unmet == UnmetOf(b, r.report[1..]))
              && (r.error.Some? ==> r.unmet == [])
    ensures AllUnique(g) && Positive(b) ==> r.error.None?
  {
    var whole := SearchFor(g, start, b, daysUntil, mode);
    if whole.None? {
      r, trace := PerItem(g, start, b, daysUntil, mode);
      return;
    }
    var e := Execute(g, start, mode, Last(whole.value.path), b);
    if AllUnique(g) && Positive(b) {
      var flow := FlowOf(mode, start);
      FulfilledBundleApplies(g, Last(whole.value.path), flow, b);
    }
    r := Processed(e.graph, [BundleServed(whole.value.cost, whole.value.path)], [], ErrorOf(e));
    trace := [g];
  }

  /** The replenishment run: the whole request moves from one other
      warehouse into the start when one can supply it all, and that move
      conserves every item's combined quantity in the two warehouses. */
  method ProcessOptimization(g: Graph, start: string, b: Bundle, daysUntil: string -> int)
    returns (r: Processed)
    requires start in g && Closed(g)
    requires DistinctCodes(b)
    ensures SameShape(g, r.graph)
    ensures |r.report| >= 1
    ensures r.report[0].BundleServed? ==> |r.report[0].path| >= 2
    ensures r.report[0].BundleServed? ==>
              var source := Last(r.report[0].path);
              && source != start && source in g && Fulfils(g[source].stock, b)
              && (forall w :: w in g && w != source && w != start ==> r.graph[w] == g[w])
              && (forall c :: Tally(r.graph[source].stock, c, OnHand) + Tally(r.graph[start].stock, c, OnHand)
                              == Tally(g[source].stock, c, OnHand) + Tally(g[start].stock, c, OnHand))
    ensures r.report[0] == NoSingleSource <==> NoSource(g, start, b, Optimization)
    ensures AllUnique(g) && Positive(b) ==> r.error.None?
  {
    ghost var trace;
    r, trace := Process(g, start, b, daysUntil, Optimization);
    if r.report[0].BundleServed? {
      ExecuteIsExecutor(g, start, Optimization, Last(r.report[0].path), b);
    }
  }

  /** The dispatch run: a start warehouse that can supply the whole request
      releases it itself, at cost 0 and along the path [start]. */
  method ProcessDispatch(g: Graph, start: string, b: Bundle, daysUntil: string -> int)
    returns (r: Processed)
    requires start in g && Closed(g)
    requires DistinctCodes(b)
    ensures SameShape(g, r.graph)
    ensures |r.report| >= 1
    ensures Fulfils(g[start].stock, b) ==>
              && r.report == [BundleServed(0, [start])]
              && r.graph == ReleaseToCustomer(g, start, b).graph
    ensures r.report[0] == NoSingleSource <==> NoSource(g, start, b, Dispatch)
    ensures AllUnique(g) && Positive(b) ==> r.error.None?
  {
    ghost var trace;
    r, trace := Process(g, start, b, daysUntil, Dispatch);
    ExecuteIsExecutor(g, start, Dispatch, start, b);
  }
}
