/** What a run of the request processing records: the report's lines, the
    executor each mode uses, and the step-by-step account of the per-item
    phase together with the facts that follow from it. */
module Runs {
  import opened Ledger
  import opened Graphs
  import opened Allocation
  import opened Search

  /** Replenishment moves stock into the start warehouse; dispatch releases
      it to a customer from wherever it is found. */
  datatype Mode = Optimization | Dispatch

  /** One line of the run's report. */
  datatype Outcome =
    | BundleServed(cost: int, path: seq<string>)
    | NoSingleSource
    | ItemServed(code: string, cost: int, path: seq<string>)
    | ItemUnmet(code: string, qty: int)

  /** The graph after the run, its report, the unmet requirements it lists at
      the end, and the error an executor raised, if one did. */
  datatype Processed = Processed(graph: Graph, report: seq<Outcome>, unmet: Bundle, error: Option<StockError>)

  /** A source the mode's search may return for a request: a path from the
      start along edges to a warehouse that passes the fulfilment test, priced
      by the search's cost; replenishment never sources from the start. */
  predicate Sourced(g: Graph, start: string, b: Bundle, daysUntil: string -> int, mode: Mode, cost: int, path: seq<string>) {
    && IsPath(g, path) && path[0] == start
    && Fulfils(g[Last(path)].stock, b)
    && cost == PathCost(g, path, b, daysUntil)
    && (mode == Optimization ==> Last(path) != start)
  }

  /** No warehouse the mode's search may consider passes the test. */
  ghost predicate NoSource(g: Graph, start: string, b: Bundle, mode: Mode) {
    forall p :: IsPath(g, p) && p[0] == start && (mode == Optimization ==> Last(p) != start) ==>
      !Fulfils(g[Last(p)].stock, b)
  }

  /** Where the mode's executor sends stock: into the start, or out. */
  function FlowOf(mode: Mode, start: string): Flow {
    match mode
    case Optimization => Transfer(start)
    case Dispatch => Release
  }

  /** The mode's executor, serving `b` from `source`. */
  function Execute(g: Graph, start: string, mode: Mode, source: string, b: Bundle): (r: Executed)
    requires start in g && source in g
    ensures SameShape(g, r.graph)
  {
    ApplyBundle(g, source, FlowOf(mode, start), b)
  }

  /** The executor is the replenishment flow's transfer into the start, or
      the dispatch flow's release to the customer. */
  lemma ExecuteIsExecutor(g: Graph, start: string, mode: Mode, source: string, b: Bundle)
    requires start in g && source in g
    ensures Execute(g, start, mode, source, b) ==
              match mode
              case Optimization => MoveStock(g, source, start, b)
              case Dispatch => ReleaseToCustomer(g, source, b)
  {
  }

  /** The mode's executor for a single item. */
  function ExecuteItem(g: Graph, start: string, mode: Mode, source: string, it: Item): (r: Executed)
    requires start in g && source in g
  {
    ApplyItem(g, source, FlowOf(mode, start), it)
  }

  /** Executing one item is executing the request that holds just that item. */
  lemma ExecuteItemIsExecute(g: Graph, start: string, mode: Mode, source: string, it: Item)
    requires start in g && source in g
    ensures ExecuteItem(g, start, mode, source, it) == Execute(g, start, mode, source, [it])
  {
    var flow := FlowOf(mode, start);
    match ApplyItem(g, source, flow, it)
    case Aborted(_, _) =>
    case Completed(g1) =>
      assert [it][1..] == [];
      assert ApplyBundle(g1, source, flow, []) == Completed(g1);
  }

  function ErrorOf(e: Executed): Option<StockError> {
    if e.Aborted? then Some(e.error) else None
  }

  /** One item of the per-item phase: either a source was found and the item
      executed from it (the executor's result is the next graph and the
      error, if any), or none was found and nothing changed. In dispatch a
      start that can cover the item is itself the source, at cost 0. */
  ghost predicate ItemStep(g: Graph, start: string, it: Item, daysUntil: string -> int, mode: Mode,
                     o: Outcome, next: Graph, err: Option<StockError>)
  {
    match o
    case ItemServed(c, cost, path) =>
      && c == it.code && start in g
      && Sourced(g, start, [it], daysUntil, mode, cost, path)
      && (mode == Dispatch && Fulfils(g[start].stock, [it]) ==> cost == 0 && path == [start])
      && next == ExecuteItem(g, start, mode, Last(path), it).graph
      && err == ErrorOf(ExecuteItem(g, start, mode, Last(path), it))
    case ItemUnmet(c, q) =>
      c == it.code && q == it.qty && NoSource(g, start, [it], mode) && next == g && err.None?
    case _ => false
  }

  /** In the dispatch flow's per-item phase, an item the start can cover is
      served from the start alone, at cost 0, and released from there. */
  lemma DispatchItemFromStart(g: Graph, start: string, it: Item, daysUntil: string -> int,
                              o: Outcome, next: Graph, err: Option<StockError>)
    requires ItemStep(g, start, it, daysUntil, Dispatch, o, next, err)
    requires start in g && Fulfils(g[start].stock, [it])
    ensures o == ItemServed(it.code, 0, [start])
    ensures next == ReleaseToCustomer(g, start, [it]).graph
  {
    assert IsPath(g, [start]) && Last([start]) == start;
    ExecuteItemIsExecute(g, start, Dispatch, start, it);
  }

  /** The requirements the run lists as unmet at the end: items no source
      was found for, with a positive quantity, in request order. */
  function UnmetOf(b: Bundle, outcomes: seq<Outcome>): Bundle
    requires |outcomes| == |b|
    decreases |b|
  {
    if |b| == 0 then []
    else (if outcomes[0].ItemUnmet? && b[0].qty > 0 then [b[0]] else []) + UnmetOf(b[1..], outcomes[1..])
  }

  /** `a` is `s` with some entries left out and the rest in their order. */
  predicate SubseqOf(a: Bundle, s: Bundle)
    decreases |s|
  {
    if |a| == 0 then true
    else if |s| == 0 then false
    else (a[0] == s[0] && SubseqOf(a[1..], s[1..])) || SubseqOf(a, s[1..])
  }

  /** The entries of the remaining-stock table still above zero, in order. */
  function Pending(remaining: Bundle): (r: Bundle)
    ensures forall x :: x in r <==> x in remaining && x.qty > 0
    ensures SubseqOf(r, remaining)
    decreases |remaining|
  {
    if |remaining| == 0 then []
    else if remaining[0].qty > 0 then [remaining[0]] + Pending(remaining[1..])
    else Pending(remaining[1..])
  }

  /** The remaining-stock table after the per-item phase: the request with
      every served item's quantity set to zero. */
  function ZeroServed(b: Bundle, outcomes: seq<Outcome>): (r: Bundle)
    requires |outcomes| == |b|
    ensures |r| == |b|
    ensures forall k :: 0 <= k < |b| ==> r[k].code == b[k].code
    ensures forall k :: 0 <= k < |b| ==> r[k].qty == (if outcomes[k].ItemServed? then 0 else b[k].qty)
    decreases |b|
  {
    if |b| == 0 then []
    else [if outcomes[0].ItemServed? then Item(b[0].code, 0) else b[0]] + ZeroServed(b[1..], outcomes[1..])
  }

  /** What the table still lists above zero is exactly the unmet
      requirements. */
  lemma {:induction false} PendingIsUnmet(b: Bundle, outcomes: seq<Outcome>)
    requires |outcomes| == |b|
    requires forall k :: 0 <= k < |b| ==> outcomes[k].ItemServed? || outcomes[k].ItemUnmet?
    ensures Pending(ZeroServed(b, outcomes)) == UnmetOf(b, outcomes)
    decreases |b|
  {
    if |b| > 0 {
      assert outcomes[0].ItemServed? || outcomes[0].ItemUnmet?;
      PendingIsUnmet(b[1..], outcomes[1..]);
    }
  }

  lemma SameShapeTransitive(g: Graph, h: Graph, k: Graph)
    requires SameShape(g, h) && SameShape(h, k)
    ensures SameShape(g, k)
  {
  }

  /** Changing only ledgers keeps every edge inside the graph. */
  lemma SameShapeClosed(g: Graph, h: Graph)
    requires SameShape(g, h) && Closed(g)
    ensures Closed(h)
  {
  }

  /** A step leaves the graph's shape as it was. */
  lemma ItemStepShape(g: Graph, start: string, it: Item, daysUntil: string -> int, mode: Mode,
                      o: Outcome, next: Graph, err: Option<StockError>)
    requires ItemStep(g, start, it, daysUntil, mode, o, next, err)
    ensures SameShape(g, next)
  {
    if o.ItemServed? {
      assert Last(o.path) in g;
    }
  }

  /** A step on ledgers holding one record per item code, for a positive
      quantity, raises no error and keeps one record per item code. */
  lemma ItemStepUnique(g: Graph, start: string, it: Item, daysUntil: string -> int, mode: Mode,
                       o: Outcome, next: Graph, err: Option<StockError>)
    requires ItemStep(g, start, it, daysUntil, mode, o, next, err)
    requires AllUnique(g) && it.qty > 0
    ensures err.None? && AllUnique(next)
  {
    if o.ItemServed? {
      var source := Last(o.path);
      ExecuteItemIsExecute(g, start, mode, source, it);
      UniquePreserved(g, source, FlowOf(mode, start), [it]);
      FulfilledBundleApplies(g, source, FlowOf(mode, start), [it]);
    }
  }

  /** The per-item phase's record: the items of `b` in request order, item k
      meeting the graph `trace[k]`, having outcome `outcomes[k]` and leaving
      `trace[k + 1]`; the run goes on to the end of the request unless an
      item's execution raises `err`, which ends it after that item. */
  ghost predicate Steps(trace: seq<Graph>, outcomes: seq<Outcome>, b: Bundle, start: string,
                        daysUntil: string -> int, mode: Mode, err: Option<StockError>)
    decreases |b|
  {
    && |trace| == |outcomes| + 1
    && if |b| == 0 then |outcomes| == 0 && err.None?
       else
         && |outcomes| > 0
         && if |outcomes| == 1 && err.Some? then
              ItemStep(trace[0], start, b[0], daysUntil, mode, outcomes[0], trace[1], err)
            else
              && ItemStep(trace[0], start, b[0], daysUntil, mode, outcomes[0], trace[1], None)
              && Steps(trace[1..], outcomes[1..], b[1..], start, daysUntil, mode, err)
  }

  /** An item whose execution fails ends the record. */
  lemma StepsLast(g: Graph, next: Graph, o: Outcome, b: Bundle, start: string,
                  daysUntil: string -> int, mode: Mode, err: Option<StockError>)
    requires |b| > 0 && err.Some?
    requires ItemStep(g, start, b[0], daysUntil, mode, o, next, err)
    ensures Steps([g, next], [o], b, start, daysUntil, mode, err)
  {
  }

  /** An error-free step followed by the record of the rest. */
  lemma StepsCons(g: Graph, next: Graph, trace: seq<Graph>, o: Outcome, outcomes: seq<Outcome>, b: Bundle,
                  start: string, daysUntil: string -> int, mode: Mode, err: Option<StockError>)
    requires |b| > 0 && |trace| > 0 && trace[0] == next
    requires ItemStep(g, start, b[0], daysUntil, mode, o, next, None)
    requires Steps(trace, outcomes, b[1..], start, daysUntil, mode, err)
    ensures Steps([g] + trace, [o] + outcomes, b, start, daysUntil, mode, err)
  {
    assert ([g] + trace)[1..] == trace;
    assert ([o] + outcomes)[1..] == outcomes;
  }

  /** Item k's step in the record: only the last item can carry the error. */
  lemma {:induction false} StepAt(trace: seq<Graph>, outcomes: seq<Outcome>, b: Bundle, start: string,
                                  daysUntil: string -> int, mode: Mode, err: Option<StockError>, k: nat)
    requires Steps(trace, outcomes, b, start, daysUntil, mode, err) && k < |outcomes|
    ensures k < |b|
    ensures ItemStep(trace[k], start, b[k], daysUntil, mode, outcomes[k], trace[k + 1],
                     if k == |outcomes| - 1 then err else None)
    decreases |b|
  {
    if k > 0 {
      StepAt(trace[1..], outcomes[1..], b[1..], start, daysUntil, mode, err, k - 1);
    }
  }

  /** The record is a prefix of the request, and all of it unless an error
      ended the run. */
  lemma {:induction false} StepsLength(trace: seq<Graph>, outcomes: seq<Outcome>, b: Bundle, start: string,
                                       daysUntil: string -> int, mode: Mode, err: Option<StockError>)
    requires Steps(trace, outcomes, b, start, daysUntil, mode, err)
    ensures 0 < |outcomes| <= |b| || (|outcomes| == 0 && |b| == 0)
    ensures err.None? ==> |outcomes| == |b|
    ensures forall k :: 0 <= k < |outcomes| ==> outcomes[k].ItemServed? || outcomes[k].ItemUnmet?
    decreases |b|
  {
    if |b| > 0 && !(|outcomes| == 1 && err.Some?) {
      StepsLength(trace[1..], outcomes[1..], b[1..], start, daysUntil, mode, err);
      assert forall k :: 1 <= k < |outcomes| ==> outcomes[k] == outcomes[1..][k - 1];
    }
  }

  /** Only ledgers change along the record. */
  lemma {:induction false} StepsShape(trace: seq<Graph>, outcomes: seq<Outcome>, b: Bundle, start: string,
                                      daysUntil: string -> int, mode: Mode, err: Option<StockError>)
    requires Steps(trace, outcomes, b, start, daysUntil, mode, err)
    ensures SameShape(trace[0], trace[|trace| - 1])
    decreases |b|
  {
    if |b| > 0 {
      if |outcomes| == 1 && err.Some? {
        ItemStepShape(trace[0], start, b[0], daysUntil, mode, outcomes[0], trace[1], err);
      } else {
        ItemStepShape(trace[0], start, b[0], daysUntil, mode, outcomes[0], trace[1], None);
        StepsShape(trace[1..], outcomes[1..], b[1..], start, daysUntil, mode, err);
        SameShapeTransitive(trace[0], trace[1], trace[|trace| - 1]);
      }
    }
  }

  /** With one record per item code and positive quantities, the run goes
      through without error and keeps one record per item code. */
  lemma {:induction false} StepsUnique(trace: seq<Graph>, outcomes: seq<Outcome>, b: Bundle, start: string,
                                       daysUntil: string -> int, mode: Mode, err: Option<StockError>)
    requires Steps(trace, outcomes, b, start, daysUntil, mode, err)
    requires AllUnique(trace[0]) && Positive(b)
    ensures err.None? && AllUnique(trace[|trace| - 1])
    decreases |b|
  {
    if |b| > 0 {
      if |outcomes| == 1 && err.Some? {
        ItemStepUnique(trace[0], start, b[0], daysUntil, mode, outcomes[0], trace[1], err);
      } else {
        ItemStepUnique(trace[0], start, b[0], daysUntil, mode, outcomes[0], trace[1], None);
        assert Positive(b[1..]);
        StepsUnique(trace[1..], outcomes[1..], b[1..], start, daysUntil, mode, err);
      }
    }
  }

}
