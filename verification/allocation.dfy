/** The allocation executors: given a source warehouse and a bundle, debit the
    source item by item and either credit a destination warehouse (a transfer,
    the replenishment flow) or let the stock leave the network (a release to a
    customer, the dispatch flow). A failing item aborts the rest of the bundle
    without rolling back the items before it; the partially updated graph is
    returned with the error. */
module Allocation {
  import opened Ledger
  import opened Graphs

  datatype Flow = Transfer(destination: string) | Release

  datatype StockError =
    | ItemNotFound(warehouse: string, item: string)
    | InsufficientStock(warehouse: string, item: string)

  /** The graph after an executor ran, and the error that stopped it, if any. */
  datatype Executed = Completed(graph: Graph) | Aborted(graph: Graph, error: StockError)

  predicate Endpoints(g: Graph, source: string, flow: Flow) {
    source in g && (flow.Transfer? ==> flow.destination in g)
  }

  predicate Touches(w: string, source: string, flow: Flow) {
    w == source || (flow.Transfer? && w == flow.destination)
  }

  /** Only the ledgers may differ: the warehouses, their codes and their edges stay. */
  predicate SameShape(g: Graph, h: Graph) {
    && h.Keys == g.Keys
    && forall w :: w in g ==> h[w].code == g[w].code && h[w].adjacent == g[w].adjacent
  }

  /** Sum of the requested quantities of `code` over a bundle. */
  function Requested(b: Bundle, code: string): int {
    if |b| == 0 then 0 else (if b[0].code == code then b[0].qty else 0) + Requested(b[1..], code)
  }

  /** The graph with the ledger of `w` replaced and nothing else changed. */
  function WithStock(g: Graph, w: string, s: seq<StockRecord>): (h: Graph)
    requires w in g
    ensures SameShape(g, h)
    ensures h[w].stock == s
    ensures forall v :: v in g && v != w ==> h[v] == g[v]
  {
    g[w := g[w].(stock := s)]
  }

  /** One item of a bundle: debit the source, then credit the destination of a transfer. */
  function ApplyItem(g: Graph, source: string, flow: Flow, it: Item): (r: Executed)
    requires Endpoints(g, source, flow)
    ensures SameShape(g, r.graph)
    ensures forall w :: w in g && !Touches(w, source, flow) ==> r.graph[w] == g[w]
    ensures r.Completed? <==> Debit(g[source].stock, it.code, it.qty).Ok?
    ensures r.Aborted? ==> r.graph == g
    ensures r.Aborted? && FirstIndex(g[source].stock, it.code).None? ==>
              r.error == ItemNotFound(source, it.code)
    ensures r.Aborted? && FirstIndex(g[source].stock, it.code).Some? ==>
              r.error == InsufficientStock(source, it.code)
    ensures r.Completed? && !(flow.Transfer? && flow.destination == source) ==>
              r.graph[source].stock == Debit(g[source].stock, it.code, it.qty).value
    ensures r.Completed? && flow.Transfer? && flow.destination != source ==>
              r.graph[flow.destination].stock == Credit(g[flow.destination].stock, it.code, it.qty)
  {
    match Debit(g[source].stock, it.code, it.qty)
    case Err(NoRecord) => Aborted(g, ItemNotFound(source, it.code))
    case Err(BelowReserve) => Aborted(g, InsufficientStock(source, it.code))
    case Ok(s1) =>
      var g1 := WithStock(g, source, s1);
      match flow
      case Release => Completed(g1)
      case Transfer(d) => Completed(WithStock(g1, d, Credit(g1[d].stock, it.code, it.qty)))
  }

  /** A whole bundle, item by item in bundle order, stopping at the first error. */
  function ApplyBundle(g: Graph, source: string, flow: Flow, b: Bundle): (r: Executed)
    requires Endpoints(g, source, flow)
    ensures SameShape(g, r.graph)
    ensures forall w :: w in g && !Touches(w, source, flow) ==> r.graph[w] == g[w]
    decreases |b|
  {
    if |b| == 0 then Completed(g)
    else match ApplyItem(g, source, flow, b[0])
      case Aborted(g1, e) => Aborted(g1, e)
      case Completed(g1) => ApplyBundle(g1, source, flow, b[1..])
  }

  /** The transfer executor: move a bundle from `source` into `destination`.
      Nothing outside the two warehouses changes, and (between two distinct
      warehouses) the combined on-hand quantity of every item is conserved,
      whether the bundle completes or aborts part-way. */
  function MoveStock(g: Graph, source: string, destination: string, b: Bundle): (r: Executed)
    requires source in g && destination in g
    ensures SameShape(g, r.graph)
    ensures forall w :: w in g && w != source && w != destination ==> r.graph[w] == g[w]
    ensures source != destination ==> forall c ::
              Tally(r.graph[source].stock, c, OnHand) + Tally(r.graph[destination].stock, c, OnHand)
              == Tally(g[source].stock, c, OnHand) + Tally(g[destination].stock, c, OnHand)
    ensures source != destination && r.Completed? ==> forall c ::
              && Tally(r.graph[source].stock, c, Free) == Tally(g[source].stock, c, Free) - Requested(b, c)
              && Tally(r.graph[destination].stock, c, OnHand) == Tally(g[destination].stock, c, OnHand) + Requested(b, c)
  {
    MoveTallies(g, source, destination, b);
    ApplyBundle(g, source, Transfer(destination), b)
  }

  /** The release executor: debit a bundle from `source` to an external
      customer. Only the source ledger changes; when it completes, every item's
      quantity there (on hand and available alike) drops by the amount requested. */
  function ReleaseToCustomer(g: Graph, source: string, b: Bundle): (r: Executed)
    requires source in g
    ensures SameShape(g, r.graph)
    ensures forall w :: w in g && w != source ==> r.graph[w] == g[w]
    ensures SameRecords(g[source].stock, r.graph[source].stock)
    ensures r.Completed? ==> forall c, m ::
              Tally(r.graph[source].stock, c, m) == Tally(g[source].stock, c, m) - Requested(b, c)
  {
    ReleaseTallies(g, source, b);
    ReleaseKeepsRecords(g, source, b);
    ApplyBundle(g, source, Release, b)
  }

  /** A release only lowers quantities: the source ledger keeps its records,
      in place, whether the bundle completes or stops part-way. */
  lemma {:induction false} ReleaseKeepsRecords(g: Graph, source: string, b: Bundle)
    requires source in g
    ensures SameRecords(g[source].stock, ApplyBundle(g, source, Release, b).graph[source].stock)
    decreases |b|
  {
    if |b| > 0 {
      var first := ApplyItem(g, source, Release, b[0]);
      if first.Completed? {
        var s := g[source].stock;
        var d := first.graph[source].stock;
        ReleaseKeepsRecords(first.graph, source, b[1..]);
        SameRecordsTransitive(s, d, ApplyBundle(first.graph, source, Release, b[1..]).graph[source].stock);
      }
    }
  }

  lemma SameRecordsTransitive(s: seq<StockRecord>, t: seq<StockRecord>, u: seq<StockRecord>)
    requires SameRecords(s, t) && SameRecords(t, u)
    ensures SameRecords(s, u)
  {
    forall i | 0 <= i < |s| ensures u[i] == s[i].(quantity := u[i].quantity) {
      assert t[i] == s[i].(quantity := t[i].quantity);
    }
  }

  /** With distinct item codes, a completed release takes exactly each item's
      own quantity off that item, and leaves unrequested items alone. */
  lemma ReleasedPerItem(g: Graph, source: string, b: Bundle)
    requires source in g && DistinctCodes(b)
    requires ReleaseToCustomer(g, source, b).Completed?
    ensures var r := ReleaseToCustomer(g, source, b);
            forall i, m :: 0 <= i < |b| ==>
              Tally(r.graph[source].stock, b[i].code, m) == Tally(g[source].stock, b[i].code, m) - b[i].qty
    ensures var r := ReleaseToCustomer(g, source, b);
            forall c, m :: (forall i :: 0 <= i < |b| ==> b[i].code != c) ==>
              Tally(r.graph[source].stock, c, m) == Tally(g[source].stock, c, m)
  {
    forall i | 0 <= i < |b| ensures Requested(b, b[i].code) == b[i].qty {
      RequestedOfDistinct(b, i);
    }
    forall c | forall i :: 0 <= i < |b| ==> b[i].code != c ensures Requested(b, c) == 0 {
      RequestedAbsent(b, c);
    }
  }

  /** With distinct item codes, a completed move between two warehouses takes
      exactly each item's own quantity out of the source's available stock
      and puts it into the destination, and leaves unrequested items alone. */
  lemma MovedPerItem(g: Graph, source: string, destination: string, b: Bundle)
    requires source in g && destination in g && source != destination && DistinctCodes(b)
    requires MoveStock(g, source, destination, b).Completed?
    ensures var r := MoveStock(g, source, destination, b);
            forall i :: 0 <= i < |b| ==>
              && Tally(r.graph[source].stock, b[i].code, Free) == Tally(g[source].stock, b[i].code, Free) - b[i].qty
              && Tally(r.graph[destination].stock, b[i].code, OnHand)
                 == Tally(g[destination].stock, b[i].code, OnHand) + b[i].qty
    ensures var r := MoveStock(g, source, destination, b);
            forall c :: (forall i :: 0 <= i < |b| ==> b[i].code != c) ==>
              && Tally(r.graph[source].stock, c, Free) == Tally(g[source].stock, c, Free)
              && Tally(r.graph[destination].stock, c, OnHand) == Tally(g[destination].stock, c, OnHand)
  {
    forall i | 0 <= i < |b| ensures Requested(b, b[i].code) == b[i].qty {
      RequestedOfDistinct(b, i);
    }
    forall c | forall i :: 0 <= i < |b| ==> b[i].code != c ensures Requested(b, c) == 0 {
      RequestedAbsent(b, c);
    }
  }

  // ---------------------------------------------------------------------------
  // Partial failure

  lemma PrefixTail<T>(s: seq<T>, k: nat)
    requires 0 < k <= |s|
    ensures s[..k][0] == s[0] && s[..k][1..] == s[1..][..k - 1]
  {
  }

  /** A bundle that aborts was applied item by item up to some item k: the
      returned graph is exactly the result of the items before k, and item k
      fails on that graph, changing nothing; the items after k are never tried. */
  lemma {:induction false} AbortedAfterPrefix(g: Graph, source: string, flow: Flow, b: Bundle) returns (k: nat)
    requires Endpoints(g, source, flow)
    requires ApplyBundle(g, source, flow, b).Aborted?
    ensures k < |b|
    ensures ApplyBundle(g, source, flow, b[..k]) == Completed(ApplyBundle(g, source, flow, b).graph)
    ensures ApplyItem(ApplyBundle(g, source, flow, b).graph, source, flow, b[k]) == ApplyBundle(g, source, flow, b)
    decreases |b|
  {
    var r := ApplyBundle(g, source, flow, b);
    var first := ApplyItem(g, source, flow, b[0]);
    if first.Aborted? {
      k := 0;
      assert b[..0] == [];
    } else {
      var g1 := first.graph;
      assert r == ApplyBundle(g1, source, flow, b[1..]);
      var k' := AbortedAfterPrefix(g1, source, flow, b[1..]);
      k := k' + 1;
      PrefixTail(b, k);
      assert b[k] == b[1..][k'];
    }
  }

  // ---------------------------------------------------------------------------
  // Quantities

  /** Completed source debits: each item's tally at the source drops by the
      amount requested (a transfer must go to another warehouse for this). */
  lemma {:induction false} SourceTally(g: Graph, source: string, flow: Flow, b: Bundle, c: string, m: Measure)
    requires Endpoints(g, source, flow)
    requires !(flow.Transfer? && flow.destination == source)
    ensures ApplyBundle(g, source, flow, b).Completed? ==>
              Tally(ApplyBundle(g, source, flow, b).graph[source].stock, c, m)
              == Tally(g[source].stock, c, m) - Requested(b, c)
    decreases |b|
  {
    if |b| > 0 {
      match ApplyItem(g, source, flow, b[0])
      case Aborted(_, _) =>
      case Completed(g1) =>
        DebitTally(g[source].stock, b[0].code, b[0].qty, c, m);
        SourceTally(g1, source, flow, b[1..], c, m);
    }
  }

  /** A transfer between two warehouses conserves their combined on-hand
      quantity of every item, and a completed one credits the destination with
      exactly the amount requested. */
  lemma {:induction false} TransferTallies(g: Graph, source: string, destination: string, b: Bundle, c: string)
    requires source in g && destination in g && source != destination
    ensures var r := ApplyBundle(g, source, Transfer(destination), b);
            Tally(r.graph[source].stock, c, OnHand) + Tally(r.graph[destination].stock, c, OnHand)
            == Tally(g[source].stock, c, OnHand) + Tally(g[destination].stock, c, OnHand)
    ensures var r := ApplyBundle(g, source, Transfer(destination), b);
            r.Completed? ==>
              Tally(r.graph[destination].stock, c, OnHand) == Tally(g[destination].stock, c, OnHand) + Requested(b, c)
    decreases |b|
  {
    if |b| > 0 {
      match ApplyItem(g, source, Transfer(destination), b[0])
      case Aborted(_, _) =>
      case Completed(g1) =>
        DebitTally(g[source].stock, b[0].code, b[0].qty, c, OnHand);
        CreditTally(g[destination].stock, b[0].code, b[0].qty, c);
        TransferTallies(g1, source, destination, b[1..], c);
    }
  }

  lemma MoveTallies(g: Graph, source: string, destination: string, b: Bundle)
    requires source in g && destination in g
    ensures var r := ApplyBundle(g, source, Transfer(destination), b);
            source != destination ==> forall c ::
              Tally(r.graph[source].stock, c, OnHand) + Tally(r.graph[destination].stock, c, OnHand)
              == Tally(g[source].stock, c, OnHand) + Tally(g[destination].stock, c, OnHand)
    ensures var r := ApplyBundle(g, source, Transfer(destination), b);
            source != destination && r.Completed? ==> forall c ::
              && Tally(r.graph[source].stock, c, Free) == Tally(g[source].stock, c, Free) - Requested(b, c)
              && Tally(r.graph[destination].stock, c, OnHand) == Tally(g[destination].stock, c, OnHand) + Requested(b, c)
  {
    var r := ApplyBundle(g, source, Transfer(destination), b);
    if source != destination {
      forall c ensures
          && Tally(r.graph[source].stock, c, OnHand) + Tally(r.graph[destination].stock, c, OnHand)
             == Tally(g[source].stock, c, OnHand) + Tally(g[destination].stock, c, OnHand)
          && (r.Completed? ==>
               && Tally(r.graph[source].stock, c, Free) == Tally(g[source].stock, c, Free) - Requested(b, c)
               && Tally(r.graph[destination].stock, c, OnHand)
                  == Tally(g[destination].stock, c, OnHand) + Requested(b, c))
      {
        TransferTallies(g, source, destination, b, c);
        SourceTally(g, source, Transfer(destination), b, c, Free);
      }
    }
  }

  lemma ReleaseTallies(g: Graph, source: string, b: Bundle)
    requires source in g
    ensures var r := ApplyBundle(g, source, Release, b);
            r.Completed? ==> forall c, m ::
              Tally(r.graph[source].stock, c, m) == Tally(g[source].stock, c, m) - Requested(b, c)
  {
    var r := ApplyBundle(g, source, Release, b);
    forall c, m ensures r.Completed? ==>
        Tally(r.graph[source].stock, c, m) == Tally(g[source].stock, c, m) - Requested(b, c)
    {
      SourceTally(g, source, Release, b, c, m);
    }
  }

  /** With distinct codes, the amount requested of a bundle's item is its quantity. */
  lemma {:induction false} RequestedOfDistinct(b: Bundle, i: nat)
    requires DistinctCodes(b) && i < |b|
    ensures Requested(b, b[i].code) == b[i].qty
    decreases |b|
  {
    if i == 0 {
      RequestedAbsent(b[1..], b[0].code);
    } else {
      assert b[1..][i - 1] == b[i];
      RequestedOfDistinct(b[1..], i - 1);
    }
  }

  lemma {:induction false} RequestedAbsent(b: Bundle, code: string)
    requires forall j :: 0 <= j < |b| ==> b[j].code != code
    ensures Requested(b, code) == 0
    decreases |b|
  {
    if |b| > 0 {
      RequestedAbsent(b[1..], code);
    }
  }

  // ---------------------------------------------------------------------------
  // Network-wide totals

  /** On-hand quantity of `code` summed over the listed warehouses. */
  function NetworkTotal(ws: seq<string>, g: Graph, code: string): int
    requires forall i :: 0 <= i < |ws| ==> ws[i] in g
  {
    if |ws| == 0 then 0 else Tally(g[ws[0]].stock, code, OnHand) + NetworkTotal(ws[1..], g, code)
  }

  /** Changing one warehouse's ledger changes the network total by that
      warehouse's change alone. */
  lemma {:induction false} NetworkTotalPoint(ws: seq<string>, g: Graph, h: Graph, w: string, code: string)
    requires NoDuplicates(ws)
    requires forall i :: 0 <= i < |ws| ==> ws[i] in g && ws[i] in h
    requires w in g && w in h
    requires forall v :: v in g && v != w ==> v in h && h[v].stock == g[v].stock
    ensures NetworkTotal(ws, h, code) == NetworkTotal(ws, g, code)
              + (if w in ws then Tally(h[w].stock, code, OnHand) - Tally(g[w].stock, code, OnHand) else 0)
    decreases |ws|
  {
    if |ws| > 0 {
      assert NoDuplicates(ws[1..]);
      NetworkTotalPoint(ws[1..], g, h, w, code);
      if ws[0] == w {
        assert w !in ws[1..] by {
          forall j | 0 <= j < |ws[1..]| ensures ws[1..][j] != w {
            assert ws[1..][j] == ws[j + 1];
          }
        }
      }
    }
  }

  /** A transfer between two listed warehouses leaves the network total of
      every item unchanged, even when it aborts part-way. */
  lemma MoveConservesNetwork(ws: seq<string>, g: Graph, source: string, destination: string, b: Bundle, c: string)
    requires NoDuplicates(ws)
    requires forall i :: 0 <= i < |ws| ==> ws[i] in g
    requires source in ws && destination in ws
    ensures NetworkTotal(ws, MoveStock(g, source, destination, b).graph, c) == NetworkTotal(ws, g, c)
  {
    var r := MoveStock(g, source, destination, b);
    if source != destination {
      var h := g[source := r.graph[source]];
      NetworkTotalPoint(ws, g, h, source, c);
      NetworkTotalPoint(ws, h, r.graph, destination, c);
    } else {
      NetworkTotalPoint(ws, g, r.graph, source, c);
      TransferInPlace(g, source, b, c);
    }
  }

  /** A transfer from a warehouse to itself leaves its on-hand tallies alone. */
  lemma {:induction false} TransferInPlace(g: Graph, w: string, b: Bundle, c: string)
    requires w in g
    ensures Tally(ApplyBundle(g, w, Transfer(w), b).graph[w].stock, c, OnHand) == Tally(g[w].stock, c, OnHand)
    decreases |b|
  {
    if |b| > 0 {
      match ApplyItem(g, w, Transfer(w), b[0])
      case Aborted(_, _) =>
      case Completed(g1) =>
        var s1 := Debit(g[w].stock, b[0].code, b[0].qty).value;
        assert g1[w].stock == Credit(s1, b[0].code, b[0].qty);
        DebitTally(g[w].stock, b[0].code, b[0].qty, c, OnHand);
        CreditTally(s1, b[0].code, b[0].qty, c);
        TransferInPlace(g1, w, b[1..], c);
    }
  }

  /** A completed release lowers the network total of each item by exactly the
      amount requested. */
  lemma ReleaseLowersNetwork(ws: seq<string>, g: Graph, source: string, b: Bundle, c: string)
    requires NoDuplicates(ws)
    requires forall i :: 0 <= i < |ws| ==> ws[i] in g
    requires source in ws
    requires ReleaseToCustomer(g, source, b).Completed?
    ensures NetworkTotal(ws, ReleaseToCustomer(g, source, b).graph, c) == NetworkTotal(ws, g, c) - Requested(b, c)
  {
    NetworkTotalPoint(ws, g, ReleaseToCustomer(g, source, b).graph, source, c);
  }

  // ---------------------------------------------------------------------------
  // Ledger invariants

  /** Every ledger of the graph holds every record at or above its reserve. */
  predicate AllReserved(g: Graph) {
    forall w :: w in g ==> Reserved(g[w].stock)
  }

  lemma ItemReservePreserved(g: Graph, source: string, flow: Flow, it: Item)
    requires Endpoints(g, source, flow)
    requires AllReserved(g) && it.qty > 0
    ensures AllReserved(ApplyItem(g, source, flow, it).graph)
  {
    ReserveKept(g[source].stock, it.code, it.qty);
    if Debit(g[source].stock, it.code, it.qty).Ok? {
      ReserveKept(Debit(g[source].stock, it.code, it.qty).value, it.code, it.qty);
      if flow.Transfer? {
        ReserveKept(g[flow.destination].stock, it.code, it.qty);
      }
    }
  }

  /** Executing positive quantities never takes a record below its reserve,
      whether the bundle completes or aborts. */
  lemma {:induction false} ReservePreserved(g: Graph, source: string, flow: Flow, b: Bundle)
    requires Endpoints(g, source, flow)
    requires AllReserved(g) && Positive(b)
    ensures AllReserved(ApplyBundle(g, source, flow, b).graph)
    decreases |b|
  {
    if |b| > 0 {
      ItemReservePreserved(g, source, flow, b[0]);
      var first := ApplyItem(g, source, flow, b[0]);
      if first.Completed? {
        assert Positive(b[1..]);
        ReservePreserved(first.graph, source, flow, b[1..]);
      }
    }
  }

  lemma ItemUniquePreserved(g: Graph, source: string, flow: Flow, it: Item)
    requires Endpoints(g, source, flow)
    requires AllUnique(g)
    ensures AllUnique(ApplyItem(g, source, flow, it).graph)
  {
    UniqueCodesKept(g[source].stock, it.code, it.qty);
    if Debit(g[source].stock, it.code, it.qty).Ok? {
      UniqueCodesKept(Debit(g[source].stock, it.code, it.qty).value, it.code, it.qty);
      if flow.Transfer? {
        UniqueCodesKept(g[flow.destination].stock, it.code, it.qty);
      }
    }
  }

  /** Executors never introduce a second record for an item code. */
  lemma {:induction false} UniquePreserved(g: Graph, source: string, flow: Flow, b: Bundle)
    requires Endpoints(g, source, flow)
    requires AllUnique(g)
    ensures AllUnique(ApplyBundle(g, source, flow, b).graph)
    decreases |b|
  {
    if |b| > 0 {
      ItemUniquePreserved(g, source, flow, b[0]);
      var first := ApplyItem(g, source, flow, b[0]);
      if first.Completed? {
        UniquePreserved(first.graph, source, flow, b[1..]);
      }
    }
  }

  // ---------------------------------------------------------------------------
  // Consistency with the search's fulfilment test

  /** When the source passes the fulfilment test for a bundle of distinct,
      positive items and holds one record per item code, executing the bundle
      from it (into another warehouse, or out to a customer) cannot fail. */
  lemma {:induction false} FulfilledBundleApplies(g: Graph, source: string, flow: Flow, b: Bundle)
    requires Endpoints(g, source, flow)
    requires !(flow.Transfer? && flow.destination == source)
    requires UniqueCodes(g[source].stock)
    requires DistinctCodes(b) && Positive(b)
    requires Fulfils(g[source].stock, b)
    ensures ApplyBundle(g, source, flow, b).Completed?
    decreases |b|
  {
    if |b| > 0 {
      var s := g[source].stock;
      TallyOfUnique(s, b[0].code, Free);
      assert Tally(s, b[0].code, Free) >= b[0].qty;
      assert Debit(s, b[0].code, b[0].qty).Ok?;
      var g1 := ApplyItem(g, source, flow, b[0]).graph;
      var s1 := g1[source].stock;
      UniqueCodesKept(s, b[0].code, b[0].qty);
      forall i | 0 <= i < |b[1..]| ensures Tally(s1, b[1..][i].code, Free) >= b[1..][i].qty {
        assert b[1..][i] == b[i + 1];
        DebitTally(s, b[0].code, b[0].qty, b[i + 1].code, Free);
      }
      assert DistinctCodes(b[1..]) && Positive(b[1..]);
      FulfilledBundleApplies(g1, source, flow, b[1..]);
    }
  }

  /** Without unique codes the test and the executor disagree: two records of
      5 available units pass a request for 8, but the debit only looks at the
      first record and fails. */
  lemma DuplicateRecordsDefeatRelease()
    ensures var s := [StockRecord("X", 5, 0, None), StockRecord("X", 5, 0, None)];
            var g := map["A" := Warehouse("A", map[], s)];
            && Fulfils(s, [Item("X", 8)])
            && ReleaseToCustomer(g, "A", [Item("X", 8)]) == Aborted(g, InsufficientStock("A", "X"))
  {
    var s := [StockRecord("X", 5, 0, None), StockRecord("X", 5, 0, None)];
    assert Tally(s, "X", Free) == 10 by {
      assert s[1..][1..] == [];
    }
    assert [Item("X", 8)][0] == Item("X", 8);
    assert FirstIndex(s, "X") == Some(0);
  }

  /** Without positive quantities they disagree too: a request for 0 units of
      an item the warehouse has never held passes the test but is not found. */
  lemma ZeroQuantityDefeatsRelease()
    ensures var g := map["A" := Warehouse("A", map[], [])];
            && Fulfils([], [Item("X", 0)])
            && ReleaseToCustomer(g, "A", [Item("X", 0)]) == Aborted(g, ItemNotFound("A", "X"))
  {
  }
}
