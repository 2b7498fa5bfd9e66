/** Warehouses and the directed, weighted graph they form. */
module Graphs {
  import opened Ledger

  /** A warehouse: its code, its outgoing edges (neighbour code to travel
      cost; the reverse edge is not implied) and its ordered stock ledger. */
  datatype Warehouse = Warehouse(code: string, adjacent: map<string, int>, stock: seq<StockRecord>)
  {
    /** Record an edge to `neighbor`; a repeated neighbour keeps only the new cost. */
    function AddConnection(neighbor: string, cost: int): (w: Warehouse)
      ensures w.code == code && w.stock == stock
      ensures w.adjacent.Keys == adjacent.Keys + {neighbor}
      ensures w.adjacent[neighbor] == cost
      ensures forall n :: n in adjacent && n != neighbor ==> w.adjacent[n] == adjacent[n]
    {
      this.(adjacent := adjacent[neighbor := cost])
    }

    /** Append a record at the end of the ledger; earlier records stay as they are. */
    function AddStock(rec: StockRecord): (w: Warehouse)
      ensures w.code == code && w.adjacent == adjacent
      ensures |w.stock| == |stock| + 1 && w.stock[|stock|] == rec
      ensures forall i :: 0 <= i < |stock| ==> w.stock[i] == stock[i]
    {
      this.(stock := stock + [rec])
    }
  }

  type Graph = map<string, Warehouse>

  /** Every edge leads to a warehouse of the graph. */
  predicate Closed(g: Graph) {
    forall w, n :: w in g && n in g[w].adjacent ==> n in g
  }

  /** Every warehouse's ledger has at most one record per item code. */
  predicate AllUnique(g: Graph) {
    forall w :: w in g ==> UniqueCodes(g[w].stock)
  }

  predicate NoDuplicates(ws: seq<string>) {
    forall i, j :: 0 <= i < j < |ws| ==> ws[i] != ws[j]
  }

  function Last(p: seq<string>): string
    requires |p| > 0
  {
    p[|p| - 1]
  }

  /** A non-empty walk through the graph along its directed edges. */
  predicate IsPath(g: Graph, p: seq<string>) {
    && |p| > 0
    && (forall i :: 0 <= i < |p| ==> p[i] in g)
    && (forall i :: 1 <= i < |p| ==> p[i] in g[p[i - 1]].adjacent)
  }

  /** A set of warehouses that contains `start` and is closed under edges
      contains every warehouse reachable from `start`. */
  lemma {:induction false} ReachableWithin(g: Graph, s: set<string>, p: seq<string>)
    requires IsPath(g, p)
    requires p[0] in s
    requires forall v, n :: v in s && v in g && n in g[v].adjacent ==> n in s
    ensures Last(p) in s
    decreases |p|
  {
    if |p| > 1 {
      var q := p[..|p| - 1];
      assert IsPath(g, q);
      ReachableWithin(g, s, q);
    }
  }
}
