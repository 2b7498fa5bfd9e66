/** Best-first search for a source warehouse. Queue entries are
    (key, warehouse, path so far); the entry with the least key is popped
    (ties broken by warehouse code, then by path, as Python compares tuples).
    A popped warehouse that was already visited is skipped; otherwise it is
    marked visited and tested: when its own ledger passes the fulfilment test
    the search returns (key, path + [warehouse]); otherwise every unvisited
    neighbour n is pushed with key + travel cost + heuristic(n).

    Each flow runs its own variant of the search, and the two differ only in
    whether the start is tested. The dispatch variant tests the start like
    any other warehouse. The replenishment variant, on popping the start,
    marks it visited and pushes its neighbours without ever testing it. */
module Search {
  import opened Ledger
  import opened Graphs
  import opened Fitness
  import opened Lex

  datatype Entry = Entry(key: int, node: string, path: seq<string>)

  datatype Variant = StartExcluded | StartIncluded

  datatype Found = Found(cost: int, path: seq<string>)

  /** Python's tuple order on (key, node, path). */
  predicate EntryLe(x: Entry, y: Entry) {
    || x.key < y.key
    || (x.key == y.key && (StrLt(x.node, y.node) || (x.node == y.node && PathLe(x.path, y.path))))
  }

  lemma EntryLeTotal(x: Entry, y: Entry)
    ensures EntryLe(x, y) || EntryLe(y, x)
  {
    StrLeTotal(x.node, y.node);
    PathLeTotal(x.path, y.path);
  }

  lemma EntryLeTransitive(x: Entry, y: Entry, z: Entry)
    requires EntryLe(x, y) && EntryLe(y, z)
    ensures EntryLe(x, z)
  {
    if x.key == y.key == z.key {
      if x.node == y.node == z.node {
        PathLeTransitive(x.path, y.path, z.path);
      } else if x.node != y.node && y.node != z.node {
        StrLtTransitive(x.node, y.node, z.node);
      }
    }
  }

  /** Index of a least entry of the queue: the entry `heappop` returns. */
  method PopMin(q: seq<Entry>) returns (k: nat)
    requires |q| > 0
    ensures k < |q|
    ensures forall j :: 0 <= j < |q| ==> EntryLe(q[k], q[j])
  {
    k := 0;
    PathLeReflexive(q[0].path);
    var i := 1;
    while i < |q|
      invariant k < i <= |q|
      invariant forall j :: 0 <= j < i ==> EntryLe(q[k], q[j])
    {
      if !EntryLe(q[k], q[i]) {
        EntryLeTotal(q[k], q[i]);
        forall j | 0 <= j < i ensures EntryLe(q[i], q[j]) {
          EntryLeTransitive(q[i], q[k], q[j]);
        }
        k := i;
        PathLeReflexive(q[i].path);
      }
      i := i + 1;
    }
  }

  /** The key a path accumulates: for every step, the travel cost of the edge
      plus the heuristic of the warehouse it reaches. The start costs 0. */
  function PathCost(g: Graph, p: seq<string>, b: Bundle, daysUntil: string -> int): int
    requires IsPath(g, p)
    decreases |p|
  {
    if |p| == 1 then 0
    else
      var init := p[..|p| - 1];
      assert IsPath(g, init);
      PathCost(g, init, b, daysUntil) + g[Last(init)].adjacent[Last(p)] + Heuristic(g[Last(p)].stock, b, daysUntil)
  }

  lemma ExtendPath(g: Graph, p: seq<string>, n: string, b: Bundle, daysUntil: string -> int)
    requires IsPath(g, p) && n in g && n in g[Last(p)].adjacent
    ensures IsPath(g, p + [n]) && (p + [n])[0] == p[0]
    ensures PathCost(g, p + [n], b, daysUntil)
            == PathCost(g, p, b, daysUntil) + g[Last(p)].adjacent[n] + Heuristic(g[n].stock, b, daysUntil)
  {
    assert (p + [n])[..|p|] == p;
  }

  /** A queue entry stands for the path `path + [node]` from the start, and its
      key is that path's cost. */
  predicate ValidEntry(g: Graph, start: string, b: Bundle, daysUntil: string -> int, e: Entry) {
    && IsPath(g, e.path + [e.node])
    && (e.path + [e.node])[0] == start
    && e.key == PathCost(g, e.path + [e.node], b, daysUntil)
  }

  function Nodes(q: seq<Entry>): set<string> {
    set e | e in q :: e.node
  }

  /** Whether the variant ever applies the fulfilment test to `w`. */
  predicate Tested(variant: Variant, start: string, w: string) {
    !(variant == StartExcluded && w == start)
  }

  /** The queue without its k-th entry. */
  function RemoveAt(q: seq<Entry>, k: nat): (r: seq<Entry>)
    requires k < |q|
    ensures |r| == |q| - 1
    ensures forall x :: x in r ==> x in q
    ensures forall j :: 0 <= j < |q| && j != k ==> q[j] in r
  {
    assert forall j :: 0 <= j < k ==> q[j] == q[..k][j];
    assert forall j :: k < j < |q| ==> q[j] == q[k + 1..][j - k - 1];
    q[..k] + q[k + 1..]
  }

  /** Push a fresh entry for every unvisited neighbour of `current`, even one
      already queued under another key: the cheaper of the two pops first. */
  method Push(g: Graph, current: string, key: int, path: seq<string>, visited: set<string>,
              b: Bundle, daysUntil: string -> int, q: seq<Entry>) returns (q': seq<Entry>)
    requires current in g && Closed(g)
    ensures forall x :: x in q ==> x in q'
    ensures forall x :: x in q' && x !in q ==>
              && x.node in g[current].adjacent
              && x.node !in visited
              && x.path == path
              && x.key == key + g[current].adjacent[x.node] + Heuristic(g[x.node].stock, b, daysUntil)
    ensures forall n :: n in g[current].adjacent && n !in visited ==>
              Entry(key + g[current].adjacent[n] + Heuristic(g[n].stock, b, daysUntil), n, path) in q'
    ensures forall n :: n in g[current].adjacent && n !in visited ==> n in Nodes(q')
  {
    q' := q;
    var todo := g[current].adjacent.Keys;
    while todo != {}
      invariant todo <= g[current].adjacent.Keys
      invariant forall x :: x in q ==> x in q'
      invariant forall x :: x in q' && x !in q ==>
                  && x.node in g[current].adjacent
                  && x.node !in visited
                  && x.path == path
                  && x.key == key + g[current].adjacent[x.node] + Heuristic(g[x.node].stock, b, daysUntil)
      invariant forall n :: n in g[current].adjacent && n !in visited && n !in todo ==>
                  Entry(key + g[current].adjacent[n] + Heuristic(g[n].stock, b, daysUntil), n, path) in q'
      invariant forall n :: n in g[current].adjacent && n !in visited && n !in todo ==> n in Nodes(q')
      decreases todo
    {
      var n :| n in todo;
      todo := todo - {n};
      if n !in visited {
        var e := Entry(key + g[current].adjacent[n] + Heuristic(g[n].stock, b, daysUntil), n, path);
        q' := q' + [e];
        assert e in q';
      }
    }
  }

  /** What a returned result promises: a walk along edges from the start to a
      warehouse the variant tests and that passes the fulfilment test, costed
      as its key; a start that passes in the dispatch variant wins at cost 0. */
  predicate Sound(g: Graph, start: string, b: Bundle, daysUntil: string -> int, variant: Variant, f: Found) {
    && IsPath(g, f.path)
    && f.path[0] == start
    && Fulfils(g[Last(f.path)].stock, b)
    && f.cost == PathCost(g, f.path, b, daysUntil)
    && Tested(variant, start, Last(f.path))
    && (variant == StartExcluded ==> |f.path| >= 2)
    && (variant == StartIncluded && Fulfils(g[start].stock, b) ==> f == Found(0, [start]))
  }

  /** What "no result" promises: no warehouse reachable from the start that
      the variant tests passes the fulfilment test. */
  ghost predicate Exhausted(g: Graph, start: string, b: Bundle, variant: Variant) {
    forall p :: IsPath(g, p) && p[0] == start && Tested(variant, start, Last(p)) ==>
      !Fulfils(g[Last(p)].stock, b)
  }

  /** The loop invariant of the search. */
  ghost predicate SearchInv(g: Graph, start: string, b: Bundle, daysUntil: string -> int, variant: Variant,
                            q: seq<Entry>, visited: set<string>, expanded: seq<string>) {
    && visited <= g.Keys
    && (forall e :: e in q ==> ValidEntry(g, start, b, daysUntil, e))
    && (forall v :: v in visited && Tested(variant, start, v) ==> !Fulfils(g[v].stock, b))
    && (forall v, n :: v in visited && n in g[v].adjacent ==> n in visited || n in Nodes(q))
    && (visited == {} ==> q == [Entry(0, start, [])])
    && (visited != {} ==> start in visited)
    && (variant == StartExcluded && start in visited ==> start !in Nodes(q))
    && NoDuplicates(expanded)
    && (forall i :: 0 <= i < |expanded| ==> expanded[i] in visited)
  }

  /** The search, in either variant. `expanded` lists the warehouses whose
      neighbours were pushed, in order: each at most once. */
  method FindBest(g: Graph, start: string, b: Bundle, daysUntil: string -> int, variant: Variant)
    returns (r: Option<Found>, ghost expanded: seq<string>)
    requires start in g && Closed(g)
    ensures r.Some? ==> Sound(g, start, b, daysUntil, variant, r.value)
    ensures r.None? ==> Exhausted(g, start, b, variant)
    ensures NoDuplicates(expanded)
    ensures forall i :: 0 <= i < |expanded| ==> expanded[i] in g
  {
    var q := [Entry(0, start, [])];
    var visited: set<string> := {};
    expanded := [];
    assert ValidEntry(g, start, b, daysUntil, Entry(0, start, []));
    while |q| > 0
      invariant SearchInv(g, start, b, daysUntil, variant, q, visited, expanded)
      decreases |g.Keys - visited|, |q|
    {
      var k := PopMin(q);
      var e := q[k];
      var rest := RemoveAt(q, k);
      if variant == StartExcluded && e.node == start {
        // The start's first pop: marked visited and expanded, never tested;
        // being visited now, the entry is then skipped.
        StartUnvisited(g, start, b, daysUntil, variant, q, visited, expanded, k);
        UnvisitedShrinks(g, start, b, daysUntil, variant, q, visited, expanded, k);
        var q' := Push(g, start, e.key, e.path + [start], visited + {start}, b, daysUntil, rest);
        ExpandStep(g, start, b, daysUntil, variant, q, visited, expanded, k, q');
        q := q';
        visited := visited + {start};
        expanded := expanded + [start];
      } else if e.node in visited {
        SkipStep(g, start, b, daysUntil, variant, q, visited, expanded, k);
        q := rest;
      } else {
        UnvisitedShrinks(g, start, b, daysUntil, variant, q, visited, expanded, k);
        if Fulfils(g[e.node].stock, b) {
          FoundStep(g, start, b, daysUntil, variant, q, visited, expanded, k);
          r := Some(Found(e.key, e.path + [e.node]));
          return;
        }
        var q' := Push(g, e.node, e.key, e.path + [e.node], visited + {e.node}, b, daysUntil, rest);
        ExpandStep(g, start, b, daysUntil, variant, q, visited, expanded, k, q');
        q := q';
        visited := visited + {e.node};
        expanded := expanded + [e.node];
      }
    }
    r := None;
    ExhaustedStep(g, start, b, daysUntil, variant, visited, expanded);
  }

  /** In the replenishment variant a popped start entry is its first pop. */
  lemma StartUnvisited(g: Graph, start: string, b: Bundle, daysUntil: string -> int, variant: Variant,
                       q: seq<Entry>, visited: set<string>, expanded: seq<string>, k: nat)
    requires SearchInv(g, start, b, daysUntil, variant, q, visited, expanded)
    requires k < |q| && variant == StartExcluded && q[k].node == start
    ensures start !in visited
  {
    assert q[k].node in Nodes(q);
  }

  /** Marking a popped, unvisited warehouse visited shrinks the unvisited set. */
  lemma UnvisitedShrinks(g: Graph, start: string, b: Bundle, daysUntil: string -> int, variant: Variant,
                         q: seq<Entry>, visited: set<string>, expanded: seq<string>, k: nat)
    requires SearchInv(g, start, b, daysUntil, variant, q, visited, expanded)
    requires k < |q| && q[k].node !in visited
    ensures q[k].node in g
    ensures |g.Keys - (visited + {q[k].node})| < |g.Keys - visited|
  {
    var e := q[k];
    assert ValidEntry(g, start, b, daysUntil, e);
    assert (e.path + [e.node])[|e.path|] == e.node;
    assert g.Keys - visited == (g.Keys - (visited + {e.node})) + {e.node};
  }

  /** Popping an already visited warehouse keeps the invariant. */
  lemma SkipStep(g: Graph, start: string, b: Bundle, daysUntil: string -> int, variant: Variant,
                 q: seq<Entry>, visited: set<string>, expanded: seq<string>, k: nat)
    requires SearchInv(g, start, b, daysUntil, variant, q, visited, expanded)
    requires k < |q| && q[k].node in visited
    ensures SearchInv(g, start, b, daysUntil, variant, RemoveAt(q, k), visited, expanded)
  {
    var rest := RemoveAt(q, k);
    forall v, n | v in visited && n in g[v].adjacent ensures n in visited || n in Nodes(rest) {
      if n !in visited {
        var x :| x in q && x.node == n;
        if x != q[k] {
          var j :| 0 <= j < |q| && q[j] == x;
          assert x in rest;
        }
      }
    }
  }

  /** Testing a warehouse that passes yields a sound result. */
  lemma FoundStep(g: Graph, start: string, b: Bundle, daysUntil: string -> int, variant: Variant,
                  q: seq<Entry>, visited: set<string>, expanded: seq<string>, k: nat)
    requires SearchInv(g, start, b, daysUntil, variant, q, visited, expanded)
    requires k < |q| && q[k].node !in visited && Tested(variant, start, q[k].node)
    requires q[k].node in g && Fulfils(g[q[k].node].stock, b)
    ensures Sound(g, start, b, daysUntil, variant, Found(q[k].key, q[k].path + [q[k].node]))
  {
    var e := q[k];
    assert ValidEntry(g, start, b, daysUntil, e);
    var walk := e.path + [e.node];
    assert Last(walk) == e.node;
    if variant == StartIncluded && Fulfils(g[start].stock, b) {
      assert start !in visited;
      assert q == [Entry(0, start, [])];
    }
  }

  /** Expanding a popped, unvisited warehouse that is not a result keeps the
      invariant. */
  lemma ExpandStep(g: Graph, start: string, b: Bundle, daysUntil: string -> int, variant: Variant,
                   q: seq<Entry>, visited: set<string>, expanded: seq<string>, k: nat, q': seq<Entry>)
    requires Closed(g)
    requires SearchInv(g, start, b, daysUntil, variant, q, visited, expanded)
    requires k < |q| && q[k].node !in visited && q[k].node in g
    requires Tested(variant, start, q[k].node) ==> !Fulfils(g[q[k].node].stock, b)
    requires forall x :: x in RemoveAt(q, k) ==> x in q'
    requires forall x :: x in q' && x !in RemoveAt(q, k) ==>
               && x.node in g[q[k].node].adjacent
               && x.node !in visited + {q[k].node}
               && x.path == q[k].path + [q[k].node]
               && x.key == q[k].key + g[q[k].node].adjacent[x.node] + Heuristic(g[x.node].stock, b, daysUntil)
    requires forall n :: n in g[q[k].node].adjacent && n !in visited + {q[k].node} ==> n in Nodes(q')
    ensures SearchInv(g, start, b, daysUntil, variant, q', visited + {q[k].node}, expanded + [q[k].node])
  {
    var e := q[k];
    var rest := RemoveAt(q, k);
    var visited' := visited + {e.node};
    assert ValidEntry(g, start, b, daysUntil, e);
    var walk := e.path + [e.node];
    assert Last(walk) == e.node;
    PushedValid(g, start, b, daysUntil, walk, e.key, rest, q');
    forall v, n | v in visited' && n in g[v].adjacent ensures n in visited' || n in Nodes(q') {
      if v != e.node && n !in visited' {
        assert n in Nodes(q);
        var x :| x in q && x.node == n;
        var j :| 0 <= j < |q| && q[j] == x;
        assert j != k;
        assert x in rest;
        assert x in q';
      }
    }
    if variant == StartExcluded {
      if visited == {} {
        assert q == [Entry(0, start, [])];
        assert rest == [];
      } else {
        forall x | x in q' ensures x.node != start {
          if x in rest {
            assert x.node in Nodes(q);
          }
        }
      }
    }
  }

  /** With an empty queue the visited set is closed under edges, so it holds
      every warehouse reachable from the start, and none of them passed. */
  lemma ExhaustedStep(g: Graph, start: string, b: Bundle, daysUntil: string -> int, variant: Variant,
                      visited: set<string>, expanded: seq<string>)
    requires SearchInv(g, start, b, daysUntil, variant, [], visited, expanded)
    ensures Exhausted(g, start, b, variant)
  {
    forall p | IsPath(g, p) && p[0] == start && Tested(variant, start, Last(p))
      ensures !Fulfils(g[Last(p)].stock, b)
    {
      ReachableWithin(g, visited, p);
    }
  }

  /** Entries pushed from a valid walk are valid. */
  lemma PushedValid(g: Graph, start: string, b: Bundle, daysUntil: string -> int,
                    walk: seq<string>, key: int, rest: seq<Entry>, q: seq<Entry>)
    requires Closed(g) && IsPath(g, walk) && walk[0] == start
    requires key == PathCost(g, walk, b, daysUntil)
    requires forall e :: e in rest ==> ValidEntry(g, start, b, daysUntil, e)
    requires forall x :: x in q && x !in rest ==>
               && x.node in g[Last(walk)].adjacent
               && x.path == walk
               && x.key == key + g[Last(walk)].adjacent[x.node] + Heuristic(g[x.node].stock, b, daysUntil)
    ensures forall e :: e in q ==> ValidEntry(g, start, b, daysUntil, e)
  {
    forall x | x in q && x !in rest ensures ValidEntry(g, start, b, daysUntil, x) {
      ExtendPath(g, walk, x.node, b, daysUntil);
    }
  }

  /** The replenishment variant: the start is never a candidate source. A found
      path leaves the start, follows edges, and ends at a different warehouse
      that passes the fulfilment test; its cost is the key it was popped with.
      No result means no warehouse other than the start reachable from it
      passes the test. */
  method FindBestOptimization(g: Graph, start: string, b: Bundle, daysUntil: string -> int)
    returns (r: Option<Found>)
    requires start in g && Closed(g)
    ensures r.Some? ==> IsPath(g, r.value.path) && r.value.path[0] == start && |r.value.path| >= 2
    ensures r.Some? ==> Last(r.value.path) != start && Fulfils(g[Last(r.value.path)].stock, b)
    ensures r.Some? ==> r.value.cost == PathCost(g, r.value.path, b, daysUntil)
    ensures r.None? ==> forall p :: IsPath(g, p) && p[0] == start && Last(p) != start ==>
              !Fulfils(g[Last(p)].stock, b)
  {
    ghost var expanded;
    r, expanded := FindBest(g, start, b, daysUntil, StartExcluded);
  }

  /** The dispatch variant: the start is tested first, so a start that passes
      (in particular for an empty bundle) gives cost 0 and the path [start].
      A found path follows edges from the start to a warehouse that passes the
      test; no result means no warehouse reachable from the start passes it. */
  method FindBestDispatch(g: Graph, start: string, b: Bundle, daysUntil: string -> int)
    returns (r: Option<Found>)
    requires start in g && Closed(g)
    ensures Fulfils(g[start].stock, b) ==> r == Some(Found(0, [start]))
    ensures r.Some? ==> IsPath(g, r.value.path) && r.value.path[0] == start
    ensures r.Some? ==> Fulfils(g[Last(r.value.path)].stock, b)
    ensures r.Some? ==> r.value.cost == PathCost(g, r.value.path, b, daysUntil)
    ensures r.None? ==> forall p :: IsPath(g, p) && p[0] == start ==> !Fulfils(g[Last(p)].stock, b)
  {
    ghost var expanded;
    r, expanded := FindBest(g, start, b, daysUntil, StartIncluded);
    if r.None? {
      assert IsPath(g, [start]) && Last([start]) == start;
    }
  }
}
