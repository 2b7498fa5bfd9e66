/** The record-level part of loading and saving: the fold that builds the
    warehouse dictionary from stock rows and connection rows, and the flatten
    step that turns it back into stock rows. File handling and the parsing of
    integer columns are outside the model: rows arrive already typed. */
module Records {
  import opened Ledger
  import opened Graphs

  datatype StockRow = StockRow(warehouse: string, item: string, quantity: int, minAmount: int, expiry: string)

  datatype ConnectionRow = ConnectionRow(warehouse: string, neighbor: string, cost: int)

  /** The warehouse dictionary: its keys in insertion order, and the map itself. */
  datatype Network = Network(order: seq<string>, warehouses: Graph)

  /** Every warehouse is stored under its own code. */
  predicate Coded(g: Graph) {
    forall w :: w in g ==> g[w].code == w
  }

  /** The order lists each key of the map exactly once. */
  ghost predicate WellFormed(net: Network) {
    && NoDuplicates(net.order)
    && (forall w :: w in net.warehouses <==> w in net.order)
    && Coded(net.warehouses)
  }

  function Init<T>(s: seq<T>): seq<T>
    requires |s| > 0
  {
    s[..|s| - 1]
  }

  /** A loaded row becomes a record keeping its expiry text as it is. */
  function ToRecord(row: StockRow): StockRecord {
    StockRecord(row.item, row.quantity, row.minAmount, Some(row.expiry))
  }

  // ---------------------------------------------------------------------------
  // Reference definitions over the rows

  /** The rows of warehouse `w`, in row order. */
  function Filter(rows: seq<StockRow>, w: string): seq<StockRow>
    decreases |rows|
  {
    if |rows| == 0 then []
    else Filter(Init(rows), w) + (if rows[|rows| - 1].warehouse == w then [rows[|rows| - 1]] else [])
  }

  function RecordsOf(rows: seq<StockRow>): seq<StockRecord>
    decreases |rows|
  {
    if |rows| == 0 then [] else RecordsOf(Init(rows)) + [ToRecord(rows[|rows| - 1])]
  }

  /** The rows of each listed warehouse in turn: a stable grouping. */
  function GroupBy(ws: seq<string>, rows: seq<StockRow>): seq<StockRow>
    decreases |ws|
  {
    if |ws| == 0 then [] else GroupBy(Init(ws), rows) + Filter(rows, ws[|ws| - 1])
  }

  /** Rows of one warehouse are contiguous. */
  predicate Grouped(rows: seq<StockRow>) {
    forall i, j, k :: 0 <= i < j < k < |rows| && rows[i].warehouse == rows[k].warehouse ==>
      rows[j].warehouse == rows[i].warehouse
  }

  predicate InStockRows(rows: seq<StockRow>, w: string) {
    exists i :: 0 <= i < |rows| && rows[i].warehouse == w
  }

  predicate InConnections(rows: seq<ConnectionRow>, w: string) {
    exists i :: 0 <= i < |rows| && (rows[i].warehouse == w || rows[i].neighbor == w)
  }

  /** The cost on the last connection row from `w` to `n`, if there is one. */
  function LastCost(rows: seq<ConnectionRow>, w: string, n: string): Option<int>
    decreases |rows|
  {
    if |rows| == 0 then None
    else if rows[|rows| - 1].warehouse == w && rows[|rows| - 1].neighbor == n then Some(rows[|rows| - 1].cost)
    else LastCost(Init(rows), w, n)
  }

  // ---------------------------------------------------------------------------
  // Insertion order of the dictionary

  /** A code enters the order the first time it is mentioned. */
  function Mention(order: seq<string>, code: string): (r: seq<string>)
    ensures forall x :: x in r <==> x in order || x == code
    ensures NoDuplicates(order) ==> NoDuplicates(r)
    ensures |r| >= |order| && r[..|order|] == order
  {
    if code in order then order else order + [code]
  }

  /** The position of the first occurrence of `x`. */
  function FirstAt<T(==)>(s: seq<T>, x: T): (i: nat)
    requires x in s
    ensures i < |s| && s[i] == x
    ensures forall j :: 0 <= j < i ==> s[j] != x
  {
    if s[0] == x then 0 else FirstAt(s[1..], x) + 1
  }

  lemma FirstAtPrefix<T>(s: seq<T>, t: seq<T>, x: T)
    requires x in s
    ensures FirstAt(s + t, x) == FirstAt(s, x)
  {
    assert (s + t)[FirstAt(s, x)] == x;
  }

  lemma FirstAtNew<T>(s: seq<T>, x: T)
    requires x !in s
    ensures FirstAt(s + [x], x) == |s|
  {
  }

  /** Every code a row mentions, in row order: the stock rows' warehouses,
      then each connection row's warehouse followed by its neighbour. This is
      the order in which loading looks the codes up in the dictionary. */
  function StockNames(rows: seq<StockRow>): seq<string>
    decreases |rows|
  {
    if |rows| == 0 then [] else StockNames(Init(rows)) + [rows[|rows| - 1].warehouse]
  }

  function ConnectionNames(rows: seq<ConnectionRow>): seq<string>
    decreases |rows|
  {
    if |rows| == 0 then []
    else ConnectionNames(Init(rows)) + [rows[|rows| - 1].warehouse, rows[|rows| - 1].neighbor]
  }

  function Mentions(stockRows: seq<StockRow>, connectionRows: seq<ConnectionRow>): seq<string> {
    StockNames(stockRows) + ConnectionNames(connectionRows)
  }

  /** `order` lists each mentioned code once, ordered by first mention. */
  ghost predicate InFirstMentionOrder(order: seq<string>, names: seq<string>) {
    && NoDuplicates(order)
    && (forall x :: x in order <==> x in names)
    && (forall i, j :: 0 <= i < j < |order| ==>
          order[i] in names && order[j] in names && FirstAt(names, order[i]) < FirstAt(names, order[j]))
  }

  /** Looking up one more code keeps the keys in first-mention order. */
  lemma MentionInOrder(order: seq<string>, names: seq<string>, x: string)
    requires InFirstMentionOrder(order, names)
    ensures InFirstMentionOrder(Mention(order, x), names + [x])
  {
    var r := Mention(order, x);
    forall y | y in names ensures FirstAt(names + [x], y) == FirstAt(names, y) {
      FirstAtPrefix(names, [x], y);
    }
    if x !in names {
      assert x !in order;
      assert r == order + [x];
      FirstAtNew(names, x);
      forall i, j | 0 <= i < j < |r|
        ensures r[i] in names + [x] && r[j] in names + [x] && FirstAt(names + [x], r[i]) < FirstAt(names + [x], r[j])
      {
        assert r[i] == order[i] && order[i] in order;
        if j < |order| {
          assert r[j] == order[j];
        }
      }
    }
  }

  lemma {:induction false} FirstsInOrder(rows: seq<StockRow>)
    ensures InFirstMentionOrder(Firsts(rows), StockNames(rows))
    decreases |rows|
  {
    if |rows| > 0 {
      FirstsInOrder(Init(rows));
      MentionInOrder(Firsts(Init(rows)), StockNames(Init(rows)), rows[|rows| - 1].warehouse);
    }
  }

  lemma {:induction false} ConnectionOrderInOrder(order: seq<string>, names: seq<string>, rows: seq<ConnectionRow>)
    requires InFirstMentionOrder(order, names)
    ensures InFirstMentionOrder(ConnectionOrder(order, rows), names + ConnectionNames(rows))
    decreases |rows|
  {
    if |rows| == 0 {
      assert names + ConnectionNames(rows) == names;
    } else {
      ConnectionOrderInOrder(order, names, Init(rows));
      ConnectionStep(order, names, rows);
    }
  }

  /** One more connection row keeps the keys in first-mention order. */
  lemma ConnectionStep(order: seq<string>, names: seq<string>, rows: seq<ConnectionRow>)
    requires |rows| > 0
    requires InFirstMentionOrder(ConnectionOrder(order, Init(rows)), names + ConnectionNames(Init(rows)))
    ensures InFirstMentionOrder(ConnectionOrder(order, rows), names + ConnectionNames(rows))
  {
    var last := rows[|rows| - 1];
    var before := names + ConnectionNames(Init(rows));
    MentionPairInOrder(ConnectionOrder(order, Init(rows)), before, last.warehouse, last.neighbor);
    ConnectionNamesSnoc(names, rows);
    InOrderCongruence(Mention(Mention(ConnectionOrder(order, Init(rows)), last.warehouse), last.neighbor),
                      before + [last.warehouse, last.neighbor],
                      ConnectionOrder(order, rows), names + ConnectionNames(rows));
  }

  lemma ConnectionNamesSnoc(names: seq<string>, rows: seq<ConnectionRow>)
    requires |rows| > 0
    ensures names + ConnectionNames(rows)
            == names + ConnectionNames(Init(rows)) + [rows[|rows| - 1].warehouse, rows[|rows| - 1].neighbor]
  {
  }

  /** A connection row looks up its warehouse, then its neighbour. */
  lemma MentionPairInOrder(order: seq<string>, names: seq<string>, w: string, n: string)
    requires InFirstMentionOrder(order, names)
    ensures InFirstMentionOrder(Mention(Mention(order, w), n), names + [w, n])
  {
    MentionInOrder(order, names, w);
    MentionInOrder(Mention(order, w), names + [w], n);
    assert names + [w] + [n] == names + [w, n];
  }

  lemma InOrderCongruence(o1: seq<string>, n1: seq<string>, o2: seq<string>, n2: seq<string>)
    requires InFirstMentionOrder(o1, n1) && o1 == o2 && n1 == n2
    ensures InFirstMentionOrder(o2, n2)
  {
  }

  /** The warehouse codes of the stock rows in order of first appearance. */
  function Firsts(rows: seq<StockRow>): seq<string>
    decreases |rows|
  {
    if |rows| == 0 then [] else Mention(Firsts(Init(rows)), rows[|rows| - 1].warehouse)
  }

  /** The order after the connection rows: each row mentions its warehouse,
      then its neighbour. */
  function ConnectionOrder(order: seq<string>, rows: seq<ConnectionRow>): seq<string>
    decreases |rows|
  {
    if |rows| == 0 then order
    else Mention(Mention(ConnectionOrder(order, Init(rows)), rows[|rows| - 1].warehouse), rows[|rows| - 1].neighbor)
  }

  // ---------------------------------------------------------------------------
  // Building the graph

  /** A warehouse's ledger, empty for a code the graph does not hold. */
  function LedgerOf(g: Graph, w: string): seq<StockRecord> {
    if w in g then g[w].stock else []
  }

  /** A warehouse's outgoing edges, none for a code the graph does not hold. */
  function EdgesOf(g: Graph, w: string): map<string, int> {
    if w in g then g[w].adjacent else map[]
  }

  /** The warehouse stored under `code`, or a new empty one. */
  function Slot(g: Graph, code: string): (w: Warehouse)
    ensures w.stock == LedgerOf(g, code) && w.adjacent == EdgesOf(g, code)
    ensures code !in g ==> w.code == code
    ensures code in g ==> w == g[code]
  {
    if code in g then g[code] else Warehouse(code, map[], [])
  }

  /** One stock row: create its warehouse on first sight, then append the
      row's record to that warehouse's ledger. */
  function AddRow(g: Graph, row: StockRow): (r: Graph)
    ensures r.Keys == g.Keys + {row.warehouse}
    ensures forall w :: LedgerOf(r, w) ==
              if w == row.warehouse then LedgerOf(g, w) + [ToRecord(row)] else LedgerOf(g, w)
    ensures forall w :: EdgesOf(r, w) == EdgesOf(g, w)
    ensures Coded(g) ==> Coded(r)
  {
    g[row.warehouse := Slot(g, row.warehouse).AddStock(ToRecord(row))]
  }

  /** One connection row: create the warehouse, then the neighbour, on first
      sight, then set the edge's cost, replacing any earlier cost. */
  function Connect(g: Graph, row: ConnectionRow): (r: Graph)
    ensures r.Keys == g.Keys + {row.warehouse, row.neighbor}
    ensures forall w :: LedgerOf(r, w) == LedgerOf(g, w)
    ensures forall w :: EdgesOf(r, w) ==
              if w == row.warehouse then EdgesOf(g, w)[row.neighbor := row.cost] else EdgesOf(g, w)
    ensures Coded(g) ==> Coded(r)
  {
    var t := g[row.warehouse := Slot(g, row.warehouse)];
    var t := t[row.neighbor := Slot(t, row.neighbor)];
    t[row.warehouse := t[row.warehouse].AddConnection(row.neighbor, row.cost)]
  }

  /** The stock pass, row by row: the warehouses are those of the rows, each
      under its own code, and none has edges yet. */
  function StockGraph(rows: seq<StockRow>): (g: Graph)
    ensures forall w :: w in g <==> w in Firsts(rows)
    ensures forall w :: EdgesOf(g, w) == map[]
    ensures Coded(g)
    decreases |rows|
  {
    if |rows| == 0 then map[] else AddRow(StockGraph(Init(rows)), rows[|rows| - 1])
  }

  /** The connection pass, row by row: it adds exactly the endpoints of the
      rows, leaves every ledger as it was, and applies the rows to each
      warehouse's edges. */
  function ConnectionGraph(g: Graph, rows: seq<ConnectionRow>): (r: Graph)
    ensures r.Keys == g.Keys + RowEndpoints(rows)
    ensures forall w :: LedgerOf(r, w) == LedgerOf(g, w)
    ensures forall w :: EdgesOf(r, w) == Edges(rows, w, EdgesOf(g, w))
    ensures Coded(g) ==> Coded(r)
    decreases |rows|
  {
    if |rows| == 0 then g else Connect(ConnectionGraph(g, Init(rows)), rows[|rows| - 1])
  }

  /** Every warehouse named at either end of a connection row. */
  function RowEndpoints(rows: seq<ConnectionRow>): set<string>
    decreases |rows|
  {
    if |rows| == 0 then {}
    else RowEndpoints(Init(rows)) + {rows[|rows| - 1].warehouse, rows[|rows| - 1].neighbor}
  }

  /** The edges out of `w` when the rows are applied in turn to `base`. */
  function Edges(rows: seq<ConnectionRow>, w: string, base: map<string, int>): map<string, int>
    decreases |rows|
  {
    if |rows| == 0 then base
    else
      var e := Edges(Init(rows), w, base);
      if rows[|rows| - 1].warehouse == w then e[rows[|rows| - 1].neighbor := rows[|rows| - 1].cost] else e
  }

  lemma RecordsAppend(rows: seq<StockRow>, row: StockRow)
    ensures RecordsOf(rows + [row]) == RecordsOf(rows) + [ToRecord(row)]
  {
    assert Init(rows + [row]) == rows;
  }

  /** After the stock pass each warehouse holds the records of its own rows
      in row order. */
  lemma {:induction false} StockGraphBuilds(rows: seq<StockRow>)
    ensures forall w :: LedgerOf(StockGraph(rows), w) == RecordsOf(Filter(rows, w))
    decreases |rows|
  {
    if |rows| > 0 {
      var row := rows[|rows| - 1];
      var prev := StockGraph(Init(rows));
      assert StockGraph(rows) == AddRow(prev, row);
      StockGraphBuilds(Init(rows));
      forall w ensures LedgerOf(StockGraph(rows), w) == RecordsOf(Filter(rows, w)) {
        assert LedgerOf(prev, w) == RecordsOf(Filter(Init(rows), w));
        if w == row.warehouse {
          assert Filter(rows, w) == Filter(Init(rows), w) + [row];
          RecordsAppend(Filter(Init(rows), w), row);
          assert LedgerOf(StockGraph(rows), w) == LedgerOf(prev, w) + [ToRecord(row)];
        } else {
          assert Filter(rows, w) == Filter(Init(rows), w);
          assert LedgerOf(StockGraph(rows), w) == LedgerOf(prev, w);
        }
      }
    }
  }

  /** The connection order adds exactly the endpoints, after the codes
      already present and without repeating any. */
  lemma {:induction false} ConnectionOrderBuilds(order: seq<string>, rows: seq<ConnectionRow>)
    ensures forall x :: x in ConnectionOrder(order, rows) <==> x in order || x in RowEndpoints(rows)
    ensures NoDuplicates(order) ==> NoDuplicates(ConnectionOrder(order, rows))
    ensures |ConnectionOrder(order, rows)| >= |order| && ConnectionOrder(order, rows)[..|order|] == order
    decreases |rows|
  {
    if |rows| > 0 {
      ConnectionOrderBuilds(order, Init(rows));
      var o := ConnectionOrder(order, Init(rows));
      var o1 := Mention(o, rows[|rows| - 1].warehouse);
      var o2 := Mention(o1, rows[|rows| - 1].neighbor);
      assert o2[..|order|] == o1[..|o|][..|order|];
    }
  }

  /** Starting from no edges, the rows leave an edge from `w` to `n` exactly
      when some row names it, with the cost of the last such row. */
  lemma {:induction false} EdgesLastCost(rows: seq<ConnectionRow>, w: string, n: string)
    ensures n in Edges(rows, w, map[]) <==> LastCost(rows, w, n).Some?
    ensures n in Edges(rows, w, map[]) ==> Edges(rows, w, map[])[n] == LastCost(rows, w, n).value
    decreases |rows|
  {
    if |rows| > 0 {
      EdgesLastCost(Init(rows), w, n);
    }
  }

  lemma {:induction false} EndpointsNamed(rows: seq<ConnectionRow>, w: string)
    ensures w in RowEndpoints(rows) <==> InConnections(rows, w)
    decreases |rows|
  {
    if |rows| > 0 {
      EndpointsNamed(Init(rows), w);
      if InConnections(rows, w) {
        var i :| 0 <= i < |rows| && (rows[i].warehouse == w || rows[i].neighbor == w);
        if i < |rows| - 1 {
          assert Init(rows)[i] == rows[i];
        }
      }
      if InConnections(Init(rows), w) {
        var i :| 0 <= i < |Init(rows)| && (Init(rows)[i].warehouse == w || Init(rows)[i].neighbor == w);
        assert rows[i] == Init(rows)[i];
      }
    }
  }

  /** Loading: the stock pass, then the connection pass, with the dictionary's
      keys in the order the two passes first mention them. */
  function Load(stockRows: seq<StockRow>, connectionRows: seq<ConnectionRow>): (net: Network)
    ensures WellFormed(net)
    ensures InFirstMentionOrder(net.order, Mentions(stockRows, connectionRows))
  {
    var net := Network(ConnectionOrder(Firsts(stockRows), connectionRows),
                       ConnectionGraph(StockGraph(stockRows), connectionRows));
    FirstsMembers(stockRows);
    ConnectionOrderBuilds(Firsts(stockRows), connectionRows);
    FirstsInOrder(stockRows);
    ConnectionOrderInOrder(Firsts(stockRows), StockNames(stockRows), connectionRows);
    net
  }

  /** What loading builds: the keys are every warehouse named by a row of
      either kind, and every edge ends at one of them; each ledger holds the
      records of that warehouse's stock rows in row order; an edge exists
      exactly when a connection row names it and carries the cost of the last
      such row. */
  lemma LoadBuilds(stockRows: seq<StockRow>, connectionRows: seq<ConnectionRow>)
    ensures Closed(Load(stockRows, connectionRows).warehouses)
    ensures forall w :: w in Load(stockRows, connectionRows).warehouses <==>
              InStockRows(stockRows, w) || InConnections(connectionRows, w)
    ensures forall w :: LedgerOf(Load(stockRows, connectionRows).warehouses, w) == RecordsOf(Filter(stockRows, w))
    ensures forall w, n :: n in EdgesOf(Load(stockRows, connectionRows).warehouses, w) <==>
              LastCost(connectionRows, w, n).Some?
    ensures forall w, n :: n in EdgesOf(Load(stockRows, connectionRows).warehouses, w) ==>
              EdgesOf(Load(stockRows, connectionRows).warehouses, w)[n] == LastCost(connectionRows, w, n).value
  {
    var g := Load(stockRows, connectionRows).warehouses;
    FirstsMembers(stockRows);
    StockGraphBuilds(stockRows);
    forall w ensures w in RowEndpoints(connectionRows) <==> InConnections(connectionRows, w) {
      EndpointsNamed(connectionRows, w);
    }
    forall w, n
      ensures n in EdgesOf(g, w) <==> LastCost(connectionRows, w, n).Some?
      ensures n in EdgesOf(g, w) ==> EdgesOf(g, w)[n] == LastCost(connectionRows, w, n).value
    {
      EdgesLastCost(connectionRows, w, n);
    }
    forall w, n | w in g && n in g[w].adjacent ensures n in g {
      assert n in EdgesOf(g, w);
      EndpointsNamed(connectionRows, n);
      var i :| 0 <= i < |connectionRows| && connectionRows[i].neighbor == n by {
        LastCostNamed(connectionRows, w, n);
      }
    }
  }

  /** A connection row carrying the last cost names the neighbour. */
  lemma {:induction false} LastCostNamed(rows: seq<ConnectionRow>, w: string, n: string)
    requires LastCost(rows, w, n).Some?
    ensures exists i :: 0 <= i < |rows| && rows[i].neighbor == n
    decreases |rows|
  {
    if rows[|rows| - 1].warehouse == w && rows[|rows| - 1].neighbor == n {
    } else {
      LastCostNamed(Init(rows), w, n);
      var i :| 0 <= i < |Init(rows)| && Init(rows)[i].neighbor == n;
      assert rows[i] == Init(rows)[i];
    }
  }

  // ---------------------------------------------------------------------------
  // Flatten

  /** Python treats both a missing date and an empty one as false: both are
      written as empty text. */
  function ExpiryText(e: Option<string>): string {
    match e
    case None => ""
    case Some(s) => s
  }

  /** The rows of one warehouse's ledger, one per record, in ledger order. */
  function RowsOf(code: string, stock: seq<StockRecord>): (rows: seq<StockRow>)
    ensures |rows| == |stock|
    ensures forall i :: 0 <= i < |stock| ==>
              rows[i] == StockRow(code, stock[i].itemCode, stock[i].quantity, stock[i].minAmount, ExpiryText(stock[i].expiry))
    decreases |stock|
  {
    if |stock| == 0 then []
    else
      var r := stock[|stock| - 1];
      RowsOf(code, Init(stock)) + [StockRow(code, r.itemCode, r.quantity, r.minAmount, ExpiryText(r.expiry))]
  }

  function FlattenFrom(ws: seq<string>, g: Graph): seq<StockRow>
    requires forall i :: 0 <= i < |ws| ==> ws[i] in g
    decreases |ws|
  {
    if |ws| == 0 then [] else FlattenFrom(Init(ws), g) + RowsOf(ws[|ws| - 1], g[ws[|ws| - 1]].stock)
  }

  /** Saving: warehouses in insertion order, each ledger in list order. Every
      row names a listed warehouse; with distinct keys, the rows of each
      warehouse are exactly its ledger, one row per record, and a warehouse's
      rows never come after those of a later warehouse. */
  function Flatten(net: Network): (rows: seq<StockRow>)
    requires forall i :: 0 <= i < |net.order| ==> net.order[i] in net.warehouses
    ensures forall k :: 0 <= k < |rows| ==> rows[k].warehouse in net.order
    ensures NoDuplicates(net.order) ==>
              forall i :: 0 <= i < |net.order| ==>
                Filter(rows, net.order[i]) == RowsOf(net.order[i], net.warehouses[net.order[i]].stock)
    ensures NoDuplicates(net.order) ==>
              forall k1, k2 :: 0 <= k1 <= k2 < |rows| ==>
                FirstAt(net.order, rows[k1].warehouse) <= FirstAt(net.order, rows[k2].warehouse)
  {
    FlattenLayout(net.order, net.warehouses);
    FlattenFrom(net.order, net.warehouses)
  }

  lemma {:induction false} FilterAppend(a: seq<StockRow>, b: seq<StockRow>, w: string)
    ensures Filter(a + b, w) == Filter(a, w) + Filter(b, w)
    decreases |b|
  {
    if |b| == 0 {
      assert a + b == a;
    } else {
      assert Init(a + b) == a + Init(b);
      FilterAppend(a, Init(b), w);
    }
  }

  lemma {:induction false} FilterAll(rows: seq<StockRow>, w: string)
    requires forall i :: 0 <= i < |rows| ==> rows[i].warehouse == w
    ensures Filter(rows, w) == rows
    decreases |rows|
  {
    if |rows| > 0 {
      assert forall i :: 0 <= i < |Init(rows)| ==> Init(rows)[i] == rows[i];
      FilterAll(Init(rows), w);
      assert rows == Init(rows) + [rows[|rows| - 1]];
    }
  }

  /** One warehouse's rows, as seen by a filter for any warehouse. */
  lemma FilterOwn(code: string, stock: seq<StockRecord>, w: string)
    ensures Filter(RowsOf(code, stock), w) == if code == w then RowsOf(code, stock) else []
  {
    if code == w {
      FilterAll(RowsOf(code, stock), w);
    } else {
      FilterAbsent(RowsOf(code, stock), w);
    }
  }

  lemma {:induction false} FlattenLayout(ws: seq<string>, g: Graph)
    requires forall i :: 0 <= i < |ws| ==> ws[i] in g
    ensures forall k :: 0 <= k < |FlattenFrom(ws, g)| ==> FlattenFrom(ws, g)[k].warehouse in ws
    ensures NoDuplicates(ws) ==>
              forall i :: 0 <= i < |ws| ==> Filter(FlattenFrom(ws, g), ws[i]) == RowsOf(ws[i], g[ws[i]].stock)
    ensures NoDuplicates(ws) ==>
              forall k1, k2 :: 0 <= k1 <= k2 < |FlattenFrom(ws, g)| ==>
                FirstAt(ws, FlattenFrom(ws, g)[k1].warehouse) <= FirstAt(ws, FlattenFrom(ws, g)[k2].warehouse)
    decreases |ws|
  {
    if |ws| > 0 {
      var front := Init(ws);
      var last := ws[|ws| - 1];
      FlattenLayout(front, g);
      StepMembers(ws, g);
      if NoDuplicates(ws) {
        assert NoDuplicates(front);
        StepFilters(ws, g);
        StepOrder(ws, g);
      }
    }
  }

  lemma InFront(ws: seq<string>, x: string)
    requires |ws| > 0 && x in Init(ws)
    ensures x in ws && (NoDuplicates(ws) ==> x != ws[|ws| - 1])
  {
    var j :| 0 <= j < |Init(ws)| && Init(ws)[j] == x;
    assert ws[j] == x;
  }

  lemma StepMembers(ws: seq<string>, g: Graph)
    requires |ws| > 0 && forall i :: 0 <= i < |ws| ==> ws[i] in g
    requires forall k :: 0 <= k < |FlattenFrom(Init(ws), g)| ==> FlattenFrom(Init(ws), g)[k].warehouse in Init(ws)
    ensures forall k :: 0 <= k < |FlattenFrom(ws, g)| ==> FlattenFrom(ws, g)[k].warehouse in ws
  {
    var p := FlattenFrom(Init(ws), g);
    forall k | 0 <= k < |FlattenFrom(ws, g)|
      ensures FlattenFrom(ws, g)[k].warehouse in ws
    {
      if k < |p| {
        InFront(ws, p[k].warehouse);
      }
    }
  }

  lemma StepFilters(ws: seq<string>, g: Graph)
    requires |ws| > 0 && forall i :: 0 <= i < |ws| ==> ws[i] in g
    requires NoDuplicates(ws)
    requires forall k :: 0 <= k < |FlattenFrom(Init(ws), g)| ==> FlattenFrom(Init(ws), g)[k].warehouse in Init(ws)
    requires forall i :: 0 <= i < |Init(ws)| ==>
               Filter(FlattenFrom(Init(ws), g), Init(ws)[i]) == RowsOf(Init(ws)[i], g[Init(ws)[i]].stock)
    ensures forall i :: 0 <= i < |ws| ==> Filter(FlattenFrom(ws, g), ws[i]) == RowsOf(ws[i], g[ws[i]].stock)
  {
    var p := FlattenFrom(Init(ws), g);
    var last := ws[|ws| - 1];
    forall i | 0 <= i < |ws|
      ensures Filter(FlattenFrom(ws, g), ws[i]) == RowsOf(ws[i], g[ws[i]].stock)
    {
      FilterAppend(p, RowsOf(last, g[last].stock), ws[i]);
      FilterOwn(last, g[last].stock, ws[i]);
      if i < |ws| - 1 {
        assert Init(ws)[i] == ws[i];
      } else {
        forall k | 0 <= k < |p| ensures p[k].warehouse != last {
          InFront(ws, p[k].warehouse);
        }
        FilterAbsent(p, last);
      }
    }
  }

  lemma StepOrder(ws: seq<string>, g: Graph)
    requires |ws| > 0 && forall i :: 0 <= i < |ws| ==> ws[i] in g
    requires NoDuplicates(ws)
    requires forall k :: 0 <= k < |FlattenFrom(Init(ws), g)| ==> FlattenFrom(Init(ws), g)[k].warehouse in Init(ws)
    requires forall k1, k2 :: 0 <= k1 <= k2 < |FlattenFrom(Init(ws), g)| ==>
               FirstAt(Init(ws), FlattenFrom(Init(ws), g)[k1].warehouse)
               <= FirstAt(Init(ws), FlattenFrom(Init(ws), g)[k2].warehouse)
    requires forall k :: 0 <= k < |FlattenFrom(ws, g)| ==> FlattenFrom(ws, g)[k].warehouse in ws
    ensures forall k1, k2 :: 0 <= k1 <= k2 < |FlattenFrom(ws, g)| ==>
              FirstAt(ws, FlattenFrom(ws, g)[k1].warehouse) <= FirstAt(ws, FlattenFrom(ws, g)[k2].warehouse)
  {
    var p := FlattenFrom(Init(ws), g);
    var f := FlattenFrom(ws, g);
    var last := ws[|ws| - 1];
    assert ws == Init(ws) + [last];
    forall k1, k2 | 0 <= k1 <= k2 < |f|
      ensures FirstAt(ws, f[k1].warehouse) <= FirstAt(ws, f[k2].warehouse)
    {
      if k1 < |p| {
        InFront(ws, p[k1].warehouse);
        FirstAtPrefix(Init(ws), [last], p[k1].warehouse);
        if k2 < |p| {
          FirstAtPrefix(Init(ws), [last], p[k2].warehouse);
        } else {
          FirstAtNew(Init(ws), last);
        }
      }
    }
  }

  // ---------------------------------------------------------------------------
  // Round trip

  lemma {:induction false} FirstsMembers(rows: seq<StockRow>)
    ensures forall w :: w in Firsts(rows) <==> InStockRows(rows, w)
    ensures NoDuplicates(Firsts(rows))
    decreases |rows|
  {
    if |rows| > 0 {
      FirstsMembers(Init(rows));
      forall w ensures w in Firsts(rows) <==> InStockRows(rows, w) {
        if InStockRows(rows, w) {
          var i :| 0 <= i < |rows| && rows[i].warehouse == w;
          if i < |rows| - 1 {
            assert Init(rows)[i] == rows[i];
          }
        }
        if InStockRows(Init(rows), w) {
          var i :| 0 <= i < |Init(rows)| && Init(rows)[i].warehouse == w;
          assert rows[i] == Init(rows)[i];
        }
      }
    }
  }

  lemma {:induction false} FilterAbsent(rows: seq<StockRow>, w: string)
    requires !InStockRows(rows, w)
    ensures Filter(rows, w) == []
    decreases |rows|
  {
    if |rows| > 0 {
      assert forall i :: 0 <= i < |Init(rows)| ==> Init(rows)[i] == rows[i];
      FilterAbsent(Init(rows), w);
    }
  }

  lemma {:induction false} RowsOfRecords(w: string, rows: seq<StockRow>)
    requires forall i :: 0 <= i < |rows| ==> rows[i].warehouse == w
    ensures RowsOf(w, RecordsOf(rows)) == rows
    decreases |rows|
  {
    if |rows| > 0 {
      assert forall i :: 0 <= i < |Init(rows)| ==> Init(rows)[i] == rows[i];
      RowsOfRecords(w, Init(rows));
      assert Init(RecordsOf(rows)) == RecordsOf(Init(rows));
      assert rows == Init(rows) + [rows[|rows| - 1]];
    }
  }

  lemma {:induction false} FilterWarehouse(rows: seq<StockRow>, w: string)
    ensures forall i :: 0 <= i < |Filter(rows, w)| ==> Filter(rows, w)[i].warehouse == w
    decreases |rows|
  {
    if |rows| > 0 {
      FilterWarehouse(Init(rows), w);
    }
  }

  lemma {:induction false} FlattenSplit(ws: seq<string>, extra: seq<string>, g: Graph)
    requires forall i :: 0 <= i < |ws| ==> ws[i] in g
    requires forall i :: 0 <= i < |extra| ==> extra[i] in g
    ensures FlattenFrom(ws + extra, g) == FlattenFrom(ws, g) + FlattenFrom(extra, g)
    decreases |extra|
  {
    if |extra| == 0 {
      assert ws + extra == ws;
    } else {
      var front := Init(extra);
      var last := extra[|extra| - 1];
      assert Init(ws + extra) == ws + front;
      FlattenSplit(ws, front, g);
      Associative(FlattenFrom(ws, g), FlattenFrom(front, g), RowsOf(last, g[last].stock));
    }
  }

  lemma Associative<T>(a: seq<T>, b: seq<T>, c: seq<T>)
    ensures a + b + c == a + (b + c)
  {
  }

  lemma {:induction false} FlattenEmpty(ws: seq<string>, g: Graph)
    requires forall i :: 0 <= i < |ws| ==> ws[i] in g && g[ws[i]].stock == []
    ensures FlattenFrom(ws, g) == []
    decreases |ws|
  {
    if |ws| > 0 {
      FlattenEmpty(Init(ws), g);
    }
  }

  lemma {:induction false} FlattenGroups(ws: seq<string>, g: Graph, rows: seq<StockRow>)
    requires forall i :: 0 <= i < |ws| ==> ws[i] in g && g[ws[i]].stock == RecordsOf(Filter(rows, ws[i]))
    ensures FlattenFrom(ws, g) == GroupBy(ws, rows)
    decreases |ws|
  {
    if |ws| > 0 {
      var w := ws[|ws| - 1];
      FlattenGroups(Init(ws), g, rows);
      FilterWarehouse(rows, w);
      RowsOfRecords(w, Filter(rows, w));
    }
  }

  /** The loaded order starts with the stock rows' warehouses, each holding
      the records of its rows. */
  lemma LoadedPrefix(stockRows: seq<StockRow>, connectionRows: seq<ConnectionRow>)
    ensures |Load(stockRows, connectionRows).order| >= |Firsts(stockRows)|
    ensures Load(stockRows, connectionRows).order[..|Firsts(stockRows)|] == Firsts(stockRows)
    ensures forall i :: 0 <= i < |Firsts(stockRows)| ==>
              Firsts(stockRows)[i] in Load(stockRows, connectionRows).warehouses
              && Load(stockRows, connectionRows).warehouses[Firsts(stockRows)[i]].stock
                 == RecordsOf(Filter(stockRows, Firsts(stockRows)[i]))
  {
    var net := Load(stockRows, connectionRows);
    var f := Firsts(stockRows);
    LoadBuilds(stockRows, connectionRows);
    FirstsMembers(stockRows);
    ConnectionOrderBuilds(f, connectionRows);
    forall i | 0 <= i < |f|
      ensures f[i] in net.warehouses && net.warehouses[f[i]].stock == RecordsOf(Filter(stockRows, f[i]))
    {
      assert LedgerOf(net.warehouses, f[i]) == RecordsOf(Filter(stockRows, f[i]));
    }
  }

  /** In a list without repeats, nothing after position `n` occurs before it. */
  lemma FreshAfter(s: seq<string>, n: nat, k: nat)
    requires NoDuplicates(s) && n <= k < |s|
    ensures s[k] !in s[..n]
  {
    assert forall j :: 0 <= j < n ==> s[..n][j] != s[k];
  }

  /** Warehouses that only connection rows name come after the rest and
      hold no stock. */
  lemma LoadedTail(stockRows: seq<StockRow>, connectionRows: seq<ConnectionRow>)
    ensures |Load(stockRows, connectionRows).order| >= |Firsts(stockRows)|
    ensures var net := Load(stockRows, connectionRows);
            var tail := net.order[|Firsts(stockRows)|..];
            forall i :: 0 <= i < |tail| ==> tail[i] in net.warehouses && net.warehouses[tail[i]].stock == []
  {
    var net := Load(stockRows, connectionRows);
    var f := Firsts(stockRows);
    LoadedPrefix(stockRows, connectionRows);
    FirstsMembers(stockRows);
    StockGraphBuilds(stockRows);
    var tail := net.order[|f|..];
    forall i | 0 <= i < |tail| ensures tail[i] in net.warehouses && net.warehouses[tail[i]].stock == [] {
      var w := net.order[|f| + i];
      assert tail[i] == w;
      FreshAfter(net.order, |f|, |f| + i);
      FilterAbsent(stockRows, w);
      assert LedgerOf(StockGraph(stockRows), w) == [];
    }
  }

  lemma SplitAt<T>(s: seq<T>, n: nat)
    requires n <= |s|
    ensures s == s[..n] + s[n..]
  {
  }

  /** Loading and then flattening without any allocation gives back the stock
      rows grouped by warehouse, warehouses in order of first appearance and
      rows in their original order within each warehouse. Connection rows add
      no stock rows. */
  lemma RoundTrip(stockRows: seq<StockRow>, connectionRows: seq<ConnectionRow>)
    ensures Flatten(Load(stockRows, connectionRows)) == GroupBy(Firsts(stockRows), stockRows)
  {
    var net := Load(stockRows, connectionRows);
    var f := Firsts(stockRows);
    LoadedPrefix(stockRows, connectionRows);
    LoadedTail(stockRows, connectionRows);
    var extra := net.order[|f|..];
    SplitAt(net.order, |f|);
    FlattenSplit(f, extra, net.warehouses);
    FlattenEmpty(extra, net.warehouses);
    FlattenGroups(f, net.warehouses, stockRows);
  }

  lemma {:induction false} GroupByWithout(ws: seq<string>, p: seq<StockRow>, r: StockRow)
    requires r.warehouse !in ws
    ensures GroupBy(ws, p + [r]) == GroupBy(ws, p)
    decreases |ws|
  {
    if |ws| > 0 {
      GroupByWithout(Init(ws), p, r);
      assert Init(p + [r]) == p;
    }
  }

  lemma GroupByLast(ws: seq<string>, p: seq<StockRow>, r: StockRow)
    requires |ws| > 0 && NoDuplicates(ws) && ws[|ws| - 1] == r.warehouse
    ensures GroupBy(ws, p + [r]) == GroupBy(ws, p) + [r]
  {
    assert r.warehouse !in Init(ws);
    GroupByWithout(Init(ws), p, r);
    assert Init(p + [r]) == p;
  }

  /** In grouped rows the last warehouse to appear is the last row's. */
  lemma {:induction false} LastGroup(rows: seq<StockRow>)
    requires |rows| > 0 && Grouped(rows)
    ensures |Firsts(rows)| > 0 && Firsts(rows)[|Firsts(rows)| - 1] == rows[|rows| - 1].warehouse
    decreases |rows|
  {
    var p := Init(rows);
    var x := rows[|rows| - 1];
    if |p| > 0 && x.warehouse in Firsts(p) {
      FirstsMembers(p);
      SameAsPrevious(rows);
      assert Grouped(p);
      LastGroup(p);
    }
  }

  /** In grouped rows, a row whose warehouse appeared before continues the
      previous row's group. */
  lemma SameAsPrevious(rows: seq<StockRow>)
    requires |rows| > 1 && Grouped(rows)
    requires InStockRows(Init(rows), rows[|rows| - 1].warehouse)
    ensures rows[|rows| - 2].warehouse == rows[|rows| - 1].warehouse
  {
    var k := |rows| - 1;
    var i :| 0 <= i < |Init(rows)| && Init(rows)[i].warehouse == rows[k].warehouse;
    assert rows[i] == Init(rows)[i];
    if i < k - 1 {
      assert rows[i].warehouse == rows[k].warehouse;
    }
  }

  /** Stock rows that are already grouped by warehouse come back unchanged. */
  lemma {:induction false} GroupedIsFixed(rows: seq<StockRow>)
    requires Grouped(rows)
    ensures GroupBy(Firsts(rows), rows) == rows
    decreases |rows|
  {
    if |rows| > 0 {
      var p := Init(rows);
      var r := rows[|rows| - 1];
      assert rows == p + [r];
      assert Grouped(p);
      GroupedIsFixed(p);
      FirstsMembers(p);
      if r.warehouse in Firsts(p) {
        SameAsPrevious(rows);
        LastGroup(p);
        GroupByLast(Firsts(p), p, r);
      } else {
        GroupByWithout(Firsts(p), p, r);
        FilterAbsent(p, r.warehouse);
        assert Filter(rows, r.warehouse) == [r];
      }
    }
  }

  /** Hence a load and save of grouped stock rows reproduces them exactly. */
  lemma GroupedRoundTrip(stockRows: seq<StockRow>, connectionRows: seq<ConnectionRow>)
    requires Grouped(stockRows)
    ensures Flatten(Load(stockRows, connectionRows)) == stockRows
  {
    RoundTrip(stockRows, connectionRows);
    GroupedIsFixed(stockRows);
  }
}
