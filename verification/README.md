# Warehouse stock allocation, modelled in Dafny

The system keeps a network of warehouses. Each warehouse has a code, a
directed map of neighbours with travel costs, and an ordered ledger of stock
records (item code, quantity, minimum amount to keep, optional expiry date).
A request is a bundle of item codes with required quantities. The request is
served in one of two flows:

- **replenishment**: stock moves from another warehouse into the requesting
  one. Source records are debited. The destination's first matching record
  is credited, or a new record is appended.
- **dispatch**: stock is released to a customer. Records are only debited.

Both flows use a best-first search over the network to find one warehouse
that can supply the whole bundle. If there is none, they fall back to one
search and one execution per item, in request order, each against the
ledgers as the earlier items left them. The two flows run two variants of
the search:

- the replenishment variant never considers the requesting warehouse itself;
- the dispatch variant tests it first.

A shared penalty function (the fitness heuristic) orders the search queue.
It weighs stock shortfall against stock that will expire soon. Networks are
loaded from stock rows and connection rows, and the ledgers are saved back
as rows.

The Dafny modules follow that structure:

| module | file | contents |
|---|---|---|
| `Ledger` | ledger.dfy | stock records, bundles, the fulfilment test, first-match debit and credit of a ledger |
| `Graphs` | graphs.dfy | warehouses, the graph, `add_connection` / `add_stock`, paths |
| `Fitness` | fitness.dfy | the penalty of a ledger for a bundle |
| `Lex` | lex.dfy | Python's ordering of strings and lists of strings (heap tie-breaks) |
| `Search` | search.dfy | the best-first search and its two variants |
| `Allocation` | allocation.dfy | the executors `move_stock` and `release_stock_to_customer` and their quantity laws |
| `Runs` | runs.dfy | the vocabulary of a processing run: modes, outcomes, one step of the per-item phase |
| `Orchestration` | orchestration.dfy | `process_required_stock` for both flows |
| `Records` | records.dfy | the record-level halves of loading and saving a network |

Modelling choices:

- **Bundles.** A bundle is a sequence of `Item`s with distinct codes, in the
  iteration order of the caller's dictionary.
- **Executors.** An executor returns `Completed(graph)` or
  `Aborted(graph, error)`. On error the graph keeps the items already
  executed, because the Python code does not roll back.
- **Processing results.** A run returns the report as a list of `Outcome`
  values rather than text. It also returns the unmet requirements and the
  executor error, if any.
- **Expiry dates.** The number of days until an expiry date is a parameter
  `daysUntil: string -> int`. It stands for parsing the date and subtracting
  the current clock.
- **Float ceiling.** `ceil((30 - d) * 0.1)` is the integer `(30 - d + 9) / 10`
  for `d < 30`. The contract of `Fitness.ExpiryReward` states that this is
  the ceiling.
- **Heap order.** The queue is a sequence. Each pop takes a least entry
  under Python's order on `(key, code, path)` tuples, with strings and lists
  compared lexicographically.
- **Ledger order after loading.** The heuristic reads the last record of a
  code. The executors act on the first record. The fulfilment test sums
  over all records. The model keeps all three readings.
  `Allocation.DuplicateRecordsDefeatRelease` shows where the last two part
  ways.

## Model

| member | source | states |
|---|---|---|
| Graphs.Warehouse.AddConnection | data_model.py:9-10 | the neighbour gets the given cost and becomes a key; every other edge, the code and the ledger are unchanged; a repeated neighbour keeps only the new cost |
| Graphs.Warehouse.AddStock | data_model.py:12-13 | the record lands at the end of the ledger; the earlier records, the edges and the code are unchanged |
| Records.AddRow | data_model.py:25-37 | a stock row creates its warehouse if it is new (under its own code) and appends the row's record to that warehouse's ledger only; no edge changes |
| Records.Connect | data_model.py:42-52 | a connection row creates both endpoints if they are new and sets the one edge from the row's warehouse to the neighbour; no ledger changes |
| Records.Mention | data_model.py:34-35 | dictionary insertion order: a code is added at the end only if it is new, earlier keys keep their positions, no key appears twice |
| Records.StockGraph | data_model.py:25-37 | after the stock rows, the warehouses are exactly those named in a row, each stored under its own code, and there are no edges yet |
| Records.StockGraphBuilds | data_model.py:25-37 | after the stock rows, each warehouse's ledger holds the records of that warehouse's rows, in row order |
| Records.ConnectionGraph | data_model.py:42-52 | the connection rows add every endpoint as a warehouse, leave every ledger alone, fold the rows into each warehouse's edges, and keep every warehouse under its own code |
| Records.EdgesLastCost | data_model.py:52 | a warehouse has an edge to a neighbour iff some connection row joins them, and its cost is the one on the last such row |
| Records.FirstsInOrder | data_model.py:25-35 | the stock phase lists each warehouse once, in the order the stock rows first name it |
| Records.ConnectionOrderInOrder | data_model.py:42-50 | each connection row looks up its warehouse and then its neighbour, so the order stays that of first mention |
| Records.Load | data_model.py:18-54 | the loaded network lists each warehouse exactly once, in the order rows first name it: the stock rows' warehouses, then each connection row's warehouse followed by its neighbour; each is stored under its own code |
| Records.LoadBuilds | data_model.py:18-54 | the loaded graph is closed under edges; its warehouses are exactly the codes in any stock row or at either end of a connection row; each ledger is that warehouse's stock rows in order (empty for one named only in connections); each edge carries the last cost given for it |
| Records.RowsOf | data_model.py:68-75 | one row per record in ledger order with the warehouse's code; a missing expiry date is written as empty text |
| Records.Flatten | data_model.py:67-75 | every saved row names a listed warehouse; with distinct keys the rows of each warehouse are exactly its ledger, one row per record in ledger order, and warehouses follow the dictionary order |
| Records.RoundTrip | data_model.py:23-75 | loading then saving yields the stock rows grouped by warehouse in first-appearance order, keeping row order within each warehouse |
| Records.GroupedRoundTrip | data_model.py:23-75 | stock rows that are already grouped by warehouse come back unchanged from loading then saving |
| Records.GroupedIsFixed | data_model.py:67-68 | grouping rows that are already grouped by warehouse leaves them as they are |
| Ledger.FirstIndex | stock_optimization.py:30-39 | the executors act on the first record of the code; there is none iff no record has the code |
| Ledger.LastIndex | stock_optimization.py:65 | the heuristic's dictionary keeps the last record of a code; there is none iff no record has the code |
| Ledger.Debit | stock_optimization.py:30-39 | not found iff no record has the code; insufficient iff the first record's quantity minus minimum is below the request; otherwise only that record drops by exactly the request and stays at or above its minimum |
| Ledger.Credit | stock_optimization.py:41-51 | the first record of the code rises by the quantity, or a record with that quantity, minimum 0 and no expiry is appended; no other record changes |
| Ledger.TallyOfUnique | sales_stock_selection.py:93-96 | with one record per code, the fulfilment test's sum over a code's records is the amount of its only record (0 when absent) |
| Ledger.DebitTally | stock_optimization.py:34 | a debit lowers the code's summed quantity and availability by exactly the request and leaves every other code's sums alone |
| Ledger.CreditTally | stock_optimization.py:41-51 | a credit raises the code's summed on-hand quantity by exactly the amount, whether it bumps a record or appends one |
| Ledger.UniqueCodesKept | stock_optimization.py:29-51 | debit and credit never give a ledger a second record for a code |
| Ledger.ReserveKept | stock_optimization.py:32-34 | records at or above their minimum stay so after a debit, and after a non-negative credit |
| Fitness.ExpiryReward | stock_optimization.py:75-80 | the expiry reward is positive iff the record has non-empty expiry text less than 30 days away, and is then the ceiling of a tenth of the days short of 30 |
| Fitness.SingleItem | stock_optimization.py:67-83 | one item's penalty is its shortfall minus its expiry reward: twice the quantity when the code is absent, and the shortfall alone when there is no date or it is 30 or more days away |
| Fitness.ShortfallOfUnique | stock_optimization.py:65-72 | with one record per code, an item's shortfall penalty is twice the amount by which its available quantity falls short of the request, and 0 when it does not |
| Fitness.HeuristicBounds | stock_optimization.py:64-84 | a warehouse holding none of the items scores twice the total requested; one covering every item with nothing close to expiry scores 0; without expiry rewards a non-negative request never scores below 0 |
| Fitness.HeuristicSplit | stock_optimization.py:64-84 | the penalty of a bundle is the sum of the penalties of its items: splitting a bundle splits the penalty |
| Fitness.NoShortfallIffFulfils | stock_optimization.py:116-120 | with one record per code and a positive quantity, the heuristic sees no shortfall iff the warehouse passes the search's fulfilment test |
| Fitness.ExpiryInFiveDays | sales_stock_selection.py:59-65 | a well stocked record expiring in 5 days gives penalty -3, the ceiling of 2.5 |
| Lex.StrLeTotal | stock_optimization.py:100 | Python's string order compares any two codes |
| Lex.StrLeAntisymmetric | stock_optimization.py:100 | two codes ordered both ways are equal |
| Lex.StrLeTransitive | stock_optimization.py:100 | the string order is transitive |
| Lex.PathLeTotal | stock_optimization.py:100 | Python's list order compares any two paths |
| Lex.PathLeTransitive | stock_optimization.py:100 | the list order on paths is transitive |
| Search.EntryLeTotal | stock_optimization.py:100 | the heap's order on (key, code, path) tuples compares any two entries |
| Search.EntryLeTransitive | stock_optimization.py:100 | the heap's tuple order is transitive |
| Search.PopMin | stock_optimization.py:100 | the popped entry is one that no other queued entry precedes in the tuple order |
| Search.ExtendPath | stock_optimization.py:123-128 | a pushed neighbour's key is the popped key plus the edge cost plus the neighbour's penalty: the cost accumulated along its path |
| Search.Push | stock_optimization.py:123-128 | every queued entry stays; each new entry is an unvisited neighbour carrying the path so far and the extended key; every unvisited neighbour gets its own fresh entry with that key and path, even when it is already queued under another key |
| Search.StartUnvisited | stock_optimization.py:101-112 | in the replenishment search the start is popped only while unvisited, so it is expanded once and never tested |
| Search.UnvisitedShrinks | stock_optimization.py:110-112 | visiting a popped warehouse shrinks the unvisited set, which bounds the loop |
| Search.SkipStep | stock_optimization.py:110-111 | dropping a popped, already visited warehouse keeps the search invariant |
| Search.FoundStep | stock_optimization.py:115-120 | a popped warehouse that passes the test yields a path from the start along edges, ending there, with its accumulated cost |
| Search.ExpandStep | stock_optimization.py:122-128 | expanding a popped warehouse that is not a result keeps the invariant: every queued entry is a valid walk and each visited warehouse's unvisited neighbours are queued |
| Search.ExhaustedStep | stock_optimization.py:130 | once the queue is empty, no warehouse the variant may test that is reachable from the start passes the test |
| Search.FindBest | stock_optimization.py:95-130 | the loop terminates; each warehouse is expanded at most once; a result is a walk from the start along edges to a passing warehouse, with its cost; no result means no reachable candidate passes |
| Search.FindBestOptimization | stock_optimization.py:86-130 | a result starts at the start, has at least two warehouses, ends at a warehouse other than the start that passes the test, and carries the path's cost; none means no reachable warehouse other than the start passes |
| Search.FindBestDispatch | sales_stock_selection.py:71-107 | a start that passes the test, even for an empty bundle, gives cost 0 and path [start]; a result is a walk from the start to a passing warehouse; none means no reachable warehouse passes |
| Allocation.ApplyItem | stock_optimization.py:29-51 | an item completes iff the source debit succeeds; otherwise it fails with not found or insufficient stock and nothing changes; only the source and the destination can change |
| Allocation.ApplyBundle | stock_optimization.py:29-51 | executing a bundle changes only ledgers, and only at the source and the destination |
| Allocation.MoveStock | stock_optimization.py:15-55 | only the two warehouses change; between distinct ones every item's combined quantity is conserved, even after an error; on success the source's availability drops and the destination's quantity rises by the amount requested |
| Allocation.ReleaseToCustomer | sales_stock_selection.py:15-39 | only the source warehouse changes; its ledger keeps the same records in the same places, with only quantities changed, even after an error; on success each code's quantity and availability drop by the amount requested |
| Allocation.ReleaseKeepsRecords | sales_stock_selection.py:26-38 | releasing a bundle, complete or stopped by an error, neither adds nor removes nor reorders records, and changes nothing but quantities |
| Allocation.ReleasedPerItem | sales_stock_selection.py:26-31 | a completed release of distinct codes lowers each requested code's quantity and availability by exactly its own quantity and leaves every other code alone |
| Allocation.MovedPerItem | stock_optimization.py:29-51 | a completed move of distinct codes between two warehouses lowers the source's availability of each code by its quantity, raises the destination's quantity by the same amount, and leaves unrequested codes alone |
| Allocation.AbortedAfterPrefix | stock_optimization.py:29-39 | a failed bundle stops at one item: the items before it are executed, that item changes nothing, and later items are never tried |
| Allocation.SourceTally | stock_optimization.py:29-39 | a completed bundle lowers the source's summed quantity and availability of each code by the amount requested |
| Allocation.TransferTallies | stock_optimization.py:29-51 | between distinct warehouses a transfer conserves source plus destination quantities and, when complete, raises the destination by the amount requested |
| Allocation.TransferInPlace | stock_optimization.py:29-51 | moving stock from a warehouse to itself leaves each code's on-hand quantity unchanged |
| Allocation.MoveConservesNetwork | stock_optimization.py:34-51 | moving stock never changes the network-wide quantity of any item |
| Allocation.ReleaseLowersNetwork | sales_stock_selection.py:31 | a completed release lowers the network-wide quantity of each item by exactly the amount released |
| Allocation.ItemReservePreserved | stock_optimization.py:32-34 | executing one item of positive quantity never leaves a record below its minimum |
| Allocation.ReservePreserved | stock_optimization.py:32-36 | executing a bundle of positive quantities never leaves a record below its minimum, whether it completes or fails |
| Allocation.ItemUniquePreserved | stock_optimization.py:41-51 | executing one item never creates a second record for a code |
| Allocation.UniquePreserved | stock_optimization.py:41-51 | ledgers with one record per code keep that shape after a bundle |
| Allocation.FulfilledBundleApplies | sales_stock_selection.py:93-97 | a source with one record per code that passes the fulfilment test executes a bundle of positive, distinct quantities without raising |
| Allocation.DuplicateRecordsDefeatRelease | sales_stock_selection.py:26-35 | with two records of a code, the test passes for 8 units while release from the first record refuses: uniqueness is needed above |
| Allocation.ZeroQuantityDefeatsRelease | sales_stock_selection.py:37-38 | a zero quantity of an absent code passes the test but release raises not found: positive quantities are needed above |
| Runs.Execute | stock_optimization.py:144 | the mode's executor changes only ledgers |
| Runs.ExecuteIsExecutor | sales_stock_selection.py:121 | the executor run for a mode is the replenishment move into the start or the release to the customer |
| Runs.ExecuteItemIsExecute | stock_optimization.py:156 | executing one item is executing the one-line bundle {code: quantity} |
| Runs.DispatchItemFromStart | sales_stock_selection.py:125-133 | in the dispatch per-item phase an item the start can cover is reported served at cost 0 along [start] and released from the start |
| Runs.Pending | stock_optimization.py:162-163 | an entry is listed as unmet iff it is in the remaining table with a positive quantity, and the list keeps the table's order |
| Runs.ZeroServed | stock_optimization.py:137-157 | the remaining table keeps every requested code in order; a served item's quantity becomes 0 and an unserved item keeps its requested quantity |
| Runs.PendingIsUnmet | stock_optimization.py:157-165 | after zeroing the served items, the unmet list is exactly the unserved items with their original quantities |
| Runs.ItemStepShape | stock_optimization.py:150-157 | one per-item step changes only ledgers |
| Runs.ItemStepUnique | stock_optimization.py:150-157 | on ledgers with one record per code, one item of positive quantity never raises and keeps that shape |
| Runs.StepAt | stock_optimization.py:148-160 | each recorded outcome is the per-item step for that item against the ledgers left by the items before it |
| Runs.StepsLength | stock_optimization.py:148-160 | the phase records an outcome for every item, stopping early only at an error; each outcome is served or unmet |
| Runs.StepsShape | stock_optimization.py:148-160 | the whole per-item phase changes only ledgers |
| Runs.StepsUnique | stock_optimization.py:148-160 | on ledgers with one record per code and positive quantities, the per-item phase never raises |
| Orchestration.SearchFor | stock_optimization.py:138 | the mode's search finds a source for the request iff one exists; in dispatch a start that passes the test is the source |
| Orchestration.ServeFirst | stock_optimization.py:149-157 | the next item is searched alone and, when found, executed from the last warehouse of its path; in dispatch a start that can cover the item is that source, at cost 0 along [start] |
| Orchestration.ServeEach | stock_optimization.py:148-160 | items are served in request order, each against the ledgers as earlier items left them, until the end or the first error; there is one outcome per item when no error occurs, and never more outcomes than items |
| Orchestration.PerItem | stock_optimization.py:145-165 | the report opens with the no-single-source line and has one line per item; unmet items keep their quantity; an error ends the phase |
| Orchestration.Process | stock_optimization.py:132-166 | the whole bundle is served from one source exactly when the search finds one; otherwise it falls back to the per-item phase; only ledgers change; unique ledgers with positive quantities never raise |
| Orchestration.ProcessOptimization | stock_optimization.py:138-144 | a whole-bundle move comes from a warehouse other than the start that passes the test, changes no third warehouse and conserves each item over source plus start |
| Orchestration.ProcessDispatch | sales_stock_selection.py:115-121 | a start that can supply the whole request releases it itself, reported at cost 0 along [start] |

## Left out

- The Streamlit user interface, the display of warehouse stock, and every `print`. The report text is modelled as a list of `Outcome` values.
- The trigger functions and the module-level simulation calls, which only name files and wire the CSV functions together.
- Opening, reading and writing CSV files, and the `int(...)` parsing of row fields. Rows are modelled as already typed records.
- `datetime.now()` and `strptime`: the days until an expiry date come from the `daysUntil` parameter. A malformed date, which raises in the Python code, is not modelled.
- The float product `(30 - d) * 0.1` under `math.ceil`: modelled as the exact integer ceiling `(30 - d + 9) / 10`. Floating-point rounding itself is not modelled.
- Orchestration.Process: requires that the start is a warehouse of a network closed under edges. An unknown start raises a key error in the Python code. A loaded network is always closed (`Records.LoadBuilds`).
- Orchestration.Process: when an executor raises, the Python code loses the report text built so far, but the ledgers keep the changes. The model returns the report so far together with the error and lists no unmet requirements, because the Python code never reaches that listing.
- Search.FindBest: states soundness, completeness of a `None` answer, termination and single expansion, but not optimality. The key adds penalties that can be negative, so the result need not be the cheapest path.
- Search.PopMin: ties between queued entries are broken by Python's tuple order (key, then code, then path), not by insertion order.
- The two flows define identical heuristic functions and identical fulfilment tests. Each is modelled once and shared by both flows.
