/** The stock ledger of one warehouse: an ordered list of stock records, the
    requested bundle, and the two primitive mutations (debit and credit) that
    the allocation executors are built from. */
module Ledger {

  datatype Option<T> = None | Some(value: T)

  datatype Result<T, E> = Ok(value: T) | Err(error: E)

  /** One stock record. `expiry` is the date text as it was loaded (possibly
      empty), or None for a record created by a transfer. */
  datatype StockRecord = StockRecord(itemCode: string, quantity: int, minAmount: int, expiry: Option<string>)
  {
    /** The part of the record that may be allocated: `minAmount` is a reserve. */
    function Available(): int { quantity - minAmount }
  }

  /** One requested line of a bundle: an item code and the required quantity. */
  datatype Item = Item(code: string, qty: int)

  /** A requested bundle, in the iteration order of the caller's dictionary. */
  type Bundle = seq<Item>

  /** A bundle comes from a dictionary, so its item codes are distinct. */
  predicate DistinctCodes(b: Bundle) {
    forall i, j :: 0 <= i < j < |b| ==> b[i].code != b[j].code
  }

  predicate Positive(b: Bundle) {
    forall i :: 0 <= i < |b| ==> b[i].qty > 0
  }

  /** At most one record per item code: the intended shape of a ledger. */
  predicate UniqueCodes(s: seq<StockRecord>) {
    forall i, j :: 0 <= i < j < |s| ==> s[i].itemCode != s[j].itemCode
  }

  /** Every record holds at least its reserve. */
  predicate Reserved(s: seq<StockRecord>) {
    forall i :: 0 <= i < |s| ==> s[i].quantity >= s[i].minAmount
  }

  /** The same records in the same places, quantities aside: nothing was
      created, dropped, reordered or otherwise edited. */
  predicate SameRecords(s: seq<StockRecord>, t: seq<StockRecord>) {
    |t| == |s| && forall i :: 0 <= i < |s| ==> t[i] == s[i].(quantity := t[i].quantity)
  }

  /** Index of the first record for `code`: the record the executors debit or credit. */
  function FirstIndex(s: seq<StockRecord>, code: string): (r: Option<nat>)
    ensures r.Some? ==> r.value < |s| && s[r.value].itemCode == code
    ensures r.Some? ==> forall j :: 0 <= j < r.value ==> s[j].itemCode != code
    ensures r.None? <==> forall j :: 0 <= j < |s| ==> s[j].itemCode != code
  {
    if |s| == 0 then None
    else if s[0].itemCode == code then Some(0)
    else match FirstIndex(s[1..], code)
      case None => None
      case Some(i) => Some(i + 1)
  }

  /** Index of the last record for `code`: the record that survives when the
      ledger is turned into a dictionary keyed by item code. */
  function LastIndex(s: seq<StockRecord>, code: string): (r: Option<nat>)
    ensures r.Some? ==> r.value < |s| && s[r.value].itemCode == code
    ensures r.Some? ==> forall j :: r.value < j < |s| ==> s[j].itemCode != code
    ensures r.None? <==> forall j :: 0 <= j < |s| ==> s[j].itemCode != code
  {
    if |s| == 0 then None
    else if s[|s| - 1].itemCode == code then Some(|s| - 1)
    else LastIndex(s[..|s| - 1], code)
  }

  /** What is summed per record: the quantity on hand, or the available part. */
  datatype Measure = OnHand | Free

  function Amount(r: StockRecord, code: string, m: Measure): int {
    if r.itemCode != code then 0
    else match m
      case OnHand => r.quantity
      case Free => r.Available()
  }

  /** Sum of the measure over every record of `code` in the ledger. */
  function Tally(s: seq<StockRecord>, code: string, m: Measure): int {
    if |s| == 0 then 0 else Amount(s[0], code, m) + Tally(s[1..], code, m)
  }

  /** The search's fulfilment test: for every requested item, the available
      quantity summed over ALL of the warehouse's records for it suffices. */
  predicate Fulfils(s: seq<StockRecord>, b: Bundle) {
    forall i :: 0 <= i < |b| ==> Tally(s, b[i].code, Free) >= b[i].qty
  }

  /** Why a debit was refused. */
  datatype Refusal = NoRecord | BelowReserve

  /** Take `q` units of `code` out of the FIRST matching record, refusing when
      there is no record or when its available part is smaller than `q`. */
  function Debit(s: seq<StockRecord>, code: string, q: int): (r: Result<seq<StockRecord>, Refusal>)
    ensures r == Err(NoRecord) <==> FirstIndex(s, code).None?
    ensures r == Err(BelowReserve) <==>
              FirstIndex(s, code).Some? && s[FirstIndex(s, code).value].Available() < q
    ensures r.Ok? ==> |r.value| == |s|
    ensures r.Ok? ==>
              var i := FirstIndex(s, code).value;
              && r.value[i] == s[i].(quantity := s[i].quantity - q)
              && r.value[i].quantity >= r.value[i].minAmount
              && forall j :: 0 <= j < |s| && j != i ==> r.value[j] == s[j]
  {
    match FirstIndex(s, code)
    case None => Err(NoRecord)
    case Some(i) =>
      if s[i].Available() >= q then Ok(s[i := s[i].(quantity := s[i].quantity - q)])
      else Err(BelowReserve)
  }

  /** Put `q` units of `code` into the first matching record, or append a new
      record with no reserve and no expiry when the item is unknown here. */
  function Credit(s: seq<StockRecord>, code: string, q: int): (r: seq<StockRecord>)
    ensures FirstIndex(s, code).None? ==> r == s + [StockRecord(code, q, 0, None)]
    ensures FirstIndex(s, code).Some? ==>
              var i := FirstIndex(s, code).value;
              && |r| == |s|
              && r[i] == s[i].(quantity := s[i].quantity + q)
              && forall j :: 0 <= j < |s| && j != i ==> r[j] == s[j]
  {
    match FirstIndex(s, code)
    case None => s + [StockRecord(code, q, 0, None)]
    case Some(i) => s[i := s[i].(quantity := s[i].quantity + q)]
  }

  // ---------------------------------------------------------------------------
  // Lemmas about tallies

  /** Replacing one record changes a tally by exactly that record's difference. */
  lemma {:induction false} TallyUpdate(s: seq<StockRecord>, i: nat, rec: StockRecord, code: string, m: Measure)
    requires i < |s|
    ensures Tally(s[i := rec], code, m) == Tally(s, code, m) - Amount(s[i], code, m) + Amount(rec, code, m)
    decreases |s|
  {
    var s' := s[i := rec];
    if i == 0 {
      assert s'[1..] == s[1..];
    } else {
      assert s'[1..] == s[1..][i - 1 := rec];
      TallyUpdate(s[1..], i - 1, rec, code, m);
    }
  }

  /** Appending a record adds exactly its amount to a tally. */
  lemma {:induction false} TallyAppend(s: seq<StockRecord>, rec: StockRecord, code: string, m: Measure)
    ensures Tally(s + [rec], code, m) == Tally(s, code, m) + Amount(rec, code, m)
    decreases |s|
  {
    if |s| == 0 {
      assert (s + [rec])[1..] == [];
    } else {
      assert (s + [rec])[1..] == s[1..] + [rec];
      TallyAppend(s[1..], rec, code, m);
    }
  }

  /** With unique item codes the tally is the amount of the one matching record
      (the same record the executors use), or 0 when there is none. */
  lemma {:induction false} TallyOfUnique(s: seq<StockRecord>, code: string, m: Measure)
    requires UniqueCodes(s)
    ensures FirstIndex(s, code).None? ==> Tally(s, code, m) == 0
    ensures FirstIndex(s, code).Some? ==> Tally(s, code, m) == Amount(s[FirstIndex(s, code).value], code, m)
    decreases |s|
  {
    if |s| > 0 {
      assert UniqueCodes(s[1..]);
      TallyOfUnique(s[1..], code, m);
      if s[0].itemCode == code {
        assert FirstIndex(s[1..], code).None? by {
          forall j | 0 <= j < |s[1..]| ensures s[1..][j].itemCode != code {
            assert s[1..][j] == s[j + 1];
          }
        }
      }
    }
  }

  /** A successful debit lowers the tally of its item by q (on hand and
      available alike) and leaves every other item's tally alone. */
  lemma DebitTally(s: seq<StockRecord>, code: string, q: int, c: string, m: Measure)
    requires Debit(s, code, q).Ok?
    ensures Tally(Debit(s, code, q).value, c, m) == Tally(s, c, m) - (if c == code then q else 0)
  {
    var i := FirstIndex(s, code).value;
    var rec := s[i].(quantity := s[i].quantity - q);
    assert Debit(s, code, q).value == s[i := rec];
    TallyUpdate(s, i, rec, c, m);
  }

  /** A credit raises the on-hand tally of its item by q and leaves every other
      item's tally alone. */
  lemma CreditTally(s: seq<StockRecord>, code: string, q: int, c: string)
    ensures Tally(Credit(s, code, q), c, OnHand) == Tally(s, c, OnHand) + (if c == code then q else 0)
  {
    match FirstIndex(s, code)
    case None =>
      TallyAppend(s, StockRecord(code, q, 0, None), c, OnHand);
    case Some(i) =>
      var rec := s[i].(quantity := s[i].quantity + q);
      assert Credit(s, code, q) == s[i := rec];
      TallyUpdate(s, i, rec, c, OnHand);
  }

  /** Debit and credit never introduce a second record for an item code. */
  lemma UniqueCodesKept(s: seq<StockRecord>, code: string, q: int)
    requires UniqueCodes(s)
    ensures Debit(s, code, q).Ok? ==> UniqueCodes(Debit(s, code, q).value)
    ensures UniqueCodes(Credit(s, code, q))
  {
  }

  /** A debit never takes a record below its reserve; a credit of a
      non-negative quantity keeps every record at or above it. */
  lemma ReserveKept(s: seq<StockRecord>, code: string, q: int)
    requires Reserved(s)
    ensures Debit(s, code, q).Ok? ==> Reserved(Debit(s, code, q).value)
    ensures q >= 0 ==> Reserved(Credit(s, code, q))
  {
  }
}
