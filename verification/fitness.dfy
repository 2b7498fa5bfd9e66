/** The fitness heuristic: a signed integer penalty scoring how well a
    warehouse's ledger covers a bundle. Lower is better; it is added to travel
    cost in the search and can be negative, so it is not an admissible bound.

    The clock is a parameter: `daysUntil(date)` is the whole number of days
    from now until the expiry date written as `date`. */
module Fitness {
  import opened Ledger

  /** The dictionary view of a ledger keeps the last record of each code. */
  function Lookup(s: seq<StockRecord>, code: string): Option<StockRecord> {
    match LastIndex(s, code)
    case None => None
    case Some(i) => Some(s[i])
  }

  /** An expiry date counts only when it is present and not empty text. */
  predicate HasDate(r: StockRecord) {
    r.expiry.Some? && r.expiry.value != ""
  }

  /** The reward for a record expiring within 30 days: the ceiling of a tenth
      of the days left before the 30-day horizon. */
  function ExpiryReward(r: StockRecord, daysUntil: string -> int): (reward: int)
    ensures reward >= 0
    ensures reward > 0 <==> HasDate(r) && daysUntil(r.expiry.value) < 30
    ensures reward > 0 ==>
              var gap := 30 - daysUntil(r.expiry.value);
              10 * (reward - 1) < gap <= 10 * reward
  {
    if HasDate(r) && daysUntil(r.expiry.value) < 30 then (30 - daysUntil(r.expiry.value) + 9) / 10
    else 0
  }

  /** The shortfall part for one item: two per missing unit, judged against
      the last record only; an item with no record misses all of `qty`. */
  function Shortfall(s: seq<StockRecord>, it: Item): int {
    match Lookup(s, it.code)
    case None => it.qty * 2
    case Some(r) => if r.Available() < it.qty then (it.qty - r.Available()) * 2 else 0
  }

  /** The expiry part for one item, from the same last record. */
  function Reward(s: seq<StockRecord>, it: Item, daysUntil: string -> int): int {
    match Lookup(s, it.code)
    case None => 0
    case Some(r) => ExpiryReward(r, daysUntil)
  }

  /** Sum of the requested quantities. */
  function TotalQty(b: Bundle): int
    decreases |b|
  {
    if |b| == 0 then 0 else b[0].qty + TotalQty(b[1..])
  }

  /** The penalty of a whole bundle: per item, shortfall minus expiry reward. */
  function Heuristic(s: seq<StockRecord>, b: Bundle, daysUntil: string -> int): int
    decreases |b|
  {
    if |b| == 0 then 0
    else Shortfall(s, b[0]) - Reward(s, b[0], daysUntil) + Heuristic(s, b[1..], daysUntil)
  }

  /** A warehouse holding none of the items scores twice the total requested;
      one that covers every item with nothing near expiry scores 0; without
      expiry rewards the score of a non-negative request is never negative. */
  lemma {:induction false} HeuristicBounds(s: seq<StockRecord>, b: Bundle, daysUntil: string -> int)
    ensures (forall i :: 0 <= i < |b| ==> Lookup(s, b[i].code).None?) ==> Heuristic(s, b, daysUntil) == 2 * TotalQty(b)
    ensures (forall i :: 0 <= i < |b| ==>
               && Lookup(s, b[i].code).Some?
               && Lookup(s, b[i].code).value.Available() >= b[i].qty
               && Reward(s, b[i], daysUntil) == 0) ==> Heuristic(s, b, daysUntil) == 0
    ensures (forall i :: 0 <= i < |b| ==> b[i].qty >= 0 && Reward(s, b[i], daysUntil) == 0) ==> Heuristic(s, b, daysUntil) >= 0
    decreases |b|
  {
    if |b| > 0 {
      HeuristicBounds(s, b[1..], daysUntil);
      assert forall i :: 0 <= i < |b[1..]| ==> b[1..][i] == b[i + 1];
    }
  }

  /** The penalty adds up over the items: splitting a bundle splits its score. */
  lemma {:induction false} HeuristicSplit(s: seq<StockRecord>, b1: Bundle, b2: Bundle, daysUntil: string -> int)
    ensures Heuristic(s, b1 + b2, daysUntil) == Heuristic(s, b1, daysUntil) + Heuristic(s, b2, daysUntil)
    decreases |b1|
  {
    if |b1| == 0 {
      assert b1 + b2 == b2;
    } else {
      assert (b1 + b2)[0] == b1[0];
      assert (b1 + b2)[1..] == b1[1..] + b2;
      HeuristicSplit(s, b1[1..], b2, daysUntil);
    }
  }

  /** A single item's score is its shortfall less its expiry reward, and the
      two terms are independent: no date (or a date 30 or more days out) gives
      no reward whatever the shortfall, and no shortfall leaves only the reward. */
  lemma SingleItem(s: seq<StockRecord>, it: Item, daysUntil: string -> int)
    ensures Heuristic(s, [it], daysUntil) == Shortfall(s, it) - Reward(s, it, daysUntil)
    ensures Lookup(s, it.code).None? ==> Heuristic(s, [it], daysUntil) == 2 * it.qty
    ensures Lookup(s, it.code).Some? && !HasDate(Lookup(s, it.code).value) ==>
              Heuristic(s, [it], daysUntil) == Shortfall(s, it)
    ensures Lookup(s, it.code).Some? && HasDate(Lookup(s, it.code).value)
            && daysUntil(Lookup(s, it.code).value.expiry.value) >= 30 ==>
              Heuristic(s, [it], daysUntil) == Shortfall(s, it)
  {
    assert [it][1..] == [];
  }

  /** With one record per code, the shortfall is measured against the same
      summed availability the search's fulfilment test uses. */
  lemma ShortfallOfUnique(s: seq<StockRecord>, it: Item)
    requires UniqueCodes(s) && it.qty >= 0
    ensures var avail := Tally(s, it.code, Free);
            Shortfall(s, it) == 2 * (if avail < it.qty then it.qty - avail else 0)
  {
    TallyOfUnique(s, it.code, Free);
    match FirstIndex(s, it.code)
    case None =>
      assert LastIndex(s, it.code).None?;
    case Some(i) =>
      assert LastIndex(s, it.code) == Some(i);
  }

  /** With one record per item code and a positive quantity, the heuristic's
      shortfall term vanishes exactly when the search's fulfilment test passes. */
  lemma {:induction false} NoShortfallIffFulfils(s: seq<StockRecord>, it: Item)
    requires UniqueCodes(s)
    requires it.qty > 0
    ensures Shortfall(s, it) == 0 <==> Fulfils(s, [it])
  {
    TallyOfUnique(s, it.code, Free);
    assert [it][0] == it;
    match LastIndex(s, it.code)
    case None =>
      assert FirstIndex(s, it.code).None?;
    case Some(i) =>
      assert FirstIndex(s, it.code) == Some(i);
  }

  /** The expiry reward for an item expiring in 5 days is ceil(2.5) = 3, and
      the shortfall of a fully stocked item is 0. */
  lemma ExpiryInFiveDays()
    ensures var r := StockRecord("X", 100, 20, Some("soon"));
            Heuristic([r], [Item("X", 50)], d => 5) == -3
  {
    var r := StockRecord("X", 100, 20, Some("soon"));
    assert LastIndex([r], "X") == Some(0);
    assert [Item("X", 50)][1..] == [];
  }
}
