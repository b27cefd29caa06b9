/** The wood stock record (models/WoodInventory.js): three quantity pools
    (available, allocated, distributed), the status the save hook derives
    from them, the one pool mutator `updateQuantity`, the stock predicates,
    and the FIFO and expiry queries over the inventory table. */
module WoodInventory {
  import opened Common

  datatype Unit = Pieces | CubicFeet | CubicMeter | Bundle | Ton
  datatype Quality = Premium | Standard | Basic | Damaged
  datatype StockStatus = Available | LowStock | OutOfStock | Reserved | Expired

  /** One stock batch. Quantities are DECIMAL(10,2) columns, held as reals. */
  datatype StockItem = StockItem(
    id: Id,
    woodType: string,
    species: Option<string>,
    size: string,
    unit: Unit,
    quantityAvailable: real,
    quantityAllocated: real,
    quantityDistributed: real,
    pricePerUnit: Option<real>,
    arrivalDate: int,
    expiryDate: Option<int>,
    source: Option<string>,
    quality: Quality,
    location: Option<string>,
    minimumThreshold: real,
    status: StockStatus,
    addedBy: Option<Id>,
    notes: Option<string>)

  /** The inventory table, keyed by record id. */
  type Store = map<Id, StockItem>

  /** The `min: 0` validators on the three pool columns. */
  predicate PoolsNonNegative(item: StockItem) {
    item.quantityAvailable >= 0.0 && item.quantityAllocated >= 0.0 && item.quantityDistributed >= 0.0
  }

  /** Everything the ledger holds for this batch, in any pool. */
  function Total(item: StockItem): real {
    item.quantityAvailable + item.quantityAllocated + item.quantityDistributed
  }

  /** `expiryDate && expiryDate <= now`. */
  predicate ExpiredAt(expiry: Option<int>, now: int) {
    expiry.Some? && expiry.value <= now
  }

  /** The classification a batch's status is meant to follow: expiry first,
      then an empty pool, then the reorder threshold. */
  function Classify(available: real, threshold: real, expiry: Option<int>, now: int): StockStatus {
    if ExpiredAt(expiry, now) then Expired
    else if available <= 0.0 then OutOfStock
    else if available <= threshold then LowStock
    else Available
  }

  /** The status the save hook leaves on a record whose status was `current`.
      It agrees with `Classify` except that, above the threshold and before
      expiry, only 'Out of Stock' and 'Low Stock' are reset to 'Available':
      a 'Reserved' or an 'Expired' status is kept. */
  function DeriveStatus(current: StockStatus, available: real, threshold: real,
                        expiry: Option<int>, now: int): (s: StockStatus)
    ensures current == Available || current == LowStock || current == OutOfStock ==>
              s == Classify(available, threshold, expiry, now)
    ensures current == Reserved || current == Expired ==>
              s == Classify(available, threshold, expiry, now)
              || (s == current && Classify(available, threshold, expiry, now) == Available)
    ensures ExpiredAt(expiry, now) ==> s == Expired
    ensures !ExpiredAt(expiry, now) && available > threshold && available > 0.0 ==>
              && (current == OutOfStock || current == LowStock ==> s == Available)
              && (current == Reserved || current == Expired || current == Available ==> s == current)
  {
    var byQuantity :=
      if available <= 0.0 then OutOfStock
      else if available <= threshold then LowStock
      else if current == OutOfStock || current == LowStock then Available
      else current;
    if ExpiredAt(expiry, now) then Expired else byQuantity
  }

  /** `inventory.save()`: the beforeSave hook re-derives the status; no other
      field changes. */
  function Save(item: StockItem, now: int): (r: StockItem)
    ensures r.(status := item.status) == item
    ensures r.status == DeriveStatus(item.status, item.quantityAvailable, item.minimumThreshold, item.expiryDate, now)
  {
    item.(status := DeriveStatus(item.status, item.quantityAvailable, item.minimumThreshold, item.expiryDate, now))
  }

  /** The `type` argument of `updateQuantity`; any string other than the four
      recognised ones is `Unrecognised`. The source's default is `Distribute`. */
  datatype QuantityChange = Distribute | Allocate | Add | Return | Unrecognised

  /** `updateQuantity(quantityChange, type)` followed by its save. Both
      decrements are floored at 0 instead of failing, so a change larger
      than the pool it draws on adds quantity to the batch. */
  function UpdateQuantity(item: StockItem, change: real, kind: QuantityChange, now: int): (r: StockItem)
    // only the pools and the status change
    ensures r.(quantityAvailable := item.quantityAvailable, quantityAllocated := item.quantityAllocated,
               quantityDistributed := item.quantityDistributed, status := item.status) == item
    ensures r.status == DeriveStatus(item.status, r.quantityAvailable, item.minimumThreshold, item.expiryDate, now)
    ensures kind == Allocate ==>
              r.quantityAvailable == FloorAtZero(item.quantityAvailable - Abs(change))
              && r.quantityAllocated == item.quantityAllocated + Abs(change) && r.quantityDistributed == item.quantityDistributed
    ensures kind == Distribute ==>
              r.quantityAvailable == FloorAtZero(item.quantityAvailable - Abs(change))
              && r.quantityDistributed == item.quantityDistributed + Abs(change) && r.quantityAllocated == item.quantityAllocated
    ensures kind == Add ==>
              r.quantityAvailable == item.quantityAvailable + Abs(change)
              && r.quantityAllocated == item.quantityAllocated && r.quantityDistributed == item.quantityDistributed
    ensures kind == Return ==>
              r.quantityAvailable == item.quantityAvailable + Abs(change)
              && r.quantityDistributed == FloorAtZero(item.quantityDistributed - Abs(change)) && r.quantityAllocated == item.quantityAllocated
    ensures kind == Unrecognised ==> r == Save(item, now)
    // no pool ever goes negative
    ensures PoolsNonNegative(item) ==> PoolsNonNegative(r)
    // conservation, where it holds
    ensures (kind == Allocate || kind == Distribute) && Abs(change) <= item.quantityAvailable ==> Total(r) == Total(item)
    ensures kind == Return && Abs(change) <= item.quantityDistributed ==> Total(r) == Total(item)
    // the floors never destroy quantity, and create exactly the shortfall
    ensures PoolsNonNegative(item) && kind != Unrecognised ==> Total(r) >= Total(item)
    ensures (kind == Allocate || kind == Distribute) && 0.0 <= item.quantityAvailable < Abs(change) ==>
              Total(r) == Total(item) + (Abs(change) - item.quantityAvailable)
    ensures kind == Return && 0.0 <= item.quantityDistributed < Abs(change) ==>
              Total(r) == Total(item) + (Abs(change) - item.quantityDistributed)
  {
    var q := Abs(change);
    var moved :=
      match kind
      case Distribute => item.(quantityAvailable := FloorAtZero(item.quantityAvailable - q), quantityDistributed := item.quantityDistributed + q)
      case Allocate => item.(quantityAvailable := FloorAtZero(item.quantityAvailable - q), quantityAllocated := item.quantityAllocated + q)
      case Add => item.(quantityAvailable := item.quantityAvailable + q)
      case Return => item.(quantityAvailable := item.quantityAvailable + q, quantityDistributed := FloorAtZero(item.quantityDistributed - q))
      case Unrecognised => item;
    Save(moved, now)
  }

  /** `isLowStock`, `isOutOfStock` and `getRemainingQuantity`. */
  predicate IsLowStock(item: StockItem) {
    item.quantityAvailable <= item.minimumThreshold
  }

  predicate IsOutOfStock(item: StockItem) {
    item.quantityAvailable <= 0.0
  }

  function RemainingQuantity(item: StockItem): real {
    item.quantityAvailable - item.quantityAllocated
  }

  /** What the stock predicates say about a freshly saved record: before
      expiry, its status is 'Out of Stock' exactly when `isOutOfStock` holds,
      and 'Low Stock' exactly when `isLowStock` holds without `isOutOfStock`. */
  lemma SavedStatusMatchesPredicates(item: StockItem, now: int)
    requires !ExpiredAt(item.expiryDate, now)
    ensures var r := Save(item, now);
      && (r.status == OutOfStock <==> IsOutOfStock(r))
      && (r.status == LowStock <==> IsLowStock(r) && !IsOutOfStock(r))
  {
  }

  /** Allocating from the available pool lowers the remaining quantity twice
      over: `getRemainingQuantity` subtracts the allocated pool from the
      available pool, which the allocation has already reduced. */
  lemma AllocationCountsTwiceInRemaining(item: StockItem, change: real, now: int)
    requires Abs(change) <= item.quantityAvailable
    ensures RemainingQuantity(UpdateQuantity(item, change, Allocate, now))
            == RemainingQuantity(item) - 2.0 * Abs(change)
  {
  }

  /** A run of `updateQuantity` calls on one record. */
  datatype Adjustment = Adjustment(change: real, kind: QuantityChange, at: int)

  function ApplyAll(item: StockItem, adjustments: seq<Adjustment>): StockItem
    decreases |adjustments|
  {
    if |adjustments| == 0 then item
    else
      var a := adjustments[0];
      ApplyAll(UpdateQuantity(item, a.change, a.kind, a.at), adjustments[1..])
  }

  /** Everything the `add` calls of a run bring in. */
  function Intake(adjustments: seq<Adjustment>): real {
    if |adjustments| == 0 then 0.0
    else (if adjustments[0].kind == Add then Abs(adjustments[0].change) else 0.0) + Intake(adjustments[1..])
  }

  /** No decrement in the run is larger than the pool it draws on at the
      moment it is applied, so no floor ever bites. */
  predicate FloorsNeverBite(item: StockItem, adjustments: seq<Adjustment>)
    decreases |adjustments|
  {
    if |adjustments| == 0 then true
    else
      var a := adjustments[0];
      && ((a.kind == Allocate || a.kind == Distribute) ==> Abs(a.change) <= item.quantityAvailable)
      && (a.kind == Return ==> Abs(a.change) <= item.quantityDistributed)
      && FloorsNeverBite(UpdateQuantity(item, a.change, a.kind, a.at), adjustments[1..])
  }

  /** Conservation over a run: when no floor bites, the batch holds exactly
      what it held before plus every `add`. */
  lemma {:induction false} RunConservesWhenFloorsNeverBite(item: StockItem, adjustments: seq<Adjustment>)
    requires FloorsNeverBite(item, adjustments)
    ensures Total(ApplyAll(item, adjustments)) == Total(item) + Intake(adjustments)
    decreases |adjustments|
  {
    if |adjustments| > 0 {
      var a := adjustments[0];
      RunConservesWhenFloorsNeverBite(UpdateQuantity(item, a.change, a.kind, a.at), adjustments[1..]);
    }
  }

  /** Whatever the run, the pools stay non-negative and the batch never holds
      less than it held before plus every `add`: the floors only ever create
      quantity. */
  lemma {:induction false} RunNeverLosesStock(item: StockItem, adjustments: seq<Adjustment>)
    requires PoolsNonNegative(item)
    ensures PoolsNonNegative(ApplyAll(item, adjustments))
    ensures Total(ApplyAll(item, adjustments)) >= Total(item) + Intake(adjustments)
    decreases |adjustments|
  {
    if |adjustments| > 0 {
      var a := adjustments[0];
      RunNeverLosesStock(UpdateQuantity(item, a.change, a.kind, a.at), adjustments[1..]);
    }
  }

  /** `findByTypeAndSize`: the query's filter. */
  predicate FifoCandidate(item: StockItem, woodType: string, size: string) {
    item.woodType == woodType && item.size == size && item.status == Available
  }

  /** `findByTypeAndSize(woodType, size)`: the earliest-arriving batch of that
      type and size whose status is 'Available', or nothing. Among batches
      that arrived at the same instant the first in table order is taken. */
  method FindByTypeAndSize(items: seq<StockItem>, woodType: string, size: string) returns (r: Option<StockItem>)
    ensures r.None? <==> forall i :: 0 <= i < |items| ==> !FifoCandidate(items[i], woodType, size)
    ensures r.Some? ==> r.value in items && FifoCandidate(r.value, woodType, size)
    ensures r.Some? ==> forall i :: 0 <= i < |items| && FifoCandidate(items[i], woodType, size) ==>
                          r.value.arrivalDate <= items[i].arrivalDate
  {
    r := None;
    var k := 0;
    while k < |items|
      invariant 0 <= k <= |items|
      invariant r.None? <==> forall i :: 0 <= i < k ==> !FifoCandidate(items[i], woodType, size)
      invariant r.Some? ==> r.value in items[..k] && FifoCandidate(r.value, woodType, size)
      invariant r.Some? ==> forall i :: 0 <= i < k && FifoCandidate(items[i], woodType, size) ==>
                              r.value.arrivalDate <= items[i].arrivalDate
    {
      if FifoCandidate(items[k], woodType, size) && (r.None? || items[k].arrivalDate < r.value.arrivalDate) {
        r := Some(items[k]);
      }
      k := k + 1;
    }
    assert items[..k] == items;
  }

  /** `getExpiringItems(days)`: the query's filter. A record without an
      expiry date never matches (SQL comparison with NULL). */
  predicate ExpiresWithin(item: StockItem, now: int, days: int) {
    item.expiryDate.Some? && now <= item.expiryDate.value <= now + days * DayMs && item.status != Expired
  }

  function ExpiryKey(item: StockItem): int {
    if item.expiryDate.Some? then item.expiryDate.value else 0
  }

  predicate SortedByExpiry(s: seq<StockItem>) {
    forall i, j :: 0 <= i < j < |s| ==> ExpiryKey(s[i]) <= ExpiryKey(s[j])
  }

  /** The records of the table that match the expiry window, in table order. */
  function ExpiringFilter(items: seq<StockItem>, now: int, days: int): (r: seq<StockItem>)
    ensures forall x :: x in r <==> x in items && ExpiresWithin(x, now, days)
    ensures forall x :: multiset(r)[x] == if ExpiresWithin(x, now, days) then multiset(items)[x] else 0
    ensures multiset(r) <= multiset(items)
  {
    if |items| == 0 then []
    else
      assert items == [items[0]] + items[1..];
      assert multiset(items) == multiset{items[0]} + multiset(items[1..]);
      var rest := ExpiringFilter(items[1..], now, days);
      if ExpiresWithin(items[0], now, days) then
        assert multiset([items[0]] + rest) == multiset{items[0]} + multiset(rest);
        [items[0]] + rest
      else rest
  }

  function InsertByExpiry(x: StockItem, s: seq<StockItem>): (r: seq<StockItem>)
    requires SortedByExpiry(s)
    ensures |r| == |s| + 1
    ensures SortedByExpiry(r)
    ensures multiset(r) == multiset(s) + multiset{x}
  {
    if |s| == 0 then [x]
    else if ExpiryKey(x) <= ExpiryKey(s[0]) then [x] + s
    else
      var tail := InsertByExpiry(x, s[1..]);
      InsertBehindHead(x, s, tail);
      [s[0]] + tail
  }

  /** Putting the head of a sorted list before the insertion into its rest
      keeps the order and the contents. */
  lemma InsertBehindHead(x: StockItem, s: seq<StockItem>, tail: seq<StockItem>)
    requires |s| > 0 && SortedByExpiry(s) && ExpiryKey(s[0]) < ExpiryKey(x)
    requires SortedByExpiry(tail) && multiset(tail) == multiset(s[1..]) + multiset{x}
    ensures SortedByExpiry([s[0]] + tail)
    ensures multiset([s[0]] + tail) == multiset(s) + multiset{x}
  {
    forall j | 0 <= j < |tail| ensures ExpiryKey(s[0]) <= ExpiryKey(tail[j]) {
      assert tail[j] in multiset(tail);
      if tail[j] != x {
        assert tail[j] in multiset(s[1..]);
        var k :| 0 <= k < |s[1..]| && s[1..][k] == tail[j];
        assert s[k + 1] == tail[j];
      }
    }
    var r := [s[0]] + tail;
    forall i, j | 0 <= i < j < |r| ensures ExpiryKey(r[i]) <= ExpiryKey(r[j]) {
      assert r[j] == tail[j - 1];
      if i > 0 {
        assert r[i] == tail[i - 1];
      }
    }
    assert s == [s[0]] + s[1..];
  }

  function SortByExpiry(s: seq<StockItem>): (r: seq<StockItem>)
    ensures SortedByExpiry(r)
    ensures multiset(r) == multiset(s)
  {
    if |s| == 0 then []
    else
      assert s == [s[0]] + s[1..];
      InsertByExpiry(s[0], SortByExpiry(s[1..]))
  }

  /** `getExpiringItems(days)`: every batch whose expiry date falls within
      `days` days from now and whose status is not already 'Expired',
      earliest expiry first. The day is taken as 24 hours. */
  function GetExpiringItems(items: seq<StockItem>, now: int, days: int): (r: seq<StockItem>)
    ensures forall x :: x in r <==> x in items && ExpiresWithin(x, now, days)
    ensures SortedByExpiry(r)
    ensures forall x :: multiset(r)[x] == if ExpiresWithin(x, now, days) then multiset(items)[x] else 0
    ensures multiset(r) <= multiset(items)
  {
    var matching := ExpiringFilter(items, now, days);
    var sorted := SortByExpiry(matching);
    assert forall x :: x in sorted <==> x in multiset(matching);
    sorted
  }
}
