/** The distribution record (models/WoodDistribution.js): its save hooks
    (price and date stamping before a save, stock-pool side effects after an
    update), the four status-setting instance methods, and the per-status
    statistics fold. Each instance method is one pure step from a record and
    the inventory table to the saved record and the new inventory table. */
module WoodDistribution {
  import opened Common
  import opened Tally
  import opened WoodInventory

  datatype Purpose = PersonalUse | Construction | Fuel | Sale | CommunityProject | OtherPurpose
  datatype DistStatus = Pending | Approved | Delivered | Cancelled | Returned
  datatype PaymentStatus = Paid | Unpaid | Partial | NotRequired
  datatype PaymentMethod = Cash | BankTransfer | Cheque | WorkExchange | Free

  datatype Distribution = Distribution(
    id: Id,
    userId: Id,
    inventoryId: Id,
    distributionDate: int,
    woodType: string,
    woodSize: string,
    quantity: real,
    unit: Unit,
    pricePerUnit: Option<real>,
    totalPrice: Option<real>,
    purpose: Purpose,
    status: DistStatus,
    approvedBy: Option<Id>,
    distributedBy: Option<Id>,
    approvedDate: Option<int>,
    deliveryDate: Option<int>,
    returnDate: Option<int>,
    requestNotes: Option<string>,
    approvalNotes: Option<string>,
    distributionNotes: Option<string>,
    paymentStatus: PaymentStatus,
    paymentMethod: Option<PaymentMethod>,
    receiptNumber: Option<string>)

  /** `pricePerUnit && quantity`: both set and neither zero. */
  predicate Priced(d: Distribution) {
    d.pricePerUnit.Some? && d.pricePerUnit.value != 0.0 && d.quantity != 0.0
  }

  /** The beforeSave hook. `statusChanged` is Sequelize's `changed('status')`. */
  function BeforeSave(d: Distribution, statusChanged: bool, now: int): (r: Distribution)
    // only the price and the three dates are touched
    ensures r.(totalPrice := d.totalPrice, approvedDate := d.approvedDate,
               deliveryDate := d.deliveryDate, returnDate := d.returnDate) == d
    ensures Priced(d) ==> r.totalPrice == Some(d.pricePerUnit.value * d.quantity)
    ensures !Priced(d) ==> r.totalPrice == d.totalPrice
    // a date already set is never overwritten
    ensures d.approvedDate.Some? ==> r.approvedDate == d.approvedDate
    ensures d.deliveryDate.Some? ==> r.deliveryDate == d.deliveryDate
    ensures d.returnDate.Some? ==> r.returnDate == d.returnDate
    // an unset date is stamped exactly when the status changed to its status
    ensures d.approvedDate.None? ==>
              r.approvedDate == (if statusChanged && d.status == Approved then Some(now) else None)
    ensures d.deliveryDate.None? ==>
              r.deliveryDate == (if statusChanged && d.status == Delivered then Some(now) else None)
    ensures d.returnDate.None? ==>
              r.returnDate == (if statusChanged && d.status == Returned then Some(now) else None)
  {
    var priced := if Priced(d) then d.(totalPrice := Some(d.pricePerUnit.value * d.quantity)) else d;
    var approved :=
      if statusChanged && priced.status == Approved && priced.approvedDate.None?
      then priced.(approvedDate := Some(now)) else priced;
    var delivered :=
      if statusChanged && approved.status == Delivered && approved.deliveryDate.None?
      then approved.(deliveryDate := Some(now)) else approved;
    if statusChanged && delivered.status == Returned && delivered.returnDate.None?
    then delivered.(returnDate := Some(now)) else delivered
  }

  /** The pool movement the afterUpdate hook performs, keyed on the new and
      the previous status. */
  datatype PoolEffect = NoEffect | AllocatedToDistributed | DistributedToAvailable | AllocatedToAvailable

  function EffectOf(previous: DistStatus, current: DistStatus): (e: PoolEffect)
    ensures e == AllocatedToDistributed <==> previous == Approved && current == Delivered
    ensures e == DistributedToAvailable <==> previous != Returned && current == Returned
    ensures e == AllocatedToAvailable <==> previous == Approved && current == Cancelled
    // entering Approved or Pending never moves stock, and neither does a save
    // that leaves the status as it was
    ensures current == Approved || current == Pending || current == previous ==> e == NoEffect
  {
    if current == previous then NoEffect
    else if current == Delivered && previous == Approved then AllocatedToDistributed
    else if current == Returned then DistributedToAvailable
    else if current == Cancelled && previous == Approved then AllocatedToAvailable
    else NoEffect
  }

  /** The movement applied to one stock record, followed by that record's
      save. The hook subtracts the record's quantity without `Math.abs`. */
  function ApplyEffect(item: StockItem, e: PoolEffect, q: real, now: int): (r: StockItem)
    ensures r.(quantityAvailable := item.quantityAvailable, quantityAllocated := item.quantityAllocated,
               quantityDistributed := item.quantityDistributed, status := item.status) == item
    ensures e == NoEffect ==> r == item
    ensures e == AllocatedToDistributed ==>
              && r.quantityAllocated == FloorAtZero(item.quantityAllocated - q)
              && r.quantityDistributed == item.quantityDistributed + q
              && r.quantityAvailable == item.quantityAvailable
    ensures e == DistributedToAvailable ==>
              && r.quantityAvailable == item.quantityAvailable + q
              && r.quantityDistributed == FloorAtZero(item.quantityDistributed - q)
              && r.quantityAllocated == item.quantityAllocated
    ensures e == AllocatedToAvailable ==>
              && r.quantityAvailable == item.quantityAvailable + q
              && r.quantityAllocated == FloorAtZero(item.quantityAllocated - q)
              && r.quantityDistributed == item.quantityDistributed
    ensures e != NoEffect ==> r.status == DeriveStatus(item.status, r.quantityAvailable,
                                                       item.minimumThreshold, item.expiryDate, now)
    ensures PoolsNonNegative(item) && q >= 0.0 ==> PoolsNonNegative(r)
    // conservation holds exactly when the pool drawn on covers the quantity
    ensures e != NoEffect && PoolsNonNegative(item) && q >= 0.0 ==>
              (Total(r) == Total(item) <==>
                 (if e == DistributedToAvailable then q <= item.quantityDistributed
                  else q <= item.quantityAllocated))
  {
    match e
    case NoEffect => item
    case AllocatedToDistributed =>
      Save(item.(quantityAllocated := FloorAtZero(item.quantityAllocated - q),
                 quantityDistributed := item.quantityDistributed + q), now)
    case DistributedToAvailable =>
      Save(item.(quantityAvailable := item.quantityAvailable + q,
                 quantityDistributed := FloorAtZero(item.quantityDistributed - q)), now)
    case AllocatedToAvailable =>
      Save(item.(quantityAvailable := item.quantityAvailable + q,
                 quantityAllocated := FloorAtZero(item.quantityAllocated - q)), now)
  }

  /** The afterUpdate hook: when the status changed, the referenced stock
      record (if it exists) gets the movement `EffectOf` selects. */
  function AfterUpdate(d: Distribution, previous: DistStatus, store: Store, now: int): (r: Store)
    ensures r.Keys == store.Keys
    ensures forall k :: k in store && k != d.inventoryId ==> r[k] == store[k]
    ensures d.inventoryId !in store || EffectOf(previous, d.status) == NoEffect ==> r == store
    ensures d.inventoryId in store ==>
              r[d.inventoryId] == ApplyEffect(store[d.inventoryId], EffectOf(previous, d.status), d.quantity, now)
  {
    if d.inventoryId in store then
      store[d.inventoryId := ApplyEffect(store[d.inventoryId], EffectOf(previous, d.status), d.quantity, now)]
    else store
  }

  /** A record after `save()`, with the inventory table after its hooks. */
  datatype Saved = Saved(record: Distribution, store: Store)

  /** `save()` of an existing record whose stored version is `before`. */
  function SaveUpdate(before: Distribution, after: Distribution, store: Store, now: int): (s: Saved)
    ensures s.record == BeforeSave(after, after.status != before.status, now)
    ensures s.store == AfterUpdate(s.record, before.status, store, now)
  {
    var r := BeforeSave(after, after.status != before.status, now);
    Saved(r, AfterUpdate(r, before.status, store, now))
  }

  /** `approve(approvedBy, notes)`: from any status, with no check. */
  function Approve(d: Distribution, approver: Id, notes: Option<string>, store: Store, now: int): (s: Saved)
    ensures s.record.status == Approved
    ensures s.record.approvedBy == Some(approver) && s.record.approvedDate == Some(now)
    ensures s.record.approvalNotes == (if Given(notes) then notes else d.approvalNotes)
    ensures s.record.distributedBy == d.distributedBy && s.record.distributionNotes == d.distributionNotes
    ensures s.record.quantity == d.quantity && s.record.inventoryId == d.inventoryId
    // approving never moves stock
    ensures s.store == store
  {
    var next := d.(status := Approved, approvedBy := Some(approver), approvedDate := Some(now),
                   approvalNotes := if Given(notes) then notes else d.approvalNotes);
    SaveUpdate(d, next, store, now)
  }

  /** `deliver(distributedBy, notes)`: from any status, with no check. Stock
      moves only when the record was 'Approved'. */
  function Deliver(d: Distribution, distributor: Id, notes: Option<string>, store: Store, now: int): (s: Saved)
    ensures s.record.status == Delivered
    ensures s.record.distributedBy == Some(distributor) && s.record.deliveryDate == Some(now)
    ensures s.record.distributionNotes == (if Given(notes) then notes else d.distributionNotes)
    ensures s.record.approvedBy == d.approvedBy && s.record.approvalNotes == d.approvalNotes
    ensures d.status != Approved ==> s.store == store
    ensures d.status == Approved && d.inventoryId in store ==>
              s.store == store[d.inventoryId := ApplyEffect(store[d.inventoryId], AllocatedToDistributed, d.quantity, now)]
  {
    var next := d.(status := Delivered, distributedBy := Some(distributor), deliveryDate := Some(now),
                   distributionNotes := if Given(notes) then notes else d.distributionNotes);
    SaveUpdate(d, next, store, now)
  }

  /** `cancel(notes)`: from any status, with no check; the notes go to
      `approvalNotes`. Stock moves back only when the record was 'Approved'. */
  function Cancel(d: Distribution, notes: Option<string>, store: Store, now: int): (s: Saved)
    ensures s.record.status == Cancelled
    ensures s.record.approvalNotes == (if Given(notes) then notes else d.approvalNotes)
    ensures s.record.distributionNotes == d.distributionNotes
    ensures s.record.approvedDate == d.approvedDate && s.record.deliveryDate == d.deliveryDate
            && s.record.returnDate == d.returnDate
    ensures d.status != Approved ==> s.store == store
    ensures d.status == Approved && d.inventoryId in store ==>
              s.store == store[d.inventoryId := ApplyEffect(store[d.inventoryId], AllocatedToAvailable, d.quantity, now)]
  {
    var next := d.(status := Cancelled, approvalNotes := if Given(notes) then notes else d.approvalNotes);
    SaveUpdate(d, next, store, now)
  }

  /** `markReturned(notes)`: from any status, with no check; the notes go to
      `distributionNotes`. Stock moves back from any previous status but
      'Returned' itself. */
  function MarkReturned(d: Distribution, notes: Option<string>, store: Store, now: int): (s: Saved)
    ensures s.record.status == Returned && s.record.returnDate == Some(now)
    ensures s.record.distributionNotes == (if Given(notes) then notes else d.distributionNotes)
    ensures s.record.approvalNotes == d.approvalNotes
    ensures d.status == Returned ==> s.store == store
    ensures d.status != Returned && d.inventoryId in store ==>
              s.store == store[d.inventoryId := ApplyEffect(store[d.inventoryId], DistributedToAvailable, d.quantity, now)]
  {
    var next := d.(status := Returned, returnDate := Some(now),
                   distributionNotes := if Given(notes) then notes else d.distributionNotes);
    SaveUpdate(d, next, store, now)
  }

  /** Approving a record that is already approved moves no stock and keeps
      it approved; only the approver, the date, the notes and (through the
      save hook) the total price are rewritten. */
  lemma ReapprovalMovesNoStock(d: Distribution, approver: Id, notes: Option<string>, store: Store, now: int)
    requires d.status == Approved
    ensures var s := Approve(d, approver, notes, store, now);
      s.store == store && s.record.status == Approved
      && s.record.(approvedBy := d.approvedBy, approvedDate := d.approvedDate, approvalNotes := d.approvalNotes,
                   totalPrice := d.totalPrice) == d
  {
  }

  // ---- getDistributionStats ----

  /** One entry of the statistics object. */
  datatype StatEntry = StatEntry(count: nat, quantity: real, value: real)

  /** `distributionDate BETWEEN start AND end`, applied only when both bounds are given. */
  predicate InWindow(d: Distribution, start: Option<int>, end: Option<int>) {
    start.None? || end.None? || (start.value <= d.distributionDate <= end.value)
  }

  function Window(rs: seq<Distribution>, start: Option<int>, end: Option<int>): (w: seq<Distribution>)
    ensures |w| <= |rs|
    ensures forall d :: d in w <==> d in rs && InWindow(d, start, end)
    ensures forall d :: multiset(w)[d] == if InWindow(d, start, end) then multiset(rs)[d] else 0
  {
    if |rs| == 0 then []
    else
      var rest := Window(rs[1..], start, end);
      assert rs == [rs[0]] + rs[1..];
      assert multiset(rs) == multiset{rs[0]} + multiset(rs[1..]);
      assert forall d :: d in rs <==> d == rs[0] || d in rs[1..];
      if InWindow(rs[0], start, end) then
        assert multiset([rs[0]] + rest) == multiset{rs[0]} + multiset(rest);
        [rs[0]] + rest
      else rest
  }

  function Statuses(rs: seq<Distribution>): (ss: seq<DistStatus>)
    ensures |ss| == |rs|
    ensures forall i :: 0 <= i < |rs| ==> ss[i] == rs[i].status
  {
    MapSeq(rs, (d: Distribution) => d.status)
  }

  /** COUNT(id) over the records of one status. */
  function CountStatus(rs: seq<Distribution>, s: DistStatus): nat {
    if |rs| == 0 then 0
    else (if rs[0].status == s then 1 else 0) + CountStatus(rs[1..], s)
  }

  /** SUM(quantity) over the records of one status. */
  function QuantitySum(rs: seq<Distribution>, s: DistStatus): real {
    if |rs| == 0 then 0.0
    else (if rs[0].status == s then rs[0].quantity else 0.0) + QuantitySum(rs[1..], s)
  }

  /** SUM(totalPrice) over the records of one status; NULL prices are
      skipped, and `parseFloat(null) || 0` makes an all-NULL sum 0. */
  function ValueSum(rs: seq<Distribution>, s: DistStatus): real {
    if |rs| == 0 then 0.0
    else (if rs[0].status == s && rs[0].totalPrice.Some? then rs[0].totalPrice.value else 0.0)
         + ValueSum(rs[1..], s)
  }

  /** The entry the grouping query reports for one status. */
  function Group(rs: seq<Distribution>, s: DistStatus): StatEntry {
    StatEntry(CountStatus(rs, s), QuantitySum(rs, s), ValueSum(rs, s))
  }

  function Plus(a: StatEntry, b: StatEntry): StatEntry {
    StatEntry(a.count + b.count, a.quantity + b.quantity, a.value + b.value)
  }

  lemma PlusAssociates(a: StatEntry, b: StatEntry, c: StatEntry)
    ensures Plus(Plus(a, b), c) == Plus(a, Plus(b, c))
  {
  }

  function EntryOf(m: map<DistStatus, StatEntry>, s: DistStatus): StatEntry {
    if s in m then m[s] else StatEntry(0, 0.0, 0.0)
  }

  /** The declarative grouping: one entry per status present, holding that
      status's count and sums. */
  ghost predicate GroupedBy(m: map<DistStatus, StatEntry>, rs: seq<Distribution>) {
    && (forall s :: s in m <==> s in Statuses(rs))
    && (forall s :: s in m ==> m[s] == Group(rs, s))
  }

  /** The reduce over the grouped rows, as a fold over the records. */
  function Accumulate(acc: map<DistStatus, StatEntry>, rs: seq<Distribution>): map<DistStatus, StatEntry>
    decreases |rs|
  {
    if |rs| == 0 then acc
    else
      var d := rs[0];
      var price := if d.totalPrice.Some? then d.totalPrice.value else 0.0;
      Accumulate(acc[d.status := Plus(EntryOf(acc, d.status), StatEntry(1, d.quantity, price))], rs[1..])
  }

  /** `getDistributionStats(startDate, endDate)`. */
  function GetDistributionStats(rs: seq<Distribution>, start: Option<int>, end: Option<int>): (m: map<DistStatus, StatEntry>)
    ensures GroupedBy(m, Window(rs, start, end))
    ensures forall s :: s in m ==> m[s].count > 0
  {
    var w := Window(rs, start, end);
    AccumulateGroups(w);
    Accumulate(map[], w)
  }

  lemma {:induction false} AccumulateKeys(acc: map<DistStatus, StatEntry>, rs: seq<Distribution>, s: DistStatus)
    ensures s in Accumulate(acc, rs) <==> s in acc || s in Statuses(rs)
    decreases |rs|
  {
    if |rs| > 0 {
      var d := rs[0];
      var price := if d.totalPrice.Some? then d.totalPrice.value else 0.0;
      AccumulateKeys(acc[d.status := Plus(EntryOf(acc, d.status), StatEntry(1, d.quantity, price))], rs[1..], s);
      assert Statuses(rs) == [d.status] + Statuses(rs[1..]);
    }
  }

  /** The entry one record contributes to status `s`. */
  function Row(d: Distribution, s: DistStatus): StatEntry {
    if d.status == s then StatEntry(1, d.quantity, if d.totalPrice.Some? then d.totalPrice.value else 0.0)
    else StatEntry(0, 0.0, 0.0)
  }

  lemma GroupStep(rs: seq<Distribution>, s: DistStatus)
    requires |rs| > 0
    ensures Group(rs, s) == Plus(Row(rs[0], s), Group(rs[1..], s))
  {
    var r := Row(rs[0], s);
    assert CountStatus(rs, s) == r.count + CountStatus(rs[1..], s);
    assert QuantitySum(rs, s) == r.quantity + QuantitySum(rs[1..], s);
    assert ValueSum(rs, s) == r.value + ValueSum(rs[1..], s);
  }

  /** The fold with a partial accumulator `acc` gives, per status, the
      accumulator's entry plus the records' own count and sums. */
  lemma {:induction false} AccumulateEntry(acc: map<DistStatus, StatEntry>, rs: seq<Distribution>, s: DistStatus)
    ensures EntryOf(Accumulate(acc, rs), s) == Plus(EntryOf(acc, s), Group(rs, s))
    decreases |rs|
  {
    if |rs| > 0 {
      var d := rs[0];
      var price := if d.totalPrice.Some? then d.totalPrice.value else 0.0;
      var acc' := acc[d.status := Plus(EntryOf(acc, d.status), StatEntry(1, d.quantity, price))];
      assert Accumulate(acc, rs) == Accumulate(acc', rs[1..]);
      AccumulateEntry(acc', rs[1..], s);
      assert EntryOf(acc', s) == Plus(EntryOf(acc, s), Row(d, s));
      GroupStep(rs, s);
      PlusAssociates(EntryOf(acc, s), Row(d, s), Group(rs[1..], s));
    }
  }

  lemma {:induction false} CountStatusIsMultiplicity(rs: seq<Distribution>, s: DistStatus)
    ensures CountStatus(rs, s) == multiset(Statuses(rs))[s]
    ensures CountStatus(rs, s) > 0 <==> s in Statuses(rs)
    decreases |rs|
  {
    if |rs| > 0 {
      CountStatusIsMultiplicity(rs[1..], s);
      assert Statuses(rs) == [rs[0].status] + Statuses(rs[1..]);
      assert multiset(Statuses(rs)) == multiset{rs[0].status} + multiset(Statuses(rs[1..]));
    }
  }

  lemma AccumulateGroups(rs: seq<Distribution>)
    ensures GroupedBy(Accumulate(map[], rs), rs)
    ensures forall s :: s in Accumulate(map[], rs) ==> Accumulate(map[], rs)[s].count > 0
  {
    var m := Accumulate(map[], rs);
    forall s ensures s in m <==> s in Statuses(rs) {
      AccumulateKeys(map[], rs, s);
    }
    forall s | s in m ensures m[s] == Group(rs, s) && m[s].count > 0 {
      AccumulateEntry(map[], rs, s);
      CountStatusIsMultiplicity(rs, s);
    }
  }

  lemma {:induction false} StatusCountsCoverAll(rs: seq<Distribution>)
    ensures CountStatus(rs, Pending) + CountStatus(rs, Approved) + CountStatus(rs, Delivered)
            + CountStatus(rs, Cancelled) + CountStatus(rs, Returned) == |rs|
    decreases |rs|
  {
    if |rs| > 0 {
      StatusCountsCoverAll(rs[1..]);
    }
  }

  /** A status absent from the statistics object counted no record. */
  lemma CountFromStats(rs: seq<Distribution>, m: map<DistStatus, StatEntry>, s: DistStatus)
    requires GroupedBy(m, rs)
    ensures EntryOf(m, s).count == CountStatus(rs, s)
  {
    CountStatusIsMultiplicity(rs, s);
  }

  /** The per-status counts add up to the number of records in the window. */
  lemma StatsCountAllRecords(rs: seq<Distribution>, start: Option<int>, end: Option<int>)
    ensures var m := GetDistributionStats(rs, start, end);
      EntryOf(m, Pending).count + EntryOf(m, Approved).count + EntryOf(m, Delivered).count
      + EntryOf(m, Cancelled).count + EntryOf(m, Returned).count
      == |Window(rs, start, end)|
  {
    var w := Window(rs, start, end);
    var m := GetDistributionStats(rs, start, end);
    StatusCountsCoverAll(w);
    CountFromStats(w, m, Pending);
    CountFromStats(w, m, Approved);
    CountFromStats(w, m, Delivered);
    CountFromStats(w, m, Cancelled);
    CountFromStats(w, m, Returned);
  }
}
