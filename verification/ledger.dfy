/** The stock ledger of one stock record and the distribution records drawn
    on it, followed through the lifecycle the handler and the instance
    methods drive: a request takes its quantity from `available` at creation,
    approval moves nothing, delivery from 'Approved' moves the quantity into
    `distributed`, cancellation from 'Approved' and return after delivery
    give it back to `available`.

    Along the orderly transitions the holding — available plus distributed
    plus what pending and approved requests have taken — is conserved. The
    methods check no legality, and two of the unchecked transitions leak: a
    pending request cancelled never gives its quantity back, and a pending
    request delivered is counted as delivered although `distributed` never
    received it. */
module StockLedger {
  import opened Common
  import opened WoodInventory
  import opened WoodDistribution
  import DistributionController

  /** The inventory table and the distribution records. */
  datatype Ledger = Ledger(store: Store, records: seq<Distribution>)

  /** A status-setting instance method with its arguments. */
  datatype Action =
    | ApproveBy(approver: Id, notes: Option<string>)
    | DeliverBy(distributor: Id, notes: Option<string>)
    | CancelWith(notes: Option<string>)
    | ReturnWith(notes: Option<string>)

  function Perform(d: Distribution, a: Action, store: Store, now: int): (s: Saved)
    ensures s.record.quantity == d.quantity && s.record.inventoryId == d.inventoryId
    ensures s.record.status == (match a
                                case ApproveBy(_, _) => Approved
                                case DeliverBy(_, _) => Delivered
                                case CancelWith(_) => Cancelled
                                case ReturnWith(_) => Returned)
  {
    match a
    case ApproveBy(approver, notes) => Approve(d, approver, notes, store, now)
    case DeliverBy(distributor, notes) => Deliver(d, distributor, notes, store, now)
    case CancelWith(notes) => Cancel(d, notes, store, now)
    case ReturnWith(notes) => MarkReturned(d, notes, store, now)
  }

  /** One instance method applied to the i-th record. */
  function Act(l: Ledger, i: nat, a: Action, now: int): (r: Ledger)
    requires i < |l.records|
    ensures |r.records| == |l.records|
    ensures forall j :: 0 <= j < |l.records| && j != i ==> r.records[j] == l.records[j]
    ensures r.records[i].quantity == l.records[i].quantity
    ensures r.records[i].inventoryId == l.records[i].inventoryId
  {
    var s := Perform(l.records[i], a, l.store, now);
    Ledger(s.store, l.records[i := s.record])
  }

  /** A request through the handler; a recorded one joins the records. */
  function Request(l: Ledger, req: DistributionController.Request, actor: Id, newId: Id, now: int): (r: Ledger)
    ensures |r.records| == |l.records| || |r.records| == |l.records| + 1
    ensures r.records[..|l.records|] == l.records
  {
    match DistributionController.RecordDistribution(req, l.store, actor, newId, now)
    case Recorded(record, store) => Ledger(store, l.records + [record])
    case _ => l
  }

  /** The quantity of a record counted when its status is in `ss`. */
  function Share(d: Distribution, ss: set<DistStatus>): real {
    if d.status in ss then d.quantity else 0.0
  }

  /** The summed quantity of the records whose status is in `ss`. */
  function SumWhere(rs: seq<Distribution>, ss: set<DistStatus>): real
    decreases |rs|
  {
    if |rs| == 0 then 0.0 else SumWhere(rs[..|rs| - 1], ss) + Share(rs[|rs| - 1], ss)
  }

  /** What requests still hold: they left `available` and are not settled. */
  function Outstanding(rs: seq<Distribution>): real {
    SumWhere(rs, {Pending, Approved})
  }

  function DeliveredSum(rs: seq<Distribution>): real {
    SumWhere(rs, {Delivered})
  }

  /** The holding of stock record `inv`. */
  function Holding(l: Ledger, inv: Id): real
    requires inv in l.store
  {
    l.store[inv].quantityAvailable + l.store[inv].quantityDistributed + Outstanding(l.records)
  }

  /** The ledger invariant: every record draws on `inv` with a quantity the
      column validator accepts, the pools are non-negative, nothing sits in
      `allocated` (no transition ever fills it), and `distributed` covers
      every delivered record. */
  predicate Healthy(l: Ledger, inv: Id) {
    && inv in l.store
    && (forall j :: 0 <= j < |l.records| ==>
          l.records[j].inventoryId == inv && l.records[j].quantity >= DistributionController.MinQuantity)
    && PoolsNonNegative(l.store[inv])
    && l.store[inv].quantityAllocated == 0.0
    && l.store[inv].quantityDistributed >= DeliveredSum(l.records)
  }

  /** The orderly transitions. */
  predicate Orderly(from: DistStatus, a: Action) {
    || (from == Pending && a.ApproveBy?)
    || (from == Approved && a.DeliverBy?)
    || (from == Approved && a.CancelWith?)
    || (from == Delivered && a.ReturnWith?)
  }

  lemma {:induction false} SumWhereAppend(rs: seq<Distribution>, d: Distribution, ss: set<DistStatus>)
    ensures SumWhere(rs + [d], ss) == SumWhere(rs, ss) + Share(d, ss)
  {
    assert (rs + [d])[..|rs|] == rs;
  }

  /** Replacing one record changes a sum by the difference of the two shares. */
  lemma {:induction false} SumWhereUpdate(rs: seq<Distribution>, i: nat, d: Distribution, ss: set<DistStatus>)
    requires i < |rs|
    ensures SumWhere(rs[i := d], ss) == SumWhere(rs, ss) - Share(rs[i], ss) + Share(d, ss)
    decreases |rs|
  {
    var n := |rs| - 1;
    if i == n {
      assert rs[i := d][..n] == rs[..n];
    } else {
      SumWhereUpdate(rs[..n], i, d, ss);
      assert rs[i := d][..n] == rs[..n][i := d];
    }
  }

  /** With no negative quantity, a sum covers the share of each record in it. */
  lemma {:induction false} SumWhereCovers(rs: seq<Distribution>, i: nat, ss: set<DistStatus>)
    requires i < |rs|
    requires forall j :: 0 <= j < |rs| ==> rs[j].quantity >= 0.0
    ensures SumWhere(rs, ss) >= Share(rs[i], ss)
    decreases |rs|
  {
    var n := |rs| - 1;
    SumWhereNonNegative(rs[..n], ss);
    if i < n {
      SumWhereCovers(rs[..n], i, ss);
    }
  }

  lemma {:induction false} SumWhereNonNegative(rs: seq<Distribution>, ss: set<DistStatus>)
    requires forall j :: 0 <= j < |rs| ==> rs[j].quantity >= 0.0
    ensures SumWhere(rs, ss) >= 0.0
    decreases |rs|
  {
    if |rs| > 0 {
      SumWhereNonNegative(rs[..|rs| - 1], ss);
    }
  }

  /** A recorded request keeps the ledger healthy and its holding unchanged:
      the quantity leaves `available` and joins the outstanding requests. */
  lemma RequestKeepsHolding(l: Ledger, inv: Id, req: DistributionController.Request, actor: Id, newId: Id, now: int)
    requires Healthy(l, inv)
    requires req.inventoryId == Some(inv)
    ensures Healthy(Request(l, req, actor, newId, now), inv)
    ensures Holding(Request(l, req, actor, newId, now), inv) == Holding(l, inv)
  {
    var o := DistributionController.RecordDistribution(req, l.store, actor, newId, now);
    if o.Recorded? {
      SumWhereAppend(l.records, o.record, {Pending, Approved});
      SumWhereAppend(l.records, o.record, {Delivered});
      var r := Request(l, req, actor, newId, now);
      assert r.records == l.records + [o.record];
    }
  }

  /** Each orderly transition keeps the ledger healthy and its holding unchanged. */
  lemma OrderlyStepKeepsHolding(l: Ledger, inv: Id, i: nat, a: Action, now: int)
    requires Healthy(l, inv)
    requires i < |l.records| && Orderly(l.records[i].status, a)
    ensures Healthy(Act(l, i, a, now), inv)
    ensures Holding(Act(l, i, a, now), inv) == Holding(l, inv)
  {
    var d := l.records[i];
    var s := Perform(d, a, l.store, now);
    SumWhereUpdate(l.records, i, s.record, {Pending, Approved});
    SumWhereUpdate(l.records, i, s.record, {Delivered});
    var r := Act(l, i, a, now);
    assert r.records == l.records[i := s.record];
    assert r.store == s.store;
    var item := l.store[inv];
    if a.ReturnWith? {
      SumWhereCovers(l.records, i, {Delivered});
      assert item.quantityDistributed >= d.quantity;
      assert r.store[inv].quantityAvailable == item.quantityAvailable + d.quantity;
      assert r.store[inv].quantityDistributed == item.quantityDistributed - d.quantity;
    } else if a.DeliverBy? {
      assert r.store[inv].quantityAvailable == item.quantityAvailable;
      assert r.store[inv].quantityDistributed == item.quantityDistributed + d.quantity;
    } else if a.CancelWith? {
      assert r.store[inv].quantityAvailable == item.quantityAvailable + d.quantity;
      assert r.store[inv].quantityDistributed == item.quantityDistributed;
    } else {
      assert r.store == l.store;
    }
  }

  /** Cancelling a pending request moves no stock, so the quantity taken at
      creation is lost: the holding drops by exactly that quantity. */
  lemma PendingCancelLeaks(l: Ledger, inv: Id, i: nat, notes: Option<string>, now: int)
    requires Healthy(l, inv)
    requires i < |l.records| && l.records[i].status == Pending
    ensures Healthy(Act(l, i, CancelWith(notes), now), inv)
    ensures Holding(Act(l, i, CancelWith(notes), now), inv) == Holding(l, inv) - l.records[i].quantity
    ensures Holding(Act(l, i, CancelWith(notes), now), inv) < Holding(l, inv)
  {
    var s := Perform(l.records[i], CancelWith(notes), l.store, now);
    SumWhereUpdate(l.records, i, s.record, {Pending, Approved});
    SumWhereUpdate(l.records, i, s.record, {Delivered});
    assert Act(l, i, CancelWith(notes), now).records == l.records[i := s.record];
  }

  /** Delivering a pending request moves no stock but counts the record as
      delivered: `distributed` falls behind the delivered records by its
      quantity. */
  lemma PendingDeliveryIsUnbacked(l: Ledger, inv: Id, i: nat, distributor: Id, notes: Option<string>, now: int)
    requires Healthy(l, inv)
    requires i < |l.records| && l.records[i].status == Pending
    ensures var r := Act(l, i, DeliverBy(distributor, notes), now);
      && r.store == l.store
      && DeliveredSum(r.records) == DeliveredSum(l.records) + l.records[i].quantity
      && Holding(r, inv) == Holding(l, inv) - l.records[i].quantity
  {
    var s := Perform(l.records[i], DeliverBy(distributor, notes), l.store, now);
    SumWhereUpdate(l.records, i, s.record, {Pending, Approved});
    SumWhereUpdate(l.records, i, s.record, {Delivered});
    assert Act(l, i, DeliverBy(distributor, notes), now).records == l.records[i := s.record];
  }
}
