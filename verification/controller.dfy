/** The distribution request handler (controllers/distributionController.js,
    `recordDistribution`): field presence, stock lookup and the stock check,
    then creation of a pending distribution record and the decrement of the
    stock record's available pool. As written, the handler requires the model
    files themselves, which export the model factory rather than a model, so
    its stock lookup is not a function and every request past the field
    check fails with a 500; it also writes snake_case fields the models do
    not declare. What is modelled is the check-and-decrement the handler is
    evidently meant to perform on the bound models' own fields. */
module DistributionController {
  import opened Common
  import opened WoodInventory
  import opened WoodDistribution

  /** The request body; every field may be absent. */
  datatype Request = Request(userId: Option<Id>, inventoryId: Option<Id>, quantity: Option<real>, notes: Option<string>)

  /** The handler's answers: 400, 404, 400, 500 and 201 in turn. */
  datatype Outcome =
    | MissingFields
    | InventoryNotFound
    | InsufficientStock
    | CreateFailed
    | Recorded(record: Distribution, store: Store)

  function HttpStatus(o: Outcome): int {
    match o
    case MissingFields => 400
    case InventoryNotFound => 404
    case InsufficientStock => 400
    case CreateFailed => 500
    case Recorded(_, _) => 201
  }

  /** A truthy quantity: present and not zero. */
  predicate QuantityGiven(q: Option<real>) {
    q.Some? && q.value != 0.0
  }

  /** The model's `min: 0.01` validator on `quantity`. */
  const MinQuantity: real := 0.01

  /** The row the handler means `WoodDistribution.create` to insert, on the
      model's own camelCase columns, with the save hook run on it before the
      insert. The handler supplies neither `woodType` nor `woodSize`, which
      are required and have no default; the model copies them from the stock
      record. The remaining columns take their defaults. */
  function NewRecord(newId: Id, userId: Id, inv: Id, item: StockItem, q: real, actor: Id,
                     notes: Option<string>, now: int): (d: Distribution)
    ensures d.id == newId && d.userId == userId && d.inventoryId == inv
    ensures d.quantity == q && d.status == Pending && d.distributedBy == Some(actor)
    ensures d.woodType == item.woodType && d.woodSize == item.size
    ensures d.requestNotes == notes && d.distributionDate == now
    ensures d.approvedBy.None? && d.approvedDate.None? && d.deliveryDate.None? && d.returnDate.None?
    ensures d.totalPrice.None? && d.pricePerUnit.None?
  {
    var row := Distribution(newId, userId, inv, now, item.woodType, item.size, q, Pieces,
                            None, None, PersonalUse, Pending, None, Some(actor), None, None, None,
                            notes, None, None, NotRequired, None, None);
    BeforeSave(row, true, now)
  }

  /** `recordDistribution`. `actor` is the authenticated user, `newId` the
      identifier the database assigns. */
  function RecordDistribution(req: Request, store: Store, actor: Id, newId: Id, now: int): (o: Outcome)
    // a falsy user, inventory or quantity is rejected first; a zero quantity is falsy
    ensures o == MissingFields <==> !Given(req.userId) || !Given(req.inventoryId) || !QuantityGiven(req.quantity)
    ensures o == InventoryNotFound <==>
              Given(req.userId) && Given(req.inventoryId) && QuantityGiven(req.quantity)
              && req.inventoryId.value !in store
    // the stock check is strict: asking for exactly what is available passes
    ensures o == InsufficientStock <==>
              Given(req.userId) && Given(req.inventoryId) && QuantityGiven(req.quantity)
              && req.inventoryId.value in store
              && store[req.inventoryId.value].quantityAvailable < req.quantity.value
    // a quantity the stock check lets through but the column validator refuses
    ensures o == CreateFailed <==>
              Given(req.userId) && Given(req.inventoryId) && QuantityGiven(req.quantity)
              && req.inventoryId.value in store
              && store[req.inventoryId.value].quantityAvailable >= req.quantity.value
              && req.quantity.value < MinQuantity
    ensures o.Recorded? ==>
              var inv := req.inventoryId.value;
              var q := req.quantity.value;
              var item := store[inv];
              && q >= MinQuantity && q <= item.quantityAvailable
              && o.record.quantity == q && o.record.userId == req.userId.value
              && o.record.inventoryId == inv && o.record.status == Pending
              && o.record.distributedBy == Some(actor) && o.record.requestNotes == req.notes
              // exactly `q` leaves the available pool and nothing else moves
              && o.store.Keys == store.Keys
              && (forall k :: k in store && k != inv ==> o.store[k] == store[k])
              && o.store[inv].quantityAvailable == item.quantityAvailable - q
              && o.store[inv].quantityAllocated == item.quantityAllocated
              && o.store[inv].quantityDistributed == item.quantityDistributed
              && o.store[inv].(quantityAvailable := item.quantityAvailable, status := item.status) == item
              && o.store[inv].status == DeriveStatus(item.status, item.quantityAvailable - q,
                                                     item.minimumThreshold, item.expiryDate, now)
  {
    if !Given(req.userId) || !Given(req.inventoryId) || !QuantityGiven(req.quantity) then MissingFields
    else if req.inventoryId.value !in store then InventoryNotFound
    else
      var inv := req.inventoryId.value;
      var item := store[inv];
      var q := req.quantity.value;
      if item.quantityAvailable < q then InsufficientStock
      else if q < MinQuantity then CreateFailed
      else
        var record := NewRecord(newId, req.userId.value, inv, item, q, actor, req.notes, now);
        Recorded(record, store[inv := Save(item.(quantityAvailable := item.quantityAvailable - q), now)])
  }

  /** A request for the whole available quantity is accepted and leaves the
      pool empty; unless the stock has expired it is then out of stock. */
  lemma WholeStockIsAccepted(req: Request, store: Store, actor: Id, newId: Id, now: int)
    requires Given(req.userId) && Given(req.inventoryId) && req.quantity.Some?
    requires req.inventoryId.value in store
    requires req.quantity.value == store[req.inventoryId.value].quantityAvailable >= MinQuantity
    ensures var o := RecordDistribution(req, store, actor, newId, now);
      && o.Recorded?
      && o.store[req.inventoryId.value].quantityAvailable == 0.0
      && (!ExpiredAt(store[req.inventoryId.value].expiryDate, now) ==>
            o.store[req.inventoryId.value].status == OutOfStock)
  {
  }

  /** A recorded request never drives the available pool negative, and it
      lowers the stock record's total by exactly the quantity. */
  lemma RecordingKeepsPoolsNonNegative(req: Request, store: Store, actor: Id, newId: Id, now: int)
    requires req.inventoryId.Some? && req.inventoryId.value in store
    requires PoolsNonNegative(store[req.inventoryId.value])
    ensures var o := RecordDistribution(req, store, actor, newId, now);
      o.Recorded? ==>
        && PoolsNonNegative(o.store[req.inventoryId.value])
        && Total(o.store[req.inventoryId.value]) == Total(store[req.inventoryId.value]) - req.quantity.value
  {
  }

  /** The HTTP code tells the outcomes apart: 201 only for a recorded
      request, 404 only for a missing stock record, 500 only for a refused
      insert. */
  lemma HttpStatusMatchesOutcome(req: Request, store: Store, actor: Id, newId: Id, now: int)
    ensures var o := RecordDistribution(req, store, actor, newId, now);
      (HttpStatus(o) == 201 <==> o.Recorded?)
      && (HttpStatus(o) == 404 <==> o == InventoryNotFound)
      && (HttpStatus(o) == 500 <==> o == CreateFailed)
  {
  }
}
