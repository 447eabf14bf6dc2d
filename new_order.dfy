/**
 * The new-order page's submit handler: check the form, insert the order as
 * pending, then insert one item row per form row.
 */
module NewOrder {
  import opened Wrappers
  import opened Orders
  import opened ItemList
  import opened Store

  /** The order row the insert creates (the backend fills in id, request number and time). */
  function CreatedOrder(id: OrderId, requestNumber: nat, user: UserId, justification: string,
                        items: seq<Item>, now: int): (r: Order)
    ensures r.status == Pending && r.userId == user && r.totalAmount == Total(items)
    ensures r.title == None && r.reviewerNotes == None && r.justification == justification
    ensures r.id == id && r.requestNumber == requestNumber && r.createdAt == now
  {
    Order(id, requestNumber, user, None, justification, Total(items), Pending, None, now)
  }

  /**
   * `handleSubmit`. The insert of the order is backend call 1, the insert of
   * its items call 2; a failure of call 2 leaves the order without items.
   */
  method HandleSubmit(store: Store, user: UserId, justification: string, items: seq<Item>, now: int,
                      fault: Fault)
    returns (r: Result<OrderId, SubmitError>)
    requires store.Valid()
    modifies store
    ensures store.Valid()
    ensures CheckNewOrder(justification, items).Some? ==>
      && r == Failure(Invalid(CheckNewOrder(justification, items).value))
      && store.orders == old(store.orders) && store.itemRows == old(store.itemRows)
      && store.nextId == old(store.nextId) && store.nextRequestNumber == old(store.nextRequestNumber)
    ensures CheckNewOrder(justification, items).None? && Fails(fault, 1) ==>
      && r == Failure(BackendFailed)
      && store.orders == old(store.orders) && store.itemRows == old(store.itemRows)
      && store.nextId == old(store.nextId)
    ensures CheckNewOrder(justification, items).None? && !Fails(fault, 1) ==>
      var id := old(store.nextId);
      && id !in old(store.orders)
      && store.orders == old(store.orders)[id := CreatedOrder(id, old(store.nextRequestNumber), user,
                                                               justification, items, now)]
      && store.itemRows == old(store.itemRows) + (if Fails(fault, 2) then [] else RowsFor(id, items, false))
      && store.nextId == id + 1 && store.nextRequestNumber == old(store.nextRequestNumber) + 1
      && r == (if Fails(fault, 2) then Failure(BackendFailed) else Success(id))
  {
    var check := CheckNewOrder(justification, items);
    if check.Some? {
      return Failure(Invalid(check.value));
    }
    var inserted := store.InsertOrder(user, justification, Total(items), now, Fails(fault, 1));
    if inserted.None? {
      return Failure(BackendFailed);
    }
    var id := inserted.value.id;
    var rows := RowsFor(id, items, false);
    var ok := store.InsertItems(rows, Fails(fault, 2));
    if !ok {
      assert store.itemRows == old(store.itemRows) + [];
      return Failure(BackendFailed);
    }
    r := Success(id);
  }

  /** After a complete submit the new order's items are exactly the form's rows, in order, without supplier. */
  lemma SubmittedItems(rows: seq<ItemRow>, id: OrderId, items: seq<Item>)
    requires forall i :: 0 <= i < |rows| ==> rows[i].orderId < id
    ensures |ItemsOf(rows + RowsFor(id, items, false), id)| == |items|
    ensures forall j :: 0 <= j < |items| ==>
      ItemsOf(rows + RowsFor(id, items, false), id)[j]
        == ItemRow(id, items[j].productName, None, items[j].quantity, items[j].unitPrice)
  {
    InsertedRowsOf(rows, id, items, false, id);
  }
}
