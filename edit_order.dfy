/**
 * The edit page: the load guard (owner only, never an approved order) and
 * the update handler, which rewrites the order row, deletes its item rows
 * and inserts the edited ones, in that order.
 */
module EditOrder {
  import opened Wrappers
  import opened Orders
  import opened ItemList
  import opened Store

  /** Why the page sends the user back instead of showing the form. */
  datatype LoadError = LoadFailed | NotOwner | AlreadyApproved

  /** What the form shows once the order is loaded. */
  datatype EditForm = EditForm(title: string, justification: string, reviewerNotes: Option<string>, items: seq<Item>)

  function ItemFromRow(row: ItemRow): Item {
    Item(row.productName, row.supplier, row.quantity, row.unitPrice)
  }

  function ItemsFromRows(rows: seq<ItemRow>): (r: seq<Item>)
    ensures |r| == |rows| && forall j :: 0 <= j < |rows| ==> r[j] == ItemFromRow(rows[j])
  {
    seq(|rows|, j requires 0 <= j < |rows| => ItemFromRow(rows[j]))
  }

  /**
   * `fetchOrder`: read the order (call 1; `.single()` also fails on a missing
   * id), refuse another user's order, refuse an approved one, then read its
   * items (call 2).
   */
  function LoadForEdit(orders: map<OrderId, Order>, rows: seq<ItemRow>, id: OrderId, user: UserId,
                       fault: Fault): (r: Result<EditForm, LoadError>)
    ensures r == Failure(NotOwner) <==> !Fails(fault, 1) && id in orders && orders[id].userId != user
    ensures r == Failure(AlreadyApproved) <==>
      !Fails(fault, 1) && id in orders && orders[id].userId == user && orders[id].status == Approved
    ensures r.Success? <==>
      !Fails(fault, 1) && !Fails(fault, 2) && id in orders && orders[id].userId == user && orders[id].status != Approved
    ensures r.Success? ==> r.value == EditForm(orders[id].title.GetOr(""), orders[id].justification,
                                               orders[id].reviewerNotes, ItemsFromRows(ItemsOf(rows, id)))
  {
    if Fails(fault, 1) || id !in orders then Failure(LoadFailed)
    else
      var o := orders[id];
      if o.userId != user then Failure(NotOwner)
      else if o.status == Approved then Failure(AlreadyApproved)
      else if Fails(fault, 2) then Failure(LoadFailed)
      else Success(EditForm(o.title.GetOr(""), o.justification, o.reviewerNotes, ItemsFromRows(ItemsOf(rows, id))))
  }

  /**
   * `handleUpdate`, on the order the page loaded. Backend calls: 1 the order
   * update, 2 the delete of its item rows, 3 the insert of the new ones; the
   * handler stops at the first that fails, keeping what earlier calls wrote.
   * Neither owner nor status is checked again here.
   */
  method HandleUpdate(store: Store, id: OrderId, title: string, justification: string, items: seq<Item>,
                      fault: Fault)
    returns (r: Result<OrderId, SubmitError>)
    requires store.Valid() && id in store.orders
    modifies store
    ensures store.Valid()
    ensures store.nextId == old(store.nextId) && store.nextRequestNumber == old(store.nextRequestNumber)
    ensures CheckEdit(title, justification, items).Some? ==>
      && r == Failure(Invalid(CheckEdit(title, justification, items).value))
      && store.orders == old(store.orders) && store.itemRows == old(store.itemRows)
    ensures CheckEdit(title, justification, items).None? ==>
      && (r == Success(id) <==> !Fails(fault, 1) && !Fails(fault, 2) && !Fails(fault, 3))
      && (r != Success(id) ==> r == Failure(BackendFailed))
      && store.orders == (if Fails(fault, 1) then old(store.orders)
                          else old(store.orders)[id := Resubmitted(old(store.orders)[id], title, justification, items)])
      && store.itemRows == (if Fails(fault, 1) || Fails(fault, 2) then old(store.itemRows)
                            else if Fails(fault, 3) then WithoutOrder(old(store.itemRows), id)
                            else WithoutOrder(old(store.itemRows), id) + RowsFor(id, items, true))
  {
    var check := CheckEdit(title, justification, items);
    if check.Some? {
      return Failure(Invalid(check.value));
    }
    var ok := store.UpdateOrder(id, o => Resubmitted(o, title, justification, items), Fails(fault, 1));
    if !ok {
      return Failure(BackendFailed);
    }
    ok := store.DeleteItemsOf(id, Fails(fault, 2));
    if !ok {
      return Failure(BackendFailed);
    }
    ok := store.InsertItems(RowsFor(id, items, true), Fails(fault, 3));
    if !ok {
      return Failure(BackendFailed);
    }
    r := Success(id);
  }

  /** Reading the items back after a complete update gives exactly the edited list, in order. */
  lemma UpdatedItemsReadBack(rows: seq<ItemRow>, id: OrderId, items: seq<Item>, other: OrderId)
    ensures ItemsOf(WithoutOrder(rows, id) + RowsFor(id, items, true), id) == RowsFor(id, items, true)
    ensures ItemsFromRows(ItemsOf(WithoutOrder(rows, id) + RowsFor(id, items, true), id)) == items
    ensures other != id ==> ItemsOf(WithoutOrder(rows, id) + RowsFor(id, items, true), other) == ItemsOf(rows, other)
  {
    var kept := WithoutOrder(rows, id);
    assert forall i :: 0 <= i < |kept| ==> kept[i].orderId != id by {
      assert forall i :: 0 <= i < |kept| ==> kept[i] in kept;
    }
    InsertedRowsOf(kept, id, items, true, other);
    ItemsOfWithoutOrder(rows, id, other);
  }

  /**
   * After a complete update, the owner loading the order again gets the new
   * title and justification, no reviewer notes, and the edited items.
   */
  lemma UpdateThenLoad(orders: map<OrderId, Order>, rows: seq<ItemRow>, id: OrderId, user: UserId,
                       title: string, justification: string, items: seq<Item>)
    requires id in orders && orders[id].userId == user
    ensures LoadForEdit(orders[id := Resubmitted(orders[id], title, justification, items)],
                        WithoutOrder(rows, id) + RowsFor(id, items, true), id, user, NoFault)
            == Success(EditForm(title, justification, None, items))
  {
    UpdatedItemsReadBack(rows, id, items, id);
  }
}
