/**
 * The requester's order list: the status badge, which buttons each row
 * offers, and the delete handler that drops the order from the list.
 */
module MyOrders {
  import opened Orders
  import opened Store
  import EditOrder

  /** The text the `status` column holds for each status. */
  function StatusName(s: Status): (r: string)
    ensures r == "pending" || r == "approved" || r == "rejected"
  {
    match s
    case Pending => "pending"
    case Approved => "approved"
    case Rejected => "rejected"
  }

  /** The badge text, compared on the raw column value: anything not pending or approved reads as rejected. */
  function StatusLabel(raw: string): string {
    if raw == "pending" then "Pendiente" else if raw == "approved" then "Aprobada" else "Rechazada"
  }

  datatype Colour = Colour(background: string, text: string)

  const PendingColour := Colour("#fef3c7", "#d97706")

  /** `getStatusColor`: the default case is the pending colour. */
  function StatusColour(raw: string): Colour {
    if raw == "approved" then Colour("#dcfce7", "#16a34a")
    else if raw == "rejected" then Colour("#fee2e2", "#dc2626")
    else PendingColour
  }

  /** The buttons a row shows besides "view details", which every row has. */
  datatype Actions = Actions(edit: bool, delete: bool, download: bool)

  function ActionsFor(raw: string): Actions {
    Actions(raw == "rejected", raw == "pending" || raw == "rejected", raw == "approved")
  }

  /** Each status has its own badge text; any value that is neither pending nor approved reads as rejected. */
  lemma StatusLabels(a: Status, b: Status, raw: string)
    ensures StatusLabel(StatusName(a)) == StatusLabel(StatusName(b)) <==> a == b
    ensures StatusLabel(StatusName(Pending)) == "Pendiente" && StatusLabel(StatusName(Approved)) == "Aprobada"
    ensures raw != "pending" && raw != "approved" ==> StatusLabel(raw) == "Rechazada"
  {
  }

  /** Approved and rejected have colours of their own; every other value gets the pending colour. */
  lemma StatusColours(a: Status, b: Status, raw: string)
    ensures StatusColour(StatusName(a)) == StatusColour(StatusName(b)) <==> a == b
    ensures raw != "approved" && raw != "rejected" ==> StatusColour(raw) == PendingColour
  {
  }

  /**
   * Which buttons each status gets: an approved order is only exported;
   * edit is offered only for rejected orders, and those can be deleted too.
   */
  lemma ActionsByStatus(s: Status)
    ensures ActionsFor(StatusName(s)).download <==> s == Approved
    ensures ActionsFor(StatusName(s)).delete <==> s != Approved
    ensures ActionsFor(StatusName(s)).edit <==> s == Rejected
    ensures s == Approved ==> !ActionsFor(StatusName(s)).edit && !ActionsFor(StatusName(s)).delete
  {
  }

  /** The edit button only leads the owner to a form the edit page will load. */
  lemma EditButtonLoads(orders: map<OrderId, Order>, rows: seq<ItemRow>, id: OrderId)
    requires id in orders && ActionsFor(StatusName(orders[id].status)).edit
    ensures EditOrder.LoadForEdit(orders, rows, id, orders[id].userId, NoFault).Success?
  {
  }

  /** `orders.filter(o => o.id !== orderId)` */
  function WithoutId(list: seq<Order>, id: OrderId): (r: seq<Order>)
    ensures forall o :: o in r <==> o in list && o.id != id
    ensures |r| <= |list|
  {
    if list == [] then []
    else (if list[0].id != id then [list[0]] else []) + WithoutId(list[1..], id)
  }

  /** The filter keeps the order of what it keeps: it distributes over concatenation. */
  lemma {:induction false} WithoutIdConcat(a: seq<Order>, b: seq<Order>, id: OrderId)
    ensures WithoutId(a + b, id) == WithoutId(a, id) + WithoutId(b, id)
    decreases |a|
  {
    if a == [] {
      assert a + b == b;
    } else {
      assert (a + b)[1..] == a[1..] + b;
      WithoutIdConcat(a[1..], b, id);
    }
  }

  /** A list without the id is left as it is, so filtering twice is filtering once. */
  lemma {:induction false} WithoutIdIdempotent(a: seq<Order>, id: OrderId)
    ensures (forall i :: 0 <= i < |a| ==> a[i].id != id) ==> WithoutId(a, id) == a
    ensures WithoutId(WithoutId(a, id), id) == WithoutId(a, id)
    decreases |a|
  {
    if a != [] {
      WithoutIdIdempotent(a[1..], id);
      var head := if a[0].id != id then [a[0]] else [];
      WithoutIdConcat(head, WithoutId(a[1..], id), id);
      if head != [] {
        assert head[1..] == [];
      }
    }
  }

  /** The requester's list of orders on the page. */
  class MyOrdersView {
    var orders: seq<Order>

    constructor (fetched: seq<Order>)
      ensures orders == fetched
    {
      orders := fetched;
    }

    /**
     * `handleDelete`: nothing happens unless the user confirms; a backend
     * error leaves both the table and the list as they were.
     */
    method HandleDelete(store: Store, orderId: OrderId, confirmed: bool, fails: bool) returns (deleted: bool)
      requires store.Valid()
      modifies this, store
      ensures store.Valid() && deleted == (confirmed && !fails)
      ensures store.nextId == old(store.nextId) && store.nextRequestNumber == old(store.nextRequestNumber)
      ensures !deleted ==> orders == old(orders) && store.orders == old(store.orders)
                           && store.itemRows == old(store.itemRows)
      ensures deleted ==> orders == WithoutId(old(orders), orderId)
                          && store.orders == old(store.orders) - {orderId}
                          && store.itemRows == WithoutOrder(old(store.itemRows), orderId)
    {
      if !confirmed {
        return false;
      }
      deleted := store.DeleteOrder(orderId, fails);
      if deleted {
        orders := WithoutId(orders, orderId);
      }
    }
  }
}
