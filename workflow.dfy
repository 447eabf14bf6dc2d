/**
 * The order lifecycle as the four pages drive it together, and a run of the
 * workflow through the handlers' contracts alone: create, reject, edit and
 * resubmit, approve.
 */
module Workflow {
  import opened Wrappers
  import opened Orders
  import opened ItemList
  import opened Store
  import NewOrder
  import EditOrder
  import MyOrders
  import Approvals

  /**
   * An approved order is closed to its owner: the list offers neither edit
   * nor delete, and the edit page refuses to load it. Only the reviewer's
   * status write, which is keyed on id alone, still reaches it.
   */
  lemma ApprovedIsClosedToOwner(orders: map<OrderId, Order>, rows: seq<ItemRow>, id: OrderId, fault: Fault)
    requires id in orders && orders[id].status == Approved
    ensures !MyOrders.ActionsFor(MyOrders.StatusName(orders[id].status)).edit
    ensures !MyOrders.ActionsFor(MyOrders.StatusName(orders[id].status)).delete
    ensures !EditOrder.LoadForEdit(orders, rows, id, orders[id].userId, fault).Success?
  {
    MyOrders.ActionsByStatus(Approved);
  }

  /** The line items of the worked example: 3 at 10.00 and 2 at 5.50. */
  function ExampleItems(): seq<Item> {
    [Item("Paper", None, 3, 1000), Item("Toner", None, 2, 550)]
  }

  /**
   * Create an order of 41.00, reject it, edit it down to one item of 40.00
   * and resubmit, then approve it; no backend call fails.
   */
  method ExampleLifecycle()
  {
    var store := new Store();
    var queue := new Approvals.ReviewQueue();
    var items := ExampleItems();
    assert !SomeItemRejected(items) by {
      assert !ItemRejected(items[0]) && !ItemRejected(items[1]);
    }
    assert Total(items) == 4100 by {
      assert items[..1] == [items[0]];
      assert [items[0]][..0] == [];
    }

    var created := NewOrder.HandleSubmit(store, "employee", "restock", items, 1, NoFault);
    assert created.Success?;
    var id := created.value;
    assert store.orders[id].status == Pending && store.orders[id].totalAmount == 4100;

    var written := queue.HandleStatusChange(store, id, Approvals.Reject, true, NoFault);
    assert store.orders[id].status == Rejected && store.orders[id].reviewerNotes == None;

    var edited := [Item("Toner", Some(""), 1, 4000)];
    assert !IsBlank("Restock") by {
      assert !ItemList.IsJsWhitespace("Restock"[0]);
    }
    assert Total(edited) == 4000 by {
      assert edited[..0] == [];
    }
    assert !SomeItemRejected(edited) by {
      assert !ItemRejected(edited[0]);
    }
    var updated := EditOrder.HandleUpdate(store, id, "Restock", "restock", edited, NoFault);
    assert updated == Success(id);
    assert store.orders[id].status == Pending && store.orders[id].totalAmount == 4000;
    assert store.orders[id].reviewerNotes == None && store.orders[id].title == Some("Restock");

    written := queue.HandleStatusChange(store, id, Approvals.Approve, true, NoFault);
    assert store.orders[id].status == Approved && store.orders[id].totalAmount == 4000;
    ApprovedIsClosedToOwner(store.orders, store.itemRows, id, NoFault);
  }
}
