/**
 * The reviewer's page: the queue of pending orders, oldest first, and the
 * approve/reject buttons, which overwrite the status and reload the queue.
 */
module Approvals {
  import opened Orders
  import opened Store

  /** The two buttons; no other status can be sent from this page. */
  datatype Decision = Approve | Reject

  function DecisionStatus(d: Decision): (s: Status)
    ensures s != Pending
    ensures s == Approved <==> d == Approve
  {
    match d
    case Approve => Approved
    case Reject => Rejected
  }

  /** The query's result: every pending order once, sorted by creation time. */
  ghost predicate IsPendingQueue(orders: map<OrderId, Order>, q: seq<Order>) {
    && SortedByCreation(q) && DistinctIds(q)
    && (forall o :: o in q ==> o.id in orders && orders[o.id] == o && o.status == Pending)
    && (forall k :: k in orders && orders[k].status == Pending ==> orders[k] in q)
  }

  /** The decided order is no longer pending, so no queue read afterwards contains it. */
  lemma DecidedOrderLeavesQueue(orders: map<OrderId, Order>, id: OrderId, d: Decision, q: seq<Order>)
    requires id in orders
    requires IsPendingQueue(orders[id := WithStatus(orders[id], DecisionStatus(d))], q)
    ensures forall i :: 0 <= i < |q| ==> q[i].id != id
    ensures forall k :: k in orders && k != id && orders[k].status == Pending ==> orders[k] in q
  {
    forall i | 0 <= i < |q|
      ensures q[i].id != id
    {
      assert q[i] in q;
    }
    var after := orders[id := WithStatus(orders[id], DecisionStatus(d))];
    forall k | k in orders && k != id && orders[k].status == Pending
      ensures orders[k] in q
    {
      assert after[k] == orders[k];
    }
  }

  class ReviewQueue {
    var orders: seq<Order>

    constructor ()
      ensures orders == []
    {
      orders := [];
    }

    /** `fetchOrders`: on a backend error the list stays as it was. */
    method FetchOrders(store: Store, fails: bool)
      requires store.Valid()
      modifies this
      ensures fails ==> orders == old(orders)
      ensures !fails ==> IsPendingQueue(store.orders, orders)
    {
      if !fails {
        orders := store.SelectPendingByCreation();
      }
    }

    /**
     * `handleStatusChange`: after confirmation, overwrite the status of the
     * order with this id whatever it was (backend call 1), then reload the
     * queue (call 2). Nothing else of the order, and none of its items, changes.
     */
    method HandleStatusChange(store: Store, orderId: OrderId, d: Decision, confirmed: bool, fault: Fault)
      returns (written: bool)
      requires store.Valid()
      modifies this, store
      ensures store.Valid() && store.itemRows == old(store.itemRows)
      ensures store.nextId == old(store.nextId) && store.nextRequestNumber == old(store.nextRequestNumber)
      ensures written == (confirmed && !Fails(fault, 1))
      ensures !written ==> store.orders == old(store.orders) && orders == old(orders)
      ensures written ==>
        && store.orders == (if orderId in old(store.orders)
                            then old(store.orders)[orderId := WithStatus(old(store.orders)[orderId], DecisionStatus(d))]
                            else old(store.orders))
        && (Fails(fault, 2) ==> orders == old(orders))
        && (!Fails(fault, 2) ==> IsPendingQueue(store.orders, orders)
                                 && forall i :: 0 <= i < |orders| ==> orders[i].id != orderId)
    {
      if !confirmed {
        return false;
      }
      var s := DecisionStatus(d);
      written := store.UpdateOrder(orderId, o => WithStatus(o, s), Fails(fault, 1));
      if written {
        FetchOrders(store, Fails(fault, 2));
        if !Fails(fault, 2) && orderId in old(store.orders) {
          DecidedOrderLeavesQueue(old(store.orders), orderId, d, orders);
        }
      }
    }
  }
}
