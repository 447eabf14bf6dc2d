/**
 * An in-memory stand-in for the backend tables the pages call: the `orders`
 * table keyed by id and the `order_items` table as a sequence of rows.
 * Every call may fail; the caller says which call fails with a `Fault`.
 */
module Store {
  import opened Wrappers
  import opened Orders

  /** Which backend call of a handler fails, counting from 1. */
  datatype Fault = NoFault | FailsAt(call: nat)

  predicate Fails(fault: Fault, call: nat) {
    fault == FailsAt(call)
  }

  /** `.from('order_items').select('*').eq('order_id', id)`, in table order. */
  function ItemsOf(rows: seq<ItemRow>, id: OrderId): (r: seq<ItemRow>)
    ensures forall i :: 0 <= i < |r| ==> r[i].orderId == id
    ensures forall x :: x in r <==> x in rows && x.orderId == id
  {
    if rows == [] then []
    else (if rows[0].orderId == id then [rows[0]] else []) + ItemsOf(rows[1..], id)
  }

  /** `.from('order_items').delete().eq('order_id', id)`: the rows that remain. */
  function WithoutOrder(rows: seq<ItemRow>, id: OrderId): (r: seq<ItemRow>)
    ensures forall x :: x in r <==> x in rows && x.orderId != id
  {
    if rows == [] then []
    else (if rows[0].orderId != id then [rows[0]] else []) + WithoutOrder(rows[1..], id)
  }

  /** The rows of one order in a list with a row in front. */
  lemma ItemsOfCons(x: ItemRow, rest: seq<ItemRow>, id: OrderId)
    ensures ItemsOf([x] + rest, id) == (if x.orderId == id then [x] else []) + ItemsOf(rest, id)
  {
    assert ([x] + rest)[1..] == rest;
  }

  lemma RowsRegroup(a: seq<ItemRow>, b: seq<ItemRow>, c: seq<ItemRow>)
    ensures a + b + c == a + (b + c)
  {
  }

  lemma {:induction false} ItemsOfConcat(a: seq<ItemRow>, b: seq<ItemRow>, id: OrderId)
    ensures ItemsOf(a + b, id) == ItemsOf(a, id) + ItemsOf(b, id)
    decreases |a|
  {
    if a != [] {
      var t := a[1..];
      var h := if a[0].orderId == id then [a[0]] else [];
      assert a == [a[0]] + t;
      RowsRegroup([a[0]], t, b);
      ItemsOfCons(a[0], t + b, id);
      ItemsOfCons(a[0], t, id);
      ItemsOfConcat(t, b, id);
      RowsRegroup(h, ItemsOf(t, id), ItemsOf(b, id));
    } else {
      assert a + b == b;
    }
  }

  lemma {:induction false} ItemsOfNone(rows: seq<ItemRow>, id: OrderId)
    requires forall i :: 0 <= i < |rows| ==> rows[i].orderId != id
    ensures ItemsOf(rows, id) == []
    decreases |rows|
  {
    if rows != [] {
      ItemsOfNone(rows[1..], id);
    }
  }

  lemma {:induction false} ItemsOfAll(rows: seq<ItemRow>, id: OrderId)
    requires forall i :: 0 <= i < |rows| ==> rows[i].orderId == id
    ensures ItemsOf(rows, id) == rows
    decreases |rows|
  {
    if rows != [] {
      ItemsOfAll(rows[1..], id);
    }
  }

  /** Deleting an order's rows keeps every other order's rows, in order, and leaves it none. */
  lemma {:induction false} ItemsOfWithoutOrder(rows: seq<ItemRow>, id: OrderId, other: OrderId)
    ensures ItemsOf(WithoutOrder(rows, id), id) == []
    ensures other != id ==> ItemsOf(WithoutOrder(rows, id), other) == ItemsOf(rows, other)
    decreases |rows|
  {
    if rows != [] {
      ItemsOfWithoutOrder(rows[1..], id, other);
      var head := if rows[0].orderId != id then [rows[0]] else [];
      ItemsOfConcat(head, WithoutOrder(rows[1..], id), id);
      ItemsOfConcat(head, WithoutOrder(rows[1..], id), other);
      assert ItemsOf(head, id) == [] by {
        if head != [] { assert head[1..] == []; }
      }
      assert other != id ==> ItemsOf(head, other) == (if rows[0].orderId == other then [rows[0]] else []) by {
        if head != [] { assert head[1..] == []; }
      }
    }
  }

  /** The rows `items.map(item => ({ order_id: id, ... }))` inserts; the new-order form sends no supplier. */
  function RowsFor(id: OrderId, items: seq<Item>, withSupplier: bool): (r: seq<ItemRow>)
    ensures |r| == |items|
    ensures forall j :: 0 <= j < |items| ==> r[j] == ItemRow(id, items[j].productName,
      if withSupplier then items[j].supplier else None, items[j].quantity, items[j].unitPrice)
  {
    seq(|items|, j requires 0 <= j < |items| =>
      ItemRow(id, items[j].productName, if withSupplier then items[j].supplier else None,
              items[j].quantity, items[j].unitPrice))
  }

  /** Appending an order's fresh rows: that order's rows are exactly them, every other order's are unchanged. */
  lemma InsertedRowsOf(rows: seq<ItemRow>, id: OrderId, items: seq<Item>, withSupplier: bool, other: OrderId)
    requires forall i :: 0 <= i < |rows| ==> rows[i].orderId != id
    ensures ItemsOf(rows + RowsFor(id, items, withSupplier), id) == RowsFor(id, items, withSupplier)
    ensures other != id ==> ItemsOf(rows + RowsFor(id, items, withSupplier), other) == ItemsOf(rows, other)
  {
    var added := RowsFor(id, items, withSupplier);
    ItemsOfConcat(rows, added, id);
    ItemsOfConcat(rows, added, other);
    ItemsOfNone(rows, id);
    ItemsOfAll(added, id);
    if other != id {
      ItemsOfNone(added, other);
    }
  }

  /** An order whose status the reviewer set: every other column as it was. */
  function WithStatus(o: Order, s: Status): (r: Order)
    ensures r.status == s
    ensures r.id == o.id && r.requestNumber == o.requestNumber && r.userId == o.userId
    ensures r.title == o.title && r.justification == o.justification
    ensures r.totalAmount == o.totalAmount && r.reviewerNotes == o.reviewerNotes && r.createdAt == o.createdAt
  {
    o.(status := s)
  }

  /** The edit form's update: title, justification, total, status back to pending, notes cleared. */
  function Resubmitted(o: Order, title: string, justification: string, items: seq<Item>): (r: Order)
    ensures r.status == Pending && r.reviewerNotes == None && r.totalAmount == Total(items)
    ensures r.title == Some(title) && r.justification == justification
    ensures r.id == o.id && r.requestNumber == o.requestNumber && r.userId == o.userId && r.createdAt == o.createdAt
  {
    o.(title := Some(title), justification := justification, totalAmount := Total(items),
       status := Pending, reviewerNotes := None)
  }

  /** `created_at` ascending. */
  ghost predicate SortedByCreation(q: seq<Order>) {
    forall i, j :: 0 <= i < j < |q| ==> q[i].createdAt <= q[j].createdAt
  }

  ghost predicate DistinctIds(q: seq<Order>) {
    forall i, j :: 0 <= i < j < |q| ==> q[i].id != q[j].id
  }

  /** The first of a sorted list is created no later than any of it. */
  lemma SortedHead(q: seq<Order>)
    requires q != [] && SortedByCreation(q)
    ensures forall x :: x in q ==> q[0].createdAt <= x.createdAt
    ensures SortedByCreation(q[1..])
  {
    forall x | x in q
      ensures q[0].createdAt <= x.createdAt
    {
      var k :| 0 <= k < |q| && q[k] == x;
    }
  }

  /** An order created no later than every order of a sorted list may go in front of it. */
  lemma SortedCons(x: Order, q: seq<Order>)
    requires SortedByCreation(q)
    requires forall y :: y in q ==> x.createdAt <= y.createdAt
    ensures SortedByCreation([x] + q)
  {
    var r := [x] + q;
    forall i, j | 0 <= i < j < |r|
      ensures r[i].createdAt <= r[j].createdAt
    {
      assert r[j] == q[j - 1];
      if i == 0 {
        assert q[j - 1] in q;
      } else {
        assert r[i] == q[i - 1];
      }
    }
  }

  /** An order whose id differs from those of a list of distinct ids may go in front of it. */
  lemma DistinctCons(x: Order, q: seq<Order>)
    requires DistinctIds(q)
    requires forall y :: y in q ==> x.id != y.id
    ensures DistinctIds([x] + q)
  {
    var r := [x] + q;
    forall i, j | 0 <= i < j < |r|
      ensures r[i].id != r[j].id
    {
      assert r[j] == q[j - 1];
      if i == 0 {
        assert q[j - 1] in q;
      } else {
        assert r[i] == q[i - 1];
      }
    }
  }

  /** Place `o` after every order created no later than it. */
  function InsertByCreation(q: seq<Order>, o: Order): (r: seq<Order>)
    requires SortedByCreation(q)
    ensures SortedByCreation(r)
    ensures |r| == |q| + 1
    ensures forall x :: x in r <==> x in q || x == o
    ensures multiset(r) == multiset(q) + multiset{o}
    decreases |q|
  {
    if q == [] then [o]
    else
      SortedHead(q);
      if o.createdAt < q[0].createdAt then
        SortedCons(o, q);
        [o] + q
      else
        var rest := InsertByCreation(q[1..], o);
        assert forall x :: x in q[1..] ==> x in q;
        assert q == [q[0]] + q[1..];
        SortedCons(q[0], rest);
        [q[0]] + rest
  }

  /** Inserting an order whose id is new keeps the ids distinct. */
  lemma {:induction false} InsertByCreationDistinct(q: seq<Order>, o: Order)
    requires SortedByCreation(q) && DistinctIds(q)
    requires forall x :: x in q ==> x.id != o.id
    ensures DistinctIds(InsertByCreation(q, o))
    decreases |q|
  {
    if q != [] {
      SortedHead(q);
      if o.createdAt < q[0].createdAt {
        DistinctCons(o, q);
      } else {
        var tail := q[1..];
        assert DistinctIds(tail) by {
          forall i, j | 0 <= i < j < |tail|
            ensures tail[i].id != tail[j].id
          {
            assert tail[i] == q[i + 1] && tail[j] == q[j + 1];
          }
        }
        assert forall x :: x in tail ==> x in q;
        InsertByCreationDistinct(tail, o);
        var rest := InsertByCreation(tail, o);
        forall y | y in rest
          ensures q[0].id != y.id
        {
          if y != o {
            var m :| 0 <= m < |tail| && tail[m] == y;
            assert q[m + 1] == y;
          }
        }
        DistinctCons(q[0], rest);
      }
    }
  }

  class Store {
    var orders: map<OrderId, Order>
    var itemRows: seq<ItemRow>
    var nextId: OrderId
    var nextRequestNumber: nat

    /** Rows are stored under their own id, and every id handed out so far is below `nextId`. */
    ghost predicate Valid()
      reads this
    {
      && (forall k :: k in orders ==> orders[k].id == k && k < nextId)
      && (forall i :: 0 <= i < |itemRows| ==> itemRows[i].orderId < nextId)
    }

    constructor ()
      ensures Valid() && orders == map[] && itemRows == []
    {
      orders, itemRows := map[], [];
      nextId, nextRequestNumber := 0, 1;
    }

    /**
     * `.from('orders').insert({...}).select().single()`: the backend assigns
     * id and request number, each the next of its sequence. A failed insert
     * may still use up a request number, so that counter is left open then.
     */
    method InsertOrder(userId: UserId, justification: string, total: Cents, now: int, fails: bool)
      returns (r: Option<Order>)
      requires Valid()
      modifies this
      ensures Valid() && itemRows == old(itemRows)
      ensures fails ==> r == None && orders == old(orders) && nextId == old(nextId)
      ensures !fails ==>
        && r == Some(Order(old(nextId), old(nextRequestNumber), userId, None, justification,
                           total, Pending, None, now))
        && old(nextId) !in old(orders)
        && orders == old(orders)[old(nextId) := r.value]
        && nextId == old(nextId) + 1
        && nextRequestNumber == old(nextRequestNumber) + 1
    {
      if fails {
        return None;
      }
      var o := Order(nextId, nextRequestNumber, userId, None, justification, total, Pending, None, now);
      orders := orders[nextId := o];
      nextId, nextRequestNumber := nextId + 1, nextRequestNumber + 1;
      r := Some(o);
    }

    /** `.from('orders').update(patch).eq('id', id)`: no row matches a missing id, and that is no error. */
    method UpdateOrder(id: OrderId, patched: Order -> Order, fails: bool) returns (ok: bool)
      requires Valid()
      requires forall o :: patched(o).id == o.id
      modifies this`orders
      ensures Valid() && ok == !fails
      ensures nextId == old(nextId) && nextRequestNumber == old(nextRequestNumber)
      ensures orders == if !fails && id in old(orders) then old(orders)[id := patched(old(orders)[id])] else old(orders)
    {
      if fails {
        return false;
      }
      if id in orders {
        orders := orders[id := patched(orders[id])];
      }
      ok := true;
    }

    /** `.from('order_items').delete().eq('order_id', id)` */
    method DeleteItemsOf(id: OrderId, fails: bool) returns (ok: bool)
      requires Valid()
      modifies this`itemRows
      ensures Valid() && ok == !fails
      ensures nextId == old(nextId) && nextRequestNumber == old(nextRequestNumber)
      ensures itemRows == if fails then old(itemRows) else WithoutOrder(old(itemRows), id)
    {
      ok := !fails;
      if ok {
        itemRows := WithoutOrder(itemRows, id);
      }
    }

    /** `.from('order_items').insert(rows)`: one statement, so all rows or none. */
    method InsertItems(rows: seq<ItemRow>, fails: bool) returns (ok: bool)
      requires Valid()
      requires forall i :: 0 <= i < |rows| ==> rows[i].orderId in orders
      modifies this`itemRows
      ensures Valid() && ok == !fails
      ensures nextId == old(nextId) && nextRequestNumber == old(nextRequestNumber)
      ensures itemRows == if fails then old(itemRows) else old(itemRows) + rows
    {
      ok := !fails;
      if ok {
        itemRows := itemRows + rows;
      }
    }

    /** `.from('orders').delete().eq('id', id)`; the item rows go with it (foreign-key cascade). */
    method DeleteOrder(id: OrderId, fails: bool) returns (ok: bool)
      requires Valid()
      modifies this`orders, this`itemRows
      ensures Valid() && ok == !fails
      ensures nextId == old(nextId) && nextRequestNumber == old(nextRequestNumber)
      ensures orders == if fails then old(orders) else old(orders) - {id}
      ensures itemRows == if fails then old(itemRows) else WithoutOrder(old(itemRows), id)
    {
      ok := !fails;
      if ok {
        orders := orders - {id};
        itemRows := WithoutOrder(itemRows, id);
      }
    }

    /**
     * `.from('orders').select(...).eq('status', 'pending').order('created_at', { ascending: true })`:
     * every pending order once, oldest first.
     */
    method SelectPendingByCreation() returns (q: seq<Order>)
      requires Valid()
      ensures SortedByCreation(q) && DistinctIds(q)
      ensures forall o :: o in q ==> o.id in orders && orders[o.id] == o && o.status == Pending
      ensures forall k :: k in orders && orders[k].status == Pending ==> orders[k] in q
    {
      q := [];
      var todo := orders.Keys;
      while todo != {}
        invariant todo <= orders.Keys
        invariant SortedByCreation(q) && DistinctIds(q)
        invariant forall o :: o in q ==> o.id in orders && o.id !in todo && orders[o.id] == o && o.status == Pending
        invariant forall k :: k in orders && k !in todo && orders[k].status == Pending ==> orders[k] in q
        decreases todo
      {
        var k :| k in todo;
        if orders[k].status == Pending {
          InsertByCreationDistinct(q, orders[k]);
          q := InsertByCreation(q, orders[k]);
        }
        todo := todo - {k};
      }
    }
  }
}
