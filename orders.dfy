/**
 * The records of the purchase-order workflow: order rows, item rows and the
 * items held by the order forms, with the total of a list of items.
 *
 * Amounts are integer cents; quantities are whole units.
 */
module Orders {
  import opened Wrappers

  type OrderId = nat
  type UserId = string
  type Cents = int

  /** The three values the `status` column takes. */
  datatype Status = Pending | Approved | Rejected

  /** An item as the order forms hold it. The new-order form has no supplier field (None). */
  datatype Item = Item(productName: string, supplier: Option<string>, quantity: int, unitPrice: Cents)

  /** A row of the `order_items` table. */
  datatype ItemRow = ItemRow(orderId: OrderId, productName: string, supplier: Option<string>,
                             quantity: int, unitPrice: Cents)

  /** A row of the `orders` table. `title` is null for orders made by the new-order form. */
  datatype Order = Order(id: OrderId, requestNumber: nat, userId: UserId, title: Option<string>,
                         justification: string, totalAmount: Cents, status: Status,
                         reviewerNotes: Option<string>, createdAt: int)

  function LineTotal(it: Item): Cents {
    it.quantity * it.unitPrice
  }

  /** The forms' `calculateTotal`: a left-to-right reduce of the line totals, starting at 0. */
  function Total(items: seq<Item>): Cents
  {
    if items == [] then 0 else Total(items[..|items| - 1]) + LineTotal(items[|items| - 1])
  }

  /** Reference definition: the sum of the line totals, first item first. */
  function SumOfLineTotals(items: seq<Item>): Cents
  {
    if items == [] then 0 else LineTotal(items[0]) + SumOfLineTotals(items[1..])
  }

  lemma {:induction false} TotalConcat(a: seq<Item>, b: seq<Item>)
    ensures Total(a + b) == Total(a) + Total(b)
    decreases |b|
  {
    if b == [] {
      assert a + b == a;
    } else {
      var last := b[|b| - 1];
      assert (a + b)[..|a + b| - 1] == a + b[..|b| - 1];
      assert (a + b)[|a + b| - 1] == last;
      TotalConcat(a, b[..|b| - 1]);
    }
  }

  /** The total of a list split around one row. */
  lemma TotalAround(pre: seq<Item>, x: Item, post: seq<Item>)
    ensures Total(pre + [x] + post) == Total(pre) + LineTotal(x) + Total(post)
  {
    TotalConcat(pre + [x], post);
    TotalConcat(pre, [x]);
    assert [x][..0] == [];
  }

  /** The reduce computes exactly the sum of `quantity * unit_price` over the items; [] gives 0. */
  lemma {:induction false} TotalIsSumOfLineTotals(items: seq<Item>)
    ensures Total(items) == SumOfLineTotals(items)
    ensures items == [] ==> Total(items) == 0
    decreases |items|
  {
    if items != [] {
      assert items == [items[0]] + items[1..];
      TotalConcat([items[0]], items[1..]);
      assert [items[0]][..0] == [];
      TotalIsSumOfLineTotals(items[1..]);
    }
  }

  /** With no negative quantity or price the total is never negative. */
  lemma {:induction false} TotalNonNegative(items: seq<Item>)
    requires forall i :: 0 <= i < |items| ==> items[i].quantity >= 0 && items[i].unitPrice >= 0
    ensures Total(items) >= 0
    decreases |items|
  {
    if items != [] {
      var init := items[..|items| - 1];
      assert forall i :: 0 <= i < |init| ==> init[i] == items[i];
      TotalNonNegative(init);
    }
  }
}
