/**
 * The item list edited by the new-order and edit-order forms: the blank row
 * each form appends, removal by index, the single-field update, the
 * validation both submit handlers run, and the title trim of the edit form.
 */
module ItemList {
  import opened Wrappers
  import opened Orders

  /** The row the new-order form starts with and appends: no supplier field. */
  const NewOrderBlank: Item := Item("", None, 1, 0)

  /** The row the edit form appends: with an empty supplier. */
  const EditOrderBlank: Item := Item("", Some(""), 1, 0)

  /** The new-order form's initial list: one blank row. */
  function InitialItems(): (r: seq<Item>)
    ensures |r| == 1 && r[0].productName == "" && r[0].quantity == 1 && r[0].unitPrice == 0
    ensures Total(r) == 0
  {
    [NewOrderBlank]
  }

  /** `[...items, blank]` */
  function Appended(items: seq<Item>, blank: Item): seq<Item>
  {
    items + [blank]
  }

  /** Adding a row puts `blank` last and keeps every earlier row; a zero-price blank leaves the total as it was. */
  lemma AppendedKeepsEarlierRows(items: seq<Item>, blank: Item)
    ensures |Appended(items, blank)| == |items| + 1
    ensures Appended(items, blank)[..|items|] == items && Appended(items, blank)[|items|] == blank
    ensures Total(Appended(items, blank)) == Total(items) + LineTotal(blank)
    ensures blank.unitPrice == 0 ==> Total(Appended(items, blank)) == Total(items)
  {
    assert Appended(items, blank)[..|items|] == items;
  }

  /** `items.filter((_, i) => i !== index)`: keep every row whose position differs from `index`. */
  function RemovedAt(items: seq<Item>, index: int): (r: seq<Item>)
    ensures 0 <= index < |items| ==> r == items[..index] + items[index + 1..]
    ensures !(0 <= index < |items|) ==> r == items
    decreases |items|
  {
    if items == [] then []
    else (if index == 0 then [] else [items[0]]) + RemovedAt(items[1..], index - 1)
  }

  /** A list is the part before a position, the row there, and the part after it. */
  lemma SplitAt(items: seq<Item>, index: int)
    requires 0 <= index < |items|
    ensures items == items[..index] + [items[index]] + items[index + 1..]
  {
  }

  /** Removal drops exactly one row, and its line total, iff the index is in range. */
  lemma RemovedAtLengthAndTotal(items: seq<Item>, index: int)
    ensures |RemovedAt(items, index)| == |items| - 1 <==> 0 <= index < |items|
    ensures 0 <= index < |items| ==> Total(RemovedAt(items, index)) == Total(items) - LineTotal(items[index])
  {
    if 0 <= index < |items| {
      var pre, post := items[..index], items[index + 1..];
      SplitAt(items, index);
      TotalAround(pre, items[index], post);
      TotalConcat(pre, post);
    }
  }

  /** The rows after the removed one move up by one place; the rows before it stay. */
  lemma RemovedAtShifts(items: seq<Item>, index: int, j: int)
    requires 0 <= j < |RemovedAt(items, index)|
    ensures RemovedAt(items, index)[j] == (if 0 <= index <= j then items[j + 1] else items[j])
  {
  }

  /** One field of one row, with the value the input gave it. */
  datatype FieldEdit =
    | SetProductName(name: string)
    | SetSupplier(supplier: string)
    | SetQuantity(quantity: int)
    | SetUnitPrice(price: Cents)

  /** `item[field] = value`: only the named field takes the new value. */
  function Edited(it: Item, e: FieldEdit): (r: Item)
    ensures r.productName == (if e.SetProductName? then e.name else it.productName)
    ensures r.supplier == (if e.SetSupplier? then Some(e.supplier) else it.supplier)
    ensures r.quantity == (if e.SetQuantity? then e.quantity else it.quantity)
    ensures r.unitPrice == (if e.SetUnitPrice? then e.price else it.unitPrice)
  {
    match e
    case SetProductName(n) => it.(productName := n)
    case SetSupplier(s) => it.(supplier := Some(s))
    case SetQuantity(q) => it.(quantity := q)
    case SetUnitPrice(p) => it.(unitPrice := p)
  }

  /** `newItems[index][field] = value` on a copy of the list. */
  function Updated(items: seq<Item>, index: int, e: FieldEdit): (r: seq<Item>)
    requires 0 <= index < |items|
    ensures |r| == |items|
    ensures forall j :: 0 <= j < |items| && j != index ==> r[j] == items[j]
    ensures r[index] == Edited(items[index], e)
  {
    items[index := Edited(items[index], e)]
  }

  /** The total changes by the difference in the edited row's line total; name and supplier edits leave it alone. */
  lemma UpdatedTotal(items: seq<Item>, index: int, e: FieldEdit)
    requires 0 <= index < |items|
    ensures Total(Updated(items, index, e)) == Total(items) - LineTotal(items[index]) + LineTotal(Edited(items[index], e))
    ensures e.SetProductName? || e.SetSupplier? ==> Total(Updated(items, index, e)) == Total(items)
  {
    var pre, post := items[..index], items[index + 1..];
    var edited := Edited(items[index], e);
    SplitAt(items, index);
    SplitAt(Updated(items, index, e), index);
    assert Updated(items, index, e)[..index] == pre && Updated(items, index, e)[index + 1..] == post;
    TotalAround(pre, items[index], post);
    TotalAround(pre, edited, post);
  }

  /** `!i.product_name || i.quantity <= 0` */
  predicate ItemRejected(it: Item) {
    it.productName == "" || it.quantity <= 0
  }

  /** `items.some(...)` of the rule above. */
  predicate SomeItemRejected(items: seq<Item>) {
    exists i :: 0 <= i < |items| && ItemRejected(items[i])
  }

  /** A freshly appended blank row always fails the item check until its name is filled in. */
  lemma BlankRowIsRejected(items: seq<Item>)
    ensures SomeItemRejected(Appended(items, NewOrderBlank))
    ensures SomeItemRejected(Appended(items, EditOrderBlank))
  {
    assert ItemRejected(Appended(items, NewOrderBlank)[|items|]);
    assert ItemRejected(Appended(items, EditOrderBlank)[|items|]);
  }

  /** The alert a submit handler shows instead of writing. */
  datatype FormError = MissingTitle | MissingJustification | InvalidItems

  /** The new-order checks: justification, then items; there is no title check, and [] passes. */
  function CheckNewOrder(justification: string, items: seq<Item>): (r: Option<FormError>)
    ensures r == None <==> justification != "" && forall i :: 0 <= i < |items| ==> !ItemRejected(items[i])
    ensures r == Some(MissingJustification) <==> justification == ""
    ensures r == Some(InvalidItems) <==> justification != "" && SomeItemRejected(items)
    ensures r != Some(MissingTitle)
  {
    if justification == "" then Some(MissingJustification)
    else if SomeItemRejected(items) then Some(InvalidItems)
    else None
  }

  /** Why a submit handler wrote nothing, or stopped part way: a failed check, or a backend error. */
  datatype SubmitError = Invalid(reason: FormError) | BackendFailed

  /** The edit checks: trimmed title, then justification, then items; [] passes. */
  function CheckEdit(title: string, justification: string, items: seq<Item>): (r: Option<FormError>)
    ensures r == None <==> !IsBlank(title) && justification != "" && forall i :: 0 <= i < |items| ==> !ItemRejected(items[i])
    ensures r == Some(MissingTitle) <==> IsBlank(title)
    ensures r == Some(MissingJustification) <==> !IsBlank(title) && justification == ""
    ensures r == Some(InvalidItems) <==> !IsBlank(title) && justification != "" && SomeItemRejected(items)
  {
    TrimIsEmptyIffBlank(title);
    if Trim(title) == "" then Some(MissingTitle)
    else if justification == "" then Some(MissingJustification)
    else if SomeItemRejected(items) then Some(InvalidItems)
    else None
  }

  /** The characters `String.prototype.trim` removes: white space and line terminators. */
  predicate IsJsWhitespace(c: char) {
    c == '\t' || c == '\n' || c == '\U{000B}' || c == '\U{000C}' || c == '\r' || c == ' '
    || c == '\U{00A0}' || c == '\U{1680}' || ('\U{2000}' <= c <= '\U{200A}')
    || c == '\U{2028}' || c == '\U{2029}' || c == '\U{202F}' || c == '\U{205F}'
    || c == '\U{3000}' || c == '\U{FEFF}'
  }

  ghost predicate IsBlank(s: string) {
    forall i :: 0 <= i < |s| ==> IsJsWhitespace(s[i])
  }

  function TrimStart(s: string): (r: string)
    ensures |r| <= |s| && r == s[|s| - |r|..]
    ensures r == [] || !IsJsWhitespace(r[0])
    ensures forall i :: 0 <= i < |s| - |r| ==> IsJsWhitespace(s[i])
    decreases |s|
  {
    if s != [] && IsJsWhitespace(s[0]) then TrimStart(s[1..]) else s
  }

  function TrimEnd(s: string): (r: string)
    ensures |r| <= |s| && r == s[..|r|]
    ensures r == [] || !IsJsWhitespace(r[|r| - 1])
    ensures forall i :: |r| <= i < |s| ==> IsJsWhitespace(s[i])
    decreases |s|
  {
    if s != [] && IsJsWhitespace(s[|s| - 1]) then TrimEnd(s[..|s| - 1]) else s
  }

  /** `title.trim()` */
  function Trim(s: string): string {
    TrimEnd(TrimStart(s))
  }

  /** `!title.trim()` holds exactly when the title is empty or all white space. */
  lemma TrimIsEmptyIffBlank(s: string)
    ensures Trim(s) == "" <==> IsBlank(s)
  {
    var t := TrimStart(s);
    if t != [] {
      assert !IsJsWhitespace(s[|s| - |t|]);
    } else {
      assert IsBlank(s);
    }
  }

  /**
   * The item list of a form, as the page's state hook holds it; each handler
   * replaces the list with its edited copy.
   */
  class ItemEditor {
    var items: seq<Item>
    const blank: Item

    /** The new-order form: one blank row. */
    constructor ForNewOrder()
      ensures items == InitialItems() && blank == NewOrderBlank
    {
      items := InitialItems();
      blank := NewOrderBlank;
    }

    /** The edit form, filled with the order's stored items. */
    constructor ForEdit(loaded: seq<Item>)
      ensures items == loaded && blank == EditOrderBlank
    {
      items := loaded;
      blank := EditOrderBlank;
    }

    /** `addItem` */
    method AddItem()
      modifies this
      ensures items == Appended(old(items), blank)
    {
      items := Appended(items, blank);
    }

    /** `removeItem(index)` */
    method RemoveItem(index: int)
      modifies this
      ensures items == RemovedAt(old(items), index)
    {
      items := RemovedAt(items, index);
    }

    /** `updateItem(index, field, value)`; each row's inputs pass their own index. */
    method UpdateItem(index: int, e: FieldEdit)
      requires 0 <= index < |items|
      modifies this
      ensures items == Updated(old(items), index, e)
    {
      items := Updated(items, index, e);
    }
  }
}
