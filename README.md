# Purchase orders: request, edit, review

A Dafny model of the purchase-order workflow of a small React front end that
keeps its data in a hosted Postgres backend. A requester fills in a new order
(a justification and a list of line items) on the new-order page; the order is
stored as *pending*. A reviewer sees every pending order, oldest first, and
approves or rejects it. The requester's list shows each order's status badge
and offers edit (rejected orders), delete (pending and rejected orders) and a
CSV download (approved orders). Editing rewrites the order, puts it back to
pending and clears the reviewer's notes.

Modules, one per page plus the shared parts:

- `Orders`: the order and item records, statuses, line totals and the order total.
- `ItemList`: the item list both forms edit (add, remove, update one field),
  the validation each submit runs, JavaScript's `trim`, and an `ItemEditor`
  class holding the list the form mutates.
- `Store`: the two backend tables (`orders`, `order_items`) as an in-memory
  `Store` class with one method per write the pages send and the reviewer's
  pending-queue query; the edit page's two reads are the pure function
  `EditOrder.LoadForEdit` over the tables, and the list page's read is left out.
- `NewOrder`, `EditOrder`, `MyOrders`, `Approvals`: each page's handlers.
- `Csv` and `Export`: the CSV text the download produces, an RFC 4180 reader
  for it (section 2 of RFC 4180), and the proof that reading the export back
  yields the values the page meant to write.
- `Workflow`: lemmas spanning pages and a worked create, reject, edit, approve run.

Money is held in integer cents; a backend failure is a `Fault` naming the
numbered backend call of a handler that fails, after which the handler stops
and keeps whatever earlier calls wrote.

Behaviour of the code a reader might not expect, which the model keeps:

- the new-order form has no title; `title` stays empty until the first edit;
- an empty item list passes both forms' validation;
- rejecting an order writes only the status; no reviewer notes are written;
- the reviewer's status write is keyed on id alone and does not check that
  the order is still pending;
- the edit page loads pending orders too; only the list limits the edit
  button to rejected ones;
- the edit is three separate writes, so a failure can leave an order
  resubmitted with its items deleted;
- the CSV always prints the status as "Aprobada", and no amount is rounded
  except the line total.

## Model

| member | source | states |
|---|---|---|
| Orders.TotalIsSumOfLineTotals | src/pages/EditOrder.jsx:83-85 | the reduce over the items equals the sum of quantity times unit price over every row; an empty list totals 0 |
| Orders.TotalConcat | src/pages/NewOrder.jsx:30-32 | the total of two lists joined is the sum of their totals |
| Orders.TotalNonNegative | src/pages/NewOrder.jsx:30-32 | when no row has a negative quantity or price the total is not negative |
| ItemList.InitialItems | src/pages/NewOrder.jsx:12-14 | the new-order form starts with one blank row: no name, quantity 1, price 0, total 0 |
| ItemList.AppendedKeepsEarlierRows | src/pages/EditOrder.jsx:69-71 | adding a row puts the blank last, keeps every earlier row, and a zero-price blank leaves the total unchanged |
| ItemList.RemovedAt | src/pages/EditOrder.jsx:73-75 | the filter by position removes exactly the row at the index when it is in range and nothing otherwise |
| ItemList.RemovedAtLengthAndTotal | src/pages/EditOrder.jsx:73-75 | the list shrinks by one iff the index is in range; the total drops by that row's line total |
| ItemList.RemovedAtShifts | src/pages/EditOrder.jsx:73-75 | rows before the removed one keep their place and later rows move up by one |
| ItemList.Edited | src/pages/EditOrder.jsx:77-81 | an update sets only the named field of the row |
| ItemList.Updated | src/pages/EditOrder.jsx:77-81 | the row at the index becomes the edited row, every other row and the length are unchanged |
| ItemList.UpdatedTotal | src/pages/EditOrder.jsx:77-85 | an update of a quantity or price changes the total by the change in that row's line total; other edits leave it unchanged |
| ItemList.BlankRowIsRejected | src/pages/NewOrder.jsx:37 | a list holding a freshly added blank row does not pass validation |
| ItemList.CheckNewOrder | src/pages/NewOrder.jsx:36-37 | submit is refused iff the justification is empty (reported first) or some row has no name or a quantity of at most 0 |
| ItemList.CheckEdit | src/pages/EditOrder.jsx:89-91 | the edit is refused for a blank title first, then an empty justification, then a bad row; otherwise accepted |
| ItemList.TrimStart | src/pages/EditOrder.jsx:89 | removes the leading whitespace and line terminators and nothing more |
| ItemList.TrimEnd | src/pages/EditOrder.jsx:89 | removes the trailing whitespace and line terminators and nothing more |
| ItemList.TrimIsEmptyIffBlank | src/pages/EditOrder.jsx:89 | the trimmed title is empty iff every character of it is whitespace |
| ItemList.ItemEditor.ForNewOrder | src/pages/NewOrder.jsx:12-14 | the new-order list starts as the one blank row, and its appended row carries no supplier |
| ItemList.ItemEditor.ForEdit | src/pages/EditOrder.jsx:56 | the edit list starts as the loaded items, and its appended row carries an empty supplier |
| ItemList.ItemEditor.AddItem | src/pages/NewOrder.jsx:16-18 | the list becomes the old list with the form's blank row appended |
| ItemList.ItemEditor.RemoveItem | src/pages/NewOrder.jsx:20-22 | the list becomes the old list without the row at the index |
| ItemList.ItemEditor.UpdateItem | src/pages/NewOrder.jsx:24-28 | the list becomes the old list with one field of one row changed |
| Store.ItemsOf | src/pages/EditOrder.jsx:49-52 | the item rows of one order are exactly the table's rows with that order id, in table order |
| Store.WithoutOrder | src/pages/EditOrder.jsx:110-113 | the delete keeps exactly the rows of other orders |
| Store.ItemsOfWithoutOrder | src/pages/EditOrder.jsx:110-113 | after the delete the order has no rows and every other order keeps its rows |
| Store.RowsFor | src/pages/EditOrder.jsx:118-124 | one row per form row, in order, tagged with the order id; the new-order form sends no supplier |
| Store.InsertedRowsOf | src/pages/EditOrder.jsx:126-128 | after the insert the order's rows are exactly the inserted ones and other orders' rows are unchanged |
| Store.WithStatus | src/pages/Approvals.jsx:34-37 | the reviewer's update changes the status and no other column |
| Store.Resubmitted | src/pages/EditOrder.jsx:96-105 | the edit's update sets title, justification and the new total, status back to pending, notes cleared, and keeps id, request number, owner and creation time |
| Store.InsertByCreation | src/pages/Approvals.jsx:15 | inserting into a list sorted by creation time keeps it sorted and yields the old list's orders plus the new one, as a multiset |
| Store.InsertByCreationDistinct | src/pages/Approvals.jsx:11-15 | inserting an order with a new id into a queue of distinct ids keeps the ids distinct |
| Store.Store.InsertOrder | src/pages/NewOrder.jsx:41-50 | the insert adds one pending order under a new id with the next request number and no title, or nothing on failure |
| Store.Store.UpdateOrder | src/pages/EditOrder.jsx:96-105 | the update patches the row with that id, does nothing for a missing id, and nothing on failure |
| Store.Store.DeleteItemsOf | src/pages/EditOrder.jsx:110-113 | the delete removes every item row of the order and no other, or nothing on failure |
| Store.Store.InsertItems | src/pages/EditOrder.jsx:126-128 | the insert appends all rows or, on failure, none |
| Store.Store.DeleteOrder | src/pages/MyOrders.jsx:40-43 | deleting an order removes it and its item rows, or nothing on failure |
| Store.Store.SelectPendingByCreation | src/pages/Approvals.jsx:11-15 | the query returns every pending order exactly once, only pending orders, sorted by creation time |
| NewOrder.CreatedOrder | src/pages/NewOrder.jsx:41-48 | the created order belongs to the user, is pending, has no title or notes and carries the form's total |
| NewOrder.HandleSubmit | src/pages/NewOrder.jsx:34-76 | a refused form writes nothing; otherwise the order is inserted, then its rows, and a failure of the second insert leaves the order without items |
| NewOrder.SubmittedItems | src/pages/NewOrder.jsx:54-63 | after a complete submit the new order's items are the form's rows, in order, without supplier |
| EditOrder.ItemsFromRows | src/pages/EditOrder.jsx:56 | the form's list has one entry per loaded row with the same name, supplier, quantity and price |
| EditOrder.LoadForEdit | src/pages/EditOrder.jsx:19-64 | the page refuses another user's order and an approved order, fails on a missing order or a failed read, and otherwise shows the order's fields and items |
| EditOrder.HandleUpdate | src/pages/EditOrder.jsx:87-140 | a refused form writes nothing; otherwise the order is resubmitted, its rows deleted, the new rows inserted, stopping at the first failed call |
| EditOrder.UpdatedItemsReadBack | src/pages/EditOrder.jsx:109-128 | after delete and insert the order's items read back as exactly the edited list and other orders are untouched |
| EditOrder.UpdateThenLoad | src/pages/EditOrder.jsx:96-128 | after a complete update the owner reloads the new title, justification and items with no notes |
| MyOrders.StatusName | src/pages/MyOrders.jsx:174-175 | each status is stored as one of the three column values |
| MyOrders.StatusLabels | src/pages/MyOrders.jsx:174-175 | the three statuses get three different badges; any value other than pending or approved reads "Rechazada" |
| MyOrders.StatusColours | src/pages/MyOrders.jsx:107-113 | the three statuses get three different colours; an unknown value gets the pending colour |
| MyOrders.ActionsByStatus | src/pages/MyOrders.jsx:188-216 | only approved orders can be downloaded, only non-approved deleted, only rejected edited |
| MyOrders.EditButtonLoads | src/pages/MyOrders.jsx:188-196 | the edit button only appears where the edit page will load the order for its owner |
| MyOrders.WithoutId | src/pages/MyOrders.jsx:47 | the list keeps exactly the orders with another id |
| MyOrders.WithoutIdConcat | src/pages/MyOrders.jsx:47 | filtering distributes over joined lists |
| MyOrders.WithoutIdIdempotent | src/pages/MyOrders.jsx:47 | filtering twice by the same id is filtering once |
| MyOrders.MyOrdersView.constructor | src/pages/MyOrders.jsx:25 | the view shows the fetched list |
| MyOrders.MyOrdersView.HandleDelete | src/pages/MyOrders.jsx:36-52 | without confirmation or on failure nothing changes; otherwise the order and its items leave the tables and the order leaves the list |
| Approvals.DecisionStatus | src/pages/Approvals.jsx:138-163 | the two buttons send rejected and approved, never pending |
| Approvals.DecidedOrderLeavesQueue | src/pages/Approvals.jsx:41 | after a decision the refetched queue lacks the decided order and keeps every other pending order |
| Approvals.ReviewQueue.constructor | src/pages/Approvals.jsx:6 | the queue starts empty |
| Approvals.ReviewQueue.FetchOrders | src/pages/Approvals.jsx:9-24 | a successful fetch shows exactly the pending orders oldest first; a failed one keeps the list |
| Approvals.ReviewQueue.HandleStatusChange | src/pages/Approvals.jsx:30-47 | without confirmation nothing is written; otherwise the status of that id is overwritten whatever it was, nothing else changes, and a successful refetch no longer shows the order |
| Csv.ReadQuotedEscape | src/pages/MyOrders.jsx:58 | a quoted escaped field reads back as the original text, followed by the rest |
| Csv.ReadRecordEncoded | src/pages/MyOrders.jsx:88 | a record joined with commas reads back as its field values |
| Csv.ReadEncoded | src/pages/MyOrders.jsx:77-88 | records joined with newlines read back as their values, row by row |
| Csv.QuoteRoundTrip | src/pages/MyOrders.jsx:67-68 | every quoted text reads back as the text itself, quotes included |
| Export.NatToStringValue | src/pages/MyOrders.jsx:57 | a request number prints as digits whose value is the number |
| Export.Fixed2ReadsBack | src/pages/MyOrders.jsx:71 | the line total printed with two decimals reads back as the same number of cents |
| Export.AmountReadsBack | src/pages/MyOrders.jsx:69-74 | a price or total printed as a JavaScript number reads back as the same number of cents |
| Export.ExportTable | src/pages/MyOrders.jsx:77-88 | the export has 9 rows plus one per item, item rows between the column header and the total |
| Export.ExportRowsWellFormed | src/pages/MyOrders.jsx:58-74 | every field the export writes unquoted holds no comma, quote or line break |
| Export.ExportReadsBack | src/pages/MyOrders.jsx:54-88 | reading the exported text back gives the header, title, date, status, justification, item and total values the page meant |
| Export.ExportAmountsReadBack | src/pages/MyOrders.jsx:66-74 | each item's unit price and line total and the order total read back as the stored amounts |
| Workflow.ApprovedIsClosedToOwner | src/pages/EditOrder.jsx:37-42 | an approved order offers its owner no edit and no delete, and the edit page refuses it |

## Left out

- The backend (Supabase) itself: the two tables are an in-memory store; a failed call is a `Fault` parameter, not a network error.
- Row-level security and any database trigger beyond the cascade of item rows on order delete, which is assumed.
- Authentication, routing, the layout, the login page and the navigation after each handler.
- `alert`, `confirm` and the loading flags: a confirmation is a `confirmed` parameter; messages are not modelled.
- The requester's list query (owner's orders, newest first, with their items): the view is built from a given list.
- The `profiles(full_name)` join of the reviewer's query: the queue holds the order rows only.
- `getStatusIcon` and the rest of the JSX markup.
- `parseInt` and `parseFloat` of form input: fields hold integers and cents already.
- The inputs' `required`, `min="1"`, `min="0"` and `step="0.01"` attributes (src/pages/NewOrder.jsx:184-223, src/pages/EditOrder.jsx:316-373): the browser refuses a negative price, a fractional quantity or a sub-cent price before a handler runs; the modelled handlers accept any integer quantity and price in cents, and the step of 0.01 is what makes whole cents exact.
- Floating-point arithmetic: amounts are exact integer cents, so binary rounding of prices is not modelled.
- Export.AmountToString: JavaScript's exponent form for numbers of 1e21 and more is not modelled.
- `toLocaleDateString`: the date is an opaque text parameter; the read-back lemma requires it to hold no comma, quote or line break.
- The Blob, the download link and its file name.
- Concurrency between pages: each handler runs alone against the store.
- ItemList.ItemEditor.UpdateItem: requires the index to be in range, where the source would throw on a missing row; only a row's own inputs call it.
- ItemList.ItemEditor.UpdateItem: the source mutates the shared row object in place before copying the list; the model replaces the list value, which no later read can tell apart.
- EditOrder.LoadForEdit: the item query has no order clause; the model returns rows in table order.
