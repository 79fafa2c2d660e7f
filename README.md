# Point-of-sale and inventory tracker — a verified model

This project models the core of a single-store point-of-sale and inventory desktop
application. Cashiers ring up sales at a counter. An administrator manages stock, the
cashier counters and their passwords.

Two SQLite databases back the application:

- `inventory.db` holds the `products` table.
- `Counter.db` holds `counters`, `sales` and `sale_items`, with foreign keys enforced.

Each table is modelled as an in-memory value. A value holds the rows by key and the next
key `AUTOINCREMENT` will hand out. Because tables are values, a transaction's snapshot is a
copy and a rollback is an assignment.

| module | file | models |
|---|---|---|
| `Wrappers` | wrappers.dfy | `Option` |
| `Text` | text.dfy | the string operations the code relies on: `lower()`, `capitalize()`, `strip()`, `in`, `int()`, `str()`, string ordering |
| `Seqs` | seqs.dfy | `WHERE` as selection; `ORDER BY ... DESC` as a permutation with non-increasing keys |
| `Tables` | tables.dfy | an `AUTOINCREMENT` table: insert, update, delete, and a scan in key order |
| `Catalog` | catalog.dfy | `InventoryDB` (database.py) |
| `Ledger` | ledger.dfy | `CounterDB` (database.py), including the `record_sale` transaction |
| `Checkout` | checkout.dfy | the cashier screen (cashier_employee.py): cart, customer, checkout, history search |
| `Inventory` | inventory.dfy | the inventory screen (inventory.py): filter widgets, product listing, search, add/edit/delete/restock forms |
| `Admin` | admin.dfy | the counter-management screen (cashier_admin.py), including the cascading delete |
| `Login` | login.dfy | the login of the application window (app.py) |

## Modelling choices

- **Money.**
  - Amounts are integers in minor units (paisa), not SQLite `REAL`s.
  - A price entry is modelled after `float()` has already run: `None` when `float()` raises.
- **Time.**
  - A time is a whole number of seconds, supplied by the caller as `now`.
  - `DATE(sale_time)` is `t / 86400`.
  - The wall-clock receipt id is an input too.
- **Storage faults.**
  - Engine exceptions are explicit inputs wherever they are the only way an operation fails:
    - `fault: bool` for `update_product_quantity`;
    - `faults: set<nat>` for the stock loop of `complete_sale`;
    - `fault: Option<nat>` for the index of the failing statement in the counter-delete cascade.
  - Unique-constraint violations (`IntegrityError`) are modelled as a `None` result.
- **Screens.** Each screen is a class holding the state the source mutates:
  - the cart lines;
  - the customer;
  - the filter widgets;
  - the rows a table shows;
  - the logged-in user.

  Each method is proved against a pure specification function, and the lemmas about that
  function carry the properties.

Where the code's behaviour differs from its documented design, the model follows the code:

- `record_sale` accepts an empty item list. It records a sale with no items (database.py:357).
- `complete_sale` does not re-check stock before recording. The only stock checks happen
  when a line is added (cashier_employee.py:536-550). `increase_quantity` raises a line
  with no stock check at all (cashier_employee.py:605).
- A failing stock update after `record_sale` leaves the sale recorded, the earlier
  decrements applied and the cart kept (cashier_employee.py:1160-1166).
- `complete_sale` passes no `sale_time` or `payment_method`, so `record_sale` supplies the
  current time and "cash" (database.py:344-345).
- The status markers of the product table are written in the source as the text their
  coloured-circle emoji become when their UTF-8 bytes are read as Mac Roman: U+F8FF then "üî¥",
  U+F8FF then "üü°", and U+F8FF then "üü¢" (inventory.py:342-348). The model keeps that
  text, so `search_items` matches queries against it.
- `add_item_action` refuses an initial quantity of 0 as a missing field, because `all()`
  treats 0 as false (inventory.py:683). So its "Out of Stock" branch can never produce a
  stored row. `Inventory.ValidateNewItem` states this.

## Model

| member | source | states |
|---|---|---|
| Catalog.StatusFor | inventory.py:663-668 | "Out of Stock" when quantity ≤ 0, "Low Stock" for 1..10 and "In Stock" above 10, each as an if-and-only-if |
| Catalog.ProductUpdates.ApplyTo | database.py:127-146 | an update keeps the id; each present entry writes its value into its column and each absent one keeps the column; an empty update changes nothing |
| Catalog.Refreshed | inventory.py:325-333 | the unconditional status rewrite keeps every key and the next id, and gives each row the status of its own quantity |
| Catalog.ColumnValues | database.py:176-188 | a column read off a scan holds exactly the values that column has in some stored row |
| Catalog.InventoryDB.constructor | database.py:6-28 | a new products table is empty and valid |
| Catalog.InventoryDB.AddProduct | database.py:30-48 | the row gets the next id, with the given columns; a duplicate code (`UNIQUE`) fails and changes nothing |
| Catalog.InventoryDB.GetProducts | database.py:50-125 | exactly the stored rows that every enabled clause accepts (category, company, known status, one price or quantity range, search over four columns), in id order |
| Catalog.InventoryDB.UpdateProduct | database.py:127-146 | no entries, or an unknown id, gives false and writes nothing; a code clash fails and writes nothing; otherwise exactly that row is updated and status is not recomputed |
| Catalog.InventoryDB.DeleteProduct | database.py:148-154 | true iff the id existed; only that key is removed |
| Catalog.InventoryDB.RestockProduct | database.py:156-174 | a non-positive amount or an unknown id gives false and writes nothing; otherwise quantity rises by exactly the amount and status follows the new quantity |
| Catalog.InventoryDB.GetProductStock | database.py:190-194 | the stored quantity iff the id exists, else None |
| Catalog.InventoryDB.UpdateProductQuantity | database.py:196-209 | adds the signed delta to that row's quantity only, leaving status alone; true for an unknown id; an engine fault gives false and writes nothing |
| Catalog.InventoryDB.GetAllCategories | database.py:176-181 | strictly ascending, and holds exactly the categories present |
| Catalog.InventoryDB.GetAllCompanies | database.py:183-188 | strictly ascending, and holds exactly the companies present |
| Catalog.InventoryDB.RefreshAllStatuses | inventory.py:325-333 | after the statement every status agrees with its quantity, and nothing else changes |
| Catalog.InventoryDB.RefreshStatus | inventory.py:642-654 | only that row's status is rewritten from its quantity; an unknown id changes nothing |
| Ledger.CounterUpdates.ApplyTo | database.py:303-323 | keeps id and creation time; unlisted keys are ignored, so an update of only unlisted keys changes nothing |
| Ledger.FirstIncomplete | database.py:357-359 | None iff every item has all five keys; otherwise the index of the first item missing one |
| Ledger.ItemRows | database.py:357-368 | one row per item, in order, with consecutive ids from the next id |
| Ledger.InsertItems | database.py:357-368 | the inserted rows take the next ids, belong to the sale, and leave every earlier row as it was |
| Ledger.CounterData.GetCounters | database.py:288-301 | exactly the stored counters (only the active ones when asked), by ascending id |
| Ledger.CounterData.SalesWhere | database.py:421 | the sales a condition accepts, each once, ordered by non-increasing sale time |
| Ledger.CounterData.GetSalesHistory | database.py:380-427 | the sales every supplied filter accepts (date range, counter, cashier; a 0 id is ignored), latest first |
| Ledger.CounterData.GetTransactionsForCounter | database.py:478-490 | exactly that counter's sales, latest first |
| Ledger.CounterData.GetSalesByDate | database.py:492-513 | exactly the sales of that day, latest first |
| Ledger.CounterData.GetAllSales | database.py:515-535 | every sale once, latest first |
| Ledger.CounterData.GetSalesByCashier | database.py:537-552 | exactly the sales recorded under that cashier name, latest first |
| Ledger.CounterData.GetSalesByDateAndCashier | database.py:554-569 | exactly the sales of that day and cashier, latest first |
| Ledger.CounterData.ItemsOf | database.py:447-455 | exactly the line items of that sale, in id order |
| Ledger.CounterData.GetSaleDetails | database.py:429-476 | None iff the sale id is unknown; otherwise its header and exactly its line items |
| Ledger.AppendSaleKeepsValid | database.py:325-371 | a committed sale keeps keys, unique receipts and both foreign keys valid |
| Ledger.RecordSaleResult | database.py:325-378 | the outcome is a duplicate receipt iff the receipt is taken, an unknown counter iff the counter is missing (foreign key), and recorded iff every item is complete; every failure leaves all tables as they were |
| Ledger.RecordedSaleReadsBack | database.py:325-371 | a recorded sale reads back through `get_sale_details` as the header with its defaults and exactly the item rows written |
| Ledger.RecordedSaleListed | database.py:537-569 | a recorded sale appears under its cashier and under its day, and every earlier sale is still listed |
| Ledger.AppendedItemsOf | database.py:357-368 | a new sale's items are exactly the rows written for it, and other sales' items are unchanged |
| Ledger.ItemsAppended | database.py:357-368 | scanning after the item inserts is the old scan followed by the new rows |
| Ledger.CounterDB.constructor | database.py:215-275 | the three tables start empty and valid |
| Ledger.CounterDB.AddCounter | database.py:277-286 | the counter gets the next id and the insertion time; a taken name fails and changes nothing |
| Ledger.CounterDB.UpdateCounter | database.py:303-323 | no allow-listed key, or an unknown id, gives false and writes nothing; a name clash fails; otherwise exactly that counter is updated |
| Ledger.CounterDB.InsertItemRows | database.py:357-368 | the item loop stops at exactly the first item missing a key; when none does, the rows are those of `InsertItems` and the other tables are untouched |
| Ledger.CounterDB.RecordSale | database.py:325-378 | the header, then the items one at a time; a malformed item rolls back to the snapshot; the result is `RecordSaleResult` |
| Checkout.CartTotalAppend | cashier_employee.py:558-564 | appending a line adds its total to the cart total |
| Checkout.CartTotalReplace | cashier_employee.py:551-552 | replacing a line changes the cart total by the difference of the two line totals |
| Checkout.CartTotalRemove | cashier_employee.py:628 | removing a line lowers the cart total by that line's total |
| Checkout.RemoveAt | cashier_employee.py:628 | `del cart[i]`: one line shorter, everything before `i` kept and everything after shifted down |
| Checkout.RemoveKeepsValid | cashier_employee.py:628 | removing a line keeps every line's total consistent and product ids distinct |
| Checkout.WithQuantity | cashier_employee.py:1289-1290 | the line keeps id, name and price; its total is price × new quantity |
| Checkout.ReplaceKeepsValid | cashier_employee.py:605-606 | a positive new quantity keeps the cart valid |
| Checkout.FindLine | cashier_employee.py:544-545 | the first line with that product id, or None iff there is none |
| Checkout.AdjustQuantity | cashier_employee.py:474-483 | unreadable text becomes "1"; otherwise the result reads back as a number of at least 1, at most the stock when the stock is at least 1, and equal to the old value plus the change when that is in range |
| Checkout.CheckoutCounters | cashier_employee.py:1115-1124 | exactly the stored counters that are active, by strictly ascending id, so the one charged is the active counter with the lowest id |
| Checkout.LineItem | cashier_employee.py:1142-1148 | the item entry copies the line's id, name, quantity, price and total, and is complete |
| Checkout.LineItems | cashier_employee.py:1141-1150 | one complete item per cart line, in order |
| Checkout.ItemRowsTotal | cashier_employee.py:1130 | the stored line totals of a cart add up to the cart total |
| Checkout.Decremented | cashier_employee.py:1160-1167 | the products after each line's decrement keep their keys and next id |
| Checkout.DecrementedStock | cashier_employee.py:1160-1167 | every product's quantity is down by exactly what the lines order of it; every other column stays |
| Checkout.OrderedLine | cashier_employee.py:544-564 | in a valid cart a product is ordered exactly by its own line |
| Checkout.OrderedNone | cashier_employee.py:1160-1167 | a product no line names is not ordered |
| Checkout.FirstFault | cashier_employee.py:1165-1166 | the first line whose update fails, or None iff no line fails |
| Checkout.FilterHistory | cashier_employee.py:1020-1038 | an empty search shows every sale; otherwise exactly the sales whose receipt id or non-empty customer name contains the search, ignoring case; an order by non-increasing sale time and the absence of duplicates carry over to the result |
| Checkout.CheckoutResult | cashier_employee.py:1103-1192 | an empty cart, no customer, or no active counter (each iff its condition) changes nothing; with all three present the record fails iff `record_sale` refuses the first active counter's sale, with its error, and changes nothing; once it is accepted the counter store is `record_sale`'s accepted state, the stock loop fails iff some line's update faults, at the first such line, keeping the sale, the earlier decrements and the cart; success clears cart and customer and decrements every line |
| Checkout.ActiveRecheckRedundant | cashier_employee.py:1115-1122 | the case-insensitive active re-check never rejects every counter that `get_counters()` returned |
| Checkout.CheckoutSaleBalances | cashier_employee.py:1133-1154 | a completed checkout's sale reads back with the receipt, the user, the customer, "cash", `now`, one item per line, and a header total equal to the cart total and to the sum of its stored items |
| Checkout.CompletedCheckout | cashier_employee.py:1115-1156 | a completed checkout is the sale `record_sale` accepted for the first active counter: its receipt was new, its counter exists, and its id is the next sale id |
| Checkout.CheckoutStock | cashier_employee.py:1158-1167 | after a completed checkout each product's stock is down by exactly what the cart ordered, and status is unchanged |
| Checkout.DecrementedCart | cashier_employee.py:1158-1167 | for a cart with one line per product, each cart product falls by exactly its line's quantity and every other product is untouched |
| Checkout.CashierEmployee.constructor | cashier_employee.py:15-26 | empty cart, no customer, valid stores |
| Checkout.CashierEmployee.ValidateAndAddToCart | cashier_employee.py:484-495 | text that is not a whole number in 1..max is refused and the cart is unchanged; otherwise the result of the add |
| Checkout.CashierEmployee.AddToCartWithQuantity | cashier_employee.py:532-572 | the loop over the cart finds the product's line; the result is `AddToCart` of the live stock |
| Checkout.CashierEmployee.CartDisplayTotal | cashier_employee.py:579-589 | the running sum equals the cart total |
| Checkout.CashierEmployee.IncreaseQuantity | cashier_employee.py:598-607 | the selected line's quantity rises by one and its total follows; no stock check |
| Checkout.CashierEmployee.DecreaseQuantity | cashier_employee.py:609-619 | the selected line's quantity falls by one when above 1, otherwise nothing changes |
| Checkout.CashierEmployee.RemoveItem | cashier_employee.py:621-629 | exactly the selected line leaves the cart |
| Checkout.CashierEmployee.DeleteSelectedItem | cashier_employee.py:1202-1211 | the same removal, with a warning iff nothing is selected |
| Checkout.CashierEmployee.UpdateItemQuantity | cashier_employee.py:1282-1295 | a whole positive number replaces the line's quantity and total; anything else leaves the cart as it was |
| Checkout.CashierEmployee.SetCustomer | cashier_employee.py:704-715 | a name that is not blank becomes the customer, stripped, with empty phone and email; a blank name changes nothing |
| Checkout.CashierEmployee.CancelSale | cashier_employee.py:1296-1311 | with neither cart nor customer nothing changes; an empty cart drops the customer; otherwise both are cleared iff confirmed |
| Checkout.CashierEmployee.CompleteSale | cashier_employee.py:1103-1192 | the new stores, cart and customer are exactly what `CheckoutResult` gives |
| Checkout.CashierEmployee.ChargeSale | cashier_employee.py:1133-1185 | recording, then the stock loop, then clearing cart and customer, together give exactly `CheckoutResult` |
| Checkout.CashierEmployee.DecrementStock | cashier_employee.py:1160-1167 | stops at the first failing line, and the products are decremented for exactly the lines before it |
| Checkout.CashierEmployee.HistoryRows | cashier_employee.py:991-1038 | exactly the cashier's own sales whose receipt or customer contains the lowered search text, each once, by non-increasing sale time |
| Checkout.AddToCart | cashier_employee.py:532-572 | refused, with the cart unchanged, iff the product is missing, the quantity is above stock, or the line `FindLine` finds would exceed stock; otherwise the line `FindLine` finds is raised, or iff there is none a line is appended; the cart stays valid, that product's quantity stays within stock, and the total rises by price × quantity |
| Inventory.FiltersFor | inventory.py:366-412 | key by key: no key for an "All ..." choice or a blank search; the search is stripped; at most one range, only when both bounds read as numbers, with defaults 0 and unbounded |
| Inventory.DefaultWidgetsListEverything | inventory.py:366-412 | the start-up widget values accept every product |
| Inventory.SearchHits | inventory.py:593-610 | exactly the shown rows some cell of which, lowered, contains the query; the status cell carries the marker text as the source file spells it |
| Inventory.MarkerQueryKeepsEveryRow | inventory.py:340-348 | every status marker, as the source file spells it, contains "ü", so searching for "ü" keeps every shown row |
| Inventory.ValidateNewItem | inventory.py:656-691 | the form passes iff the quantity is a whole number ≥ 1, both prices parse and are positive, and no text is blank; the row is stripped with the status of its quantity; quantity 0 is a missing field |
| Inventory.WorthZero | inventory.py:679-683 | with a positive quantity, `worth` is zero iff the price is |
| Inventory.ValidateEdit | inventory.py:702-720 | passes iff both prices parse and are positive and no text is blank; the update names exactly the six edited columns, never quantity or status |
| Inventory.ValidateRestock | inventory.py:763-765 | passes iff the text is a whole positive number, and then gives that number |
| Inventory.InventorySection.constructor | inventory.py:7-18 | start-up widget values and lists, nothing shown |
| Inventory.InventorySection.GetCurrentFilters | inventory.py:366-412 | the dictionary filled step by step equals `FiltersFor` of the widgets |
| Inventory.InventorySection.PopulateSampleData | inventory.py:318-364 | every status is rewritten first; then exactly the selected products are shown, each with a current status |
| Inventory.InventorySection.RefreshFilters | inventory.py:180-202 | the lists are reloaded; a selection is kept iff still present, else reset to "All ..." |
| Inventory.InventorySection.SearchItems | inventory.py:593-610 | an empty query reloads; otherwise the loop keeps exactly the matching rows in order |
| Inventory.InventorySection.UpdateProductStatus | inventory.py:642-654 | only that row's status follows its quantity |
| Inventory.InventorySection.AddItemAction | inventory.py:656-700 | refused iff the form fails its checks; a passing form fails iff its code is taken; a refused or failed form changes neither the store nor the screen; a stored item gets the next id and a current status, the table reloads with the old selections and the filter lists and selections are refreshed |
| Inventory.InventorySection.EditItemAction | inventory.py:702-745 | refused iff the form fails its checks; a passing form succeeds iff the id exists and no other row holds the new code; otherwise neither store nor screen changes; on success the six columns take the entered values, that row's status is recomputed, the table reloads and the filter lists and selections are refreshed |
| Inventory.InventorySection.DeleteItemAction | inventory.py:747-758 | the row is deleted iff it existed, and then the table reloads and the filter lists and selections are refreshed; otherwise neither store nor screen changes |
| Inventory.InventorySection.RestockItemAction | inventory.py:760-779 | refused iff the amount is not a whole positive number, before the store is called; an unknown id fails; either leaves store and screen unchanged; otherwise quantity rises by the amount with a current status, the table reloads and the filter lists and selections are refreshed |
| Admin.AllCountersScanned | cashier_admin.py:136 | `get_counters(active_only=False)` is every counter in key order |
| Admin.Listing | cashier_admin.py:130-151 | every counter once, by ascending id, with the password masked, the status capitalised and the other columns, creation time included, as stored |
| Admin.ListingIgnoresPasswords | cashier_admin.py:140-147 | the counters table is the same whatever the passwords are |
| Admin.AddedCounterListedLast | cashier_admin.py:218-227 | a counter just added is the last row of the reloaded table |
| Admin.DeviceIdEntry | cashier_admin.py:222 | empty device text becomes None, anything else is kept |
| Admin.NewCounterEntry | cashier_admin.py:209-216 | passes iff name, id and password are non-empty and the id is an integer; the error is a missing field before a non-number |
| Admin.CounterEdit | cashier_admin.py:460-477 | passes iff the name and a numeric id are given; the update writes exactly name, id, device (empty becomes None) and status |
| Admin.PasswordChange | cashier_admin.py:404-409 | an empty password is refused; otherwise the update writes only the password |
| Admin.PasswordChangeKeepsListing | cashier_admin.py:404-413 | a password change leaves the counters table exactly as it was |
| Admin.SaleIdsOf | cashier_admin.py:621-623 | exactly the ids of that counter's sales |
| Admin.WithoutItemsOf | cashier_admin.py:625-627 | after the per-sale deletes exactly the items of the other sales remain, unchanged |
| Admin.WithoutItemsOfAll | cashier_admin.py:625-627 | deleting item by sale is one delete of all those sales' items |
| Admin.CascadeDelete | cashier_admin.py:621-636 | exactly the counter, its sales and their items are removed; every other row is kept unchanged; the foreign keys still hold |
| Admin.CascadeDeleteQueries | cashier_admin.py:621-636 | the deleted counter has no transactions; every other counter's transaction list and every surviving sale's details are unchanged; a removed sale has no details |
| Admin.CashierAdmin.constructor | cashier_admin.py:9-17 | the screen starts with an empty table over a valid store |
| Admin.CashierAdmin.LoadCounters | cashier_admin.py:130-151 | the row-by-row rebuild gives `Listing` of the store |
| Admin.CashierAdmin.AddCounterAction | cashier_admin.py:206-238 | refused entries call no store; a taken name fails with nothing changed; otherwise the counter is inserted with the parsed id and the device as entered (empty becomes None), and the table reloads |
| Admin.CashierAdmin.SaveNewPassword | cashier_admin.py:402-417 | empty is refused; an unknown id fails; otherwise only that counter's password changes, and the table reloads |
| Admin.CashierAdmin.SaveCounterChanges | cashier_admin.py:457-487 | refused entries call no store; an unknown id or a name clash fails with nothing changed; otherwise exactly the four fields are written, and the table reloads |
| Admin.CashierAdmin.DeleteCascade | cashier_admin.py:616-641 | all-or-nothing: with no fault it commits exactly `CascadeDelete`, and a fault in any statement leaves the store as it was |
| Admin.CashierAdmin.DeleteCounter | cashier_admin.py:597-642 | no selection or no confirmation changes nothing; otherwise the cascade is committed or rolled back in full, and the table reloads after a commit |
| Login.FirstMatch | app.py:175-176 | the first counter the credentials match, or None iff none does |
| Login.FindCounter | app.py:174-181 | the loop over the active counters stops at exactly the first one the credentials match, and finds none iff none matches |
| Login.LoginResult | app.py:156-184 | empty entries fail; admin/123 logs in as admin before any lookup; otherwise the active counter of lowest id whose name matches ignoring case and whose password matches exactly logs in under its stored name as a cashier; with none, it fails |
| Login.CounterCanLogIn | app.py:174-178 | every active counter can log in with its own name in any case and its password, unless those are the administrator's credentials |
| Login.Session.constructor | app.py:34-35 | nobody is logged in |
| Login.Session.LogIn | app.py:156-184 | the loop's outcome is `LoginResult`; a success records user and role; a failure leaves the session as it was |
| Text.ParseInt | cashier_employee.py:1285 | `int()`: None for blank text; a value iff the stripped, unsigned text is all digits |
| Text.IntToStringRoundTrip | cashier_employee.py:477-479 | `int(str(n)) == n` |
| Text.Strip | cashier_employee.py:706-708 | `strip()`: no whitespace (as `str.isspace()` defines it) at either end, and the inner text is kept |
| Text.Contains | cashier_employee.py:1036-1037 | `needle in hay` iff the needle occurs at some position |
| Text.SortedDistinct | database.py:178 | `SELECT DISTINCT ... ORDER BY`: strictly ascending, with exactly the input's values |
| Seqs.SortDescending | database.py:421 | `ORDER BY ... DESC`: a permutation with non-increasing keys |
| Seqs.Select | database.py:104-105 | a `WHERE` clause keeps exactly the accepted elements |
| Seqs.SelectKeepsDescending | cashier_employee.py:1029-1038 | filtering rows that are latest first keeps them latest first |
| Seqs.SelectKeepsDistinct | cashier_employee.py:1029-1038 | filtering rows that hold no duplicate gives rows that hold no duplicate |
| Tables.Table.Insert | database.py:229 | `AUTOINCREMENT`: the new row takes the next key, which was free |
| Tables.Table.KeepRows | database.py:150 | a `DELETE` keeps exactly the rows not deleted, unchanged, and the key counter |
| Tables.ScanRows | database.py:108-111 | a scan visits exactly the stored rows |

## Left out

- The tkinter widgets, dialogs, message boxes, hover effects, timers and styles (styles.py). The dashboard (dashboard.py) only reads store queries and draws charts.
- Receipt rendering, PDF output and printing (cashier_employee.py:1313-1740).
- Floating-point money and the `float('inf')` bound. Amounts are integers in minor units and a missing upper bound is `None`.
- `LIKE` wildcards inside search text, and non-ASCII case folding. `lower()` and `LIKE` are modelled on ASCII letters.
- Text.ParseInt: Python's `int()` also accepts underscores between digits and non-ASCII digits; the model accepts only ASCII digits.
- Timestamp text and `DATE()` parsing: a time is a number of seconds, supplied by the caller.
- Ties in `ORDER BY sale_time DESC`. The model proves the order by time, not SQLite's choice among equal times.
- Storage-engine failures, other than the explicit fault inputs named above. In particular, the read queries that return `[]` on an exception are modelled without that path.
- A `NULL` customer name. Sales recorded through checkout always carry a name.
- Column projections. The sales queries return whole rows rather than the listed columns.
- Catalog.InventoryDB.UpdateProduct: `update_product` passes the dictionary's keys into the SQL text unchecked; the model accepts only the eight real columns.
- Ledger.CounterDB.RecordSale: a `sale_data` that lacks one of the top-level keys raises `KeyError` and rolls back; the model's request always carries them.
- `new_customer`, `existing_customer` and `select_customer`, which only open dialogs that end in `set_customer`.
- The product grid of the cashier screen (`load_all_products`, `search_products`) and the dead earlier definitions `refresh_products` and `print_receipt`, which later definitions override.
- The auto-sizing of columns, and the transaction-history tab of the admin screen, which shows `get_transactions_for_counter` unchanged.
- Logging out. The application never clears `current_user` (app.py:34 is its only reset), so the session model has only construction and login.
