/**
 * `CounterDB` (database.py): the `counters`, `sales` and `sale_items` tables of
 * `Counter.db`, with `PRAGMA foreign_keys = ON`. Money is in integer minor units;
 * `sale_time` is a number of seconds, and SQL's `DATE(sale_time)` is the day it
 * falls on.
 */
module Ledger {
  import opened Wrappers
  import opened Seqs
  import opened Tables

  const ACTIVE: string := "active"
  /** The column default of `sales.payment_method`, also the default `record_sale` supplies. */
  const CASH: string := "cash"
  const SECONDS_PER_DAY: int := 86400

  /** `DATE(t)`: the day number of the time `t`. */
  function Day(t: int): int {
    t / SECONDS_PER_DAY
  }

  // ---------------------------------------------------------------- rows

  /** One row of `counters`. `device_id` may be `NULL`; `created_at` is the insertion time. */
  datatype Counter = Counter(
    id: int, cashierName: string, cashierId: int, deviceId: Option<string>,
    status: string, password: string, createdAt: int)

  /** One row of `sales`. */
  datatype Sale = Sale(
    id: int, receiptId: string, counterId: int, cashierId: int, cashierName: string,
    customerName: string, totalAmount: int, paymentMethod: string, saleTime: int)

  /** One row of `sale_items`. */
  datatype SaleItem = SaleItem(
    id: int, saleId: int, productId: int, productName: string,
    quantity: int, unitPrice: int, totalPrice: int)

  function CounterId(c: Counter): int { c.id }
  function SaleTime(s: Sale): int { s.saleTime }
  function ItemId(i: SaleItem): int { i.id }

  // ---------------------------------------------------------------- inputs

  /** The dictionary `update_counter` receives. Keys outside the allow-list are kept only by name. */
  datatype CounterUpdates = CounterUpdates(
    cashierName: Option<string>, cashierId: Option<int>, deviceId: Option<Option<string>>,
    status: Option<string>, password: Option<string>, unlisted: set<string>)
  {
    /** None of the five writable columns is mentioned, whatever `unlisted` holds. */
    predicate IsEmpty() {
      cashierName.None? && cashierId.None? && deviceId.None? && status.None? && password.None?
    }

    function ApplyTo(c: Counter): (d: Counter)
      ensures d.id == c.id && d.createdAt == c.createdAt
      ensures IsEmpty() ==> d == c
    {
      c.(cashierName := cashierName.GetOr(c.cashierName), cashierId := cashierId.GetOr(c.cashierId),
         deviceId := deviceId.GetOr(c.deviceId), status := status.GetOr(c.status),
         password := password.GetOr(c.password))
    }
  }

  /** One entry of `sale_data['items']`; a missing key is `None`. */
  datatype ItemInput = ItemInput(
    productId: Option<int>, productName: Option<string>, quantity: Option<int>,
    unitPrice: Option<int>, totalPrice: Option<int>)
  {
    /** The key check of `record_sale`: all five keys are present. */
    predicate Complete() {
      productId.Some? && productName.Some? && quantity.Some? && unitPrice.Some? && totalPrice.Some?
    }
  }

  /** The dictionary `record_sale` receives; `None` marks an optional key that is absent. */
  datatype SaleRequest = SaleRequest(
    receiptId: string, counterId: int, cashierId: int, cashierName: string,
    customerName: Option<string>, totalAmount: int, paymentMethod: Option<string>,
    saleTime: Option<int>, items: seq<ItemInput>)

  datatype SaleError =
    | DuplicateReceipt      // `receipt_id` is `UNIQUE`
    | UnknownCounter        // the foreign key `counter_id` -> `counters(id)`
    | MalformedItem(index: nat)

  /** The dictionary `record_sale` returns. */
  datatype SaleOutcome = Recorded(saleId: int) | Failed(error: SaleError)

  /** The `WHERE` clauses `get_sales_history` may build; a missing key is `None`. */
  datatype SalesFilter = SalesFilter(
    startDate: Option<int>, endDate: Option<int>, counterId: Option<int>, cashierId: Option<int>)

  /** `get_sale_details`: the header and its line items. */
  datatype SaleDetails = SaleDetails(sale: Sale, items: seq<SaleItem>)

  /** The `sales` row `record_sale` writes, with its defaults for the optional keys. */
  function Header(saleId: int, req: SaleRequest, now: int): Sale {
    Sale(saleId, req.receiptId, req.counterId, req.cashierId, req.cashierName,
         req.customerName.GetOr(""), req.totalAmount, req.paymentMethod.GetOr(CASH),
         req.saleTime.GetOr(now))
  }

  /** The `sale_items` row written for a complete item. */
  function ItemRow(id: int, saleId: int, item: ItemInput): SaleItem
    requires item.Complete()
  {
    SaleItem(id, saleId, item.productId.value, item.productName.value,
             item.quantity.value, item.unitPrice.value, item.totalPrice.value)
  }

  predicate AllComplete(items: seq<ItemInput>) {
    forall j :: 0 <= j < |items| ==> items[j].Complete()
  }

  /** The first item `record_sale` rejects, if any. */
  function FirstIncomplete(items: seq<ItemInput>): (r: Option<nat>)
    ensures r.None? <==> AllComplete(items)
    ensures r.Some? ==> r.value < |items| && !items[r.value].Complete() &&
                        forall j :: 0 <= j < r.value ==> items[j].Complete()
  {
    if items == [] then None
    else if !items[0].Complete() then Some(0)
    else
      match FirstIncomplete(items[1..])
      case None => None
      case Some(k) => Some(k + 1)
  }

  /** The `sale_items` rows written for `items`, the first under key `first`. */
  function ItemRows(first: int, saleId: int, items: seq<ItemInput>): (r: seq<SaleItem>)
    requires AllComplete(items)
    ensures |r| == |items|
    ensures forall j :: 0 <= j < |items| ==> r[j] == ItemRow(first + j, saleId, items[j])
    decreases |items|
  {
    if items == [] then []
    else
      var n := |items| - 1;
      ItemRows(first, saleId, items[..n]) + [ItemRow(first + n, saleId, items[n])]
  }

  /** The line items of one sale inserted in input order, each under the next key. */
  function InsertItems(t: Table<SaleItem>, saleId: int, items: seq<ItemInput>): (u: Table<SaleItem>)
    requires t.Valid() && AllComplete(items)
    ensures u.Valid() && u.nextId == t.nextId + |items|
    ensures forall k :: k in u.rows <==> k in t.rows || t.nextId <= k < u.nextId
    ensures forall k :: k in t.rows ==> u.rows[k] == t.rows[k]
    ensures forall k :: k in u.rows && k !in t.rows ==> u.rows[k].id == k && u.rows[k].saleId == saleId
    decreases |items|
  {
    if items == [] then t
    else
      var n := |items| - 1;
      var u := InsertItems(t, saleId, items[..n]);
      u.Insert(ItemRow(u.nextId, saleId, items[n]))
  }

  /** An item that is not complete, after complete ones only, is the first one `record_sale` rejects. */
  lemma FirstIncompleteAt(items: seq<ItemInput>, i: nat)
    requires i < |items| && AllComplete(items[..i]) && !items[i].Complete()
    ensures FirstIncomplete(items) == Some(i)
  {
    assert forall j :: 0 <= j < i ==> items[..i][j] == items[j];
  }

  /** Inserting one more complete item extends the inserted prefix by one row. */
  lemma InsertItemsStep(t: Table<SaleItem>, saleId: int, items: seq<ItemInput>, i: nat)
    requires t.Valid() && i < |items| && AllComplete(items[..i]) && items[i].Complete()
    ensures AllComplete(items[..i + 1])
    ensures var u := InsertItems(t, saleId, items[..i]);
      InsertItems(t, saleId, items[..i + 1]) == u.Insert(ItemRow(u.nextId, saleId, items[i]))
  {
    assert items[..i + 1][..i] == items[..i];
    assert forall j :: 0 <= j < i ==> items[..i + 1][j] == items[..i][j];
  }

  // ---------------------------------------------------------------- the three tables

  datatype CounterData = CounterData(counters: Table<Counter>, sales: Table<Sale>, saleItems: Table<SaleItem>)
  {
    /**
     * Keys are row ids; `cashier_name` and `receipt_id` are `UNIQUE`; every sale names a
     * stored counter and every line item a stored sale (foreign keys are enforced).
     */
    predicate Valid() {
      counters.Valid() && sales.Valid() && saleItems.Valid() &&
      (forall k :: k in counters.rows ==> counters.rows[k].id == k) &&
      (forall k :: k in sales.rows ==> sales.rows[k].id == k) &&
      (forall k :: k in saleItems.rows ==> saleItems.rows[k].id == k) &&
      (forall k, j :: k in counters.rows && j in counters.rows && k != j ==>
         counters.rows[k].cashierName != counters.rows[j].cashierName) &&
      (forall k, j :: k in sales.rows && j in sales.rows && k != j ==>
         sales.rows[k].receiptId != sales.rows[j].receiptId) &&
      (forall k :: k in sales.rows ==> sales.rows[k].counterId in counters.rows) &&
      (forall k :: k in saleItems.rows ==> saleItems.rows[k].saleId in sales.rows)
    }

    predicate NameTaken(name: string) {
      exists k :: k in counters.rows && counters.rows[k].cashierName == name
    }

    predicate ReceiptTaken(receiptId: string) {
      exists k :: k in sales.rows && sales.rows[k].receiptId == receiptId
    }

    /** `get_counters`: every counter (or every active one), by ascending id. */
    function GetCounters(activeOnly: bool): (r: seq<Counter>)
      requires Valid()
      ensures forall c :: c in r <==> counters.Holds(c) && (activeOnly ==> c.status == ACTIVE)
      ensures Ascending(r, CounterId)
    {
      ScanRows(counters);
      ScanAscending(counters, CounterId);
      var keep := (c: Counter) => !activeOnly || c.status == ACTIVE;
      SelectKeepsOrder(counters.Scan(), keep, CounterId);
      Select(counters.Scan(), keep)
    }

    /** The sales `p` accepts, latest first, each exactly once. */
    function SalesWhere(p: Sale -> bool): (r: seq<Sale>)
      requires Valid()
      ensures forall s :: s in r <==> sales.Holds(s) && p(s)
      ensures Descending(r, SaleTime)
      ensures Distinct(r)
    {
      ScanRows(sales);
      ScanAscending(sales, (s: Sale) => s.id);
      var chosen := Select(sales.Scan(), p);
      SelectKeepsOrder(sales.Scan(), p, (s: Sale) => s.id);
      AscendingDistinct(chosen, (s: Sale) => s.id);
      var r := SortDescending(chosen, SaleTime);
      assert forall s :: s in r <==> s in chosen by {
        forall s ensures s in r <==> s in chosen {
          assert s in r <==> s in multiset(r);
          assert s in chosen <==> s in multiset(chosen);
        }
      }
      DistinctPermutation(r, chosen);
      r
    }

    /** `get_sales_history`: the sales every supplied filter accepts, latest first. */
    function GetSalesHistory(f: SalesFilter): (r: seq<Sale>)
      requires Valid()
      ensures forall s :: s in r <==> sales.Holds(s) && HistoryMatches(f, s)
      ensures Descending(r, SaleTime) && Distinct(r)
    {
      SalesWhere((s: Sale) => HistoryMatches(f, s))
    }

    /** `get_transactions_for_counter`. */
    function GetTransactionsForCounter(counterId: int): (r: seq<Sale>)
      requires Valid()
      ensures forall s :: s in r <==> sales.Holds(s) && s.counterId == counterId
      ensures Descending(r, SaleTime) && Distinct(r)
    {
      SalesWhere((s: Sale) => s.counterId == counterId)
    }

    /** `get_sales_by_date`. */
    function GetSalesByDate(day: int): (r: seq<Sale>)
      requires Valid()
      ensures forall s :: s in r <==> sales.Holds(s) && Day(s.saleTime) == day
      ensures Descending(r, SaleTime) && Distinct(r)
    {
      SalesWhere((s: Sale) => Day(s.saleTime) == day)
    }

    /** `get_all_sales`. */
    function GetAllSales(): (r: seq<Sale>)
      requires Valid()
      ensures forall s :: s in r <==> sales.Holds(s)
      ensures Descending(r, SaleTime) && Distinct(r)
    {
      SalesWhere((s: Sale) => true)
    }

    /** `get_sales_by_cashier`. */
    function GetSalesByCashier(cashierName: string): (r: seq<Sale>)
      requires Valid()
      ensures forall s :: s in r <==> sales.Holds(s) && s.cashierName == cashierName
      ensures Descending(r, SaleTime) && Distinct(r)
    {
      SalesWhere((s: Sale) => s.cashierName == cashierName)
    }

    /** `get_sales_by_date_and_cashier`. */
    function GetSalesByDateAndCashier(day: int, cashierName: string): (r: seq<Sale>)
      requires Valid()
      ensures forall s :: s in r <==> sales.Holds(s) && Day(s.saleTime) == day && s.cashierName == cashierName
      ensures Descending(r, SaleTime) && Distinct(r)
    {
      SalesWhere((s: Sale) => Day(s.saleTime) == day && s.cashierName == cashierName)
    }

    /** The line items stored for one sale, in id order. */
    function ItemsOf(saleId: int): (r: seq<SaleItem>)
      requires Valid()
      ensures forall i :: i in r <==> saleItems.Holds(i) && i.saleId == saleId
      ensures Ascending(r, ItemId)
    {
      ScanRows(saleItems);
      ScanAscending(saleItems, ItemId);
      SelectKeepsOrder(saleItems.Scan(), (i: SaleItem) => i.saleId == saleId, ItemId);
      Select(saleItems.Scan(), (i: SaleItem) => i.saleId == saleId)
    }

    /** `get_sale_details`: `None` for an unknown id, else the header and its items. */
    function GetSaleDetails(saleId: int): (r: Option<SaleDetails>)
      requires Valid()
      ensures r.None? <==> saleId !in sales.rows
      ensures r.Some? ==>
        r.value.sale == sales.rows[saleId] &&
        (forall i :: i in r.value.items <==> saleItems.Holds(i) && i.saleId == saleId) &&
        Ascending(r.value.items, ItemId)
    {
      if saleId in sales.rows then Some(SaleDetails(sales.rows[saleId], ItemsOf(saleId))) else None
    }
  }

  /** The `WHERE` clause of `get_sales_history`; a zero counter or cashier id is falsy and ignored. */
  predicate HistoryMatches(f: SalesFilter, s: Sale) {
    (f.startDate.Some? ==> Day(s.saleTime) >= f.startDate.value) &&
    (f.endDate.Some? ==> Day(s.saleTime) <= f.endDate.value) &&
    (f.counterId.Some? && f.counterId.value != 0 ==> s.counterId == f.counterId.value) &&
    (f.cashierId.Some? && f.cashierId.value != 0 ==> s.cashierId == f.cashierId.value)
  }

  const EMPTY_DATA: CounterData := CounterData(EmptyTable(), EmptyTable(), EmptyTable())

  // ---------------------------------------------------------------- record_sale

  /** The tables after `record_sale` has written the header and every item of `req`. */
  function AppendSale(d: CounterData, req: SaleRequest, now: int): (e: CounterData)
    requires d.Valid() && AllComplete(req.items)
  {
    var saleId := d.sales.nextId;
    d.(sales := d.sales.Insert(Header(saleId, req, now)),
       saleItems := InsertItems(d.saleItems, saleId, req.items))
  }

  /** Writing a sale whose receipt is new and whose counter exists keeps every table constraint. */
  lemma AppendSaleKeepsValid(d: CounterData, req: SaleRequest, now: int)
    requires d.Valid() && AllComplete(req.items)
    requires !d.ReceiptTaken(req.receiptId) && req.counterId in d.counters.rows
    ensures AppendSale(d, req, now).Valid()
  {
    var e := AppendSale(d, req, now);
    var sid := d.sales.nextId;
    assert e.sales.rows == d.sales.rows[sid := Header(sid, req, now)];
    forall k, j | k in e.sales.rows && j in e.sales.rows && k != j
      ensures e.sales.rows[k].receiptId != e.sales.rows[j].receiptId
    {
      if k == sid {
        assert e.sales.rows[j] == d.sales.rows[j];
      } else if j == sid {
        assert e.sales.rows[k] == d.sales.rows[k];
      }
    }
    forall k | k in e.saleItems.rows ensures e.saleItems.rows[k].saleId in e.sales.rows {
      if k in d.saleItems.rows {
        assert e.saleItems.rows[k] == d.saleItems.rows[k];
      }
    }
  }

  /**
   * What `record_sale` does to the three tables: the duplicate receipt is found first,
   * then the unknown counter, then the first item missing a key. Any of them leaves the
   * tables as they were (the failed statement or the rollback); otherwise one header and
   * one row per item are written and the header's id is returned.
   */
  function RecordSaleResult(d: CounterData, req: SaleRequest, now: int): (res: (SaleOutcome, CounterData))
    requires d.Valid()
    ensures res.1.Valid() && res.1.counters == d.counters
    ensures res.0.Failed? ==> res.1 == d
    ensures res.0.Recorded? <==>
      !d.ReceiptTaken(req.receiptId) && req.counterId in d.counters.rows && AllComplete(req.items)
    ensures res.0 == Failed(DuplicateReceipt) <==> d.ReceiptTaken(req.receiptId)
    ensures res.0 == Failed(UnknownCounter) <==> !d.ReceiptTaken(req.receiptId) && req.counterId !in d.counters.rows
  {
    if d.ReceiptTaken(req.receiptId) then (Failed(DuplicateReceipt), d)
    else if req.counterId !in d.counters.rows then (Failed(UnknownCounter), d)
    else
      match FirstIncomplete(req.items)
      case Some(k) => (Failed(MalformedItem(k)), d)
      case None =>
        AppendSaleKeepsValid(d, req, now);
        (Recorded(d.sales.nextId), AppendSale(d, req, now))
  }

  /** With a new receipt, a known counter and complete items, the sale is written whole. */
  lemma RecordSaleAccepted(d: CounterData, req: SaleRequest, now: int)
    requires d.Valid() && AllComplete(req.items)
    requires !d.ReceiptTaken(req.receiptId) && req.counterId in d.counters.rows
    ensures RecordSaleResult(d, req, now) == (Recorded(d.sales.nextId), AppendSale(d, req, now))
  {
    assert FirstIncomplete(req.items) == None;
  }

  /**
   * A sale `record_sale` accepts gets the next sale id, and reads back through
   * `get_sale_details` as its header and exactly its input items, in input order.
   */
  lemma RecordedSaleReadsBack(d: CounterData, req: SaleRequest, now: int)
    requires d.Valid()
    requires !d.ReceiptTaken(req.receiptId) && req.counterId in d.counters.rows && AllComplete(req.items)
    ensures var sid := d.sales.nextId;
      var (out, e) := RecordSaleResult(d, req, now);
      out == Recorded(sid) &&
      e.GetSaleDetails(sid) == Some(SaleDetails(Header(sid, req, now), ItemRows(d.saleItems.nextId, sid, req.items)))
  {
    var sid := d.sales.nextId;
    var e := AppendSale(d, req, now);
    RecordSaleAccepted(d, req, now);
    AppendSaleKeepsValid(d, req, now);
    AppendedItemsOf(d, req, now);
  }

  /** A recorded sale is listed in its cashier's history and in that day's sales, and no rows of other sales change. */
  lemma RecordedSaleListed(d: CounterData, req: SaleRequest, now: int)
    requires d.Valid()
    requires !d.ReceiptTaken(req.receiptId) && req.counterId in d.counters.rows && AllComplete(req.items)
    ensures var e := RecordSaleResult(d, req, now).1;
      var h := Header(d.sales.nextId, req, now);
      h in e.GetSalesByCashier(req.cashierName) &&
      h in e.GetSalesByDateAndCashier(Day(h.saleTime), req.cashierName) &&
      (forall s :: s in d.GetAllSales() ==> s in e.GetAllSales())
  {
    var sid := d.sales.nextId;
    var e := AppendSale(d, req, now);
    RecordSaleAccepted(d, req, now);
    AppendSaleKeepsValid(d, req, now);
    assert e.sales.rows[sid] == Header(sid, req, now);
    forall s | s in d.GetAllSales() ensures s in e.GetAllSales() {
      var k :| k in d.sales.rows && d.sales.rows[k] == s;
      assert e.sales.rows[k] == s;
    }
  }

  lemma AppendedItemsOf(d: CounterData, req: SaleRequest, now: int)
    requires d.Valid() && AllComplete(req.items)
    requires !d.ReceiptTaken(req.receiptId) && req.counterId in d.counters.rows
    ensures AppendSale(d, req, now).Valid()
    ensures AppendSale(d, req, now).ItemsOf(d.sales.nextId) == ItemRows(d.saleItems.nextId, d.sales.nextId, req.items)
  {
    AppendSaleKeepsValid(d, req, now);
    var sid := d.sales.nextId;
    ItemsAppended(d.saleItems, sid, req.items);
    NewSaleItemsSelected(d.saleItems, sid, ItemRows(d.saleItems.nextId, sid, req.items));
  }

  /** Selecting a new sale's items from the old rows followed by its new rows gives the new rows. */
  lemma NewSaleItemsSelected(t: Table<SaleItem>, sid: int, added: seq<SaleItem>)
    requires forall k :: k in t.rows ==> t.rows[k].saleId != sid
    requires forall i :: 0 <= i < |added| ==> added[i].saleId == sid
    ensures Select(t.Scan() + added, (i: SaleItem) => i.saleId == sid) == added
  {
    var mine := (i: SaleItem) => i.saleId == sid;
    SelectAppend(t.Scan(), added, mine);
    ScanFromRows(t, 1);
    forall i | i in t.Scan() ensures !mine(i) {
      var j :| 0 <= j < |t.Scan()| && t.Scan()[j] == i;
      assert t.Holds(t.Scan()[j]);
    }
    SelectNone(t.Scan(), mine);
    SelectAll(added, mine);
  }

  /** Scanning the items table after the inserts lists the old rows and then the new ones. */
  lemma {:induction false} ItemsAppended(t: Table<SaleItem>, saleId: int, items: seq<ItemInput>)
    requires t.Valid() && AllComplete(items)
    ensures InsertItems(t, saleId, items).Scan() == t.Scan() + ItemRows(t.nextId, saleId, items)
    decreases |items|
  {
    if items != [] {
      var n := |items| - 1;
      var init := items[..n];
      assert AllComplete(init);
      var prefix := InsertItems(t, saleId, init);
      var row := ItemRow(prefix.nextId, saleId, items[n]);
      assert InsertItems(t, saleId, items) == prefix.Insert(row);
      ItemsAppended(t, saleId, init);
      ScanInsert(prefix, row);
      assert ItemRows(t.nextId, saleId, items) == ItemRows(t.nextId, saleId, init) + [row];
    }
  }

  // ---------------------------------------------------------------- the store

  class CounterDB {
    var data: CounterData

    constructor ()
      ensures data == EMPTY_DATA && data.Valid()
    {
      data := EMPTY_DATA;
    }

    /**
     * `add_counter`: the counter gets the next id and its creation time. A name that is
     * already taken makes SQLite raise `IntegrityError` (`None` here) and nothing changes.
     */
    method AddCounter(cashierName: string, cashierId: int, deviceId: Option<string>,
                      password: string, status: string, now: int) returns (id: Option<int>)
      requires data.Valid()
      modifies this
      ensures data.Valid()
      ensures id.None? <==> old(data.NameTaken(cashierName))
      ensures id.None? ==> data == old(data)
      ensures id.Some? ==>
        id.value == old(data.counters.nextId) &&
        data == old(data).(counters := old(data.counters).Insert(
          Counter(id.value, cashierName, cashierId, deviceId, status, password, now)))
    {
      if data.NameTaken(cashierName) {
        return None;
      }
      var row := Counter(data.counters.nextId, cashierName, cashierId, deviceId, status, password, now);
      id := Some(data.counters.nextId);
      data := data.(counters := data.counters.Insert(row));
    }

    /**
     * `update_counter`: only the five allow-listed columns are written. With none of them
     * the result is `false` and nothing changes; otherwise the result says whether the id
     * exists. Renaming onto another counter's name raises `IntegrityError` (`None` here).
     */
    method UpdateCounter(id: int, u: CounterUpdates) returns (r: Option<bool>)
      requires data.Valid()
      modifies this
      ensures data.Valid()
      ensures u.IsEmpty() || id !in old(data.counters.rows) ==> r == Some(false) && data == old(data)
      ensures !u.IsEmpty() && id in old(data.counters.rows) ==>
        var c := u.ApplyTo(old(data.counters.rows[id]));
        if exists k :: k in old(data.counters.rows) && k != id && old(data.counters.rows[k]).cashierName == c.cashierName
        then r == None && data == old(data)
        else r == Some(true) && data == old(data).(counters := old(data.counters).Update(id, c))
    {
      if u.IsEmpty() || id !in data.counters.rows {
        return Some(false);
      }
      var c := u.ApplyTo(data.counters.rows[id]);
      if exists k :: k in data.counters.rows && k != id && data.counters.rows[k].cashierName == c.cashierName {
        return None;
      }
      data := data.(counters := data.counters.Update(id, c));
      r := Some(true);
    }

    /**
     * The item loop of `record_sale`: each item is checked for its five keys and inserted
     * under the next key; the loop stops at the first item missing one, leaving the
     * rows written so far for the caller to roll back.
     */
    method InsertItemRows(saleId: int, items: seq<ItemInput>) returns (bad: Option<nat>)
      requires data.saleItems.Valid()
      modifies this
      ensures bad == FirstIncomplete(items)
      ensures data.counters == old(data.counters) && data.sales == old(data.sales)
      ensures bad.None? ==> data.saleItems == InsertItems(old(data.saleItems), saleId, items)
    {
      ghost var start := data.saleItems;
      var i := 0;
      while i < |items|
        invariant 0 <= i <= |items|
        invariant AllComplete(items[..i])
        invariant data.counters == old(data.counters) && data.sales == old(data.sales)
        invariant data.saleItems == InsertItems(start, saleId, items[..i])
      {
        var item := items[i];
        if !item.Complete() {
          FirstIncompleteAt(items, i);
          return Some(i);
        }
        InsertItemsStep(start, saleId, items, i);
        data := data.(saleItems := data.saleItems.Insert(ItemRow(data.saleItems.nextId, saleId, item)));
        i := i + 1;
      }
      assert items[..i] == items;
      bad := None;
    }

    /**
     * `record_sale`: inserts the header, then the items one by one inside one transaction;
     * a rejected item rolls the transaction back to the snapshot taken at the start.
     */
    method RecordSale(req: SaleRequest, now: int) returns (outcome: SaleOutcome)
      requires data.Valid()
      modifies this
      ensures data.Valid()
      ensures (outcome, data) == RecordSaleResult(old(data), req, now)
    {
      var snapshot := data;
      if exists k :: k in data.sales.rows && data.sales.rows[k].receiptId == req.receiptId {
        return Failed(DuplicateReceipt);
      }
      if req.counterId !in data.counters.rows {
        return Failed(UnknownCounter);
      }
      var saleId := data.sales.nextId;
      data := data.(sales := data.sales.Insert(Header(saleId, req, now)));
      var bad := InsertItemRows(saleId, req.items);
      if bad.Some? {
        data := snapshot;
        return Failed(MalformedItem(bad.value));
      }
      assert data == AppendSale(snapshot, req, now);
      RecordSaleAccepted(snapshot, req, now);
      outcome := Recorded(saleId);
    }
  }
}
