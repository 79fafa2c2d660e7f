/**
 * The counter-management screen of the administrator (`cashier_admin.py`): the table of
 * counters with their passwords masked, the add / edit / change-password dialogs with
 * their entry checks, and the deletion of a counter together with all of its sales and
 * their line items, in one transaction.
 */
module Admin {
  import opened Wrappers
  import opened Text
  import opened Seqs
  import opened Tables
  import opened Ledger

  // ---------------------------------------------------------------- the counters table

  /** What the table shows in place of every password. */
  const PASSWORD_MASK: string := "********"

  /** One row of the counters table: the stored columns, the password masked, the status capitalised. */
  datatype ListedCounter = ListedCounter(
    id: int, cashierName: string, cashierId: int, password: string,
    deviceId: Option<string>, status: string, createdAt: int)

  function ListedId(r: ListedCounter): int { r.id }

  function ListingRow(c: Counter): ListedCounter {
    ListedCounter(c.id, c.cashierName, c.cashierId, PASSWORD_MASK, c.deviceId, Capitalize(c.status), c.createdAt)
  }

  /** `get_counters(active_only=False)` lists every stored counter in key order. */
  lemma AllCountersScanned(d: CounterData)
    requires d.Valid()
    ensures d.GetCounters(false) == d.counters.Scan()
  {
    SelectAll(d.counters.Scan(), (c: Counter) => !false || c.status == ACTIVE);
  }

  /** The table rows for `cs`, one per counter, in order. */
  function Rows(cs: seq<Counter>): seq<ListedCounter> {
    seq(|cs|, i requires 0 <= i < |cs| => ListingRow(cs[i]))
  }

  /**
   * `load_counters`: every counter, active or not, once, by ascending id, with the
   * password replaced by the mask and the other columns as stored.
   */
  function Listing(d: CounterData): (r: seq<ListedCounter>)
    requires d.Valid()
    ensures forall i :: 0 <= i < |r| ==>
      r[i].password == PASSWORD_MASK && r[i].id in d.counters.rows &&
      r[i].cashierName == d.counters.rows[r[i].id].cashierName &&
      r[i].cashierId == d.counters.rows[r[i].id].cashierId &&
      r[i].deviceId == d.counters.rows[r[i].id].deviceId &&
      r[i].status == Capitalize(d.counters.rows[r[i].id].status) &&
      r[i].createdAt == d.counters.rows[r[i].id].createdAt
    ensures forall k :: k in d.counters.rows ==> exists i :: 0 <= i < |r| && r[i].id == k
    ensures Ascending(r, ListedId)
  {
    var cs := d.GetCounters(false);
    var r := Rows(cs);
    forall i | 0 <= i < |r| ensures r[i].id in d.counters.rows && d.counters.rows[r[i].id] == cs[i] {
      assert cs[i] in cs;
    }
    forall k | k in d.counters.rows ensures exists i :: 0 <= i < |r| && r[i].id == k {
      assert d.counters.Holds(d.counters.rows[k]);
      var i :| 0 <= i < |cs| && cs[i] == d.counters.rows[k];
      assert r[i].id == k;
    }
    assert Ascending(cs, CounterId);
    r
  }

  /** The table is the row of each counter a scan returns. */
  lemma ListingIsRows(d: CounterData)
    requires d.Valid()
    ensures Listing(d) == Rows(d.counters.Scan())
  {
    AllCountersScanned(d);
  }

  /** The table does not depend on any password: changing passwords leaves it as it was. */
  lemma ListingIgnoresPasswords(d: CounterData, e: CounterData)
    requires d.Valid() && e.Valid()
    requires e.counters.nextId == d.counters.nextId
    requires forall k :: k in d.counters.rows <==> k in e.counters.rows
    requires forall k :: k in d.counters.rows ==>
      e.counters.rows[k] == d.counters.rows[k].(password := e.counters.rows[k].password)
    ensures Listing(d) == Listing(e)
  {
    ListingIsRows(d);
    ListingIsRows(e);
    forall k | k in d.counters.rows ensures ListingRow(d.counters.rows[k]) == ListingRow(e.counters.rows[k]) {
    }
    AlikeRows(d.counters, e.counters);
  }

  /** Two counters tables whose rows show alike scan to the same table rows. */
  lemma AlikeRows(t: Table<Counter>, u: Table<Counter>)
    requires t.nextId == u.nextId
    requires forall j :: j in t.rows <==> j in u.rows
    requires forall j :: j in t.rows ==> ListingRow(t.rows[j]) == ListingRow(u.rows[j])
    ensures Rows(t.Scan()) == Rows(u.Scan())
  {
    ScanFromAlike(t, u, ListingRow, 1);
  }

  /** A counter added by `add_counter` appears as the last row of the reloaded table. */
  lemma AddedCounterListedLast(d: CounterData, c: Counter)
    requires d.Valid() && c.id == d.counters.nextId && !d.NameTaken(c.cashierName)
    ensures d.(counters := d.counters.Insert(c)).Valid()
    ensures Listing(d.(counters := d.counters.Insert(c))) == Listing(d) + [ListingRow(c)]
  {
    var e := d.(counters := d.counters.Insert(c));
    assert e.Valid();
    ListingIsRows(d);
    ListingIsRows(e);
    InsertedRow(d.counters, c);
  }

  /** Inserting a counter adds its row at the end of the scanned table rows. */
  lemma InsertedRow(t: Table<Counter>, c: Counter)
    requires t.Valid()
    ensures Rows(t.Insert(c).Scan()) == Rows(t.Scan()) + [ListingRow(c)]
  {
    ScanInsert(t, c);
    assert Rows(t.Scan() + [c]) == Rows(t.Scan()) + [ListingRow(c)];
  }

  // ---------------------------------------------------------------- the dialogs

  /** Why a dialog's entries were refused before any store call. */
  datatype FormError =
    | MissingField   // "Cashier name, ID and password are required" / "Password cannot be empty"
    | NotANumber     // "Cashier ID must be a number"

  datatype Checked<T> = Passed(value: T) | Rejected(error: FormError)

  /** The result of a dialog's save button. */
  datatype AdminOutcome =
    | Saved                     // the store accepted it and the table was reloaded
    | Refused(error: FormError) // the entries were refused; nothing was stored
    | StoreFailed               // the store refused or found nothing to update

  /** The device entry: empty text is stored as `NULL`. */
  function DeviceIdEntry(text: string): (r: Option<string>)
    ensures r.None? <==> text == []
    ensures r.Some? ==> r.value == text
  {
    if text == [] then None else Some(text)
  }

  /**
   * The checks `add_counter_action` makes before calling the store: name, id and password
   * present, and the id an integer.
   */
  function NewCounterEntry(name: string, idText: string, password: string): (r: Checked<int>)
    ensures r.Passed? <==> name != [] && idText != [] && password != [] && ParseInt(idText).Some?
    ensures r.Passed? ==> r.value == ParseInt(idText).value
    ensures r.Rejected? ==>
      r.error == (if name == [] || idText == [] || password == [] then MissingField else NotANumber)
  {
    if name == [] || idText == [] || password == [] then Rejected(MissingField)
    else match ParseInt(idText)
      case None => Rejected(NotANumber)
      case Some(n) => Passed(n)
  }

  /**
   * `save_counter_changes`: name and a numeric id required; the update writes the name,
   * the id, the device (empty becomes `NULL`) and the status, and nothing else.
   */
  function CounterEdit(name: string, idText: string, deviceText: string, status: string): (r: Checked<CounterUpdates>)
    ensures r.Passed? <==> name != [] && idText != [] && ParseInt(idText).Some?
    ensures r.Rejected? ==> r.error == (if name == [] || idText == [] then MissingField else NotANumber)
    ensures r.Passed? ==> !r.value.IsEmpty()
    ensures r.Passed? ==>
      forall c :: r.value.ApplyTo(c) == c.(cashierName := name, cashierId := ParseInt(idText).value,
                                           deviceId := DeviceIdEntry(deviceText), status := status)
  {
    if name == [] || idText == [] then Rejected(MissingField)
    else match ParseInt(idText)
      case None => Rejected(NotANumber)
      case Some(n) => Passed(CounterUpdates(Some(name), Some(n), Some(DeviceIdEntry(deviceText)), Some(status), None, {}))
  }

  /** `save_new_password`: an empty password is refused; otherwise only the password is written. */
  function PasswordChange(newPassword: string): (r: Option<CounterUpdates>)
    ensures r.None? <==> newPassword == []
    ensures r.Some? ==> !r.value.IsEmpty()
    ensures r.Some? ==> forall c :: r.value.ApplyTo(c) == c.(password := newPassword)
  {
    if newPassword == [] then None else Some(CounterUpdates(None, None, None, None, Some(newPassword), {}))
  }

  /** Changing one counter's password leaves the counters table exactly as it was. */
  lemma PasswordChangeKeepsListing(d: CounterData, id: int, newPassword: string)
    requires d.Valid() && id in d.counters.rows
    ensures d.(counters := d.counters.Update(id, d.counters.rows[id].(password := newPassword))).Valid()
    ensures Listing(d.(counters := d.counters.Update(id, d.counters.rows[id].(password := newPassword)))) == Listing(d)
  {
    var e := d.(counters := d.counters.Update(id, d.counters.rows[id].(password := newPassword)));
    assert e.Valid();
    ListingIgnoresPasswords(d, e);
  }

  // ---------------------------------------------------------------- the cascade

  function OfCounter(counterId: int): Sale -> bool { (s: Sale) => s.counterId == counterId }
  function NotOfCounter(counterId: int): Sale -> bool { (s: Sale) => s.counterId != counterId }
  function OtherCounter(counterId: int): Counter -> bool { (c: Counter) => c.id != counterId }
  function NotOfSale(saleId: int): SaleItem -> bool { (i: SaleItem) => i.saleId != saleId }
  function NotOfSales(saleIds: seq<int>): SaleItem -> bool { (i: SaleItem) => i.saleId !in saleIds }

  /** `SELECT id FROM sales WHERE counter_id = ?`: the ids of exactly that counter's sales. */
  function SaleIdsOf(d: CounterData, counterId: int): (r: seq<int>)
    requires d.Valid()
    ensures forall x :: x in r <==> x in d.sales.rows && d.sales.rows[x].counterId == counterId
  {
    ScanRows(d.sales);
    var ss := Select(d.sales.Scan(), OfCounter(counterId));
    var r := seq(|ss|, i requires 0 <= i < |ss| => ss[i].id);
    forall x | x in r ensures x in d.sales.rows && d.sales.rows[x].counterId == counterId {
      var i :| 0 <= i < |r| && r[i] == x;
      assert ss[i] in ss;
    }
    forall x | x in d.sales.rows && d.sales.rows[x].counterId == counterId ensures x in r {
      assert d.sales.Holds(d.sales.rows[x]);
      assert d.sales.rows[x] in ss;
      var i :| 0 <= i < |ss| && ss[i] == d.sales.rows[x];
      assert r[i] == x;
    }
    r
  }

  /** The line items left after `DELETE FROM sale_items WHERE sale_id = ?` for each id in turn. */
  function WithoutItemsOf(t: Table<SaleItem>, saleIds: seq<int>): (u: Table<SaleItem>)
    requires t.Valid()
    ensures u.Valid() && u.nextId == t.nextId
    ensures forall k :: k in u.rows <==> k in t.rows && t.rows[k].saleId !in saleIds
    ensures forall k :: k in u.rows ==> u.rows[k] == t.rows[k]
    decreases |saleIds|
  {
    if saleIds == [] then t
    else
      var init := saleIds[..|saleIds| - 1];
      assert saleIds == init + [saleIds[|saleIds| - 1]];
      WithoutItemsOf(t, init).KeepRows(NotOfSale(saleIds[|saleIds| - 1]))
  }

  /** Deleting the items sale by sale is one delete of the items of all those sales. */
  lemma WithoutItemsOfAll(t: Table<SaleItem>, saleIds: seq<int>)
    requires t.Valid()
    ensures WithoutItemsOf(t, saleIds) == t.KeepRows(NotOfSales(saleIds))
  {
    assert WithoutItemsOf(t, saleIds).rows == t.KeepRows(NotOfSales(saleIds)).rows;
  }

  /**
   * The three deletes of `delete_counter`, once committed: the counter, every sale that
   * names it, and every line item of those sales are gone; every other row is kept as it
   * was, and the foreign keys still hold.
   */
  function CascadeDelete(d: CounterData, counterId: int): (e: CounterData)
    requires d.Valid()
    ensures e.Valid()
    ensures e.counters.nextId == d.counters.nextId && e.sales.nextId == d.sales.nextId &&
            e.saleItems.nextId == d.saleItems.nextId
    ensures forall k :: k in e.counters.rows <==> k in d.counters.rows && k != counterId
    ensures forall k :: k in e.sales.rows <==> k in d.sales.rows && d.sales.rows[k].counterId != counterId
    ensures forall k :: k in e.saleItems.rows <==>
      k in d.saleItems.rows && d.sales.rows[d.saleItems.rows[k].saleId].counterId != counterId
    ensures forall k :: k in e.counters.rows ==> e.counters.rows[k] == d.counters.rows[k]
    ensures forall k :: k in e.sales.rows ==> e.sales.rows[k] == d.sales.rows[k]
    ensures forall k :: k in e.saleItems.rows ==> e.saleItems.rows[k] == d.saleItems.rows[k]
  {
    var ids := SaleIdsOf(d, counterId);
    CounterData(
      d.counters.KeepRows(OtherCounter(counterId)),
      d.sales.KeepRows(NotOfCounter(counterId)),
      d.saleItems.KeepRows(NotOfSales(ids)))
  }

  /**
   * After the cascade the deleted counter has no transactions, every other counter's
   * transaction list is what it was, and so are the details of every sale that remains.
   */
  lemma CascadeDeleteQueries(d: CounterData, counterId: int, other: int, saleId: int)
    requires d.Valid() && other != counterId
    ensures CascadeDelete(d, counterId).GetTransactionsForCounter(counterId) == []
    ensures CascadeDelete(d, counterId).GetTransactionsForCounter(other) == d.GetTransactionsForCounter(other)
    ensures saleId in d.sales.rows && d.sales.rows[saleId].counterId != counterId ==>
      CascadeDelete(d, counterId).GetSaleDetails(saleId) == d.GetSaleDetails(saleId)
    ensures saleId in d.sales.rows && d.sales.rows[saleId].counterId == counterId ==>
      CascadeDelete(d, counterId).GetSaleDetails(saleId).None?
  {
    var e := CascadeDelete(d, counterId);
    var ids := SaleIdsOf(d, counterId);
    var mine := (s: Sale) => s.counterId == counterId;
    var theirs := (s: Sale) => s.counterId == other;
    ScanKeepRows(d.sales, NotOfCounter(counterId));
    SelectTwice(d.sales.Scan(), NotOfCounter(counterId), mine, (s: Sale) => false);
    SelectNone(d.sales.Scan(), (s: Sale) => false);
    assert Select(e.sales.Scan(), mine) == [];
    SelectTwice(d.sales.Scan(), NotOfCounter(counterId), theirs, theirs);
    assert Select(e.sales.Scan(), theirs) == Select(d.sales.Scan(), theirs);
    if saleId in d.sales.rows && d.sales.rows[saleId].counterId != counterId {
      var ofSale := (i: SaleItem) => i.saleId == saleId;
      ScanKeepRows(d.saleItems, NotOfSales(ids));
      assert saleId !in ids;
      SelectTwice(d.saleItems.Scan(), NotOfSales(ids), ofSale, ofSale);
      assert e.ItemsOf(saleId) == d.ItemsOf(saleId);
    }
  }

  /** The outcome of the delete button. */
  datatype DeleteOutcome =
    | NothingSelected  // "Please select a counter to delete"
    | NotConfirmed     // the confirmation was declined
    | Deleted          // committed, and the table reloaded
    | RolledBack       // a statement failed; every deletion was undone

  // ---------------------------------------------------------------- the screen

  class CashierAdmin {
    const counterDb: CounterDB
    /** The rows of the counters table. */
    var listing: seq<ListedCounter>

    ghost predicate Valid()
      reads this, counterDb
    {
      counterDb.data.Valid()
    }

    constructor (counterDb: CounterDB)
      requires counterDb.data.Valid()
      ensures Valid() && this.counterDb == counterDb && listing == []
    {
      this.counterDb := counterDb;
      listing := [];
    }

    /** `load_counters`: rebuilds the table from every counter, row by row. */
    method LoadCounters()
      requires Valid()
      modifies this
      ensures Valid() && listing == Listing(counterDb.data)
    {
      var counters := counterDb.data.GetCounters(false);
      var rows: seq<ListedCounter> := [];
      for i := 0 to |counters|
        invariant |rows| == i
        invariant forall j :: 0 <= j < i ==> rows[j] == ListingRow(counters[j])
      {
        rows := rows + [ListingRow(counters[i])];
      }
      listing := rows;
    }

    /** `add_counter_action`: the entry checks, then `add_counter`, then a reload. */
    method AddCounterAction(name: string, idText: string, password: string, deviceText: string,
                            status: string, now: int) returns (outcome: AdminOutcome)
      requires Valid()
      modifies this, counterDb
      ensures Valid()
      ensures NewCounterEntry(name, idText, password).Rejected? ==>
        outcome == Refused(NewCounterEntry(name, idText, password).error) &&
        counterDb.data == old(counterDb.data) && listing == old(listing)
      ensures NewCounterEntry(name, idText, password).Passed? && old(counterDb.data).NameTaken(name) ==>
        outcome == StoreFailed && counterDb.data == old(counterDb.data) && listing == old(listing)
      ensures NewCounterEntry(name, idText, password).Passed? && !old(counterDb.data).NameTaken(name) ==>
        outcome == Saved &&
        counterDb.data == old(counterDb.data).(counters := old(counterDb.data).counters.Insert(
          Counter(old(counterDb.data).counters.nextId, name, NewCounterEntry(name, idText, password).value,
                  DeviceIdEntry(deviceText), status, password, now))) &&
        listing == Listing(counterDb.data)
    {
      var entry := NewCounterEntry(name, idText, password);
      if entry.Rejected? {
        return Refused(entry.error);
      }
      var id := counterDb.AddCounter(name, entry.value, DeviceIdEntry(deviceText), password, status, now);
      if id.None? {
        return StoreFailed;
      }
      LoadCounters();
      outcome := Saved;
    }

    /** `save_new_password`: refuses an empty password, else writes only the password. */
    method SaveNewPassword(counterId: int, newPassword: string) returns (outcome: AdminOutcome)
      requires Valid()
      modifies this, counterDb
      ensures Valid()
      ensures newPassword == [] ==>
        outcome == Refused(MissingField) && counterDb.data == old(counterDb.data) && listing == old(listing)
      ensures newPassword != [] && counterId !in old(counterDb.data).counters.rows ==>
        outcome == StoreFailed && counterDb.data == old(counterDb.data) && listing == old(listing)
      ensures newPassword != [] && counterId in old(counterDb.data).counters.rows ==>
        outcome == Saved &&
        counterDb.data == old(counterDb.data).(counters := old(counterDb.data).counters.Update(
          counterId, old(counterDb.data).counters.rows[counterId].(password := newPassword))) &&
        listing == Listing(counterDb.data)
    {
      var change := PasswordChange(newPassword);
      if change.None? {
        return Refused(MissingField);
      }
      var r := counterDb.UpdateCounter(counterId, change.value);
      if r != Some(true) {
        return StoreFailed;
      }
      LoadCounters();
      outcome := Saved;
    }

    /** `save_counter_changes`: the entry checks, then `update_counter`, then a reload. */
    method SaveCounterChanges(counterId: int, name: string, idText: string, deviceText: string,
                              status: string) returns (outcome: AdminOutcome)
      requires Valid()
      modifies this, counterDb
      ensures Valid()
      ensures CounterEdit(name, idText, deviceText, status).Rejected? ==>
        outcome == Refused(CounterEdit(name, idText, deviceText, status).error) &&
        counterDb.data == old(counterDb.data) && listing == old(listing)
      ensures CounterEdit(name, idText, deviceText, status).Passed? ==>
        var d := old(counterDb.data);
        if counterId in d.counters.rows && !(exists k :: k in d.counters.rows && k != counterId && d.counters.rows[k].cashierName == name)
        then outcome == Saved &&
             counterDb.data == d.(counters := d.counters.Update(counterId,
               CounterEdit(name, idText, deviceText, status).value.ApplyTo(d.counters.rows[counterId]))) &&
             listing == Listing(counterDb.data)
        else outcome == StoreFailed && counterDb.data == d && listing == old(listing)
    {
      var edit := CounterEdit(name, idText, deviceText, status);
      if edit.Rejected? {
        return Refused(edit.error);
      }
      var r := counterDb.UpdateCounter(counterId, edit.value);
      if r != Some(true) {
        return StoreFailed;
      }
      LoadCounters();
      outcome := Saved;
    }

    /**
     * The transaction of `delete_counter`: the counter's sale ids are read (statement 0),
     * its line items deleted sale by sale (statements 1 to n), then its sales (n + 1), the
     * counter (n + 2), and the transaction committed (n + 3). `fault` names the statement
     * that fails, if any; a failure rolls every deletion back. Until the commit the
     * deletions are the transaction's own pending view (`items`, and the sales and counters
     * filtered last); the connection's committed state is the store's `data`.
     */
    method DeleteCascade(counterId: int, fault: Option<nat>) returns (committed: bool)
      requires Valid()
      modifies counterDb
      ensures Valid()
      ensures committed <==> !(fault.Some? && fault.value <= |SaleIdsOf(old(counterDb.data), counterId)| + 3)
      ensures counterDb.data == if committed then CascadeDelete(old(counterDb.data), counterId) else old(counterDb.data)
    {
      var snapshot := counterDb.data;
      if fault == Some(0) {
        return false;
      }
      var saleIds := SaleIdsOf(snapshot, counterId);
      var items := snapshot.saleItems;
      var i := 0;
      while i < |saleIds|
        invariant 0 <= i <= |saleIds|
        invariant fault.Some? ==> fault.value == 0 || fault.value > i
        invariant counterDb.data == snapshot
        invariant items == WithoutItemsOf(snapshot.saleItems, saleIds[..i])
      {
        if fault == Some(i + 1) {
          return false;
        }
        assert saleIds[..i + 1][..i] == saleIds[..i];
        items := items.KeepRows(NotOfSale(saleIds[i]));
        i := i + 1;
      }
      assert saleIds[..i] == saleIds;
      WithoutItemsOfAll(snapshot.saleItems, saleIds);
      if fault.Some? && |saleIds| + 1 <= fault.value <= |saleIds| + 3 {
        return false;
      }
      var sales := snapshot.sales.KeepRows(NotOfCounter(counterId));
      var counters := snapshot.counters.KeepRows(OtherCounter(counterId));
      counterDb.data := CounterData(counters, sales, items);
      assert counterDb.data == CascadeDelete(snapshot, counterId);
      committed := true;
    }

    /** `delete_counter`: a selection and a confirmation, then the transaction and a reload. */
    method DeleteCounter(selected: Option<int>, confirmed: bool, fault: Option<nat>) returns (outcome: DeleteOutcome)
      requires Valid()
      modifies this, counterDb
      ensures Valid()
      ensures selected.None? ==>
        outcome == NothingSelected && counterDb.data == old(counterDb.data) && listing == old(listing)
      ensures selected.Some? && !confirmed ==>
        outcome == NotConfirmed && counterDb.data == old(counterDb.data) && listing == old(listing)
      ensures selected.Some? && confirmed ==>
        if fault.Some? && fault.value <= |SaleIdsOf(old(counterDb.data), selected.value)| + 3
        then outcome == RolledBack && counterDb.data == old(counterDb.data) && listing == old(listing)
        else outcome == Deleted && counterDb.data == CascadeDelete(old(counterDb.data), selected.value) &&
             listing == Listing(counterDb.data)
    {
      if selected.None? {
        return NothingSelected;
      }
      if !confirmed {
        return NotConfirmed;
      }
      var committed := DeleteCascade(selected.value, fault);
      if !committed {
        return RolledBack;
      }
      LoadCounters();
      outcome := Deleted;
    }
  }
}
