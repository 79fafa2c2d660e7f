/**
 * The administrator's inventory screen (`InventorySection` in inventory.py): the
 * filter widgets and the filter record they produce, the product table it lists,
 * the in-table search, and the add / edit / delete / restock forms and what they check
 * before writing. The widget texts are fields; `float()` parsing of the price
 * and bound entries is taken as already done.
 */
module Inventory {
  import opened Wrappers
  import opened Text
  import opened Seqs
  import opened Tables
  import opened Catalog

  const NO_RANGE: string := "No Range"

  /** What `float()` makes of a range bound entry. */
  datatype BoundEntry = Empty | Number(value: int) | Unreadable

  /** The filter widgets' current values. */
  datatype Widgets = Widgets(
    category: string, company: string, status: string, search: string,
    rangeType: string, minEntry: BoundEntry, maxEntry: BoundEntry)

  /** One bound of a range: an empty entry takes `fallback`; text `float()` rejects drops the range. */
  function Bound(e: BoundEntry, fallback: Option<int>): Option<Option<int>> {
    match e
    case Empty => Some(fallback)
    case Number(v) => Some(Some(v))
    case Unreadable => None
  }

  /**
   * `get_current_filters` stated key by key: no key for an "All ..." choice or a blank
   * search; the search is stripped; at most one range, present only when both bounds
   * are numbers or empty, with an empty minimum meaning 0 and an empty maximum no bound.
   */
  function FiltersFor(w: Widgets): (f: ProductFilter)
    ensures f.category.None? <==> w.category == ALL_CATEGORIES
    ensures f.category.Some? ==> f.category.value == w.category
    ensures f.company.None? <==> w.company == ALL_COMPANIES
    ensures f.company.Some? ==> f.company.value == w.company
    ensures f.status.None? <==> w.status == ALL_STATUS
    ensures f.status.Some? ==> f.status.value == w.status
    ensures f.searchQuery.None? <==> IsBlank(w.search)
    ensures f.searchQuery.Some? ==> f.searchQuery.value == Strip(w.search) && f.searchQuery.value != ""
    ensures f.rangeType.Some? <==>
      (w.rangeType == PRICE_RANGE || w.rangeType == QUANTITY_RANGE) &&
      w.minEntry != Unreadable && w.maxEntry != Unreadable
    ensures f.rangeType.Some? ==> f.rangeType.value == w.rangeType
    ensures f.rangeType != Some(PRICE_RANGE) ==> f.minPrice.None? && f.maxPrice.None?
    ensures f.rangeType != Some(QUANTITY_RANGE) ==> f.minQty.None? && f.maxQty.None?
    ensures f.rangeType == Some(PRICE_RANGE) ==>
      f.minPrice == Some(if w.minEntry.Number? then w.minEntry.value else 0) &&
      f.maxPrice == (if w.maxEntry.Number? then Some(w.maxEntry.value) else None)
    ensures f.rangeType == Some(QUANTITY_RANGE) ==>
      f.minQty == Some(if w.minEntry.Number? then w.minEntry.value else 0) &&
      f.maxQty == (if w.maxEntry.Number? then Some(w.maxEntry.value) else None)
  {
    var lo := Bound(w.minEntry, Some(0));
    var hi := Bound(w.maxEntry, None);
    var base := KeyFilters(w);
    if lo.None? || hi.None? then base
    else if w.rangeType == PRICE_RANGE then base.(rangeType := Some(PRICE_RANGE), minPrice := lo.value, maxPrice := hi.value)
    else if w.rangeType == QUANTITY_RANGE then base.(rangeType := Some(QUANTITY_RANGE), minQty := lo.value, maxQty := hi.value)
    else base
  }

  /** The keys of `get_current_filters` other than the range. */
  function KeyFilters(w: Widgets): ProductFilter {
    ProductFilter(
      if w.category != ALL_CATEGORIES then Some(w.category) else None,
      if w.company != ALL_COMPANIES then Some(w.company) else None,
      if w.status != ALL_STATUS then Some(w.status) else None,
      None, None, None, None, None,
      if Strip(w.search) != "" then Some(Strip(w.search)) else None)
  }

  /** With the widgets at their start-up values the listing is the whole table. */
  lemma DefaultWidgetsListEverything(p: Product, minEntry: BoundEntry, maxEntry: BoundEntry)
    ensures Matches(FiltersFor(Widgets(ALL_CATEGORIES, ALL_COMPANIES, ALL_STATUS, "", NO_RANGE, minEntry, maxEntry)), p)
  {
    assert IsBlank("");
  }

  // ---------------------------------------------------------------- displayed rows

  function Pad2(n: nat): string
    requires n < 100
  {
    if n < 10 then "0" + NatToString(n) else NatToString(n)
  }

  function Pad3(n: nat): string
    requires n < 1000
  {
    if n < 10 then "00" + NatToString(n) else if n < 100 then "0" + NatToString(n) else NatToString(n)
  }

  /** A whole number with a comma between each group of three digits. */
  function Grouped(n: nat): string
    decreases n
  {
    if n < 1000 then NatToString(n) else Grouped(n / 1000) + "," + Pad3(n % 1000)
  }

  /** `f"{amount:,.2f}"` for an amount in minor units. */
  function MoneyText(minor: int): string {
    var magnitude: nat := if minor < 0 then -minor else minor;
    (if minor < 0 then "-" else "") + Grouped(magnitude / 100) + "." + Pad2(magnitude % 100)
  }

  /**
   * The status markers exactly as the source file spells them: each is the text its
   * coloured-circle emoji becomes when its UTF-8 bytes are read as Mac Roman (an Apple
   * logo, then three accented letters or signs).
   */
  const RED_CIRCLE: string := "\U{F8FF}\U{FC}\U{EE}\U{A5}"
  const YELLOW_CIRCLE: string := "\U{F8FF}\U{FC}\U{FC}\U{B0}"
  const GREEN_CIRCLE: string := "\U{F8FF}\U{FC}\U{FC}\U{A2}"

  /** The status cell: the status marker and the stored status. */
  function StatusCell(status: string): string {
    (if status == OUT_OF_STOCK then RED_CIRCLE else if status == LOW_STOCK then YELLOW_CIRCLE else GREEN_CIRCLE)
      + " " + status
  }

  /** The ten cells `populate_sample_data` shows for a product. */
  function RowValues(p: Product): seq<string> {
    [IntToString(p.id), p.name, p.category, p.company, p.code, MoneyText(p.tradePrice),
     MoneyText(p.mfgPrice), IntToString(p.quantity), StatusCell(p.status), MoneyText(p.Worth())]
  }

  /** Some cell of the row, lowered, contains the (already lowered) query. */
  predicate RowHit(p: Product, query: string) {
    exists i :: 0 <= i < |RowValues(p)| && Contains(Lower(RowValues(p)[i]), query)
  }

  /** The rows `search_items` leaves attached, in their order. */
  function SearchHits(rows: seq<Product>, query: string): (r: seq<Product>)
    ensures forall p :: p in r <==> p in rows && RowHit(p, query)
  {
    Select(rows, (p: Product) => RowHit(p, query))
  }

  /**
   * Every status marker holds a "\U{FC}", so searching for that letter keeps every
   * shown row, whatever its other cells hold.
   */
  lemma MarkerQueryKeepsEveryRow(rows: seq<Product>)
    ensures SearchHits(rows, "\U{FC}") == rows
  {
    forall i | 0 <= i < |rows| ensures RowHit(rows[i], "\U{FC}") {
      var cell := StatusCell(rows[i].status);
      assert cell[1] == '\U{FC}';
      assert Lower(cell)[1..2] == "\U{FC}";
      assert OccursAt("\U{FC}", Lower(RowValues(rows[i])[8]), 1);
    }
    SelectAll(rows, (p: Product) => RowHit(p, "\U{FC}"));
  }

  // ---------------------------------------------------------------- form validation

  /** Why a form was refused before any write. */
  datatype FormError =
    | NotANumber          // `int()` or `float()` raised
    | MissingField        // "All fields are required"
    | NegativeQuantity    // "Quantity cannot be negative"
    | NonPositivePrice    // "Prices must be positive values"
    | NonPositiveAmount   // "Restock amount must be positive"

  datatype Checked<T> = Passed(value: T) | Rejected(error: FormError)

  /** The add-item dialog's entries; a price is `None` when `float()` rejects its text. */
  datatype ItemForm = ItemForm(
    name: string, category: string, company: string, code: string,
    tradePrice: Option<int>, mfgPrice: Option<int>, quantity: string)

  /** The edit dialog's entries. */
  datatype EditForm = EditForm(
    name: string, category: string, company: string, code: string,
    tradePrice: Option<int>, mfgPrice: Option<int>)

  /**
   * The checks of `add_item_action`, in their order: the quantity must parse, both prices
   * must parse, every field must be truthy (so a quantity or price of 0 is "missing"), the
   * quantity must not be negative and both prices must be positive. The new row's status
   * follows its quantity.
   */
  function ValidateNewItem(form: ItemForm): (r: Checked<NewProduct>)
    ensures r.Passed? <==>
      ParseInt(form.quantity).Some? && ParseInt(form.quantity).value >= 1 &&
      form.tradePrice.Some? && form.tradePrice.value > 0 && form.mfgPrice.Some? && form.mfgPrice.value > 0 &&
      !IsBlank(form.name) && !IsBlank(form.category) && !IsBlank(form.company) && !IsBlank(form.code)
    ensures r.Passed? ==>
      r.value == NewProduct(Strip(form.name), Strip(form.category), Strip(form.company), Strip(form.code),
                            form.tradePrice.value, form.mfgPrice.value, ParseInt(form.quantity).value,
                            StatusFor(ParseInt(form.quantity).value)) &&
      r.value.status != OUT_OF_STOCK
    ensures ParseInt(form.quantity) == Some(0) && form.tradePrice.Some? && form.mfgPrice.Some? ==>
      r == Rejected(MissingField)
  {
    match ParseInt(form.quantity)
    case None => Rejected(NotANumber)
    case Some(quantity) =>
      if form.tradePrice.None? || form.mfgPrice.None? then Rejected(NotANumber)
      else
        var row := NewProduct(Strip(form.name), Strip(form.category), Strip(form.company), Strip(form.code),
                              form.tradePrice.value, form.mfgPrice.value, quantity, StatusFor(quantity));
        WorthZero(row.tradePrice, quantity);
        if row.name == "" || row.category == "" || row.company == "" || row.code == "" ||
           row.tradePrice == 0 || row.mfgPrice == 0 || quantity == 0 || row.tradePrice * quantity == 0
        then Rejected(MissingField)
        else if quantity < 0 then Rejected(NegativeQuantity)
        else if row.tradePrice <= 0 || row.mfgPrice <= 0 then Rejected(NonPositivePrice)
        else Passed(row)
  }

  /** A product of whole numbers is zero only when a factor is. */
  lemma {:induction false} ProductZero(a: int, b: nat)
    ensures a * b == 0 <==> a == 0 || b == 0
    decreases b
  {
    if b > 1 {
      ProductZero(a, b - 1);
      assert a * b == a * (b - 1) + a;
      if a > 0 { ProductSign(a, b - 1); } else if a < 0 { ProductSign(-a, b - 1); assert a * (b - 1) == -((-a) * (b - 1)); }
    }
  }

  /** The generated worth of a positive quantity is zero only for a zero price. */
  lemma WorthZero(price: int, quantity: int)
    ensures quantity > 0 ==> (price * quantity == 0 <==> price == 0)
  {
    if quantity > 0 {
      ProductZero(price, quantity);
    }
  }

  lemma {:induction false} ProductSign(a: nat, b: nat)
    ensures a * b >= 0
    decreases b
  {
    if b > 0 {
      ProductSign(a, b - 1);
      assert a * b == a * (b - 1) + a;
    }
  }

  /**
   * The checks of `edit_item_action`: both prices must parse, the four texts must not be
   * blank, and both prices must be positive. The update names exactly those six columns.
   */
  function ValidateEdit(form: EditForm): (r: Checked<ProductUpdates>)
    ensures r.Passed? <==>
      form.tradePrice.Some? && form.tradePrice.value > 0 && form.mfgPrice.Some? && form.mfgPrice.value > 0 &&
      !IsBlank(form.name) && !IsBlank(form.category) && !IsBlank(form.company) && !IsBlank(form.code)
    ensures r.Passed? ==>
      !r.value.IsEmpty() && r.value.quantity.None? && r.value.status.None? &&
      r.value == ProductUpdates(Some(Strip(form.name)), Some(Strip(form.category)), Some(Strip(form.company)),
                                Some(Strip(form.code)), form.tradePrice, form.mfgPrice, None, None)
  {
    if form.tradePrice.None? || form.mfgPrice.None? then Rejected(NotANumber)
    else if Strip(form.name) == "" || Strip(form.category) == "" || Strip(form.company) == "" ||
            Strip(form.code) == "" || form.tradePrice.value == 0 || form.mfgPrice.value == 0
    then Rejected(MissingField)
    else if form.tradePrice.value <= 0 || form.mfgPrice.value <= 0 then Rejected(NonPositivePrice)
    else Passed(ProductUpdates(Some(Strip(form.name)), Some(Strip(form.category)), Some(Strip(form.company)),
                              Some(Strip(form.code)), form.tradePrice, form.mfgPrice, None, None))
  }

  /** The check of `restock_item_action`: a whole, positive amount. */
  function ValidateRestock(text: string): (r: Checked<int>)
    ensures r.Passed? <==> ParseInt(text).Some? && ParseInt(text).value > 0
    ensures r.Passed? ==> r.value == ParseInt(text).value
  {
    match ParseInt(text)
    case None => Rejected(NotANumber)
    case Some(amount) => if amount <= 0 then Rejected(NonPositiveAmount) else Passed(amount)
  }

  /**
   * The widgets after `refresh_filters`: the category and company selections stay when
   * the store still holds that value, and fall back to their "All ..." choice otherwise.
   */
  function RefreshedWidgets(w: Widgets, rows: map<int, Product>): Widgets {
    w.(category := if w.category in Categories(rows) then w.category else ALL_CATEGORIES,
       company := if w.company in Companies(rows) then w.company else ALL_COMPANIES)
  }

  /** What a form action ends with. */
  datatype ActionOutcome = Done | Refused(error: FormError) | StoreFailed

  // ---------------------------------------------------------------- the screen

  class InventorySection {
    const db: InventoryDB
    var widgets: Widgets
    /** The drop-down lists of the category and company boxes. */
    var categoryOptions: seq<string>
    var companyOptions: seq<string>
    /** The rows the product table shows, top to bottom. */
    var shown: seq<Product>

    ghost predicate Valid()
      reads this, db
    {
      db.Valid()
    }

    constructor (db: InventoryDB)
      requires db.Valid()
      ensures Valid() && this.db == db && shown == []
      ensures widgets == Widgets(ALL_CATEGORIES, ALL_COMPANIES, ALL_STATUS, "", NO_RANGE, Empty, Empty)
      ensures categoryOptions == [ALL_CATEGORIES] + db.GetAllCategories()
      ensures companyOptions == [ALL_COMPANIES] + db.GetAllCompanies()
    {
      this.db := db;
      widgets := Widgets(ALL_CATEGORIES, ALL_COMPANIES, ALL_STATUS, "", NO_RANGE, Empty, Empty);
      categoryOptions := [ALL_CATEGORIES] + db.GetAllCategories();
      companyOptions := [ALL_COMPANIES] + db.GetAllCompanies();
      shown := [];
    }

    /**
     * The screen once `populate_sample_data` and then `refresh_filters` have run from
     * widgets `before`: the table lists what `before` selects in the store, the drop-down
     * lists hold the store's categories and companies, and the selections are refreshed.
     */
    ghost predicate Reloaded(before: Widgets)
      requires Valid()
      reads this, db
    {
      shown == db.GetProducts(FiltersFor(before)) &&
      categoryOptions == db.GetAllCategories() && companyOptions == db.GetAllCompanies() &&
      widgets == RefreshedWidgets(before, db.products.rows)
    }

    /** `get_current_filters`: the dictionary filled key by key from the widgets. */
    method GetCurrentFilters() returns (f: ProductFilter)
      ensures f == FiltersFor(widgets)
    {
      var w := widgets;
      f := NO_FILTERS;
      if w.category != ALL_CATEGORIES {
        f := f.(category := Some(w.category));
      }
      if w.company != ALL_COMPANIES {
        f := f.(company := Some(w.company));
      }
      if w.status != ALL_STATUS {
        f := f.(status := Some(w.status));
      }
      var query := Strip(w.search);
      if query != "" {
        f := f.(searchQuery := Some(query));
      }
      assert f == KeyFilters(w);
      var lo := Bound(w.minEntry, Some(0));
      var hi := Bound(w.maxEntry, None);
      if w.rangeType == PRICE_RANGE {
        if lo.Some? && hi.Some? {
          f := f.(rangeType := Some(PRICE_RANGE), minPrice := lo.value, maxPrice := hi.value);
        }
      } else if w.rangeType == QUANTITY_RANGE {
        if lo.Some? && hi.Some? {
          f := f.(rangeType := Some(QUANTITY_RANGE), minQty := lo.value, maxQty := hi.value);
        }
      }
    }

    /**
     * `populate_sample_data` (also `apply_filters`): every stored status is first rewritten
     * from its quantity, then the table lists the products the widgets select, in id order,
     * each agreeing with the classification.
     */
    method PopulateSampleData()
      requires Valid()
      modifies db
      ensures Valid() && db.StatusesCurrent()
      ensures db.products == Refreshed(old(db.products))
      ensures shown == db.GetProducts(FiltersFor(widgets))
      ensures forall p :: p in shown ==> p.status == StatusFor(p.quantity)
      ensures widgets == old(widgets) && categoryOptions == old(categoryOptions) && companyOptions == old(companyOptions)
      modifies this
    {
      db.RefreshAllStatuses();
      var f := GetCurrentFilters();
      shown := db.GetProducts(f);
      forall p | p in shown ensures p.status == StatusFor(p.quantity) {
        var k :| k in db.products.rows && db.products.rows[k] == p;
      }
    }

    /**
     * `refresh_filters`: the lists are reloaded, and each selection is kept iff it is
     * still one of the listed values, otherwise reset to its "All ..." choice.
     */
    method RefreshFilters()
      requires Valid()
      modifies this
      ensures Valid() && shown == old(shown)
      ensures categoryOptions == db.GetAllCategories() && companyOptions == db.GetAllCompanies()
      ensures widgets == RefreshedWidgets(old(widgets), db.products.rows)
    {
      var categories := db.GetAllCategories();
      var companies := db.GetAllCompanies();
      categoryOptions := categories;
      companyOptions := companies;
      if widgets.category !in categories {
        widgets := widgets.(category := ALL_CATEGORIES);
      }
      if widgets.company !in companies {
        widgets := widgets.(company := ALL_COMPANIES);
      }
    }

    /**
     * `search_items`: an empty query reloads the table; otherwise the rows some cell of which
     * contains the lowered query stay, in their order, and the others are detached.
     */
    method SearchItems()
      requires Valid()
      modifies this, db
      ensures Valid()
      ensures Lower(widgets.search) == "" ==> db.products == Refreshed(old(db.products)) && shown == db.GetProducts(FiltersFor(widgets))
      ensures Lower(widgets.search) != "" ==>
        db.products == old(db.products) && shown == SearchHits(old(shown), Lower(widgets.search))
      ensures widgets == old(widgets)
    {
      var query := Lower(widgets.search);
      if query == "" {
        PopulateSampleData();
        return;
      }
      var kept: seq<Product> := [];
      var i := 0;
      while i < |shown|
        invariant 0 <= i <= |shown|
        invariant kept == Select(shown[..i], (p: Product) => RowHit(p, query))
      {
        assert shown[..i + 1][..i] == shown[..i];
        if RowHit(shown[i], query) {
          kept := kept + [shown[i]];
        }
        i := i + 1;
      }
      assert shown[..i] == shown;
      shown := kept;
      assert shown == SearchHits(old(shown), query);
    }

    /** `update_product_status`: that one row's status follows its quantity. */
    method UpdateProductStatus(id: int)
      requires Valid()
      modifies db
      ensures Valid()
      ensures id in old(db.products.rows) ==> db.products == old(db.products).Update(id, old(db.products.rows[id]).WithCurrentStatus())
      ensures id !in old(db.products.rows) ==> db.products == old(db.products)
    {
      db.RefreshStatus(id);
    }

    /**
     * `add_item_action`: a form that passes the checks is stored; a duplicate code makes the
     * store fail. Only a stored item reloads the table and the filter lists.
     */
    method AddItemAction(form: ItemForm) returns (outcome: ActionOutcome)
      requires Valid()
      modifies this, db
      ensures Valid()
      ensures outcome.Refused? <==> ValidateNewItem(form).Rejected?
      ensures ValidateNewItem(form).Rejected? ==> outcome == Refused(ValidateNewItem(form).error)
      ensures ValidateNewItem(form).Passed? ==>
        (outcome == StoreFailed <==> old(db.CodeTaken(Strip(form.code))))
      ensures outcome != Done ==> unchanged(this) && db.products == old(db.products)
      ensures outcome == Done ==>
        var p := ValidateNewItem(form).value;
        var id := old(db.products.nextId);
        db.products == Refreshed(old(db.products).Insert(
          Product(id, p.name, p.category, p.company, p.code, p.tradePrice, p.mfgPrice, p.quantity, p.status))) &&
        db.products.rows[id].status == StatusFor(p.quantity) &&
        Reloaded(old(widgets))
    {
      var checked := ValidateNewItem(form);
      if checked.Rejected? {
        return Refused(checked.error);
      }
      var id := db.AddProduct(checked.value);
      if id.None? {
        return StoreFailed;
      }
      PopulateSampleData();
      RefreshFilters();
      outcome := Done;
    }

    /**
     * `edit_item_action`: a form that passes the checks updates the six columns; then that
     * row's status is recomputed from its stored quantity and the screen reloads. A
     * missing id or a code clash is a store failure and nothing is written.
     */
    method EditItemAction(id: int, form: EditForm) returns (outcome: ActionOutcome)
      requires Valid()
      modifies this, db
      ensures Valid()
      ensures outcome.Refused? <==> ValidateEdit(form).Rejected?
      ensures ValidateEdit(form).Rejected? ==> outcome == Refused(ValidateEdit(form).error)
      ensures ValidateEdit(form).Passed? ==>
        (outcome == Done <==> id in old(db.products.rows) && !old(db.CodeHeldByOther(id, Strip(form.code))))
      ensures outcome != Done ==> unchanged(this) && db.products == old(db.products)
      ensures outcome == Done ==>
        ValidateEdit(form).Passed? && id in old(db.products.rows) &&
        var q := ValidateEdit(form).value.ApplyTo(old(db.products.rows[id]));
        db.products == Refreshed(old(db.products).Update(id, q.WithCurrentStatus())) &&
        Reloaded(old(widgets))
    {
      var checked := ValidateEdit(form);
      if checked.Rejected? {
        return Refused(checked.error);
      }
      ghost var before := db.products;
      var success := db.UpdateProduct(id, checked.value);
      if success != Some(true) {
        return StoreFailed;
      }
      ghost var q := checked.value.ApplyTo(before.rows[id]);
      assert db.products == before.Update(id, q);
      db.RefreshStatus(id);
      UpdateTwice(before, id, q, q.WithCurrentStatus());
      assert db.products == before.Update(id, q.WithCurrentStatus());
      ghost var w := widgets;
      PopulateSampleData();
      assert db.products == Refreshed(before.Update(id, q.WithCurrentStatus()));
      assert shown == db.GetProducts(FiltersFor(w));
      RefreshFilters();
      outcome := Done;
    }

    /**
     * `delete_item_action`: the row is deleted; when it existed the screen reloads, and an
     * unknown id is a store failure with nothing written.
     */
    method DeleteItemAction(id: int) returns (outcome: ActionOutcome)
      requires Valid()
      modifies this, db
      ensures Valid()
      ensures outcome == Done <==> id in old(db.products.rows)
      ensures outcome != Done ==> outcome == StoreFailed && unchanged(this) && db.products == old(db.products)
      ensures outcome == Done ==>
        db.products == Refreshed(Table(old(db.products.rows) - {id}, old(db.products.nextId))) &&
        Reloaded(old(widgets))
    {
      ghost var before := db.products;
      var success := db.DeleteProduct(id);
      if !success {
        assert db.products == before;
        return StoreFailed;
      }
      ghost var w := widgets;
      PopulateSampleData();
      assert shown == db.GetProducts(FiltersFor(w));
      RefreshFilters();
      outcome := Done;
    }

    /**
     * `restock_item_action`: an amount that is not a whole positive number is refused before
     * the store is called; a successful restock is followed by `update_product_status`,
     * whose single-row status rewrite is `RefreshStatus`.
     */
    method RestockItemAction(id: int, text: string) returns (outcome: ActionOutcome)
      requires Valid()
      modifies this, db
      ensures Valid()
      ensures outcome.Refused? <==> ValidateRestock(text).Rejected?
      ensures ValidateRestock(text).Rejected? ==> outcome == Refused(ValidateRestock(text).error)
      ensures ValidateRestock(text).Passed? && id in old(db.products.rows) ==> outcome == Done
      ensures outcome != Done ==> unchanged(this) && db.products == old(db.products)
      ensures outcome == Done ==>
        ValidateRestock(text).Passed? && id in old(db.products.rows) &&
        var p := old(db.products.rows[id]);
        var q := p.(quantity := p.quantity + ValidateRestock(text).value);
        db.products == Refreshed(old(db.products).Update(id, q.WithCurrentStatus())) &&
        Reloaded(old(widgets))
    {
      var checked := ValidateRestock(text);
      if checked.Rejected? {
        return Refused(checked.error);
      }
      ghost var before := db.products;
      var success := db.RestockProduct(id, checked.value);
      if !success {
        return StoreFailed;
      }
      ghost var q := before.rows[id].(quantity := before.rows[id].quantity + checked.value);
      assert db.products == before.Update(id, q.WithCurrentStatus());
      db.RefreshStatus(id);
      UpdateTwice(before, id, q.WithCurrentStatus(), q.WithCurrentStatus());
      assert db.products == before.Update(id, q.WithCurrentStatus());
      ghost var w := widgets;
      PopulateSampleData();
      assert db.products == Refreshed(before.Update(id, q.WithCurrentStatus()));
      assert shown == db.GetProducts(FiltersFor(w));
      RefreshFilters();
      outcome := Done;
    }
  }
}
