/**
 * `InventoryDB` (database.py): the `products` table of `inventory.db`, its
 * filtered listing, and the statements that write it. Prices are integer minor
 * units (paisa) instead of SQLite `REAL`s.
 */
module Catalog {
  import opened Wrappers
  import opened Text
  import opened Seqs
  import opened Tables

  // ---------------------------------------------------------------- stock status

  const IN_STOCK: string := "In Stock"
  const LOW_STOCK: string := "Low Stock"
  const OUT_OF_STOCK: string := "Out of Stock"
  /** The largest quantity that is still "Low Stock". */
  const LOW_STOCK_LIMIT: int := 10

  /**
   * The classification every writer of `status` uses (the SQL `CASE` in
   * `restock_product`, in `populate_sample_data`, `update_product_status` and
   * `edit_item_action`, and the `if`/`elif` chain of `add_item_action`).
   */
  function StatusFor(quantity: int): (s: string)
    ensures s == OUT_OF_STOCK <==> quantity <= 0
    ensures s == LOW_STOCK <==> 0 < quantity <= LOW_STOCK_LIMIT
    ensures s == IN_STOCK <==> LOW_STOCK_LIMIT < quantity
  {
    if quantity <= 0 then OUT_OF_STOCK
    else if quantity <= LOW_STOCK_LIMIT then LOW_STOCK
    else IN_STOCK
  }

  /** The three statuses `get_products` knows how to filter on. */
  predicate IsKnownStatus(s: string) {
    s == IN_STOCK || s == LOW_STOCK || s == OUT_OF_STOCK
  }

  // ---------------------------------------------------------------- rows

  /** One row of `products`; `status` is free text, since `update_product` can write any value. */
  datatype Product = Product(
    id: int, name: string, category: string, company: string, code: string,
    tradePrice: int, mfgPrice: int, quantity: int, status: string)
  {
    /** The generated column `worth = trade_price * quantity`. */
    function Worth(): int {
      tradePrice * quantity
    }

    /** The row once `status` is rewritten from the stored quantity. */
    function WithCurrentStatus(): Product {
      this.(status := StatusFor(quantity))
    }
  }

  function ProductId(p: Product): int {
    p.id
  }

  /** The dictionary `add_product` receives. */
  datatype NewProduct = NewProduct(
    name: string, category: string, company: string, code: string,
    tradePrice: int, mfgPrice: int, quantity: int, status: string)

  /** The dictionary `update_product` receives: a column is written iff its entry is present. */
  datatype ProductUpdates = ProductUpdates(
    name: Option<string>, category: Option<string>, company: Option<string>, code: Option<string>,
    tradePrice: Option<int>, mfgPrice: Option<int>, quantity: Option<int>, status: Option<string>)
  {
    predicate IsEmpty() {
      name.None? && category.None? && company.None? && code.None? &&
      tradePrice.None? && mfgPrice.None? && quantity.None? && status.None?
    }

    /** The row after `UPDATE products SET ...` with these entries. */
    function ApplyTo(p: Product): (q: Product)
      ensures q.id == p.id
      ensures IsEmpty() ==> q == p
      ensures name.Some? ==> q.name == name.value
      ensures name.None? ==> q.name == p.name
      ensures category.Some? ==> q.category == category.value
      ensures category.None? ==> q.category == p.category
      ensures company.Some? ==> q.company == company.value
      ensures company.None? ==> q.company == p.company
      ensures code.Some? ==> q.code == code.value
      ensures code.None? ==> q.code == p.code
      ensures tradePrice.Some? ==> q.tradePrice == tradePrice.value
      ensures tradePrice.None? ==> q.tradePrice == p.tradePrice
      ensures mfgPrice.Some? ==> q.mfgPrice == mfgPrice.value
      ensures mfgPrice.None? ==> q.mfgPrice == p.mfgPrice
      ensures quantity.Some? ==> q.quantity == quantity.value
      ensures quantity.None? ==> q.quantity == p.quantity
      ensures status.Some? ==> q.status == status.value
      ensures status.None? ==> q.status == p.status
    {
      p.(name := name.GetOr(p.name), category := category.GetOr(p.category),
         company := company.GetOr(p.company), code := code.GetOr(p.code),
         tradePrice := tradePrice.GetOr(p.tradePrice), mfgPrice := mfgPrice.GetOr(p.mfgPrice),
         quantity := quantity.GetOr(p.quantity), status := status.GetOr(p.status))
    }
  }

  // ---------------------------------------------------------------- filters

  const ALL_CATEGORIES: string := "All Categories"
  const ALL_COMPANIES: string := "All Companies"
  const ALL_STATUS: string := "All Status"
  const PRICE_RANGE: string := "Price Range"
  const QUANTITY_RANGE: string := "Quantity Range"

  /** The dictionary `get_products` receives; a missing key is `None`. */
  datatype ProductFilter = ProductFilter(
    category: Option<string>, company: Option<string>, status: Option<string>,
    rangeType: Option<string>,
    minPrice: Option<int>, maxPrice: Option<int>, minQty: Option<int>, maxQty: Option<int>,
    searchQuery: Option<string>)

  /** `get_products()` with no filters, or with an empty dictionary. */
  const NO_FILTERS: ProductFilter :=
    ProductFilter(None, None, None, None, None, None, None, None, None)

  /** `filters.get(key) and filters[key] != sentinel`: the entry is present, non-empty and not the "All ..." choice. */
  predicate Selects(entry: Option<string>, sentinel: string) {
    entry.Some? && entry.value != "" && entry.value != sentinel
  }

  /** `x BETWEEN min AND max` with `min` defaulting to 0 and a missing `max` meaning no upper bound. */
  predicate InRange(x: int, lo: Option<int>, hi: Option<int>) {
    lo.GetOr(0) <= x && (hi.None? || x <= hi.value)
  }

  /** `name LIKE %q% OR category LIKE %q% OR company LIKE %q% OR code LIKE %q%`. */
  predicate SearchHit(p: Product, q: string) {
    ContainsIgnoringCase(p.name, q) || ContainsIgnoringCase(p.category, q) ||
    ContainsIgnoringCase(p.company, q) || ContainsIgnoringCase(p.code, q)
  }

  /** The `WHERE` clause `get_products` builds: the conjunction of the clauses the filter turns on. */
  predicate Matches(f: ProductFilter, p: Product) {
    (Selects(f.category, ALL_CATEGORIES) ==> p.category == f.category.value) &&
    (Selects(f.company, ALL_COMPANIES) ==> p.company == f.company.value) &&
    (Selects(f.status, ALL_STATUS) && IsKnownStatus(f.status.value) ==> p.status == f.status.value) &&
    (f.rangeType == Some(PRICE_RANGE) ==> InRange(p.tradePrice, f.minPrice, f.maxPrice)) &&
    (f.rangeType == Some(QUANTITY_RANGE) ==> InRange(p.quantity, f.minQty, f.maxQty)) &&
    (f.searchQuery.Some? && f.searchQuery.value != "" ==> SearchHit(p, f.searchQuery.value))
  }

  /** The table after `UPDATE products SET status = CASE ... END` with no `WHERE`. */
  function Refreshed(t: Table<Product>): (u: Table<Product>)
    ensures u.nextId == t.nextId && u.rows.Keys == t.rows.Keys
    ensures forall k :: k in u.rows ==> u.rows[k] == t.rows[k].WithCurrentStatus()
  {
    Table(map k | k in t.rows :: t.rows[k].WithCurrentStatus(), t.nextId)
  }

  /** The distinct values of one text column, as a set. */
  function Categories(rows: map<int, Product>): set<string> {
    set k | k in rows :: rows[k].category
  }

  function Companies(rows: map<int, Product>): set<string> {
    set k | k in rows :: rows[k].company
  }

  /** A column read off a scan holds exactly the values that column has in the table. */
  lemma ColumnValues(t: Table<Product>, column: seq<string>, f: Product -> string)
    requires t.Valid()
    requires |column| == |t.Scan()| && forall i :: 0 <= i < |column| ==> column[i] == f(t.Scan()[i])
    ensures forall c :: c in column <==> exists k :: k in t.rows && f(t.rows[k]) == c
  {
    var scan := t.Scan();
    ScanRows(t);
    forall i | 0 <= i < |scan| ensures exists k :: k in t.rows && f(t.rows[k]) == column[i] {
      assert t.Holds(scan[i]);
      var k :| k in t.rows && t.rows[k] == scan[i];
      assert f(t.rows[k]) == column[i];
    }
    forall c | exists k :: k in t.rows && f(t.rows[k]) == c ensures c in column {
      var k :| k in t.rows && f(t.rows[k]) == c;
      assert t.rows[k] in scan;
      var i :| 0 <= i < |scan| && scan[i] == t.rows[k];
      assert column[i] == c;
    }
  }

  // ---------------------------------------------------------------- the store

  class InventoryDB {
    var products: Table<Product>

    /** Keys are row ids, and `code` is `UNIQUE`. */
    ghost predicate Valid()
      reads this
    {
      products.Valid() &&
      (forall k :: k in products.rows ==> products.rows[k].id == k) &&
      (forall k, j :: k in products.rows && j in products.rows && k != j ==>
         products.rows[k].code != products.rows[j].code)
    }

    /** Some row already holds `code`. */
    predicate CodeTaken(code: string)
      reads this
    {
      exists k :: k in products.rows && products.rows[k].code == code
    }

    /** Some row other than `id` already holds `code`. */
    predicate CodeHeldByOther(id: int, code: string)
      reads this
    {
      exists k :: k in products.rows && k != id && products.rows[k].code == code
    }

    /** Every row's status agrees with its quantity. */
    predicate StatusesCurrent()
      reads this
    {
      forall k :: k in products.rows ==> products.rows[k].status == StatusFor(products.rows[k].quantity)
    }

    /** `create_tables` on a new file. */
    constructor ()
      ensures Valid() && products.rows == map[]
    {
      products := EmptyTable();
    }

    /**
     * `add_product`: the row gets the next id. A duplicate `code` makes SQLite raise
     * `IntegrityError` (`None` here) and the table is unchanged. Nothing else is validated.
     */
    method AddProduct(p: NewProduct) returns (id: Option<int>)
      requires Valid()
      modifies this
      ensures Valid()
      ensures id.None? <==> old(CodeTaken(p.code))
      ensures id.None? ==> products == old(products)
      ensures id.Some? ==>
        id.value == old(products.nextId) && id.value !in old(products.rows) &&
        products == old(products).Insert(Product(id.value, p.name, p.category, p.company, p.code,
                                                 p.tradePrice, p.mfgPrice, p.quantity, p.status))
    {
      if exists k :: k in products.rows && products.rows[k].code == p.code {
        id := None;
      } else {
        var row := Product(products.nextId, p.name, p.category, p.company, p.code,
                           p.tradePrice, p.mfgPrice, p.quantity, p.status);
        id := Some(products.nextId);
        products := products.Insert(row);
      }
    }

    /**
     * `get_products`: exactly the rows the filter's clauses all accept, in id order.
     */
    function GetProducts(f: ProductFilter): (r: seq<Product>)
      reads this
      requires Valid()
      ensures forall p :: p in r <==> products.Holds(p) && Matches(f, p)
      ensures Ascending(r, ProductId)
    {
      ScanRows(products);
      ScanAscending(products, ProductId);
      SelectKeepsOrder(products.Scan(), p => Matches(f, p), ProductId);
      Select(products.Scan(), p => Matches(f, p))
    }

    /**
     * `update_product`: no entries gives `false` and writes nothing; otherwise the result
     * says whether the id exists. Moving `code` onto another row's code makes SQLite raise
     * `IntegrityError` (`None` here) and nothing is written. Status is not recomputed.
     */
    method UpdateProduct(id: int, u: ProductUpdates) returns (r: Option<bool>)
      requires Valid()
      modifies this
      ensures Valid()
      ensures u.IsEmpty() || id !in old(products.rows) ==> r == Some(false) && products == old(products)
      ensures !u.IsEmpty() && id in old(products.rows) ==>
        var q := u.ApplyTo(old(products.rows[id]));
        if old(CodeHeldByOther(id, q.code))
        then r == None && products == old(products)
        else r == Some(true) && products == old(products).Update(id, q)
    {
      if u.IsEmpty() || id !in products.rows {
        r := Some(false);
      } else {
        var q := u.ApplyTo(products.rows[id]);
        if CodeHeldByOther(id, q.code) {
          r := None;
        } else {
          r := Some(true);
          products := products.Update(id, q);
        }
      }
    }

    /** `delete_product`: `true` iff the row existed; it is gone and no other row changes. */
    method DeleteProduct(id: int) returns (deleted: bool)
      requires Valid()
      modifies this
      ensures Valid()
      ensures deleted <==> id in old(products.rows)
      ensures products.rows == old(products.rows) - {id} && products.nextId == old(products.nextId)
    {
      deleted := id in products.rows;
      products := Table(products.rows - {id}, products.nextId);
    }

    /**
     * `restock_product`: a non-positive amount gives `false` and writes nothing; otherwise
     * the quantity rises by exactly `amount`, the status follows the new quantity, no other
     * row changes, and the result says whether the id exists.
     */
    method RestockProduct(id: int, amount: int) returns (ok: bool)
      requires Valid()
      modifies this
      ensures Valid()
      ensures ok <==> amount > 0 && id in old(products.rows)
      ensures !ok ==> products == old(products)
      ensures ok ==> products == old(products).Update(id,
        old(products.rows[id]).(quantity := old(products.rows[id].quantity) + amount,
                                status := StatusFor(old(products.rows[id].quantity) + amount)))
    {
      if amount <= 0 {
        return false;
      }
      if id in products.rows {
        var p := products.rows[id];
        products := products.Update(id, p.(quantity := p.quantity + amount, status := StatusFor(p.quantity + amount)));
        ok := true;
      } else {
        ok := false;
      }
    }

    /** `get_product_stock`: the stored quantity, `None` for an unknown id. */
    function GetProductStock(id: int): (r: Option<int>)
      reads this
      ensures r.Some? <==> id in products.rows
      ensures r.Some? ==> r.value == products.rows[id].quantity
    {
      if id in products.rows then Some(products.rows[id].quantity) else None
    }

    /**
     * `update_product_quantity`: adds the signed `delta` to the quantity and leaves the
     * status as it was. `fault` stands for an exception from the storage engine, after
     * which the connection is rolled back and the result is `false`; otherwise the
     * result is `true`, even for an unknown id.
     */
    method UpdateProductQuantity(id: int, delta: int, fault: bool) returns (ok: bool)
      requires Valid()
      modifies this
      ensures Valid()
      ensures ok == !fault
      ensures fault || id !in old(products.rows) ==> products == old(products)
      ensures !fault && id in old(products.rows) ==>
        products == old(products).Update(id, old(products.rows[id]).(quantity := old(products.rows[id].quantity) + delta))
    {
      if fault {
        return false;
      }
      if id in products.rows {
        var p := products.rows[id];
        products := products.Update(id, p.(quantity := p.quantity + delta));
      }
      ok := true;
    }

    /** `get_all_categories`: every category present once, in ascending order. */
    function GetAllCategories(): (r: seq<string>)
      reads this
      requires Valid()
      ensures StrictlySorted(r)
      ensures forall c :: c in r <==> c in Categories(products.rows)
    {
      var scan := products.Scan();
      var column := seq(|scan|, i requires 0 <= i < |scan| => scan[i].category);
      ColumnValues(products, column, (p: Product) => p.category);
      SortedDistinct(column)
    }

    /** `get_all_companies`: every company present once, in ascending order. */
    function GetAllCompanies(): (r: seq<string>)
      reads this
      requires Valid()
      ensures StrictlySorted(r)
      ensures forall c :: c in r <==> c in Companies(products.rows)
    {
      var scan := products.Scan();
      var column := seq(|scan|, i requires 0 <= i < |scan| => scan[i].company);
      ColumnValues(products, column, (p: Product) => p.company);
      SortedDistinct(column)
    }

    /**
     * The unconditional `UPDATE products SET status = CASE ...` that `populate_sample_data`
     * runs first: every row's status follows its quantity and nothing else changes.
     */
    method RefreshAllStatuses()
      requires Valid()
      modifies this
      ensures Valid() && StatusesCurrent()
      ensures products == Refreshed(old(products))
    {
      products := Refreshed(products);
    }

    /**
     * The same statement with `WHERE id = ?` (`update_product_status`, and the status
     * rewrite after an edit): only that row's status changes.
     */
    method RefreshStatus(id: int)
      requires Valid()
      modifies this
      ensures Valid()
      ensures id !in old(products.rows) ==> products == old(products)
      ensures id in old(products.rows) ==> products == old(products).Update(id, old(products.rows[id]).WithCurrentStatus())
    {
      if id in products.rows {
        products := products.Update(id, products.rows[id].WithCurrentStatus());
      }
    }
  }
}
