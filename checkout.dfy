/**
 * The cashier's point-of-sale screen (`CashierEmployee` in cashier_employee.py):
 * the cart, the customer, checkout against both databases and the cashier's
 * own sales history. The cart table shows the cart lines in cart order, so the
 * selected row's index is the cart index.
 */
module Checkout {
  import opened Wrappers
  import opened Text
  import opened Seqs
  import opened Tables
  import opened Catalog
  import opened Ledger

  // ---------------------------------------------------------------- the cart

  /** One entry of `current_cart`. */
  datatype CartLine = CartLine(id: int, name: string, price: int, quantity: int, total: int)

  /** `current_customer`; phone and email are always empty. */
  datatype Customer = Customer(name: string, phone: string, email: string)

  /**
   * What every cart operation keeps: each line's total is its price times its
   * positive quantity, and no product has two lines.
   */
  predicate CartValid(cart: seq<CartLine>) {
    (forall i :: 0 <= i < |cart| ==> cart[i].quantity >= 1 && cart[i].total == cart[i].price * cart[i].quantity) &&
    (forall i, j :: 0 <= i < j < |cart| ==> cart[i].id != cart[j].id)
  }

  /** `sum(item['total'] for item in current_cart)`. */
  function CartTotal(cart: seq<CartLine>): int {
    if cart == [] then 0 else CartTotal(cart[..|cart| - 1]) + cart[|cart| - 1].total
  }

  lemma CartTotalAppend(cart: seq<CartLine>, line: CartLine)
    ensures CartTotal(cart + [line]) == CartTotal(cart) + line.total
  {
    assert (cart + [line])[..|cart|] == cart;
  }

  /** Replacing one line changes the cart total by the difference of the two line totals. */
  lemma {:induction false} CartTotalReplace(cart: seq<CartLine>, i: int, line: CartLine)
    requires 0 <= i < |cart|
    ensures CartTotal(cart[i := line]) == CartTotal(cart) - cart[i].total + line.total
  {
    var n := |cart| - 1;
    var c := cart[i := line];
    if i == n {
      assert c[..n] == cart[..n];
    } else {
      CartTotalReplace(cart[..n], i, line);
      assert c[..n] == cart[..n][i := line];
    }
  }

  /** Removing one line lowers the cart total by that line's total. */
  lemma {:induction false} CartTotalRemove(cart: seq<CartLine>, i: int)
    requires 0 <= i < |cart|
    ensures CartTotal(RemoveAt(cart, i)) == CartTotal(cart) - cart[i].total
  {
    var n := |cart| - 1;
    if i == n {
      assert RemoveAt(cart, i) == cart[..n];
    } else {
      CartTotalRemove(cart[..n], i);
      assert RemoveAt(cart, i) == RemoveAt(cart[..n], i) + [cart[n]];
      CartTotalAppend(RemoveAt(cart[..n], i), cart[n]);
    }
  }

  /** `del current_cart[i]`. */
  function RemoveAt(cart: seq<CartLine>, i: int): (r: seq<CartLine>)
    requires 0 <= i < |cart|
    ensures |r| == |cart| - 1
    ensures forall j :: 0 <= j < i ==> r[j] == cart[j]
    ensures forall j :: i <= j < |r| ==> r[j] == cart[j + 1]
  {
    cart[..i] + cart[i + 1..]
  }

  lemma RemoveKeepsValid(cart: seq<CartLine>, i: int)
    requires CartValid(cart) && 0 <= i < |cart|
    ensures CartValid(RemoveAt(cart, i))
  {
    var r := RemoveAt(cart, i);
    forall a, b | 0 <= a < b < |r| ensures r[a].id != r[b].id {
      var a' := if a < i then a else a + 1;
      var b' := if b < i then b else b + 1;
      assert r[a] == cart[a'] && r[b] == cart[b'];
    }
  }

  /** The line with a new quantity, its total recomputed from its own price. */
  function WithQuantity(line: CartLine, quantity: int): (l: CartLine)
    ensures l.id == line.id && l.price == line.price && l.quantity == quantity
    ensures l.total == line.price * quantity
  {
    line.(quantity := quantity, total := line.price * quantity)
  }

  lemma ReplaceKeepsValid(cart: seq<CartLine>, i: int, quantity: int)
    requires CartValid(cart) && 0 <= i < |cart| && quantity >= 1
    ensures CartValid(cart[i := WithQuantity(cart[i], quantity)])
  {
  }

  /** The first cart line for product `id`, which the loop in `add_to_cart_with_quantity` finds. */
  function FindLine(cart: seq<CartLine>, id: int): (r: Option<nat>)
    ensures r.None? <==> forall j :: 0 <= j < |cart| ==> cart[j].id != id
    ensures r.Some? ==> r.value < |cart| && cart[r.value].id == id &&
                        forall j :: 0 <= j < r.value ==> cart[j].id != id
  {
    if cart == [] then None
    else if cart[0].id == id then Some(0)
    else
      match FindLine(cart[1..], id)
      case None => None
      case Some(k) => Some(k + 1)
  }

  // ---------------------------------------------------------------- quantity entry

  /**
   * `adjust_quantity`: the text of the quantity box after a +/- click. A number
   * moves by `change` and is clamped to `1..maxQuantity` (the lower bound wins when
   * `maxQuantity` is below 1); anything `int()` rejects becomes "1".
   */
  function AdjustQuantity(text: string, change: int, maxQuantity: int): (r: string)
    ensures ParseInt(text).None? ==> r == "1"
    ensures ParseInt(r).Some? && ParseInt(r).value >= 1
    ensures maxQuantity >= 1 ==> ParseInt(r).value <= maxQuantity
    ensures ParseInt(text).Some? && 1 <= ParseInt(text).value + change <= maxQuantity ==>
      ParseInt(r).value == ParseInt(text).value + change
  {
    match ParseInt(text)
    case None =>
      IntToStringRoundTrip(1);
      "1"
    case Some(current) =>
      var bounded := if current + change < maxQuantity then current + change else maxQuantity;
      var v := if 1 < bounded then bounded else 1;
      IntToStringRoundTrip(v);
      IntToString(v)
  }

  /** Why a quantity was not added to the cart. */
  datatype AddRejection =
    | NotANumber           // `int()` raised
    | NotPositive          // "Quantity must be positive"
    | AboveMaximum         // "Cannot add more than ... items"
    | NotInInventory       // "Product not found in inventory"
    | InsufficientStock    // "Only ... items available now"
    | CombinedAboveStock   // the "Stock Limit" warning

  datatype AddOutcome = Added | Merged | Rejected(reason: AddRejection)

  // ---------------------------------------------------------------- checkout

  datatype CheckoutOutcome =
    | EmptyCart
    | NoCustomer
    | NoCounters
    | NoActiveCounter
    | RecordFailed(error: SaleError)
    | StockUpdateFailed(line: nat)
    | Completed(saleId: int)

  /** The counter `complete_sale` charges: the first active counter by id, re-checked case-insensitively. */
  function CheckoutCounters(d: CounterData): (r: seq<Counter>)
    requires d.Valid()
    ensures forall c :: c in r <==> d.counters.Holds(c) && c.status == ACTIVE
    ensures Ascending(r, CounterId)
  {
    SelectKeepsOrder(d.GetCounters(true), (c: Counter) => Lower(c.status) == ACTIVE, CounterId);
    Select(d.GetCounters(true), (c: Counter) => Lower(c.status) == ACTIVE)
  }

  /** The `items` entry `complete_sale` builds for one cart line. */
  function LineItem(line: CartLine): (item: ItemInput)
    ensures item.Complete()
  {
    ItemInput(Some(line.id), Some(line.name), Some(line.quantity), Some(line.price), Some(line.total))
  }

  function LineItems(cart: seq<CartLine>): (items: seq<ItemInput>)
    ensures |items| == |cart| && AllComplete(items)
    ensures forall i :: 0 <= i < |cart| ==> items[i] == LineItem(cart[i])
  {
    seq(|cart|, i requires 0 <= i < |cart| => LineItem(cart[i]))
  }

  /**
   * The `sale_data` of `complete_sale`: no `payment_method` and no `sale_time` keys, so
   * `record_sale` supplies "cash" and the current time; the cashier name is the logged-in user.
   */
  function SaleRequestFor(receiptId: string, counter: Counter, user: string, customer: Customer,
                          cart: seq<CartLine>): SaleRequest
  {
    SaleRequest(receiptId, counter.id, counter.cashierId, user, Some(customer.name), CartTotal(cart),
                None, None, LineItems(cart))
  }

  /** The sum of the `total_price` column over some line items. */
  function ItemsTotal(items: seq<SaleItem>): int {
    if items == [] then 0 else ItemsTotal(items[..|items| - 1]) + items[|items| - 1].totalPrice
  }

  /** The line items written for a cart add up to the cart total. */
  lemma {:induction false} ItemRowsTotal(first: int, saleId: int, cart: seq<CartLine>)
    ensures ItemsTotal(ItemRows(first, saleId, LineItems(cart))) == CartTotal(cart)
    decreases |cart|
  {
    if cart != [] {
      var n := |cart| - 1;
      assert LineItems(cart)[..n] == LineItems(cart[..n]);
      ItemRowsTotal(first, saleId, cart[..n]);
      var rows := ItemRows(first, saleId, LineItems(cart));
      assert rows[..n] == ItemRows(first, saleId, LineItems(cart[..n]));
    }
  }

  /** The product table after `update_product_quantity(id, -quantity)` for each line, in order. */
  function Decremented(t: Table<Product>, cart: seq<CartLine>): (u: Table<Product>)
    requires t.Valid()
    ensures u.Valid() && u.nextId == t.nextId && u.rows.Keys == t.rows.Keys
    decreases |cart|
  {
    if cart == [] then t
    else
      var p := Decremented(t, cart[..|cart| - 1]);
      var line := cart[|cart| - 1];
      if line.id in p.rows then p.Update(line.id, p.rows[line.id].(quantity := p.rows[line.id].quantity - line.quantity))
      else p
  }

  /** How many units of product `id` the lines order. */
  function Ordered(cart: seq<CartLine>, id: int): int {
    if cart == [] then 0
    else Ordered(cart[..|cart| - 1], id) + (if cart[|cart| - 1].id == id then cart[|cart| - 1].quantity else 0)
  }

  /**
   * After the decrements every product's stock is down by exactly what the cart
   * ordered of it; its status and every other column stay as they were.
   */
  lemma {:induction false} DecrementedStock(t: Table<Product>, cart: seq<CartLine>, k: int)
    requires t.Valid() && k in t.rows
    ensures Decremented(t, cart).rows[k] ==
      t.rows[k].(quantity := t.rows[k].quantity - Ordered(cart, k))
    decreases |cart|
  {
    if cart != [] {
      DecrementedStock(t, cart[..|cart| - 1], k);
    }
  }

  /** In a valid cart, a product is ordered exactly by its own line. */
  lemma {:induction false} OrderedLine(cart: seq<CartLine>, i: int)
    requires CartValid(cart) && 0 <= i < |cart|
    ensures Ordered(cart, cart[i].id) == cart[i].quantity
    decreases |cart|
  {
    var n := |cart| - 1;
    assert CartValid(cart[..n]);
    if i < n {
      OrderedLine(cart[..n], i);
      assert cart[..n][i] == cart[i];
    } else {
      OrderedNone(cart[..n], cart[i].id);
    }
  }

  lemma {:induction false} OrderedNone(cart: seq<CartLine>, id: int)
    requires forall j :: 0 <= j < |cart| ==> cart[j].id != id
    ensures Ordered(cart, id) == 0
    decreases |cart|
  {
    if cart != [] {
      OrderedNone(cart[..|cart| - 1], id);
    }
  }

  /** The first line whose stock update fails, if any. */
  function FirstFault(faults: set<nat>, n: nat): (r: Option<nat>)
    ensures r.None? <==> forall j :: 0 <= j < n ==> j !in faults
    ensures r.Some? ==> r.value < n && r.value in faults && forall j :: 0 <= j < r.value ==> j !in faults
  {
    if n == 0 then None
    else
      match FirstFault(faults, n - 1)
      case Some(j) => Some(j)
      case None => if n - 1 in faults then Some(n - 1) else None
  }

  /** The visible rows of the history dialog: a sale is shown when the lowered search text is in its receipt id or customer name. */
  function FilterHistory(sales: seq<Sale>, search: string): (r: seq<Sale>)
    ensures search == [] ==> r == sales
    ensures search != [] ==> forall s :: s in r <==> s in sales && HistoryHit(s, search)
    ensures |r| <= |sales|
    ensures Descending(sales, SaleTime) ==> Descending(r, SaleTime)
    ensures Distinct(sales) ==> Distinct(r)
  {
    if search == [] then sales
    else
      var hit := (s: Sale) => HistoryHit(s, search);
      SelectKeepsDescending(sales, hit, SaleTime);
      SelectKeepsDistinct(sales, hit);
      Select(sales, hit)
  }

  predicate HistoryHit(s: Sale, search: string) {
    ContainsIgnoringCase(s.receiptId, search) || (s.customerName != "" && ContainsIgnoringCase(s.customerName, search))
  }

  /** Everything `complete_sale` reads and writes. */
  datatype Till = Till(products: Table<Product>, data: CounterData, cart: seq<CartLine>, customer: Option<Customer>)

  predicate TillValid(s: Till) {
    s.products.Valid() && s.data.Valid() && CartValid(s.cart)
  }

  /**
   * `complete_sale`. The cart must be non-empty and a customer chosen. The sale is charged
   * to the first active counter and recorded; then each line's stock is lowered in cart
   * order. A failing stock update (`faults` holds the lines whose update the storage
   * engine rejects) stops there: the sale and the earlier decrements stay, and the cart
   * is kept. Only full success clears the cart and the customer.
   */
  function CheckoutResult(s: Till, user: string, receiptId: string, now: int, faults: set<nat>)
    : (res: (CheckoutOutcome, Till))
    requires TillValid(s)
    ensures TillValid(res.1)
    ensures res.0 == EmptyCart <==> s.cart == []
    ensures res.0 == NoCustomer <==> s.cart != [] && s.customer.None?
    ensures res.0 == NoCounters <==> s.cart != [] && s.customer.Some? && s.data.GetCounters(true) == []
    ensures s.cart != [] && s.customer.Some? && CheckoutCounters(s.data) != [] ==>
      var req := SaleRequestFor(receiptId, CheckoutCounters(s.data)[0], user, s.customer.value, s.cart);
      (res.0.RecordFailed? <==> RecordSaleResult(s.data, req, now).0.Failed?) &&
      (res.0.RecordFailed? ==> res.0.error == RecordSaleResult(s.data, req, now).0.error) &&
      (!res.0.RecordFailed? ==>
         res.1.data == RecordSaleResult(s.data, req, now).1 &&
         (res.0.StockUpdateFailed? <==> FirstFault(faults, |s.cart|).Some?) &&
         (res.0.StockUpdateFailed? ==> res.0.line == FirstFault(faults, |s.cart|).value))
    ensures res.0.Completed? || res.0.StockUpdateFailed? || res.0.RecordFailed? ==>
      s.cart != [] && s.customer.Some? && CheckoutCounters(s.data) != []
    ensures !res.0.Completed? && !res.0.StockUpdateFailed? ==> res.1 == s
    ensures res.0.StockUpdateFailed? ==>
      res.1.cart == s.cart && res.1.customer == s.customer && res.0.line < |s.cart| &&
      res.1.products == Decremented(s.products, s.cart[..res.0.line])
    ensures res.0.Completed? ==>
      res.1.cart == [] && res.1.customer == None && res.1.products == Decremented(s.products, s.cart)
  {
    if s.cart == [] then (EmptyCart, s)
    else if s.customer.None? then (NoCustomer, s)
    else if s.data.GetCounters(true) == [] then (NoCounters, s)
    else if CheckoutCounters(s.data) == [] then (NoActiveCounter, s)
    else
      var req := SaleRequestFor(receiptId, CheckoutCounters(s.data)[0], user, s.customer.value, s.cart);
      var (recorded, after) := RecordSaleResult(s.data, req, now);
      if recorded.Failed? then (RecordFailed(recorded.error), s)
      else
        match FirstFault(faults, |s.cart|)
        case Some(k) => (StockUpdateFailed(k), s.(products := Decremented(s.products, s.cart[..k]), data := after))
        case None => (Completed(recorded.saleId), Till(Decremented(s.products, s.cart), after, [], None))
  }

  /** `get_counters()` already lists active counters only, so its case-insensitive re-check never rejects them all. */
  lemma ActiveRecheckRedundant(s: Till, user: string, receiptId: string, now: int, faults: set<nat>)
    requires TillValid(s)
    ensures CheckoutResult(s, user, receiptId, now, faults).0 != NoActiveCounter
  {
    var counters := s.data.GetCounters(true);
    if counters != [] {
      assert Lower(ACTIVE) == ACTIVE;
      assert counters[0] in counters;
      assert counters[0] in CheckoutCounters(s.data);
    }
  }

  /**
   * A checkout that goes through records one sale, charged to the logged-in user and the
   * chosen customer, paid in cash at `now`, whose header total is the sum of its stored line totals.
   */
  lemma CheckoutSaleBalances(s: Till, user: string, receiptId: string, now: int, faults: set<nat>)
    requires TillValid(s)
    requires CheckoutResult(s, user, receiptId, now, faults).0.Completed?
    ensures var (out, t) := CheckoutResult(s, user, receiptId, now, faults);
      var details := t.data.GetSaleDetails(out.saleId);
      details.Some? &&
      details.value.sale.receiptId == receiptId && details.value.sale.cashierName == user &&
      details.value.sale.customerName == s.customer.value.name &&
      details.value.sale.paymentMethod == CASH && details.value.sale.saleTime == now &&
      |details.value.items| == |s.cart| &&
      details.value.sale.totalAmount == CartTotal(s.cart) == ItemsTotal(details.value.items)
  {
    CompletedCheckout(s, user, receiptId, now, faults);
    var req := SaleRequestFor(receiptId, CheckoutCounters(s.data)[0], user, s.customer.value, s.cart);
    RecordedSaleReadsBack(s.data, req, now);
    ItemRowsTotal(s.data.saleItems.nextId, s.data.sales.nextId, s.cart);
  }

  /** A completed checkout is the sale `record_sale` accepted for the first active counter. */
  lemma CompletedCheckout(s: Till, user: string, receiptId: string, now: int, faults: set<nat>)
    requires TillValid(s)
    requires CheckoutResult(s, user, receiptId, now, faults).0.Completed?
    ensures CheckoutCounters(s.data) != []
    ensures var req := SaleRequestFor(receiptId, CheckoutCounters(s.data)[0], user, s.customer.value, s.cart);
      var (out, t) := CheckoutResult(s, user, receiptId, now, faults);
      !s.data.ReceiptTaken(req.receiptId) && req.counterId in s.data.counters.rows && AllComplete(req.items) &&
      out.saleId == s.data.sales.nextId && t.data == RecordSaleResult(s.data, req, now).1
  {
    var req := SaleRequestFor(receiptId, CheckoutCounters(s.data)[0], user, s.customer.value, s.cart);
    var (recorded, after) := RecordSaleResult(s.data, req, now);
    assert recorded.Recorded?;
    RecordSaleAccepted(s.data, req, now);
  }

  /**
   * After a completed checkout each cart line's product has exactly that many fewer
   * units in stock, with its status left as it was; products not in the cart are untouched.
   */
  lemma CheckoutStock(s: Till, user: string, receiptId: string, now: int, faults: set<nat>)
    requires TillValid(s)
    requires CheckoutResult(s, user, receiptId, now, faults).0.Completed?
    ensures var t := CheckoutResult(s, user, receiptId, now, faults).1;
      t.products.rows.Keys == s.products.rows.Keys &&
      (forall i :: 0 <= i < |s.cart| && s.cart[i].id in s.products.rows ==>
         t.products.rows[s.cart[i].id] ==
         s.products.rows[s.cart[i].id].(quantity := s.products.rows[s.cart[i].id].quantity - s.cart[i].quantity)) &&
      (forall k :: k in s.products.rows && (forall i :: 0 <= i < |s.cart| ==> s.cart[i].id != k) ==>
         t.products.rows[k] == s.products.rows[k])
  {
    DecrementedCart(s.products, s.cart);
  }

  /** The decrements for a valid cart lower each of its products by its line's quantity and no other product. */
  lemma DecrementedCart(t: Table<Product>, cart: seq<CartLine>)
    requires t.Valid() && CartValid(cart)
    ensures forall i :: 0 <= i < |cart| && cart[i].id in t.rows ==>
      Decremented(t, cart).rows[cart[i].id] == t.rows[cart[i].id].(quantity := t.rows[cart[i].id].quantity - cart[i].quantity)
    ensures forall k :: k in t.rows && (forall i :: 0 <= i < |cart| ==> cart[i].id != k) ==>
      Decremented(t, cart).rows[k] == t.rows[k]
  {
    forall i | 0 <= i < |cart| && cart[i].id in t.rows
      ensures Decremented(t, cart).rows[cart[i].id] == t.rows[cart[i].id].(quantity := t.rows[cart[i].id].quantity - cart[i].quantity)
    {
      DecrementedStock(t, cart, cart[i].id);
      OrderedLine(cart, i);
    }
    forall k | k in t.rows && (forall i :: 0 <= i < |cart| ==> cart[i].id != k)
      ensures Decremented(t, cart).rows[k] == t.rows[k]
    {
      DecrementedStock(t, cart, k);
      OrderedNone(cart, k);
    }
  }

  // ---------------------------------------------------------------- the screen

  class CashierEmployee {
    const db: InventoryDB
    const counterDb: CounterDB
    /** `app.current_user`, the logged-in cashier's name. */
    const user: string
    var cart: seq<CartLine>
    var customer: Option<Customer>

    ghost predicate Valid()
      reads this, db, counterDb
    {
      db.Valid() && counterDb.data.Valid() && CartValid(cart)
    }

    constructor (db: InventoryDB, counterDb: CounterDB, user: string)
      requires db.Valid() && counterDb.data.Valid()
      ensures Valid() && this.db == db && this.counterDb == counterDb && this.user == user
      ensures cart == [] && customer == None
    {
      this.db := db;
      this.counterDb := counterDb;
      this.user := user;
      cart := [];
      customer := None;
    }

    /**
     * `validate_and_add_to_cart`: the entered text must be a whole number in
     * `1..maxQuantity` before `add_to_cart_with_quantity` is tried.
     */
    method ValidateAndAddToCart(productId: int, name: string, price: int, text: string, maxQuantity: int)
      returns (outcome: AddOutcome)
      requires Valid()
      modifies this
      ensures Valid() && customer == old(customer)
      ensures ParseInt(text).None? ==> outcome == Rejected(NotANumber) && cart == old(cart)
      ensures ParseInt(text).Some? && ParseInt(text).value <= 0 ==> outcome == Rejected(NotPositive) && cart == old(cart)
      ensures ParseInt(text).Some? && 0 < ParseInt(text).value && ParseInt(text).value > maxQuantity ==>
        outcome == Rejected(AboveMaximum) && cart == old(cart)
      ensures outcome.Added? || outcome.Merged? ==> ParseInt(text).Some? && 1 <= ParseInt(text).value <= maxQuantity
      ensures ParseInt(text).Some? && 1 <= ParseInt(text).value <= maxQuantity ==>
        cart == AddToCart(old(cart), db.GetProductStock(productId), productId, name, price, ParseInt(text).value).1 &&
        outcome == AddToCart(old(cart), db.GetProductStock(productId), productId, name, price, ParseInt(text).value).0
    {
      var parsed := ParseInt(text);
      if parsed.None? {
        return Rejected(NotANumber);
      }
      var quantity := parsed.value;
      if quantity <= 0 {
        return Rejected(NotPositive);
      }
      if quantity > maxQuantity {
        return Rejected(AboveMaximum);
      }
      outcome := AddToCartWithQuantity(productId, name, price, quantity);
    }

    /**
     * `add_to_cart_with_quantity`: re-reads the stock, then either raises the quantity of
     * the product's existing line (keeping that line's price) or appends a new line.
     */
    method AddToCartWithQuantity(productId: int, name: string, price: int, quantity: int)
      returns (outcome: AddOutcome)
      requires Valid() && quantity >= 1
      modifies this
      ensures Valid() && customer == old(customer)
      ensures (outcome, cart) == AddToCart(old(cart), db.GetProductStock(productId), productId, name, price, quantity)
    {
      var stock := db.GetProductStock(productId);
      if stock.None? {
        return Rejected(NotInInventory);
      }
      if stock.value < quantity {
        return Rejected(InsufficientStock);
      }
      var i := 0;
      while i < |cart|
        invariant 0 <= i <= |cart| && cart == old(cart)
        invariant forall j :: 0 <= j < i ==> cart[j].id != productId
      {
        if cart[i].id == productId {
          assert FindLine(cart, productId) == Some(i);
          if cart[i].quantity + quantity > stock.value {
            return Rejected(CombinedAboveStock);
          }
          ReplaceKeepsValid(cart, i, cart[i].quantity + quantity);
          cart := cart[i := WithQuantity(cart[i], cart[i].quantity + quantity)];
          return Merged;
        }
        i := i + 1;
      }
      cart := cart + [CartLine(productId, name, price, quantity, price * quantity)];
      outcome := Added;
    }

    /** `update_cart_display`: the total shown under the cart, summed line by line. */
    method CartDisplayTotal() returns (total: int)
      ensures total == CartTotal(cart)
    {
      total := 0;
      var i := 0;
      while i < |cart|
        invariant 0 <= i <= |cart|
        invariant total == CartTotal(cart[..i])
      {
        assert cart[..i + 1][..i] == cart[..i];
        total := total + cart[i].total;
        i := i + 1;
      }
      assert cart[..i] == cart;
    }

    /** `increase_quantity`: one more of the selected line, with no stock check. */
    method IncreaseQuantity(selected: Option<nat>)
      requires Valid() && (selected.Some? ==> selected.value < |cart|)
      modifies this
      ensures Valid() && customer == old(customer)
      ensures selected.None? ==> cart == old(cart)
      ensures selected.Some? ==> cart == old(cart)[selected.value := WithQuantity(old(cart)[selected.value], old(cart)[selected.value].quantity + 1)]
    {
      if selected.None? {
        return;
      }
      var i := selected.value;
      ReplaceKeepsValid(cart, i, cart[i].quantity + 1);
      cart := cart[i := WithQuantity(cart[i], cart[i].quantity + 1)];
    }

    /** `decrease_quantity`: one fewer of the selected line, never below 1. */
    method DecreaseQuantity(selected: Option<nat>)
      requires Valid() && (selected.Some? ==> selected.value < |cart|)
      modifies this
      ensures Valid() && customer == old(customer)
      ensures selected.None? || old(cart)[selected.value].quantity <= 1 ==> cart == old(cart)
      ensures selected.Some? && old(cart)[selected.value].quantity > 1 ==>
        cart == old(cart)[selected.value := WithQuantity(old(cart)[selected.value], old(cart)[selected.value].quantity - 1)]
    {
      if selected.None? {
        return;
      }
      var i := selected.value;
      if cart[i].quantity > 1 {
        ReplaceKeepsValid(cart, i, cart[i].quantity - 1);
        cart := cart[i := WithQuantity(cart[i], cart[i].quantity - 1)];
      }
    }

    /** `remove_item`: the selected line leaves the cart. */
    method RemoveItem(selected: Option<nat>)
      requires Valid() && (selected.Some? ==> selected.value < |cart|)
      modifies this
      ensures Valid() && customer == old(customer)
      ensures selected.None? ==> cart == old(cart)
      ensures selected.Some? ==> cart == RemoveAt(old(cart), selected.value)
    {
      if selected.None? {
        return;
      }
      RemoveKeepsValid(cart, selected.value);
      cart := RemoveAt(cart, selected.value);
    }

    /** `delete_selected_item`: the same removal, with a warning when nothing is selected. */
    method DeleteSelectedItem(selected: Option<nat>) returns (warned: bool)
      requires Valid() && (selected.Some? ==> selected.value < |cart|)
      modifies this
      ensures Valid() && customer == old(customer)
      ensures warned <==> selected.None?
      ensures selected.None? ==> cart == old(cart)
      ensures selected.Some? ==> cart == RemoveAt(old(cart), selected.value)
    {
      warned := selected.None?;
      RemoveItem(selected);
    }

    /** `update_item_quantity`: a whole, positive number replaces the line's quantity; anything else is refused. */
    method UpdateItemQuantity(index: nat, text: string) returns (ok: bool)
      requires Valid() && index < |cart|
      modifies this
      ensures Valid() && customer == old(customer)
      ensures ok <==> ParseInt(text).Some? && ParseInt(text).value > 0
      ensures !ok ==> cart == old(cart)
      ensures ok ==> cart == old(cart)[index := WithQuantity(old(cart)[index], ParseInt(text).value)]
    {
      var parsed := ParseInt(text);
      if parsed.None? || parsed.value <= 0 {
        return false;
      }
      ReplaceKeepsValid(cart, index, parsed.value);
      cart := cart[index := WithQuantity(cart[index], parsed.value)];
      ok := true;
    }

    /** `set_customer`: a name that is not blank becomes the customer, stripped. */
    method SetCustomer(name: string) returns (ok: bool)
      modifies this
      ensures cart == old(cart)
      ensures ok <==> !IsBlank(name)
      ensures !ok ==> customer == old(customer)
      ensures ok ==> customer == Some(Customer(Strip(name), "", ""))
    {
      var stripped := Strip(name);
      if stripped == "" {
        return false;
      }
      customer := Some(Customer(stripped, "", ""));
      ok := true;
    }

    /**
     * `cancel_sale`: nothing to do with neither cart nor customer; an empty cart just
     * drops the customer; otherwise both are cleared only when the cashier confirms.
     */
    method CancelSale(confirmed: bool)
      requires Valid()
      modifies this
      ensures Valid()
      ensures old(cart) == [] ==> cart == [] && customer == None
      ensures old(cart) != [] && confirmed ==> cart == [] && customer == None
      ensures old(cart) != [] && !confirmed ==> cart == old(cart) && customer == old(customer)
    {
      if cart == [] && customer.None? {
        return;
      }
      if cart == [] {
        customer := None;
        return;
      }
      if confirmed {
        cart := [];
        customer := None;
      }
    }

    /** The state `complete_sale` works on. */
    ghost function Snapshot(): Till
      reads this, db, counterDb
    {
      Till(db.products, counterDb.data, cart, customer)
    }

    /** `complete_sale`, stated by `CheckoutResult`. */
    method CompleteSale(receiptId: string, now: int, faults: set<nat>) returns (outcome: CheckoutOutcome)
      requires Valid()
      modifies this, db, counterDb
      ensures Valid()
      ensures (outcome, Snapshot()) == CheckoutResult(old(Snapshot()), user, receiptId, now, faults)
    {
      if cart == [] {
        return EmptyCart;
      }
      if customer.None? {
        return NoCustomer;
      }
      var counters := counterDb.data.GetCounters(true);
      var active := Select(counters, (c: Counter) => Lower(c.status) == ACTIVE);
      if counters == [] || active == [] {
        return if counters == [] then NoCounters else NoActiveCounter;
      }
      assert active == CheckoutCounters(counterDb.data);
      outcome := ChargeSale(active[0], receiptId, now, faults);
    }

    /**
     * The part of `complete_sale` after the checks: record the sale against `counter`, the
     * first active one, then lower the stock line by line; only full success clears the
     * cart and the customer.
     */
    method ChargeSale(counter: Counter, receiptId: string, now: int, faults: set<nat>) returns (outcome: CheckoutOutcome)
      requires Valid() && cart != [] && customer.Some?
      requires counterDb.data.GetCounters(true) != [] && CheckoutCounters(counterDb.data) != []
      requires counter == CheckoutCounters(counterDb.data)[0]
      modifies this, db, counterDb
      ensures Valid()
      ensures (outcome, Snapshot()) == CheckoutResult(old(Snapshot()), user, receiptId, now, faults)
    {
      var req := SaleRequestFor(receiptId, counter, user, customer.value, cart);
      var recorded := counterDb.RecordSale(req, now);
      if recorded.Failed? {
        return RecordFailed(recorded.error);
      }
      var failed := DecrementStock(cart, faults);
      if failed.Some? {
        return StockUpdateFailed(failed.value);
      }
      cart := [];
      customer := None;
      outcome := Completed(recorded.saleId);
    }

    /** The stock loop of `complete_sale`: `update_product_quantity(id, -quantity)` per line until one fails. */
    method DecrementStock(lines: seq<CartLine>, faults: set<nat>) returns (failed: Option<nat>)
      requires db.Valid()
      modifies db
      ensures db.Valid()
      ensures failed == FirstFault(faults, |lines|)
      ensures db.products == Decremented(old(db.products), if failed.Some? then lines[..failed.value] else lines)
    {
      var i := 0;
      while i < |lines|
        invariant 0 <= i <= |lines| && db.Valid()
        invariant db.products == Decremented(old(db.products), lines[..i])
        invariant forall j :: 0 <= j < i ==> j !in faults
      {
        var ok := db.UpdateProductQuantity(lines[i].id, -lines[i].quantity, i in faults);
        if !ok {
          assert FirstFault(faults, |lines|) == Some(i);
          return Some(i);
        }
        assert lines[..i + 1][..i] == lines[..i];
        i := i + 1;
      }
      assert lines[..i] == lines;
      failed := None;
    }

    /**
     * The rows of the "full history" dialog: the logged-in cashier's sales, latest first,
     * narrowed by the search box.
     */
    function HistoryRows(search: string): (r: seq<Sale>)
      reads this, counterDb
      requires counterDb.data.Valid()
      ensures forall s :: s in r ==> counterDb.data.sales.Holds(s) && s.cashierName == user
      ensures forall s :: s in r <==>
        counterDb.data.sales.Holds(s) && s.cashierName == user && (search != [] ==> HistoryHit(s, Lower(search)))
    ensures Descending(r, SaleTime) && Distinct(r)
    {
      FilterHistory(counterDb.data.GetSalesByCashier(user), Lower(search))
    }
  }

  /**
   * The cart after adding `quantity` of a product whose stock lookup gave `stock`, and
   * what the cashier is told.
   */
  function AddToCart(cart: seq<CartLine>, stock: Option<int>, id: int, name: string, price: int, quantity: int)
    : (res: (AddOutcome, seq<CartLine>))
    requires CartValid(cart) && quantity >= 1
    ensures CartValid(res.1)
    ensures res.0.Rejected? ==> res.1 == cart
    ensures res.0 == Rejected(NotInInventory) <==> stock.None?
    ensures res.0.Rejected? <==>
      stock.None? || stock.value < quantity ||
      (FindLine(cart, id).Some? && cart[FindLine(cart, id).value].quantity + quantity > stock.value)
    ensures res.0 == Added <==> !res.0.Rejected? && FindLine(cart, id).None?
    ensures res.0 == Added ==>
      res.1 == cart + [CartLine(id, name, price, quantity, price * quantity)] &&
      CartTotal(res.1) == CartTotal(cart) + price * quantity
    ensures res.0 == Merged ==>
      FindLine(cart, id).Some? &&
      var i := FindLine(cart, id).value;
      res.1 == cart[i := WithQuantity(cart[i], cart[i].quantity + quantity)] &&
      CartTotal(res.1) == CartTotal(cart) + cart[i].price * quantity
    ensures !res.0.Rejected? ==>
      stock.Some? && forall i :: 0 <= i < |res.1| && res.1[i].id == id ==> res.1[i].quantity <= stock.value
  {
    if stock.None? then (Rejected(NotInInventory), cart)
    else if stock.value < quantity then (Rejected(InsufficientStock), cart)
    else
      match FindLine(cart, id)
      case None =>
        var line := CartLine(id, name, price, quantity, price * quantity);
        AppendedLine(cart, line);
        (Added, cart + [line])
      case Some(i) =>
        if cart[i].quantity + quantity > stock.value then (Rejected(CombinedAboveStock), cart)
        else
          MergedLine(cart, i, quantity);
          (Merged, cart[i := WithQuantity(cart[i], cart[i].quantity + quantity)])
  }

  /** A line for a product not yet in the cart keeps the cart valid, adds its total, and is that product's only line. */
  lemma AppendedLine(cart: seq<CartLine>, line: CartLine)
    requires CartValid(cart) && line.quantity >= 1 && line.total == line.price * line.quantity
    requires forall j :: 0 <= j < |cart| ==> cart[j].id != line.id
    ensures CartValid(cart + [line])
    ensures CartTotal(cart + [line]) == CartTotal(cart) + line.total
    ensures forall j :: 0 <= j < |cart + [line]| && (cart + [line])[j].id == line.id ==> (cart + [line])[j] == line
  {
    CartTotalAppend(cart, line);
  }

  /** Raising a line's quantity keeps the cart valid, adds the price of the added units, and is that product's only line. */
  lemma MergedLine(cart: seq<CartLine>, i: int, added: int)
    requires CartValid(cart) && 0 <= i < |cart| && added >= 0
    ensures var r := cart[i := WithQuantity(cart[i], cart[i].quantity + added)];
      CartValid(r) && CartTotal(r) == CartTotal(cart) + cart[i].price * added &&
      forall j :: 0 <= j < |r| && r[j].id == cart[i].id ==> r[j].quantity == cart[i].quantity + added
  {
    var q := cart[i].quantity;
    ReplaceKeepsValid(cart, i, q + added);
    CartTotalReplace(cart, i, WithQuantity(cart[i], q + added));
    assert cart[i].price * (q + added) == cart[i].price * q + cart[i].price * added;
  }
}
