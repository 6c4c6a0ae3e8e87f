/** Laws of the stock ledger over every run of order sync: stock conservation, faithful
    running balances, one journal row per stored line, and independence of businesses. */
module OrderLedger {
  import opened Wrappers
  import opened CartMath
  import opened OrderSync

  // ---- stock conservation ---------------------------------------------------------

  /** Units of a product on the lines of one order. */
  function LineQuantity(items: seq<OrderItem>, p: ProductId): real {
    if items == [] then 0.0
    else
      var line := items[|items| - 1].line;
      LineQuantity(items[..|items| - 1], p) + (if line.productId == Some(p) then line.quantity else 0.0)
  }

  /** Units of a product sold by the stored orders of a business. */
  function Sold(orders: seq<Order>, businessId: BusinessId, p: ProductId): real {
    if orders == [] then 0.0
    else
      var last := orders[|orders| - 1];
      Sold(orders[..|orders| - 1], businessId, p)
      + (if last.businessId == businessId then LineQuantity(last.items, p) else 0.0)
  }

  lemma SoldLast(orders: seq<Order>, order: Order, businessId: BusinessId, p: ProductId)
    ensures Sold(orders + [order], businessId, p) ==
            Sold(orders, businessId, p) + (if order.businessId == businessId then LineQuantity(order.items, p) else 0.0)
  {
    assert (orders + [order])[..|orders|] == orders;
  }

  lemma {:induction false} DeductItemsStock(store: Store, businessId: BusinessId, orderId: OrderId,
                                            items: seq<OrderItem>, p: ProductId)
    requires p in store.products
    ensures var after := DeductItems(store, businessId, orderId, items);
            && p in after.products
            && after.products[p].businessId == store.products[p].businessId
            && after.products[p].stockQuantity == store.products[p].stockQuantity
                 - (if store.products[p].businessId == businessId then LineQuantity(items, p) else 0.0)
  {
    if items != [] {
      DeductItemsStock(store, businessId, orderId, items[..|items| - 1], p);
      CatalogueKept(store, businessId, orderId, items[..|items| - 1]);
    }
  }

  /** Stock is deducted exactly once per stored sale: over every run, a product's stock plus
      what the stored orders of its business sold of it never changes, and the catalogue
      itself stays as it was. */
  lemma {:induction false} StockConserved(store: Store, attempts: seq<Attempt>, p: ProductId)
    requires p in store.products
    ensures var after := Run(store, attempts);
            && after.products.Keys == store.products.Keys
            && after.products[p].businessId == store.products[p].businessId
            && after.products[p].stockQuantity + Sold(after.orders, store.products[p].businessId, p)
               == store.products[p].stockQuantity + Sold(store.orders, store.products[p].businessId, p)
  {
    if attempts != [] {
      var n := |attempts| - 1;
      var before, order := Run(store, attempts[..n]), AttemptOrder(attempts[n]);
      StockConserved(store, attempts[..n], p);
      if Commits(before, attempts[n]) {
        var inserted := before.(orders := before.orders + [order]);
        DeductItemsStock(inserted, order.businessId, order.id, order.items, p);
        CatalogueKept(inserted, order.businessId, order.id, order.items);
        SoldLast(before.orders, order, store.products[p].businessId, p);
      }
    }
  }

  /** Units of a product on the lines the till submitted. */
  function Units(lines: seq<SaleLine>, p: ProductId): real {
    if lines == [] then 0.0
    else
      Units(lines[1..], p) + (if lines[0].productId == Some(p) then lines[0].quantity else 0.0)
  }

  /** Units of a product submitted in these sales of a business. */
  function UnitsSubmitted(sales: seq<Attempt>, businessId: BusinessId, p: ProductId): real {
    if sales == [] then 0.0
    else
      UnitsSubmitted(sales[1..], businessId, p)
      + (if sales[0].businessId == businessId then Units(sales[0].input.items, p) else 0.0)
  }

  lemma {:induction false} UnitsLast(lines: seq<SaleLine>, line: SaleLine, p: ProductId)
    ensures Units(lines + [line], p) == Units(lines, p) + (if line.productId == Some(p) then line.quantity else 0.0)
  {
    if lines == [] {
      assert lines + [line] == [line] && [line][1..] == [];
    } else {
      UnitsLast(lines[1..], line, p);
      assert (lines + [line])[1..] == lines[1..] + [line];
    }
  }

  lemma {:induction false} UnitsSubmittedLast(sales: seq<Attempt>, a: Attempt, businessId: BusinessId, p: ProductId)
    ensures UnitsSubmitted(sales + [a], businessId, p) ==
            UnitsSubmitted(sales, businessId, p) + (if a.businessId == businessId then Units(a.input.items, p) else 0.0)
  {
    if sales == [] {
      assert sales + [a] == [a] && [a][1..] == [];
    } else {
      UnitsSubmittedLast(sales[1..], a, businessId, p);
      assert (sales + [a])[1..] == sales[1..] + [a];
    }
  }

  lemma {:induction false} RecordedUnits(items: seq<OrderItem>, lines: seq<SaleLine>, p: ProductId)
    requires |items| == |lines| && forall i :: 0 <= i < |items| ==> items[i].line == lines[i]
    ensures LineQuantity(items, p) == Units(lines, p)
  {
    if lines != [] {
      var n := |lines| - 1;
      RecordedUnits(items[..n], lines[..n], p);
      UnitsLast(lines[..n], lines[n], p);
      assert lines[..n] + [lines[n]] == lines;
    }
  }

  lemma SoldBySale(orders: seq<Order>, more: seq<Order>, a: Attempt, businessId: BusinessId, p: ProductId)
    requires |more| == |orders| + 1 && more[..|orders|] == orders && Records(more[|orders|], a)
    ensures Sold(more, businessId, p) ==
            Sold(orders, businessId, p) + (if a.businessId == businessId then Units(a.input.items, p) else 0.0)
  {
    var order := more[|orders|];
    assert more == orders + [order];
    SoldLast(orders, order, businessId, p);
    RecordedUnits(order.items, a.input.items, p);
  }

  lemma {:induction false} SoldIsSubmitted(store: Store, attempts: seq<Attempt>, businessId: BusinessId, p: ProductId)
    ensures Sold(Run(store, attempts).orders, businessId, p)
         == Sold(store.orders, businessId, p) + UnitsSubmitted(StoredSales(store, attempts), businessId, p)
  {
    if attempts != [] {
      var n := |attempts| - 1;
      var before, a, sales := Run(store, attempts[..n]), attempts[n], StoredSales(store, attempts[..n]);
      SoldIsSubmitted(store, attempts[..n], businessId, p);
      AttemptAddsSale(before, a);
      if |AfterAttempt(before, a).orders| > |before.orders| {
        SoldBySale(before.orders, AfterAttempt(before, a).orders, a, businessId, p);
        UnitsSubmittedLast(sales, a, businessId, p);
        assert StoredSales(store, attempts) == sales + [a];
      } else {
        assert StoredSales(store, attempts) == sales + [] == sales;
      }
    }
  }

  /** On the inputs: after any run a product's stock is its opening stock less the units on the
      lines that tills of its business submitted in the sales that were stored - each of them
      once, and none of a sale that was not. */
  lemma StockIsOpeningLessSales(store: Store, attempts: seq<Attempt>, p: ProductId)
    requires p in store.products
    ensures p in Run(store, attempts).products
    ensures Run(store, attempts).products[p].stockQuantity
         == store.products[p].stockQuantity
            - UnitsSubmitted(StoredSales(store, attempts), store.products[p].businessId, p)
  {
    StockConserved(store, attempts, p);
    SoldIsSubmitted(store, attempts, store.products[p].businessId, p);
  }

  // ---- the running balance ------------------------------------------------------------

  function SumDeltas(ledger: seq<Movement>, p: ProductId): real {
    if ledger == [] then 0.0
    else
      var last := ledger[|ledger| - 1];
      SumDeltas(ledger[..|ledger| - 1], p) + (if last.productId == p then last.quantityDelta else 0.0)
  }

  /** Every journal row of p carries the opening stock plus all deltas of p up to and
      including its own, and the product's stock is that balance after the last row. */
  predicate Faithful(opening: real, store: Store, p: ProductId) {
    && (forall k :: 0 <= k < |store.ledger| && store.ledger[k].productId == p ==>
          store.ledger[k].balanceAfter == opening + SumDeltas(store.ledger[..k + 1], p))
    && (p in store.products ==> store.products[p].stockQuantity == opening + SumDeltas(store.ledger, p))
  }

  lemma DeductItemFaithful(opening: real, store: Store, businessId: BusinessId, orderId: OrderId,
                           item: OrderItem, p: ProductId)
    requires Faithful(opening, store, p)
    ensures Faithful(opening, DeductItem(store, businessId, orderId, item), p)
  {
    var after := DeductItem(store, businessId, orderId, item);
    if InCatalogue(store.products, businessId, item) {
      var before, n := store.ledger, |store.ledger|;
      assert after.ledger[..n] == before;
      assert after.ledger[..n + 1] == after.ledger;
      forall k | 0 <= k < n
        ensures after.ledger[k] == before[k] && after.ledger[..k + 1] == before[..k + 1]
      {
      }
    }
  }

  lemma {:induction false} DeductItemsFaithful(opening: real, store: Store, businessId: BusinessId,
                                               orderId: OrderId, items: seq<OrderItem>, p: ProductId)
    requires Faithful(opening, store, p)
    ensures Faithful(opening, DeductItems(store, businessId, orderId, items), p)
  {
    if items != [] {
      var n := |items| - 1;
      DeductItemsFaithful(opening, store, businessId, orderId, items[..n], p);
      DeductItemFaithful(opening, DeductItems(store, businessId, orderId, items[..n]),
                         businessId, orderId, items[n], p);
    }
  }

  /** The ledger is a faithful running balance after every run, also when one order holds
      several lines of one product. */
  lemma {:induction false} LedgerIsRunningBalance(opening: real, store: Store, attempts: seq<Attempt>, p: ProductId)
    requires Faithful(opening, store, p)
    ensures Faithful(opening, Run(store, attempts), p)
  {
    if attempts != [] {
      var n := |attempts| - 1;
      var before, order := Run(store, attempts[..n]), AttemptOrder(attempts[n]);
      LedgerIsRunningBalance(opening, store, attempts[..n], p);
      if Commits(before, attempts[n]) {
        DeductItemsFaithful(opening, before.(orders := before.orders + [order]),
                            order.businessId, order.id, order.items, p);
      }
    }
  }

  /** An empty ledger is faithful to the stock it starts from. */
  lemma FreshLedgerIsFaithful(store: Store, p: ProductId)
    requires store.ledger == [] && p in store.products
    ensures Faithful(store.products[p].stockQuantity, store, p)
  {
    assert SumDeltas([], p) == 0.0;
  }

  // ---- one journal row per stored line ---------------------------------------------------

  /** What a journal row explains, without its balance. */
  datatype Entry = Entry(businessId: BusinessId, productId: ProductId, name: string, delta: real, orderId: OrderId)

  function EntryOf(m: Movement): Entry {
    Entry(m.businessId, m.productId, m.productName, m.quantityDelta, m.referenceId)
  }

  function Entries(ledger: seq<Movement>): (entries: seq<Entry>)
    ensures |entries| == |ledger|
    ensures forall k :: 0 <= k < |ledger| ==> entries[k] == EntryOf(ledger[k])
  {
    seq(|ledger|, k requires 0 <= k < |ledger| => EntryOf(ledger[k]))
  }

  /** The rows one sale must have: its submitted lines with a product of the business, in order. */
  function ExpectedRows(products: map<ProductId, Product>, businessId: BusinessId, orderId: OrderId,
                        lines: seq<SaleLine>): seq<Entry> {
    if lines == [] then []
    else
      var last := lines[|lines| - 1];
      ExpectedRows(products, businessId, orderId, lines[..|lines| - 1])
      + (if IsSoldBy(products, businessId)(last)
         then [Entry(businessId, last.productId.value, last.name, -last.quantity, orderId)]
         else [])
  }

  function ExpectedLedger(products: map<ProductId, Product>, sales: seq<Attempt>): seq<Entry> {
    if sales == [] then []
    else
      var last := sales[|sales| - 1];
      ExpectedLedger(products, sales[..|sales| - 1])
      + ExpectedRows(products, last.businessId, last.orderId, last.input.items)
  }

  predicate SameCatalogue(a: map<ProductId, Product>, b: map<ProductId, Product>) {
    a.Keys == b.Keys && forall p | p in a :: a[p].businessId == b[p].businessId
  }

  lemma {:induction false} DeductItemsRows(products: map<ProductId, Product>, store: Store, businessId: BusinessId,
                                           orderId: OrderId, items: seq<OrderItem>, lines: seq<SaleLine>)
    requires SameCatalogue(products, store.products)
    requires |items| == |lines| && forall i :: 0 <= i < |items| ==> items[i].line == lines[i]
    ensures var after := DeductItems(store, businessId, orderId, items);
            && SameCatalogue(products, after.products)
            && Entries(after.ledger) == Entries(store.ledger) + ExpectedRows(products, businessId, orderId, lines)
  {
    if items != [] {
      var n := |items| - 1;
      DeductItemsRows(products, store, businessId, orderId, items[..n], lines[..n]);
    }
  }

  lemma AttemptRows(products: map<ProductId, Product>, store: Store, a: Attempt)
    requires SameCatalogue(products, store.products)
    ensures var after := AfterAttempt(store, a);
            && SameCatalogue(products, after.products)
            && Entries(after.ledger) == Entries(store.ledger)
                 + if |after.orders| > |store.orders|
                   then ExpectedRows(products, a.businessId, a.orderId, a.input.items) else []
  {
    AttemptAddsSale(store, a);
    if Commits(store, a) {
      var order := AttemptOrder(a);
      DeductItemsRows(products, store.(orders := store.orders + [order]),
                      order.businessId, order.id, order.items, a.input.items);
    }
  }

  lemma ExpectedLedgerLast(products: map<ProductId, Product>, sales: seq<Attempt>, a: Attempt)
    ensures ExpectedLedger(products, sales + [a])
         == ExpectedLedger(products, sales) + ExpectedRows(products, a.businessId, a.orderId, a.input.items)
  {
    assert (sales + [a])[..|sales|] == sales;
  }

  /** The ledger holds exactly the submitted lines of the sales that were stored, line by line and
      in commit order, each under its order's id: a rolled-back or replayed sale leaves no row, a
      stored one misses none. */
  lemma {:induction false} LedgerExplainsStoredOrders(store: Store, attempts: seq<Attempt>)
    ensures SameCatalogue(store.products, Run(store, attempts).products)
    ensures Entries(Run(store, attempts).ledger) ==
            Entries(store.ledger) + ExpectedLedger(store.products, StoredSales(store, attempts))
  {
    if attempts != [] {
      var n := |attempts| - 1;
      var before, a := Run(store, attempts[..n]), attempts[n];
      var sales := StoredSales(store, attempts[..n]);
      LedgerExplainsStoredOrders(store, attempts[..n]);
      AttemptRows(store.products, before, a);
      assert Run(store, attempts) == AfterAttempt(before, a);
      if |AfterAttempt(before, a).orders| > |before.orders| {
        ExpectedLedgerLast(store.products, sales, a);
        assert StoredSales(store, attempts) == sales + [a];
      } else {
        assert StoredSales(store, attempts) == sales + [] == sales;
      }
    }
  }

  // ---- businesses do not see each other ------------------------------------------------------

  function OrdersOf(orders: seq<Order>, businessId: BusinessId): seq<Order> {
    if orders == [] then []
    else
      var last := orders[|orders| - 1];
      OrdersOf(orders[..|orders| - 1], businessId) + (if last.businessId == businessId then [last] else [])
  }

  function LedgerOf(ledger: seq<Movement>, businessId: BusinessId): seq<Movement> {
    if ledger == [] then []
    else
      var last := ledger[|ledger| - 1];
      LedgerOf(ledger[..|ledger| - 1], businessId) + (if last.businessId == businessId then [last] else [])
  }

  /** Everything one business can see. */
  function Tenant(store: Store, businessId: BusinessId): Store {
    Store(OrdersOf(store.orders, businessId),
          map p | p in store.products && store.products[p].businessId == businessId :: store.products[p],
          LedgerOf(store.ledger, businessId))
  }

  function AttemptsOf(attempts: seq<Attempt>, businessId: BusinessId): seq<Attempt> {
    if attempts == [] then []
    else
      var last := attempts[|attempts| - 1];
      AttemptsOf(attempts[..|attempts| - 1], businessId) + (if last.businessId == businessId then [last] else [])
  }

  lemma {:induction false} StoredInTenant(orders: seq<Order>, businessId: BusinessId, clientId: string)
    ensures IsStored(orders, businessId, clientId) <==> IsStored(OrdersOf(orders, businessId), businessId, clientId)
  {
    if orders != [] {
      var front, last := orders[..|orders| - 1], orders[|orders| - 1];
      assert orders == front + [last];
      StoredInTenant(front, businessId, clientId);
      assert IsStored(orders, businessId, clientId) <==>
             IsStored(front, businessId, clientId) || SameKey(last, businessId, clientId);
      var rest := OrdersOf(front, businessId);
      assert IsStored(rest + [last], businessId, clientId) <==>
             IsStored(rest, businessId, clientId) || SameKey(last, businessId, clientId);
      assert rest + [] == rest;
    }
  }

  lemma {:induction false} StatementsInTenant(store: Store, businessId: BusinessId, items: seq<OrderItem>)
    ensures ItemStatements(store.products, businessId, items)
         == ItemStatements(Tenant(store, businessId).products, businessId, items)
  {
    if items != [] {
      StatementsInTenant(store, businessId, items[..|items| - 1]);
    }
  }

  lemma LedgerOfLast(ledger: seq<Movement>, m: Movement, businessId: BusinessId)
    ensures LedgerOf(ledger + [m], businessId) ==
            LedgerOf(ledger, businessId) + (if m.businessId == businessId then [m] else [])
  {
    assert (ledger + [m])[..|ledger|] == ledger;
  }

  lemma OrdersOfLast(orders: seq<Order>, order: Order, businessId: BusinessId)
    ensures OrdersOf(orders + [order], businessId) ==
            OrdersOf(orders, businessId) + (if order.businessId == businessId then [order] else [])
  {
    assert (orders + [order])[..|orders|] == orders;
  }

  /** Deducting a line commutes with looking at one business only. */
  lemma DeductItemInTenant(store: Store, seller: BusinessId, orderId: OrderId, item: OrderItem, viewer: BusinessId)
    ensures Tenant(DeductItem(store, seller, orderId, item), viewer)
         == if seller == viewer then DeductItem(Tenant(store, viewer), seller, orderId, item) else Tenant(store, viewer)
  {
    if InCatalogue(store.products, seller, item) {
      var id := item.line.productId.value;
      var balance := store.products[id].stockQuantity - item.line.quantity;
      LedgerOfLast(store.ledger,
                   Movement(seller, id, item.line.name, -item.line.quantity, balance, orderId), viewer);
      assert LedgerOf(store.ledger, viewer) + [] == LedgerOf(store.ledger, viewer);
      var left := Tenant(DeductItem(store, seller, orderId, item), viewer).products;
      var right := Tenant(store, viewer).products;
      if seller == viewer {
        assert left == right[id := right[id].(stockQuantity := balance)];
      } else {
        assert left == right;
      }
    }
  }

  lemma {:induction false} DeductItemsInTenant(store: Store, seller: BusinessId, orderId: OrderId,
                                               items: seq<OrderItem>, viewer: BusinessId)
    ensures Tenant(DeductItems(store, seller, orderId, items), viewer)
         == if seller == viewer then DeductItems(Tenant(store, viewer), seller, orderId, items)
            else Tenant(store, viewer)
  {
    if items != [] {
      var n := |items| - 1;
      DeductItemsInTenant(store, seller, orderId, items[..n], viewer);
      DeductItemInTenant(DeductItems(store, seller, orderId, items[..n]), seller, orderId, items[n], viewer);
    }
  }

  lemma CommitInTenant(store: Store, order: Order, viewer: BusinessId)
    ensures Tenant(Commit(store, order), viewer)
         == if order.businessId == viewer then Commit(Tenant(store, viewer), order) else Tenant(store, viewer)
  {
    var inserted := store.(orders := store.orders + [order]);
    OrdersOfLast(store.orders, order, viewer);
    assert OrdersOf(store.orders, viewer) + [] == OrdersOf(store.orders, viewer);
    assert Tenant(inserted, viewer).products == Tenant(store, viewer).products;
    DeductItemsInTenant(inserted, order.businessId, order.id, order.items, viewer);
  }

  /** Businesses are independent: what a business sees after any interleaving of everybody's
      batches, faults included, is what its own attempts alone would have produced. */
  lemma {:induction false} OtherBusinessesUntouched(store: Store, attempts: seq<Attempt>, businessId: BusinessId)
    ensures Tenant(Run(store, attempts), businessId)
         == Run(Tenant(store, businessId), AttemptsOf(attempts, businessId))
  {
    if attempts != [] {
      var n := |attempts| - 1;
      var before, last := Run(store, attempts[..n]), attempts[n];
      var own := AttemptsOf(attempts[..n], businessId);
      OtherBusinessesUntouched(store, attempts[..n], businessId);
      CommitInTenant(before, AttemptOrder(last), businessId);
      assert own + [] == own && (own + [last])[..|own|] == own;
      if last.businessId == businessId {
        StoredInTenant(before.orders, businessId, last.input.clientGeneratedId);
        StatementsInTenant(before, businessId, AttemptOrder(last).items);
        assert Commits(before, last) <==> Commits(Tenant(before, businessId), last);
      }
    }
  }

  // ---- the review flag -----------------------------------------------------------------------

  /** Whatever the cart holds, a stored order carrying the till's own figures is flagged exactly
      when the slack of its tax does not cover the cents lost on tied lines. */
  lemma HonestOrderFlaggedIff(order: Order, a: Attempt)
    requires Records(order, a)
    requires var till := ComputeCartTotal(a.input.items, a.input.discountCents);
             a.input.totalCents == till.totalCents && a.input.taxTotalCents == till.taxTotalCents
    ensures order.totalsMismatch <==> !SlackCoversLoss(a.input.items, a.input.discountCents)
  {
    TotalsAgreeIff(a.input.items, a.input.discountCents);
    SubtotalsAlwaysAgree(a.input.items, a.input.discountCents);
    TillTotals(a.input.items, a.input.discountCents);
  }

  /** A stored order carrying the till's own computeCartTotal figures is never flagged, and any
      other pair of tax and total is; the till's figures are kept either way. */
  lemma FlaggedIffTillDisagrees(order: Order, a: Attempt)
    requires Records(order, a) && NonNegativeCart(a.input.items)
    ensures var till := ComputeCartTotal(a.input.items, a.input.discountCents);
            && (order.totalsMismatch <==>
                  a.input.totalCents != till.totalCents || a.input.taxTotalCents != till.taxTotalCents)
            && (order.totalsMismatch <==> order.serverTotalCents == Some(till.totalCents))
            && (order.totalsMismatch <==> order.serverTaxTotalCents == Some(till.taxTotalCents))
            && order.totalCents == a.input.totalCents && order.taxTotalCents == a.input.taxTotalCents
  {
    ServerAgreesWithTill(a.input.items, a.input.discountCents);
  }
}
