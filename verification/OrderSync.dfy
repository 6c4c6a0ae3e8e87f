/** Order sync and the stock ledger: the server side of the offline till's push
    (backend/internal/service/order_sync_service.go and
    backend/internal/repository/order_repository.go).

    A till pushes batches of sales at least once. Every order runs in a transaction of its
    own; any statement of it may fail, which rolls the whole transaction back. */
module OrderSync {
  import opened CartMath
  import opened Sequences
  import opened Wrappers

  type BusinessId = nat
  type OrderId = nat

  /** The order id of a line that is not stored yet. */
  const UNSTAMPED: OrderId := 0

  // ---- data -----------------------------------------------------------------

  datatype Payment = Payment(
    paymentMethod: string,
    amountCents: int,
    tenderedCents: Option<int>,
    changeCents: Option<int>,
    reference: string)

  /** One sale as the till recorded it. */
  datatype SyncOrderInput = SyncOrderInput(
    clientGeneratedId: string,
    receiptNo: string,
    items: seq<SaleLine>,
    payments: seq<Payment>,
    totalCents: int,
    taxTotalCents: int,
    discountCents: int,
    soldAt: int)

  datatype OrderItem = OrderItem(orderId: OrderId, line: SaleLine)

  datatype OrderPayment = OrderPayment(orderId: OrderId, payment: Payment)

  datatype Order = Order(
    id: OrderId,
    businessId: BusinessId,
    clientGeneratedId: string,
    receiptNo: Option<string>,
    subtotalCents: int,
    discountCents: int,
    taxTotalCents: int,
    totalCents: int,
    totalsMismatch: bool,
    serverTotalCents: Option<int>,
    serverTaxTotalCents: Option<int>,
    soldAt: int,
    items: seq<OrderItem>,
    payments: seq<OrderPayment>)

  datatype Product = Product(businessId: BusinessId, stockQuantity: real)

  /** An append-only ledger row explaining one stock change. */
  datatype Movement = Movement(
    businessId: BusinessId,
    productId: ProductId,
    productName: string,
    quantityDelta: real,
    balanceAfter: real,
    referenceId: OrderId)

  /** The committed tables. */
  datatype Store = Store(orders: seq<Order>, products: map<ProductId, Product>, ledger: seq<Movement>)

  /** What goes wrong while one order is synced: nothing, the statement with this index
      (counted from the insert, the commit being the last), or only the acknowledgement of
      a commit that did happen. */
  datatype Fault = NoFault | StatementFails(index: nat) | CommitUnacknowledged

  datatype SyncResult = Synced | AlreadySynced | Conflict | Error

  datatype SyncOutcome = SyncOutcome(clientGeneratedId: string, result: SyncResult, serverId: Option<OrderId>)

  datatype SyncError = ErrAlreadySynced | ErrNotFound | ErrDatabase

  /** One submitted order: which business pushed it, the fresh id the insert would use, and
      what goes wrong on the way. */
  datatype Attempt = Attempt(businessId: BusinessId, input: SyncOrderInput, orderId: OrderId, fault: Fault)

  // ---- specification ----------------------------------------------------------

  /** The order as syncOne builds it: the till's figures verbatim, the server's own beside
      them only when they disagree. */
  function BuildOrder(businessId: BusinessId, id: OrderId, input: SyncOrderInput): Order {
    var server := ServerTotals(input.items, input.discountCents);
    var mismatch := server.totalCents != input.totalCents || server.taxTotalCents != input.taxTotalCents;
    Order(
      id, businessId, input.clientGeneratedId,
      if input.receiptNo != "" then Some(input.receiptNo) else None,
      server.subtotalCents, input.discountCents, input.taxTotalCents, input.totalCents,
      mismatch,
      if mismatch then Some(server.totalCents) else None,
      if mismatch then Some(server.taxTotalCents) else None,
      input.soldAt,
      seq(|input.items|, i requires 0 <= i < |input.items| => OrderItem(id, input.items[i])),
      seq(|input.payments|, i requires 0 <= i < |input.payments| => OrderPayment(id, input.payments[i])))
  }

  /** The order with its items and payments stamped with its own id, as InsertIfNew stores it. */
  function Stamped(order: Order): (stamped: Order)
    ensures |stamped.items| == |order.items| && |stamped.payments| == |order.payments|
  {
    order.(items := seq(|order.items|,
                        i requires 0 <= i < |order.items| => order.items[i].(orderId := order.id)),
           payments := seq(|order.payments|,
                           i requires 0 <= i < |order.payments| => order.payments[i].(orderId := order.id)))
  }

  predicate SameKey(order: Order, businessId: BusinessId, clientId: string) {
    order.businessId == businessId && order.clientGeneratedId == clientId
  }

  /** An order of this business with this client id is stored. */
  predicate IsStored(orders: seq<Order>, businessId: BusinessId, clientId: string) {
    exists order | order in orders :: SameKey(order, businessId, clientId)
  }

  /** `WHERE business_id = ? AND id = ?` finds a product. */
  predicate InCatalogue(products: map<ProductId, Product>, businessId: BusinessId, item: OrderItem) {
    && item.line.productId.Some?
    && item.line.productId.value in products
    && products[item.line.productId.value].businessId == businessId
  }

  /** One line deducted from stock and journalled; a line without a product of this
      business is skipped. */
  function DeductItem(store: Store, businessId: BusinessId, orderId: OrderId, item: OrderItem): Store {
    if InCatalogue(store.products, businessId, item) then
      var id := item.line.productId.value;
      var delta := -item.line.quantity;
      var balance := store.products[id].stockQuantity + delta;
      store.(products := store.products[id := store.products[id].(stockQuantity := balance)],
             ledger := store.ledger + [Movement(businessId, id, item.line.name, delta, balance, orderId)])
    else store
  }

  function DeductItems(store: Store, businessId: BusinessId, orderId: OrderId, items: seq<OrderItem>): Store {
    if items == [] then store
    else DeductItem(DeductItems(store, businessId, orderId, items[..|items| - 1]),
                    businessId, orderId, items[|items| - 1])
  }

  /** The committed effect of one new order. */
  function Commit(store: Store, order: Order): Store {
    DeductItems(store.(orders := store.orders + [order]), order.businessId, order.id, order.items)
  }

  /** Statements issued for the lines: an update each, and an insert for each line found. */
  function ItemStatements(products: map<ProductId, Product>, businessId: BusinessId, items: seq<OrderItem>): nat {
    if items == [] then 0
    else
      var item := items[|items| - 1];
      ItemStatements(products, businessId, items[..|items| - 1])
      + (if item.line.productId.None? then 0 else if InCatalogue(products, businessId, item) then 2 else 1)
  }

  function InsertStatements(order: Order): nat {
    1 + (if order.items == [] then 0 else 1) + (if order.payments == [] then 0 else 1)
  }

  /** All statements of a transaction that stores a new order, its commit included. */
  function Statements(store: Store, order: Order): nat {
    InsertStatements(order) + ItemStatements(store.products, order.businessId, order.items) + 1
  }

  function AttemptOrder(a: Attempt): Order {
    BuildOrder(a.businessId, a.orderId, a.input)
  }

  /** The attempt's transaction commits. */
  predicate Commits(store: Store, a: Attempt) {
    && !IsStored(store.orders, a.businessId, a.input.clientGeneratedId)
    && (a.fault.StatementFails? ==> a.fault.index >= Statements(store, AttemptOrder(a)))
  }

  function AfterAttempt(store: Store, a: Attempt): Store {
    if Commits(store, a) then Commit(store, AttemptOrder(a)) else store
  }

  function AttemptResult(store: Store, a: Attempt): SyncResult {
    if a.fault == StatementFails(0) then Error
    else if IsStored(store.orders, a.businessId, a.input.clientGeneratedId) then AlreadySynced
    else if Commits(store, a) && !a.fault.CommitUnacknowledged? then Synced
    else Error
  }

  function AttemptOutcome(store: Store, a: Attempt): SyncOutcome {
    var result := AttemptResult(store, a);
    SyncOutcome(a.input.clientGeneratedId, result, if result.Synced? then Some(a.orderId) else None)
  }

  /** Any number of batches, flattened: each order has its own transaction. */
  function Run(store: Store, attempts: seq<Attempt>): Store {
    if attempts == [] then store
    else
      var n := |attempts| - 1;
      AfterAttempt(Run(store, attempts[..n]), attempts[n])
  }

  function Outcomes(store: Store, attempts: seq<Attempt>): (outcomes: seq<SyncOutcome>)
    ensures |outcomes| == |attempts|
  {
    if attempts == [] then []
    else
      var n := |attempts| - 1;
      Outcomes(store, attempts[..n]) + [AttemptOutcome(Run(store, attempts[..n]), attempts[n])]
  }

  function BatchAttempts(businessId: BusinessId, batch: seq<SyncOrderInput>, ids: seq<OrderId>, faults: seq<Fault>)
    : (attempts: seq<Attempt>)
    requires |batch| == |ids| == |faults|
    ensures |attempts| == |batch|
    ensures forall i :: 0 <= i < |batch| ==> attempts[i] == Attempt(businessId, batch[i], ids[i], faults[i])
  {
    seq(|batch|, i requires 0 <= i < |batch| => Attempt(businessId, batch[i], ids[i], faults[i]))
  }

  // ---- the service --------------------------------------------------------------

  /** The database, with the transaction currently open on it and the fault it will meet. */
  class OrderDatabase {
    var orders: seq<Order>
    var products: map<ProductId, Product>
    var ledger: seq<Movement>
    /** Statements that will still succeed; None when none will fail. */
    var statementsLeft: Option<nat>

    constructor (store: Store)
      ensures Tables() == store && statementsLeft == None
    {
      orders, products, ledger := store.orders, store.products, store.ledger;
      statementsLeft := None;
    }

    function Tables(): Store
      reads this
    {
      Store(orders, products, ledger)
    }

    /** Counts one statement and says whether it reaches the database. */
    method Statement() returns (ok: bool)
      modifies this`statementsLeft
      ensures ok == (old(statementsLeft) != Some(0))
      ensures statementsLeft == (if ok && old(statementsLeft).Some? then Some(old(statementsLeft).value - 1)
                                 else old(statementsLeft))
    {
      ok := statementsLeft != Some(0);
      if ok && statementsLeft.Some? {
        statementsLeft := Some(statementsLeft.value - 1);
      }
    }

    /** INSERT ... ON CONFLICT DO NOTHING on (business_id, client_generated_id), then the
        items and the payments, each stamped with the order's id. */
    method InsertIfNew(order: Order) returns (inserted: Result<Order, SyncError>)
      modifies this
      ensures products == old(products) && ledger == old(ledger)
      ensures match inserted
              case Failure(e) =>
                || (e == ErrAlreadySynced && old(statementsLeft) != Some(0)
                    && IsStored(old(orders), order.businessId, order.clientGeneratedId))
                || (e == ErrDatabase && old(statementsLeft) == Some(0))
                || (e == ErrDatabase && old(statementsLeft).Some?
                    && !IsStored(old(orders), order.businessId, order.clientGeneratedId)
                    && old(statementsLeft).value < InsertStatements(order))
              case Success(stored) =>
                && stored == Stamped(order)
                && !IsStored(old(orders), order.businessId, order.clientGeneratedId)
                && orders == old(orders) + [Stamped(order)]
                && statementsLeft.Some? == old(statementsLeft).Some?
                && (statementsLeft.Some? ==>
                      statementsLeft.value == old(statementsLeft).value - InsertStatements(order))
    {
      var ok := Statement();
      if !ok {
        return Failure(ErrDatabase);
      }
      if IsStored(orders, order.businessId, order.clientGeneratedId) {
        return Failure(ErrAlreadySynced);
      }
      var row := order.(items := [], payments := []);
      ghost var before := orders;
      orders := orders + [row];

      if |order.items| > 0 {
        var stamped: seq<OrderItem> := [];
        for i := 0 to |order.items|
          invariant stamped == Stamped(order).items[..i]
        {
          stamped := stamped + [order.items[i].(orderId := order.id)];
        }
        ok := Statement();
        if !ok {
          return Failure(ErrDatabase);
        }
        row := row.(items := stamped);
        orders := orders[|orders| - 1 := row];
      }
      if |order.payments| > 0 {
        var stamped: seq<OrderPayment> := [];
        for i := 0 to |order.payments|
          invariant stamped == Stamped(order).payments[..i]
        {
          stamped := stamped + [order.payments[i].(orderId := order.id)];
        }
        ok := Statement();
        if !ok {
          return Failure(ErrDatabase);
        }
        row := row.(payments := stamped);
        orders := orders[|orders| - 1 := row];
      }
      assert row == Stamped(order);
      assert orders == before + [row];
      return Success(row);
    }

    /** UPDATE products SET stock_quantity = stock_quantity + delta ... RETURNING. */
    method ApplyDelta(businessId: BusinessId, productId: ProductId, delta: real) returns (r: Result<real, SyncError>)
      modifies this`statementsLeft, this`products
      ensures statementsLeft.Some? == old(statementsLeft).Some?
      ensures old(statementsLeft) == Some(0) ==>
                r == Failure(ErrDatabase) && products == old(products)
      ensures old(statementsLeft) != Some(0) ==>
                && (statementsLeft.Some? ==> statementsLeft.value == old(statementsLeft).value - 1)
                && if productId in old(products) && old(products)[productId].businessId == businessId then
                     var balance := old(products)[productId].stockQuantity + delta;
                     && r == Success(balance)
                     && products == old(products)[productId := Product(businessId, balance)]
                   else r == Failure(ErrNotFound) && products == old(products)
    {
      var ok := Statement();
      if !ok {
        return Failure(ErrDatabase);
      }
      if productId !in products || products[productId].businessId != businessId {
        return Failure(ErrNotFound);
      }
      var balance := products[productId].stockQuantity + delta;
      products := products[productId := products[productId].(stockQuantity := balance)];
      return Success(balance);
    }

    method RecordMovement(movement: Movement) returns (ok: bool)
      modifies this`statementsLeft, this`ledger
      ensures ok == (old(statementsLeft) != Some(0))
      ensures statementsLeft.Some? == old(statementsLeft).Some?
      ensures ok && statementsLeft.Some? ==> statementsLeft.value == old(statementsLeft).value - 1
      ensures ledger == if ok then old(ledger) + [movement] else old(ledger)
    {
      ok := Statement();
      if ok {
        ledger := ledger + [movement];
      }
    }

    /** Deducts and journals one line of a stored order. */
    method DeductLine(businessId: BusinessId, orderId: OrderId, item: OrderItem) returns (ok: bool)
      modifies this
      ensures var needed := ItemStatements(old(products), businessId, [item]);
              && (ok ==> && Tables() == DeductItem(old(Tables()), businessId, orderId, item)
                         && statementsLeft.Some? == old(statementsLeft).Some?
                         && (statementsLeft.Some? ==> statementsLeft.value + needed == old(statementsLeft).value))
              && (!ok ==> old(statementsLeft).Some? && old(statementsLeft).value < needed)
    {
      assert [item][..0] == [];
      var line := item.line;
      if line.productId.None? {
        return true;
      }
      var applied := ApplyDelta(businessId, line.productId.value, -line.quantity);
      if applied.Failure? {
        return applied.error == ErrNotFound;
      }
      ok := RecordMovement(
        Movement(businessId, line.productId.value, line.name, -line.quantity, applied.value, orderId));
    }

    /** Deducts and journals every line of a stored order. */
    method DeductLines(order: Order) returns (ok: bool)
      modifies this
      ensures var needed := ItemStatements(old(products), order.businessId, order.items);
              && (ok ==> && Tables() == DeductItems(old(Tables()), order.businessId, order.id, order.items)
                         && statementsLeft.Some? == old(statementsLeft).Some?
                         && (statementsLeft.Some? ==> statementsLeft.value + needed == old(statementsLeft).value))
              && (!ok ==> old(statementsLeft).Some? && old(statementsLeft).value < needed)
    {
      ghost var start := Tables();
      ghost var left := statementsLeft;
      var items := order.items;
      for i := 0 to |items|
        invariant Tables() == DeductItems(start, order.businessId, order.id, items[..i])
        invariant statementsLeft.Some? == left.Some?
        invariant left.Some? ==>
                    statementsLeft.value + ItemStatements(start.products, order.businessId, items[..i]) == left.value
      {
        CatalogueKept(start, order.businessId, order.id, items[..i]);
        ItemStatementsGrow(start.products, order.businessId, items, i);
        SameCatalogueSameStatements(start.products, products, order.businessId, items[i]);
        assert items[..i + 1][..i] == items[..i];
        ok := DeductLine(order.businessId, order.id, items[i]);
        if !ok {
          return;
        }
      }
      assert items[..|items|] == items;
      return true;
    }

    /** The body of the transaction, up to but not including its commit. */
    method StoreOrder(order: Order) returns (r: Result<OrderId, SyncError>)
      modifies this
      ensures match r
              case Failure(e) =>
                || (e == ErrAlreadySynced && old(statementsLeft) != Some(0)
                    && IsStored(old(orders), order.businessId, order.clientGeneratedId))
                || (e == ErrDatabase && old(statementsLeft) == Some(0))
                || (e == ErrDatabase && old(statementsLeft).Some?
                    && !IsStored(old(orders), order.businessId, order.clientGeneratedId)
                    && old(statementsLeft).value + 1 < Statements(old(Tables()), Stamped(order)))
              case Success(id) =>
                && id == order.id
                && !IsStored(old(orders), order.businessId, order.clientGeneratedId)
                && Tables() == Commit(old(Tables()), Stamped(order))
                && statementsLeft.Some? == old(statementsLeft).Some?
                && (statementsLeft.Some? ==>
                      statementsLeft.value + Statements(old(Tables()), Stamped(order)) == old(statementsLeft).value + 1)
    {
      var inserted := InsertIfNew(order);
      if inserted.Failure? {
        return Failure(inserted.error);
      }
      var ok := DeductLines(inserted.value);
      return if ok then Success(order.id) else Failure(ErrDatabase);
    }

    /** The row syncOne fills in before it opens the transaction. */
    method PrepareOrder(businessId: BusinessId, input: SyncOrderInput, newId: OrderId) returns (order: Order)
      ensures Stamped(order) == BuildOrder(businessId, newId, input)
    {
      var subtotal, serverTax, serverTotal := ComputeTotals(input.items, input.discountCents);
      var items: seq<OrderItem> := [];
      for i := 0 to |input.items|
        invariant |items| == i
        invariant forall k :: 0 <= k < i ==> items[k] == OrderItem(UNSTAMPED, input.items[k])
      {
        items := items + [OrderItem(UNSTAMPED, input.items[i])];
      }
      var payments: seq<OrderPayment> := [];
      for i := 0 to |input.payments|
        invariant |payments| == i
        invariant forall k :: 0 <= k < i ==> payments[k] == OrderPayment(UNSTAMPED, input.payments[k])
      {
        payments := payments + [OrderPayment(UNSTAMPED, input.payments[i])];
      }
      order := Order(
        newId, businessId, input.clientGeneratedId, None, subtotal, input.discountCents,
        input.taxTotalCents, input.totalCents, false, None, None, input.soldAt, items, payments);
      if input.receiptNo != "" {
        order := order.(receiptNo := Some(input.receiptNo));
      }
      if serverTotal != input.totalCents || serverTax != input.taxTotalCents {
        order := order.(totalsMismatch := true,
                        serverTotalCents := Some(serverTotal),
                        serverTaxTotalCents := Some(serverTax));
      }
      assert Stamped(order).items == BuildOrder(businessId, newId, input).items;
      assert Stamped(order).payments == BuildOrder(businessId, newId, input).payments;
    }

    /** Runs the body in a transaction: commit on success, roll back on any failure. */
    method InTransaction(order: Order, fault: Fault) returns (r: Result<OrderId, SyncError>)
      modifies this
      ensures var stored := IsStored(old(orders), order.businessId, order.clientGeneratedId);
              var fails := fault.StatementFails? && fault.index < Statements(old(Tables()), Stamped(order));
              && Tables() == (if stored || fails then old(Tables()) else Commit(old(Tables()), Stamped(order)))
              && r == (if fault == StatementFails(0) then Failure(ErrDatabase)
                       else if stored then Failure(ErrAlreadySynced)
                       else if fails || fault.CommitUnacknowledged? then Failure(ErrDatabase)
                       else Success(order.id))
    {
      var savedOrders, savedProducts, savedLedger := orders, products, ledger;
      statementsLeft := if fault.StatementFails? then Some(fault.index) else None;
      r := StoreOrder(order);
      if r.Success? {
        var committed := Statement();
        if !committed {
          r := Failure(ErrDatabase);
        }
      }
      if r.Failure? {
        orders, products, ledger := savedOrders, savedProducts, savedLedger;
      } else if fault.CommitUnacknowledged? {
        r := Failure(ErrDatabase);
      }
    }

    /** One order in a transaction of its own. */
    method SyncOne(businessId: BusinessId, input: SyncOrderInput, newId: OrderId, fault: Fault)
      returns (r: Result<OrderId, SyncError>)
      modifies this
      ensures var a := Attempt(businessId, input, newId, fault);
              && Tables() == AfterAttempt(old(Tables()), a)
              && (r.Success? <==> AttemptResult(old(Tables()), a) == Synced)
              && (r.Success? ==> r.value == newId)
              && (r == Failure(ErrAlreadySynced) <==> AttemptResult(old(Tables()), a) == AlreadySynced)
    {
      var order := PrepareOrder(businessId, input, newId);
      r := InTransaction(order, fault);
    }

    /** A batch: one outcome per order, in the order submitted, whatever happens to any. */
    method Sync(businessId: BusinessId, batch: seq<SyncOrderInput>, ids: seq<OrderId>, faults: seq<Fault>)
      returns (outcomes: seq<SyncOutcome>)
      requires |batch| == |ids| == |faults|
      modifies this
      ensures Tables() == Run(old(Tables()), BatchAttempts(businessId, batch, ids, faults))
      ensures outcomes == Outcomes(old(Tables()), BatchAttempts(businessId, batch, ids, faults))
    {
      ghost var attempts := BatchAttempts(businessId, batch, ids, faults);
      outcomes := [];
      for i := 0 to |batch|
        invariant Tables() == Run(old(Tables()), attempts[..i])
        invariant outcomes == Outcomes(old(Tables()), attempts[..i])
      {
        ghost var before := Tables();
        var r := SyncOne(businessId, batch[i], ids[i], faults[i]);
        var outcome := SyncOutcome(batch[i].clientGeneratedId, Error, None);
        if r.Success? {
          outcome := outcome.(result := Synced, serverId := Some(r.value));
        } else if r.error == ErrAlreadySynced {
          outcome := outcome.(result := AlreadySynced);
        }
        assert outcome == AttemptOutcome(before, attempts[i]);
        RunNext(old(Tables()), attempts, i);
        outcomes := outcomes + [outcome];
      }
      assert attempts[..|batch|] == attempts;
    }
  }

  /** A run of one attempt more. */
  lemma RunNext(store: Store, attempts: seq<Attempt>, i: nat)
    requires i < |attempts|
    ensures var before := Run(store, attempts[..i]);
            && Run(store, attempts[..i + 1]) == AfterAttempt(before, attempts[i])
            && Outcomes(store, attempts[..i + 1])
               == Outcomes(store, attempts[..i]) + [AttemptOutcome(before, attempts[i])]
  {
    assert attempts[..i + 1][..i] == attempts[..i];
  }

  // ---- facts about one order ------------------------------------------------------

  /** Deducting never adds, removes or moves a product. */
  lemma {:induction false} CatalogueKept(store: Store, businessId: BusinessId, orderId: OrderId, items: seq<OrderItem>)
    ensures var after := DeductItems(store, businessId, orderId, items);
            && after.orders == store.orders
            && after.products.Keys == store.products.Keys
            && forall p | p in store.products :: after.products[p].businessId == store.products[p].businessId
  {
    if items != [] {
      CatalogueKept(store, businessId, orderId, items[..|items| - 1]);
    }
  }

  lemma SameCatalogueSameStatements(before: map<ProductId, Product>, after: map<ProductId, Product>,
                                    businessId: BusinessId, item: OrderItem)
    requires before.Keys == after.Keys
    requires forall p | p in before :: after[p].businessId == before[p].businessId
    ensures ItemStatements(before, businessId, [item]) == ItemStatements(after, businessId, [item])
    ensures ItemStatements(after, businessId, [item]) ==
            (if item.line.productId.None? then 0 else if InCatalogue(before, businessId, item) then 2 else 1)
  {
    assert [item][..0] == [];
  }

  lemma {:induction false} ItemStatementsGrow(products: map<ProductId, Product>, businessId: BusinessId,
                                              items: seq<OrderItem>, i: nat)
    requires i < |items|
    ensures ItemStatements(products, businessId, items[..i + 1]) <= ItemStatements(products, businessId, items)
    decreases |items|
  {
    if i + 1 == |items| {
      assert items[..i + 1] == items;
    } else {
      var front := items[..|items| - 1];
      ItemStatementsGrow(products, businessId, front, i);
      assert front[..i + 1] == items[..i + 1];
    }
  }

  // ---- every sequence of batches ------------------------------------------------------

  predicate UniqueKeys(orders: seq<Order>) {
    forall i, j :: 0 <= i < j < |orders| ==>
      !SameKey(orders[i], orders[j].businessId, orders[j].clientGeneratedId)
  }

  /** The orders the run stores, in the order their transactions commit. */
  function CommittedOrders(store: Store, attempts: seq<Attempt>): seq<Order> {
    if attempts == [] then []
    else
      var n := |attempts| - 1;
      CommittedOrders(store, attempts[..n])
      + (if Commits(Run(store, attempts[..n]), attempts[n]) then [AttemptOrder(attempts[n])] else [])
  }

  function CommitAll(store: Store, orders: seq<Order>): Store {
    if orders == [] then store
    else Commit(CommitAll(store, orders[..|orders| - 1]), orders[|orders| - 1])
  }

  lemma CommitAllLast(store: Store, orders: seq<Order>, order: Order)
    ensures CommitAll(store, orders + [order]) == Commit(CommitAll(store, orders), order)
  {
    assert (orders + [order])[..|orders|] == orders;
  }

  /** Faults leave no trace: a run ends in the state that committing its successful orders
      one after the other, and nothing else, would give. */
  lemma {:induction false} FaultsLeaveNoTrace(store: Store, attempts: seq<Attempt>)
    ensures Run(store, attempts) == CommitAll(store, CommittedOrders(store, attempts))
  {
    if attempts != [] {
      var n := |attempts| - 1;
      FaultsLeaveNoTrace(store, attempts[..n]);
      assert CommittedOrders(store, attempts[..n]) + [] == CommittedOrders(store, attempts[..n]);
      CommitAllLast(store, CommittedOrders(store, attempts[..n]), AttemptOrder(attempts[n]));
    }
  }

  /** Orders are only ever added, and by committing. */
  lemma {:induction false} RunAppendsOrders(store: Store, attempts: seq<Attempt>)
    ensures Run(store, attempts).orders == store.orders + CommittedOrders(store, attempts)
  {
    if attempts != [] {
      var n := |attempts| - 1;
      var before := Run(store, attempts[..n]);
      RunAppendsOrders(store, attempts[..n]);
      if Commits(before, attempts[n]) {
        var order := AttemptOrder(attempts[n]);
        CatalogueKept(before.(orders := before.orders + [order]), order.businessId, order.id, order.items);
      }
    }
  }

  /** However batches are replayed, split or failed: each (business, client id) is stored at
      most once. */
  lemma {:induction false} StoredAtMostOnce(store: Store, attempts: seq<Attempt>)
    requires UniqueKeys(store.orders)
    ensures UniqueKeys(Run(store, attempts).orders)
  {
    if attempts != [] {
      var n := |attempts| - 1;
      var before, last := Run(store, attempts[..n]), attempts[n];
      StoredAtMostOnce(store, attempts[..n]);
      RunAppendsOrders(before, [last]);
      assert [last][..0] == [];
      assert Run(before, [last]) == AfterAttempt(Run(before, []), last);
    }
  }

  lemma {:induction false} RunSplits(store: Store, first: seq<Attempt>, second: seq<Attempt>)
    ensures Run(store, first + second) == Run(Run(store, first), second)
    ensures Outcomes(store, first + second) == Outcomes(store, first) + Outcomes(Run(store, first), second)
  {
    if second == [] {
      assert first + second == first;
    } else {
      var n, all := |second| - 1, first + second;
      RunSplits(store, first, second[..n]);
      assert all[..|all| - 1] == first + second[..n] && all[|all| - 1] == second[n];
      var middle := Run(store, first);
      assert Run(store, all) == AfterAttempt(Run(middle, second[..n]), second[n]);
      var last := [AttemptOutcome(Run(middle, second[..n]), second[n])];
      assert Outcomes(store, all) == Outcomes(store, first + second[..n]) + last;
      Assoc(Outcomes(store, first), Outcomes(middle, second[..n]), last);
    }
  }

  /** A stored order stays stored. */
  lemma StoredForever(store: Store, attempts: seq<Attempt>, businessId: BusinessId, clientId: string)
    requires IsStored(store.orders, businessId, clientId)
    ensures IsStored(Run(store, attempts).orders, businessId, clientId)
  {
    RunAppendsOrders(store, attempts);
    var order :| order in store.orders && SameKey(order, businessId, clientId);
    assert order in Run(store, attempts).orders;
  }

  lemma AttemptStores(store: Store, a: Attempt)
    requires Commits(store, a) || IsStored(store.orders, a.businessId, a.input.clientGeneratedId)
    ensures IsStored(AfterAttempt(store, a).orders, a.businessId, a.input.clientGeneratedId)
  {
    if Commits(store, a) {
      var order := AttemptOrder(a);
      CatalogueKept(store.(orders := store.orders + [order]), order.businessId, order.id, order.items);
      assert order in AfterAttempt(store, a).orders && SameKey(order, a.businessId, a.input.clientGeneratedId);
    }
  }

  lemma RunFrom(store: Store, attempts: seq<Attempt>, i: nat)
    requires i < |attempts|
    ensures Run(store, attempts) == Run(AfterAttempt(Run(store, attempts[..i]), attempts[i]), attempts[i + 1..])
  {
    assert attempts == attempts[..i + 1] + attempts[i + 1..];
    RunSplits(store, attempts[..i + 1], attempts[i + 1..]);
    assert attempts[..i + 1][..i] == attempts[..i];
  }

  /** At-least-once delivery is enough: one attempt that meets no failing statement stores
      the order, whatever happened before and whatever happens after. */
  lemma UnfailedAttemptIsStored(store: Store, attempts: seq<Attempt>, i: nat)
    requires i < |attempts| && !attempts[i].fault.StatementFails?
    ensures IsStored(Run(store, attempts).orders, attempts[i].businessId, attempts[i].input.clientGeneratedId)
  {
    var before := Run(store, attempts[..i]);
    RunFrom(store, attempts, i);
    AttemptStores(before, attempts[i]);
    StoredForever(AfterAttempt(before, attempts[i]), attempts[i + 1..],
                  attempts[i].businessId, attempts[i].input.clientGeneratedId);
  }

  /** Replaying orders that are already stored changes no table, whatever fails on the way. */
  lemma {:induction false} ReplayChangesNothing(store: Store, attempts: seq<Attempt>)
    requires forall a | a in attempts :: IsStored(store.orders, a.businessId, a.input.clientGeneratedId)
    ensures Run(store, attempts) == store
  {
    if attempts != [] {
      var n := |attempts| - 1;
      ReplayChangesNothing(store, attempts[..n]);
      assert attempts[n] in attempts;
    }
  }

  /** Exactly once: after a delivery in which no statement failed, delivering any of its
      orders again - in any order, any number of times, under any faults - is a no-op. */
  lemma RedeliveryIsIdempotent(store: Store, delivered: seq<Attempt>, again: seq<Attempt>)
    requires forall a | a in delivered :: !a.fault.StatementFails?
    requires forall a | a in again :: exists d | d in delivered ::
               d.businessId == a.businessId && d.input.clientGeneratedId == a.input.clientGeneratedId
    ensures Run(store, delivered + again) == Run(store, delivered)
  {
    RunSplits(store, delivered, again);
    forall a | a in again
      ensures IsStored(Run(store, delivered).orders, a.businessId, a.input.clientGeneratedId)
    {
      var d :| d in delivered && d.businessId == a.businessId
               && d.input.clientGeneratedId == a.input.clientGeneratedId;
      var i :| 0 <= i < |delivered| && delivered[i] == d;
      UnfailedAttemptIsStored(store, delivered, i);
    }
    ReplayChangesNothing(Run(store, delivered), again);
  }

  lemma {:induction false} OutcomeAt(store: Store, attempts: seq<Attempt>, i: nat)
    requires i < |attempts|
    ensures Outcomes(store, attempts)[i] == AttemptOutcome(Run(store, attempts[..i]), attempts[i])
  {
    var n := |attempts| - 1;
    if i < n {
      OutcomeAt(store, attempts[..n], i);
      assert attempts[..n][..i] == attempts[..i];
    }
  }

  /** A sale the till may forget - told "synced" or "already_synced" - is never lost. */
  lemma AcknowledgedIsStored(store: Store, attempts: seq<Attempt>, i: nat)
    requires i < |attempts|
    requires Outcomes(store, attempts)[i].result in {Synced, AlreadySynced}
    ensures IsStored(Run(store, attempts).orders, attempts[i].businessId, attempts[i].input.clientGeneratedId)
  {
    var before := Run(store, attempts[..i]);
    OutcomeAt(store, attempts, i);
    RunFrom(store, attempts, i);
    AttemptStores(before, attempts[i]);
    StoredForever(AfterAttempt(before, attempts[i]), attempts[i + 1..],
                  attempts[i].businessId, attempts[i].input.clientGeneratedId);
  }

  /** The same sale is reported "synced" at most once. */
  lemma SyncedAtMostOnce(store: Store, attempts: seq<Attempt>, i: nat, j: nat)
    requires i < j < |attempts|
    requires attempts[i].businessId == attempts[j].businessId
    requires attempts[i].input.clientGeneratedId == attempts[j].input.clientGeneratedId
    ensures Outcomes(store, attempts)[i].result == Synced ==> Outcomes(store, attempts)[j].result != Synced
  {
    OutcomeAt(store, attempts, i);
    OutcomeAt(store, attempts, j);
    if Outcomes(store, attempts)[i].result == Synced {
      assert attempts[..j][..i] == attempts[..i];
      OutcomeAt(store, attempts[..j], i);
      AcknowledgedIsStored(store, attempts[..j], i);
    }
  }

  // ---- on the inputs -----------------------------------------------------------------------

  /** The entries of the unique index on (business, client id). */
  function Keys(orders: seq<Order>): set<(BusinessId, string)> {
    set order | order in orders :: (order.businessId, order.clientGeneratedId)
  }

  function KeyOf(a: Attempt): (BusinessId, string) {
    (a.businessId, a.input.clientGeneratedId)
  }

  /** The row is the sale as the till submitted it: every line and every payment, in order, under
      the order's id, and the till's figures. The subtotal, which the till does not send, is the
      one it shows; the server's tax and total stand beside the till's exactly when they differ. */
  predicate Records(order: Order, a: Attempt) {
    var input, server := a.input, ServerTotals(a.input.items, a.input.discountCents);
    var differs := (server.taxTotalCents, server.totalCents) != (input.taxTotalCents, input.totalCents);
    && (order.id, order.businessId, order.clientGeneratedId) == (a.orderId, a.businessId, input.clientGeneratedId)
    && order.receiptNo == (if input.receiptNo == "" then None else Some(input.receiptNo))
    && |order.items| == |input.items| && |order.payments| == |input.payments|
    && (forall i :: 0 <= i < |order.items| ==> order.items[i] == OrderItem(a.orderId, input.items[i]))
    && (forall i :: 0 <= i < |order.payments| ==> order.payments[i] == OrderPayment(a.orderId, input.payments[i]))
    && (order.discountCents, order.soldAt) == (input.discountCents, input.soldAt)
    && (order.taxTotalCents, order.totalCents) == (input.taxTotalCents, input.totalCents)
    && order.subtotalCents == ComputeCartTotal(input.items, input.discountCents).subtotalCents
    && order.totalsMismatch == differs
    && order.serverTaxTotalCents == (if differs then Some(server.taxTotalCents) else None)
    && order.serverTotalCents == (if differs then Some(server.totalCents) else None)
  }

  /** The attempts after which the orders table is longer, in order. */
  function StoredSales(store: Store, attempts: seq<Attempt>): seq<Attempt> {
    if attempts == [] then []
    else
      var n := |attempts| - 1;
      StoredSales(store, attempts[..n])
      + (if |Run(store, attempts).orders| > |Run(store, attempts[..n]).orders| then [attempts[n]] else [])
  }

  /** An attempt adds the submitted sale, or no order at all. */
  lemma AttemptAddsSale(store: Store, a: Attempt)
    ensures var after := AfterAttempt(store, a).orders;
            || after == store.orders
            || (|after| == |store.orders| + 1 && after[..|store.orders|] == store.orders
                && Records(after[|store.orders|], a))
    ensures (KeyOf(a) !in Keys(store.orders) && KeyOf(a) in Keys(AfterAttempt(store, a).orders))
            <==> |AfterAttempt(store, a).orders| > |store.orders|
    ensures Commits(store, a) <==> |AfterAttempt(store, a).orders| > |store.orders|
  {
    if Commits(store, a) {
      var order := AttemptOrder(a);
      CatalogueKept(store.(orders := store.orders + [order]), order.businessId, order.id, order.items);
      SubtotalsAlwaysAgree(a.input.items, a.input.discountCents);
      assert order in AfterAttempt(store, a).orders;
    }
  }

  /** Over every run the table holds what it held, and then the sales of the attempts that stored
      one - each with all its lines and payments as submitted. */
  lemma {:induction false} StoredSalesAreSubmitted(store: Store, attempts: seq<Attempt>)
    ensures var orders, sales := Run(store, attempts).orders, StoredSales(store, attempts);
            && |orders| == |store.orders| + |sales| && orders[..|store.orders|] == store.orders
            && forall k :: 0 <= k < |sales| ==> Records(orders[|store.orders| + k], sales[k])
  {
    if attempts != [] {
      var n := |attempts| - 1;
      StoredSalesAreSubmitted(store, attempts[..n]);
      AttemptAddsSale(Run(store, attempts[..n]), attempts[n]);
    }
  }

  lemma MoreKeys(orders: seq<Order>, more: seq<Order>)
    requires |orders| <= |more| && more[..|orders|] == orders
    ensures Keys(orders) <= Keys(more)
  {
    forall order | order in orders
      ensures order in more
    {
      var k :| 0 <= k < |orders| && orders[k] == order;
      assert more[k] == more[..|orders|][k];
    }
  }

  lemma KeysStay(store: Store, attempts: seq<Attempt>, i: nat)
    requires i <= |attempts|
    ensures Keys(Run(store, attempts[..i]).orders) <= Keys(Run(store, attempts).orders)
  {
    RunSplits(store, attempts[..i], attempts[i..]);
    assert attempts[..i] + attempts[i..] == attempts;
    StoredSalesAreSubmitted(Run(store, attempts[..i]), attempts[i..]);
    MoreKeys(Run(store, attempts[..i]).orders, Run(store, attempts).orders);
  }

  /** What an answer says about the tables before and after its attempt. */
  predicate Reports(outcome: SyncOutcome, a: Attempt, before: seq<Order>, after: seq<Order>) {
    && outcome.clientGeneratedId == a.input.clientGeneratedId
    && outcome.result in {Synced, AlreadySynced, Error}
    && (outcome.result == Synced <==>
          KeyOf(a) !in Keys(before) && KeyOf(a) in Keys(after) && a.fault != CommitUnacknowledged)
    && (outcome.result == AlreadySynced <==> KeyOf(a) in Keys(before) && a.fault != StatementFails(0))
    && (outcome.serverId.Some? <==> outcome.result == Synced)
    && (outcome.result == Synced ==>
          after != [] && after[|after| - 1].id == outcome.serverId.value && Records(after[|after| - 1], a))
  }

  lemma AttemptReports(store: Store, a: Attempt)
    ensures Reports(AttemptOutcome(store, a), a, store.orders, AfterAttempt(store, a).orders)
  {
    AttemptAddsSale(store, a);
  }

  /** The answer to attempt i is about the tables as they were. "synced": the key was not stored
      before, is stored after it, the commit was acknowledged, and the server's id is that of the
      stored row. "already_synced": the key was stored before, and the insert that found it did not
      fail. Anything else is an error that carries no id. After either of the first two the key
      is stored at the end. */
  lemma OutcomesReport(store: Store, attempts: seq<Attempt>, i: nat)
    requires i < |attempts|
    ensures Reports(Outcomes(store, attempts)[i], attempts[i],
                    Run(store, attempts[..i]).orders, Run(store, attempts[..i + 1]).orders)
    ensures Outcomes(store, attempts)[i].result in {Synced, AlreadySynced} ==>
              KeyOf(attempts[i]) in Keys(Run(store, attempts).orders)
  {
    OutcomeAt(store, attempts, i);
    RunNext(store, attempts, i);
    AttemptReports(Run(store, attempts[..i]), attempts[i]);
    KeysStay(store, attempts, i);
    KeysStay(store, attempts, i + 1);
  }

  // ---- which faults stop a sale ------------------------------------------------------------

  function HasProduct(): SaleLine -> bool {
    (line: SaleLine) => line.productId.Some?
  }

  function IsSoldBy(products: map<ProductId, Product>, businessId: BusinessId): SaleLine -> bool {
    (line: SaleLine) =>
      && line.productId.Some? && line.productId.value in products
      && products[line.productId.value].businessId == businessId
  }

  /** The statements a new sale needs: the order, its items, its payments, an update for each line
      with a product and a journal row for each of those the business has, and the commit. */
  function StatementsOf(products: map<ProductId, Product>, businessId: BusinessId, input: SyncOrderInput): nat {
    1 + (if input.items == [] then 0 else 1) + (if input.payments == [] then 0 else 1)
    + |Filter(HasProduct(), input.items)| + |Filter(IsSoldBy(products, businessId), input.items)| + 1
  }

  lemma {:induction false} LineStatements(products: map<ProductId, Product>, businessId: BusinessId,
                                          items: seq<OrderItem>, lines: seq<SaleLine>)
    requires |items| == |lines| && forall i :: 0 <= i < |items| ==> items[i].line == lines[i]
    ensures ItemStatements(products, businessId, items)
         == |Filter(HasProduct(), lines)| + |Filter(IsSoldBy(products, businessId), lines)|
  {
    if lines != [] {
      var n := |lines| - 1;
      LineStatements(products, businessId, items[..n], lines[..n]);
      assert lines == lines[..n] + [lines[n]];
      FilterLast(HasProduct(), lines[..n], lines[n]);
      FilterLast(IsSoldBy(products, businessId), lines[..n], lines[n]);
    }
  }

  /** An attempt stores its sale exactly when the key is new and every statement the sale needs
      succeeds; otherwise no table changes. */
  lemma SaleIsStoredIff(store: Store, a: Attempt)
    ensures var stores := && KeyOf(a) !in Keys(store.orders)
                          && (a.fault.StatementFails? ==>
                                a.fault.index >= StatementsOf(store.products, a.businessId, a.input));
            && (KeyOf(a) !in Keys(store.orders) && KeyOf(a) in Keys(AfterAttempt(store, a).orders) <==> stores)
            && (!stores ==> AfterAttempt(store, a) == store)
  {
    AttemptAddsSale(store, a);
    LineStatements(store.products, a.businessId, AttemptOrder(a).items, a.input.items);
    if Commits(store, a) {
      RunAppendsOrders(store, [a]);
      assert [a][..0] == [];
      assert Run(store, [a]) == AfterAttempt(Run(store, []), a);
    }
  }
}
