/** The bar's order/inventory ledger as values.

    The five relations the handlers of server.js read and write (products, inventory,
    orders, order_items, inventory_movements), together with the rows they only refer to
    (tables, users), form one `State`. Each HTTP handler of the core is one transition
    function `State -> (response, State)`, read off its chain of SQL statements with the
    statements applied one after another. The class in store.dfy performs the same writes
    step by step and is proved equal to these functions. */
module Ledger {

  datatype Option<T> = None | Some(value: T)

  datatype Result<T> = Ok(value: T) | Err(error: Failure)

  /** The error responses of the handlers. */
  datatype Failure =
    | MissingNameOrPrice          // 400 "Falta nombre o precio"
    | InvalidId                   // 400 "ID inválido"
    | ProductInUse                // 400, the product has sales or inventory movements
    | MissingData                 // 400 "Faltan datos"
    | NoItems                     // 400 "No hay items para agregar"
    | InsufficientStock(product: int)  // 400 "Sin stock suficiente para producto <id>"
    | NoOpenOrder                 // 400 "No hay pedido abierto para esta mesa"
    | StorageFailure              // 500, a statement that sqlite refused (handleError)

  /** A row of `products`; the REAL price is held as a whole number. */
  datatype Product = Product(name: string, price: int)

  datatype Status = Open | Closed

  /** A row of `orders`. `total` keeps the column default 0 until the order is closed. */
  datatype Order = Order(table: int, status: Status, user: Option<int>, total: int)

  /** A row of `order_items`; `order` is the position of its order in `State.orders`. */
  datatype OrderItem = OrderItem(order: nat, product: int, qty: int, price: int)

  /** A row of `inventory_movements`. */
  datatype Movement = Movement(product: int, delta: int, newStock: int, user: Option<int>)

  /** One requested line of `POST /api/tables/:id/order/items`; `qty` is absent when the client sent none. */
  datatype ItemRequest = ItemRequest(product: int, qty: Option<int>)

  /** What happened to one requested line. */
  datatype ItemOutcome = Reserved(newStock: int) | ItemFailed(error: Failure)

  /** The database. Orders, order items and movements are never deleted, so they are
      sequences in id order (the SQL id of `orders[k]` is k + 1). Product ids come from
      AUTOINCREMENT, which never hands out an id twice: `nextProductId` is the next one. */
  datatype State = State(
    products: map<int, Product>,
    inventory: map<int, int>,
    orders: seq<Order>,
    items: seq<OrderItem>,
    movements: seq<Movement>,
    tables: set<int>,
    users: set<int>,
    nextProductId: int)

  /** The database right after `init()` of db.js: users 1 and 2, tables 1 to 8, six
      products with 20 units each and no movements. */
  function Seed(): (r: State)
    ensures forall t :: !Occupied(r, t)
  {
    State(
      map[1 := Product("Cerveza Corona", 45), 2 := Product("Michelada", 80),
          3 := Product("Mojito", 95), 4 := Product("Cuba Libre", 90),
          5 := Product("Whisky", 130), 6 := Product("Papas con Chedar", 75)],
      map[1 := 20, 2 := 20, 3 := 20, 4 := 20, 5 := 20, 6 := 20],
      [], [], [], {1, 2, 3, 4, 5, 6, 7, 8}, {1, 2}, 7)
  }

  function Max(a: int, b: int): (m: int) { if a < b then b else a }

  // ---------------------------------------------------------------------------
  // Queries

  /** Current stock of a product; a product without an inventory row has stock 0. */
  function StockOf(s: State, p: int): (n: int)
    ensures p !in s.inventory ==> n == 0
    ensures p in s.inventory ==> n == s.inventory[p]
    ensures StockNonNegative(s) ==> n >= 0
  {
    if p in s.inventory then s.inventory[p] else 0
  }

  /** The handlers' `table_id = ? AND status = 'open'` filter. */
  predicate IsOpenFor(ord: Order, t: int) {
    ord.table == t && ord.status == Open
  }

  /** The open order of table t with the highest id, as the handlers look it up. */
  function LatestOpenOrder(orders: seq<Order>, t: int): (r: Option<nat>)
    ensures r.Some? ==> r.value < |orders| && IsOpenFor(orders[r.value], t)
    ensures r.Some? ==> forall k :: r.value < k < |orders| ==> !IsOpenFor(orders[k], t)
    ensures r.None? ==> forall k :: 0 <= k < |orders| ==> !IsOpenFor(orders[k], t)
  {
    if |orders| == 0 then None
    else if IsOpenFor(orders[|orders| - 1], t) then Some(|orders| - 1)
    else LatestOpenOrder(orders[..|orders| - 1], t)
  }

  /** The `occupied` column of `GET /api/tables`: an open order exists for the table. */
  function Occupied(s: State, t: int): (b: bool)
    ensures b <==> LatestOpenOrder(s.orders, t).Some?
  {
    exists k :: 0 <= k < |s.orders| && IsOpenFor(s.orders[k], t)
  }

  /** The items of order o, in id order. */
  function ItemsOf(items: seq<OrderItem>, o: nat): (r: seq<OrderItem>)
    ensures |r| <= |items|
    ensures forall x :: x in r <==> x in items && x.order == o
    ensures forall x :: multiset(r)[x] == if x.order == o then multiset(items)[x] else 0
  {
    if items == [] then []
    else
      var init, last := items[..|items| - 1], items[|items| - 1];
      assert items == init + [last];
      ItemsOf(init, o) + (if last.order == o then [last] else [])
  }

  /** The close handler's fold over the lines: from 0, add qty times price of each line in turn. */
  function Total(lines: seq<OrderItem>): (sum: int)
    ensures (forall i :: 0 <= i < |lines| ==> lines[i].qty >= 0 && lines[i].price >= 0) ==> sum >= 0
  {
    if lines == [] then 0
    else Total(lines[..|lines| - 1]) + lines[|lines| - 1].qty * lines[|lines| - 1].price
  }

  /** `GET /api/tables/:id/order`: the table's open order with its items, or nothing when
      the table is free. The handler's item query also joins `products`, which drops rows
      whose product is gone; no such row exists here, because `ReferencesExist` is part of
      `Valid` and keeps every item's product in the catalog. */
  function CurrentOrder(s: State, t: int): (r: Option<(nat, seq<OrderItem>)>)
    ensures r.None? <==> !Occupied(s, t)
    ensures r.Some? ==> r.value.0 < |s.orders| && IsOpenFor(s.orders[r.value.0], t)
    ensures r.Some? ==> forall x :: x in r.value.1 <==> x in s.items && x.order == r.value.0
    ensures r.Some? ==> forall x :: multiset(r.value.1)[x] == if x.order == r.value.0 then multiset(s.items)[x] else 0
  {
    match LatestOpenOrder(s.orders, t)
    case None => None
    case Some(o) => Some((o, ItemsOf(s.items, o)))
  }

  /** The total of an order: qty times price summed over exactly that order's items. */
  function OrderTotal(items: seq<OrderItem>, o: nat): (sum: int)
    ensures (forall k :: 0 <= k < |items| ==> items[k].qty >= 0 && items[k].price >= 0) ==> sum >= 0
  {
    Total(ItemsOf(items, o))
  }

  /** The most recent movement recorded for a product, if any. */
  function LastMovement(ms: seq<Movement>, p: int): (r: Option<Movement>)
    ensures r.Some? ==> r.value in ms && r.value.product == p
    ensures r.Some? ==> exists k :: 0 <= k < |ms| && ms[k] == r.value && forall j :: k < j < |ms| ==> ms[j].product != p
    ensures r.None? <==> forall k :: 0 <= k < |ms| ==> ms[k].product != p
  {
    if ms == [] then None
    else if ms[|ms| - 1].product == p then Some(ms[|ms| - 1])
    else LastMovement(ms[..|ms| - 1], p)
  }

  /** True when some order item or movement names the product (the two COUNT(*) queries of the delete handler). */
  predicate Referenced(s: State, p: int): (b: bool)
    ensures b <==> (exists x :: x in s.items && x.product == p) || LastMovement(s.movements, p).Some?
  {
    (exists k :: 0 <= k < |s.items| && s.items[k].product == p)
    || (exists k :: 0 <= k < |s.movements| && s.movements[k].product == p)
  }

  // ---------------------------------------------------------------------------
  // Request normalisation

  /** The quantity of a requested line: an absent or zero quantity means one unit; any
      other value, negative ones included, is used as given. */
  function RequestedQty(raw: Option<int>): (q: int)
    ensures q != 0
    ensures raw.Some? && raw.value != 0 ==> q == raw.value
    ensures raw.None? || raw.value == 0 ==> q == 1
  {
    if raw.None? || raw.value == 0 then 1 else raw.value
  }

  /** The user a request is attributed to: a zero user id is stored as no user. */
  function Attribution(user: Option<int>): (a: Option<int>)
    ensures a.Some? ==> a.value != 0
    ensures user.Some? && user.value != 0 ==> a == user
    ensures a.None? <==> user.None? || user.value == 0
  {
    if user.Some? && user.value == 0 then None else user
  }

  /** The foreign key to `users` accepts the attribution: none, or an existing user. */
  predicate KnownUser(users: set<int>, user: Option<int>): (b: bool)
    ensures b <==> user.None? || user.value == 0 || user.value in users
  {
    Attribution(user).None? || Attribution(user).value in users
  }

  /** The product handlers refuse a missing or empty name and a missing price (a price of 0 is accepted). */
  predicate ProductFieldsGiven(name: Option<string>, price: Option<int>) {
    name.Some? && name.value != "" && price.Some?
  }

  // ---------------------------------------------------------------------------
  // Products

  /** `POST /api/products`: insert the product under a fresh id, then its inventory row at 0. */
  function CreateProduct(s: State, name: Option<string>, price: Option<int>): (r: (Result<int>, State))
    ensures r.0.Err? ==> r.1 == s
    ensures r.0.Ok? <==> ProductFieldsGiven(name, price)
    ensures r.0.Ok? ==> (ProductFieldsGiven(name, price) && r.0.value in r.1.products
                         && r.1.products[r.0.value] == Product(name.value, price.value))
    ensures r.0.Ok? ==> StockOf(r.1, r.0.value) == 0
    ensures HistoryKept(s, r.1)
  {
    if !ProductFieldsGiven(name, price) then (Err(MissingNameOrPrice), s)
    else
      var id := s.nextProductId;
      (Ok(id), s.(products := s.products[id := Product(name.value, price.value)],
                  inventory := s.inventory[id := 0],
                  nextProductId := id + 1))
  }

  /** `PUT /api/products/:id`: overwrite name and price of the row with that id, if there is
      one, and answer with the row as it now reads (`None` when no row has the id). */
  function UpdateProduct(s: State, id: int, name: Option<string>, price: Option<int>): (r: (Result<Option<Product>>, State))
    ensures r.0.Err? || r.0 == Ok(None) ==> r.1 == s
    ensures r.0.Ok? && r.0.value.Some? ==> id in r.1.products && r.0.value.value == r.1.products[id]
    ensures r.1.products.Keys == s.products.Keys
    ensures HistoryKept(s, r.1)
  {
    if !ProductFieldsGiven(name, price) then (Err(MissingNameOrPrice), s)
    else if id !in s.products then (Ok(None), s)
    else
      var p := Product(name.value, price.value);
      (Ok(Some(p)), s.(products := s.products[id := p]))
  }

  /** `DELETE /api/products/:id`: refused for id 0 (`!id`) and for a product that has sales
      or movements; otherwise its inventory row and its product row are deleted (deleting a
      missing row is not an error). */
  function DeleteProduct(s: State, id: int): (r: (Result<()>, State))
    ensures r.0.Err? ==> r.1 == s
    ensures r.0.Ok? ==> !Referenced(s, id) && id !in r.1.products && id !in r.1.inventory
    ensures HistoryKept(s, r.1)
  {
    if id == 0 then (Err(InvalidId), s)
    else if Referenced(s, id) then (Err(ProductInUse), s)
    else (Ok(()), s.(inventory := s.inventory - {id}, products := s.products - {id}))
  }

  // ---------------------------------------------------------------------------
  // Inventory

  /** `POST /api/inventory/move`: stock becomes max(0, current + delta), the inventory row is
      created if absent, and one movement carrying the requested delta and the stored stock
      is appended. An unknown product fails the foreign key of the inventory insert and an
      unknown user that of the movement; both leave the state untouched here (see findings.dfy
      for what the handler as written leaves behind in the second case). */
  function MoveStock(s: State, product: Option<int>, delta: Option<int>, user: Option<int>): (r: (Result<int>, State))
    ensures r.0.Err? ==> r.1 == s
    ensures r.0.Ok? ==> product.Some? && r.0.value >= 0 && StockOf(r.1, product.value) == r.0.value
    ensures r.0.Ok? ==> (LastMovement(r.1.movements, product.value).Some?
                         && LastMovement(r.1.movements, product.value).value.newStock == r.0.value)
    ensures HistoryKept(s, r.1)
  {
    if product.None? || product.value == 0 || delta.None? || delta.value == 0 then (Err(MissingData), s)
    else
      var p, d := product.value, delta.value;
      var newStock := Max(0, StockOf(s, p) + d);
      if p !in s.products || !KnownUser(s.users, user) then (Err(StorageFailure), s)
      else
        (Ok(newStock), s.(inventory := s.inventory[p := newStock],
                          movements := s.movements + [Movement(p, d, newStock, Attribution(user))]))
  }

  // ---------------------------------------------------------------------------
  // Orders

  /** `ensureOrder`: reuse the table's latest open order, or insert a new open order, which
      the foreign keys refuse for an unknown table or user. */
  function EnsureOrder(s: State, t: int, user: Option<int>): (r: (Result<nat>, State))
    ensures r.0.Err? ==> r.1 == s && !Occupied(s, t)
    ensures r.0.Ok? ==> r.0.value < |r.1.orders| && IsOpenFor(r.1.orders[r.0.value], t)
    ensures HistoryKept(s, r.1)
  {
    match LatestOpenOrder(s.orders, t)
    case Some(o) => (Ok(o), s)
    case None =>
      if t !in s.tables || !KnownUser(s.users, user) then (Err(StorageFailure), s)
      else (Ok(|s.orders|), s.(orders := s.orders + [Order(t, Open, Attribution(user), 0)]))
  }

  /** One requested line, applied to order `o`: read the stock (0 without a row), refuse a
      line asking for more than that, otherwise write the decremented stock, append the
      order item priced from the product at this moment and append the movement. A line
      whose writes the foreign keys would refuse (no such product, unknown user) changes
      nothing. */
  function ApplyItem(s: State, o: nat, req: ItemRequest, user: Option<int>): (r: (ItemOutcome, State))
    ensures r.0.ItemFailed? ==> r.1 == s
    ensures r.0.Reserved? ==> r.0.newStock == StockOf(s, req.product) - RequestedQty(req.qty) >= 0
    ensures r.0.Reserved? ==> (req.product in s.products
      && r.1.items == s.items + [OrderItem(o, req.product, RequestedQty(req.qty), s.products[req.product].price)])
    ensures r.1.orders == s.orders
  {
    var p, qty := req.product, RequestedQty(req.qty);
    var current := StockOf(s, p);
    if current < qty then (ItemFailed(InsufficientStock(p)), s)
    else if p !in s.products || !KnownUser(s.users, user) then (ItemFailed(StorageFailure), s)
    else
      var newStock := current - qty;
      (Reserved(newStock),
       s.(inventory := if p in s.inventory then s.inventory[p := newStock] else s.inventory,
          items := s.items + [OrderItem(o, p, qty, s.products[p].price)],
          movements := s.movements + [Movement(p, -qty, newStock, Attribution(user))]))
  }

  /** The `forEach` over the requested lines: every line is applied, in order, whatever
      happened to the lines before it; the result lists the failures in order. */
  function ApplyItems(s: State, o: nat, reqs: seq<ItemRequest>, user: Option<int>): (r: (State, seq<Failure>))
    ensures |r.1| <= |reqs|
    ensures r.0.orders == s.orders
    decreases |reqs|
  {
    if reqs == [] then (s, [])
    else
      var prior := ApplyItems(s, o, reqs[..|reqs| - 1], user);
      var step := ApplyItem(prior.0, o, reqs[|reqs| - 1], user);
      (step.1, if step.0.Reserved? then prior.1 else prior.1 + [step.0.error])
  }

  /** `POST /api/tables/:id/order/items`: a missing or empty list is refused before anything
      is written; otherwise the open order is resolved or created and every line applied.
      The answer is the order when every line went through, else the first failure. */
  function AddItems(s: State, t: int, items: Option<seq<ItemRequest>>, user: Option<int>): (r: (Result<nat>, State))
    ensures items.None? || |items.value| == 0 ==> r == (Err(NoItems), s)
    ensures r.0.Ok? ==> r.0.value < |r.1.orders| && IsOpenFor(r.1.orders[r.0.value], t)
  {
    if items.None? || |items.value| == 0 then (Err(NoItems), s)
    else
      var ensured := EnsureOrder(s, t, user);
      if ensured.0.Err? then ensured
      else
        var o := ensured.0.value;
        var applied := ApplyItems(ensured.1, o, items.value, user);
        (if applied.1 == [] then Ok(o) else Err(applied.1[0]), applied.0)
  }

  /** `POST /api/tables/:id/close`: the table's open order gets status closed and the total
      of its items; the answer is the order and that total. */
  function CloseTable(s: State, t: int): (r: (Result<(nat, int)>, State))
    ensures r.0.Err? <==> !Occupied(s, t)
    ensures r.0.Err? ==> r.1 == s
    ensures r.0.Ok? ==> (r.0.value.0 < |r.1.orders| && r.1.orders[r.0.value.0].status == Closed
                         && r.0.value.1 == r.1.orders[r.0.value.0].total == OrderTotal(s.items, r.0.value.0))
    ensures HistoryKept(s, r.1)
  {
    match LatestOpenOrder(s.orders, t)
    case None => (Err(NoOpenOrder), s)
    case Some(o) =>
      var total := OrderTotal(s.items, o);
      (Ok((o, total)), s.(orders := s.orders[o := s.orders[o].(status := Closed, total := total)]))
  }

  // ---------------------------------------------------------------------------
  // Invariants of every reachable state

  ghost predicate StockNonNegative(s: State) {
    forall p :: p in s.inventory ==> s.inventory[p] >= 0
  }

  /** Every product has its inventory row and every inventory row its product. */
  ghost predicate InventoryMatchesCatalog(s: State) {
    s.inventory.Keys == s.products.Keys
  }

  ghost predicate FreshProductIds(s: State) {
    forall p :: p in s.products ==> p < s.nextProductId
  }

  /** The foreign keys of order_items, inventory_movements and orders. */
  ghost predicate ReferencesExist(s: State) {
    && (forall k :: 0 <= k < |s.items| ==> s.items[k].order < |s.orders| && s.items[k].product in s.products)
    && (forall k :: 0 <= k < |s.movements| ==> s.movements[k].product in s.products)
    && (forall k :: 0 <= k < |s.orders| ==> s.orders[k].table in s.tables)
  }

  ghost predicate AtMostOneOpenOrder(s: State) {
    forall i, j :: 0 <= i < j < |s.orders| && s.orders[i].status == Open && s.orders[j].status == Open
      ==> s.orders[i].table != s.orders[j].table
  }

  /** The audit trail: the latest movement of a product carries its current stock. */
  ghost predicate MovementsMatchStock(s: State) {
    forall p :: LastMovement(s.movements, p).Some? ==> LastMovement(s.movements, p).value.newStock == StockOf(s, p)
  }

  /** A closed order's total is the sum over its items. */
  ghost predicate ClosedTotalsMatchItems(s: State) {
    forall k :: 0 <= k < |s.orders| && s.orders[k].status == Closed ==> s.orders[k].total == OrderTotal(s.items, k)
  }

  ghost predicate Valid(s: State) {
    && StockNonNegative(s)
    && InventoryMatchesCatalog(s)
    && FreshProductIds(s)
    && ReferencesExist(s)
    && AtMostOneOpenOrder(s)
    && MovementsMatchStock(s)
    && ClosedTotalsMatchItems(s)
  }

  /** What no operation may undo: order items and movements are only appended, a product id
      once handed out is never handed out again, and a closed order, with its items, never
      changes again. */
  ghost predicate HistoryKept(s: State, s': State) {
    && s.nextProductId <= s'.nextProductId
    && s.items <= s'.items
    && s.movements <= s'.movements
    && |s.orders| <= |s'.orders|
    && (forall k :: 0 <= k < |s.orders| && s.orders[k].status == Closed ==>
          s'.orders[k] == s.orders[k] && ItemsOf(s'.items, k) == ItemsOf(s.items, k))
  }
}
