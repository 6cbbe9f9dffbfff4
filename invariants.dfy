/** What the ledger's transitions guarantee: every handler keeps the invariants of
    `Ledger.Valid` and never rewrites history (`Ledger.HistoryKept`), and each one does what
    its response says it did. */
module Invariants {
  import opened Ledger

  // ---------------------------------------------------------------------------
  // Facts about the queries

  lemma LastMovementAppend(ms: seq<Movement>, m: Movement, p: int)
    ensures LastMovement(ms + [m], p) == if m.product == p then Some(m) else LastMovement(ms, p)
  {
    assert (ms + [m])[..|ms|] == ms;
  }

  lemma ItemsOfAppend(items: seq<OrderItem>, x: OrderItem, o: nat)
    ensures ItemsOf(items + [x], o) == ItemsOf(items, o) + (if x.order == o then [x] else [])
  {
    assert (items + [x])[..|items|] == items;
  }

  /** Summing two runs of lines separately and adding gives the sum of the whole. */
  lemma {:induction false} TotalConcat(a: seq<OrderItem>, b: seq<OrderItem>)
    ensures Total(a + b) == Total(a) + Total(b)
  {
    if b == [] {
      assert a + b == a;
    } else {
      var init, last := b[..|b| - 1], b[|b| - 1];
      assert (a + b)[..|a + b| - 1] == a + init;
      assert (a + b)[|a + b| - 1] == last;
      TotalConcat(a, init);
    }
  }

  /** A new line moves only its own order's total, by qty times price. */
  lemma OrderTotalAppend(items: seq<OrderItem>, x: OrderItem, o: nat)
    ensures OrderTotal(items + [x], o) == OrderTotal(items, o) + (if x.order == o then x.qty * x.price else 0)
  {
    ItemsOfAppend(items, x, o);
    TotalConcat(ItemsOf(items, o), if x.order == o then [x] else []);
    assert Total([x]) == Total([]) + x.qty * x.price;
  }

  /** With at most one open order per table, the latest open order is the only one. */
  lemma LatestOpenOrderIsTheOpenOrder(s: State, t: int, k: nat)
    requires AtMostOneOpenOrder(s)
    requires k < |s.orders| && IsOpenFor(s.orders[k], t)
    ensures LatestOpenOrder(s.orders, t) == Some(k)
  {
  }

  lemma HistoryKeptTransitive(s1: State, s2: State, s3: State)
    requires HistoryKept(s1, s2) && HistoryKept(s2, s3)
    ensures HistoryKept(s1, s3)
  {
    forall k | 0 <= k < |s1.orders| && s1.orders[k].status == Closed
      ensures s3.orders[k] == s1.orders[k] && ItemsOf(s3.items, k) == ItemsOf(s1.items, k)
    {
      assert s2.orders[k] == s1.orders[k];
    }
  }

  lemma SeedValid()
    ensures Valid(Seed())
  {
  }

  // ---------------------------------------------------------------------------
  // Products

  lemma CreateProductPreservesValid(s: State, name: Option<string>, price: Option<int>)
    requires Valid(s)
    ensures Valid(CreateProduct(s, name, price).1) && HistoryKept(s, CreateProduct(s, name, price).1)
  {
    var r := CreateProduct(s, name, price);
    if r.0.Ok? {
      var id := s.nextProductId;
      var s' := r.1;
      assert id !in s.products;
      assert LastMovement(s.movements, id).None?;
      forall p | LastMovement(s'.movements, p).Some?
        ensures LastMovement(s'.movements, p).value.newStock == StockOf(s', p)
      {
        assert p != id;
      }
    }
  }

  /** A created product gets a fresh id, the given name and price, and stock 0 with no
      movements; nothing else changes. Missing fields are refused without a change. */
  lemma CreateProductEffect(s: State, name: Option<string>, price: Option<int>)
    requires Valid(s)
    ensures var r := CreateProduct(s, name, price);
      && (r.0.Ok? <==> ProductFieldsGiven(name, price))
      && (r.0.Err? ==> r == (Err(MissingNameOrPrice), s))
      && (r.0.Ok? ==>
            && r.0.value !in s.products
            && r.1.products == s.products[r.0.value := Product(name.value, price.value)]
            && r.0.value in r.1.inventory && StockOf(r.1, r.0.value) == 0
            && LastMovement(r.1.movements, r.0.value).None?
            && (forall q :: q != r.0.value ==> StockOf(r.1, q) == StockOf(s, q))
            && r.1.orders == s.orders && r.1.items == s.items && r.1.movements == s.movements
            && r.1 == s.(products := s.products[r.0.value := Product(name.value, price.value)],
                         inventory := s.inventory[r.0.value := 0],
                         nextProductId := r.0.value + 1))
  {
    var r := CreateProduct(s, name, price);
    if r.0.Ok? {
      assert r.0.value !in s.products;
      assert LastMovement(s.movements, r.0.value).None?;
    }
  }

  lemma UpdateProductPreservesValid(s: State, id: int, name: Option<string>, price: Option<int>)
    requires Valid(s)
    ensures Valid(UpdateProduct(s, id, name, price).1) && HistoryKept(s, UpdateProduct(s, id, name, price).1)
  {
  }

  /** Updating a product rewrites only its catalog row; every recorded sale keeps the price
      it was sold at, and stock, orders and movements are untouched. */
  lemma UpdateProductKeepsSales(s: State, id: int, name: Option<string>, price: Option<int>)
    ensures var r := UpdateProduct(s, id, name, price);
      && (r.0.Err? <==> !ProductFieldsGiven(name, price))
      && (r.0.Err? ==> r == (Err(MissingNameOrPrice), s))
      && (r.0 == Ok(None) <==> ProductFieldsGiven(name, price) && id !in s.products)
      && (r.0.Ok? && r.0.value.Some? ==>
            && id in r.1.products
            && r.0.value.value == r.1.products[id] == Product(name.value, price.value)
            && r.1 == s.(products := s.products[id := Product(name.value, price.value)]))
      && r.1.products.Keys == s.products.Keys
      && r.1.items == s.items && r.1.inventory == s.inventory
      && r.1.orders == s.orders && r.1.movements == s.movements
  {
  }

  lemma DeleteProductPreservesValid(s: State, id: int)
    requires Valid(s)
    ensures Valid(DeleteProduct(s, id).1) && HistoryKept(s, DeleteProduct(s, id).1)
  {
    var r := DeleteProduct(s, id);
    if r.0.Ok? {
      var s' := r.1;
      assert forall k :: 0 <= k < |s.items| ==> s.items[k].product != id;
      assert forall k :: 0 <= k < |s.movements| ==> s.movements[k].product != id;
      forall p | LastMovement(s'.movements, p).Some?
        ensures LastMovement(s'.movements, p).value.newStock == StockOf(s', p)
      {
        assert p != id;
      }
    }
  }

  /** Delete succeeds exactly for a non-zero id that no sale and no movement names, and then
      removes exactly that product and its inventory row; otherwise nothing changes. */
  lemma DeleteProductEffect(s: State, id: int)
    ensures var r := DeleteProduct(s, id);
      && (r.0.Ok? <==> id != 0 && !Referenced(s, id))
      && (id == 0 ==> r == (Err(InvalidId), s))
      && (id != 0 && Referenced(s, id) ==> r == (Err(ProductInUse), s))
      && (r.0.Ok? ==>
            && r.1.products == s.products - {id} && r.1.inventory == s.inventory - {id}
            && r.1.orders == s.orders && r.1.items == s.items && r.1.movements == s.movements)
  {
  }

  // ---------------------------------------------------------------------------
  // Inventory moves

  lemma MoveStockPreservesValid(s: State, product: Option<int>, delta: Option<int>, user: Option<int>)
    requires Valid(s)
    ensures Valid(MoveStock(s, product, delta, user).1) && HistoryKept(s, MoveStock(s, product, delta, user).1)
  {
    var r := MoveStock(s, product, delta, user);
    if r.0.Ok? {
      var s', p := r.1, product.value;
      var m := Movement(p, delta.value, r.0.value, Attribution(user));
      assert s'.movements == s.movements + [m];
      forall q | LastMovement(s'.movements, q).Some?
        ensures LastMovement(s'.movements, q).value.newStock == StockOf(s', q)
      {
        LastMovementAppend(s.movements, m, q);
      }
    }
  }

  /** A move with a product and a non-zero delta stores max(0, stock + delta), which is never
      negative, creates the row if needed, and appends exactly one movement that carries the
      requested delta and the stored stock; no other product's stock changes. When no clamping
      happens the recorded delta is exactly the change in stock. */
  lemma MoveStockEffect(s: State, p: int, d: int, user: Option<int>)
    requires p != 0 && d != 0 && p in s.products && KnownUser(s.users, user)
    ensures var r := MoveStock(s, Some(p), Some(d), user);
      && r.0 == Ok(Max(0, StockOf(s, p) + d))
      && r.0.value >= 0
      && p in r.1.inventory && StockOf(r.1, p) == r.0.value
      && r.1.movements == s.movements + [Movement(p, d, r.0.value, Attribution(user))]
      && LastMovement(r.1.movements, p).value.newStock == StockOf(r.1, p)
      && (StockOf(s, p) + d >= 0 ==> StockOf(r.1, p) - StockOf(s, p) == d)
      && (forall q :: q != p ==> StockOf(r.1, q) == StockOf(s, q))
      && r.1.products == s.products && r.1.orders == s.orders && r.1.items == s.items
  {
    var r := MoveStock(s, Some(p), Some(d), user);
    LastMovementAppend(s.movements, Movement(p, d, r.0.value, Attribution(user)), p);
  }

  /** A move whose stock is clamped at zero records a delta that differs from the change in
      stock, so replaying recorded deltas does not in general reproduce the stock. */
  lemma MoveStockClampsAtZero(s: State, p: int, d: int, user: Option<int>)
    requires Valid(s) && p != 0 && d != 0 && p in s.products && KnownUser(s.users, user)
    requires StockOf(s, p) + d < 0
    ensures var r := MoveStock(s, Some(p), Some(d), user);
      && StockOf(r.1, p) == 0
      && LastMovement(r.1.movements, p).value.delta == d
      && StockOf(r.1, p) - StockOf(s, p) != d
  {
    MoveStockEffect(s, p, d, user);
  }

  /** A move without a product id or without a non-zero delta changes nothing. */
  lemma MoveStockRejectsMissingData(s: State, product: Option<int>, delta: Option<int>, user: Option<int>)
    ensures var r := MoveStock(s, product, delta, user);
      (r.0 == Err(MissingData) <==> product.None? || product.value == 0 || delta.None? || delta.value == 0)
      && (r.0.Err? ==> r.1 == s)
  {
  }

  // ---------------------------------------------------------------------------
  // Adding items

  /** A line asking for more than the current stock (0 without an inventory row) is refused
      and changes nothing. */
  lemma ShortStockChangesNothing(s: State, o: nat, req: ItemRequest, user: Option<int>)
    requires StockOf(s, req.product) < RequestedQty(req.qty)
    ensures ApplyItem(s, o, req, user) == (ItemFailed(InsufficientStock(req.product)), s)
  {
  }

  /** A line is reserved exactly when the stock covers it, the product exists and the user is
      known. A reserved line lowers that product's stock by the quantity, keeps it
      non-negative, leaves every other stock alone, and appends exactly one order item priced
      from the product at that moment and exactly one movement of -qty carrying the new stock. */
  lemma ReserveEffect(s: State, o: nat, req: ItemRequest, user: Option<int>)
    requires Valid(s)
    ensures var p, qty := req.product, RequestedQty(req.qty);
      var r := ApplyItem(s, o, req, user);
      && (r.0.Reserved? <==> qty <= StockOf(s, p) && p in s.products && KnownUser(s.users, user))
      && (r.0.ItemFailed? ==> r.1 == s)
      && (r.0.Reserved? ==>
            && r.0.newStock == StockOf(s, p) - qty
            && StockOf(r.1, p) == r.0.newStock >= 0
            && (forall q :: q != p ==> StockOf(r.1, q) == StockOf(s, q))
            && r.1.items == s.items + [OrderItem(o, p, qty, s.products[p].price)]
            && r.1.movements == s.movements + [Movement(p, -qty, r.0.newStock, Attribution(user))]
            && r.1.products == s.products && r.1.orders == s.orders)
  {
  }

  lemma ApplyItemPreservesValid(s: State, o: nat, req: ItemRequest, user: Option<int>)
    requires Valid(s) && o < |s.orders| && s.orders[o].status == Open
    ensures var s' := ApplyItem(s, o, req, user).1;
      Valid(s') && HistoryKept(s, s') && s'.orders == s.orders
  {
    var r := ApplyItem(s, o, req, user);
    if r.0.Reserved? {
      var s', p, qty := r.1, req.product, RequestedQty(req.qty);
      var m := Movement(p, -qty, r.0.newStock, Attribution(user));
      var x := OrderItem(o, p, qty, s.products[p].price);
      assert p in s.inventory;
      assert s'.movements == s.movements + [m];
      assert s'.items == s.items + [x];
      forall q | LastMovement(s'.movements, q).Some?
        ensures LastMovement(s'.movements, q).value.newStock == StockOf(s', q)
      {
        LastMovementAppend(s.movements, m, q);
      }
      forall k | 0 <= k < |s.orders| && s.orders[k].status == Closed
        ensures ItemsOf(s'.items, k) == ItemsOf(s.items, k)
      {
        ItemsOfAppend(s.items, x, k);
      }
    }
  }

  /** The batch applies every line to the same open order and keeps the invariants. */
  lemma {:induction false} ApplyItemsPreservesValid(s: State, o: nat, reqs: seq<ItemRequest>, user: Option<int>)
    requires Valid(s) && o < |s.orders| && s.orders[o].status == Open
    ensures var s' := ApplyItems(s, o, reqs, user).0;
      Valid(s') && HistoryKept(s, s') && s'.orders == s.orders
    decreases |reqs|
  {
    if reqs != [] {
      var init := reqs[..|reqs| - 1];
      ApplyItemsPreservesValid(s, o, init, user);
      var mid := ApplyItems(s, o, init, user).0;
      ApplyItemPreservesValid(mid, o, reqs[|reqs| - 1], user);
      HistoryKeptTransitive(s, mid, ApplyItems(s, o, reqs, user).0);
    }
  }

  /** Lines are independent: every line not listed as failed added exactly one order item,
      for order o, and exactly one movement; lines that went through before a failure stay. */
  lemma {:induction false} BatchAccounting(s: State, o: nat, reqs: seq<ItemRequest>, user: Option<int>)
    ensures var r := ApplyItems(s, o, reqs, user);
      && |r.1| <= |reqs|
      && s.items <= r.0.items && s.movements <= r.0.movements
      && |r.0.items| == |s.items| + |reqs| - |r.1|
      && |r.0.movements| == |s.movements| + |reqs| - |r.1|
      && (forall k :: |s.items| <= k < |r.0.items| ==> r.0.items[k].order == o)
      && r.0.orders == s.orders && r.0.products == s.products
    decreases |reqs|
  {
    if reqs != [] {
      var init := reqs[..|reqs| - 1];
      BatchAccounting(s, o, init, user);
    }
  }

  lemma EnsureOrderPreservesValid(s: State, t: int, user: Option<int>)
    requires Valid(s)
    ensures var r := EnsureOrder(s, t, user);
      && Valid(r.1) && HistoryKept(s, r.1)
      && (r.0.Ok? ==> r.0.value < |r.1.orders| && IsOpenFor(r.1.orders[r.0.value], t))
  {
    var r := EnsureOrder(s, t, user);
    if LatestOpenOrder(s.orders, t).None? && r.0.Ok? {
      var s' := r.1;
      forall i, j | 0 <= i < j < |s'.orders| && s'.orders[i].status == Open && s'.orders[j].status == Open
        ensures s'.orders[i].table != s'.orders[j].table
      {
        if j == |s.orders| {
          assert !IsOpenFor(s.orders[i], t);
        }
      }
      forall k | 0 <= k < |s'.orders| && s'.orders[k].status == Closed
        ensures s'.orders[k].total == OrderTotal(s'.items, k)
      {
        assert k < |s.orders|;
      }
    }
  }

  /** The table's open order is reused when there is one, and a new open order is added only
      when there is none, so there is never a second open order for a table. A missing or
      empty list of lines is refused before any order is created. */
  lemma AddItemsResolvesOrder(s: State, t: int, items: Option<seq<ItemRequest>>, user: Option<int>)
    requires Valid(s)
    ensures var r := AddItems(s, t, items, user);
      && (items.None? || |items.value| == 0 ==> r == (Err(NoItems), s))
      && (items.Some? && |items.value| > 0 && Occupied(s, t) ==>
            r.1.orders == s.orders && (r.0.Ok? ==> r.0.value == LatestOpenOrder(s.orders, t).value))
      && (items.Some? && |items.value| > 0 && !Occupied(s, t) ==>
            if t in s.tables && KnownUser(s.users, user)
            then r.1.orders == s.orders + [Order(t, Open, Attribution(user), 0)]
                 && (r.0.Ok? ==> r.0.value == |s.orders|)
            else r == (Err(StorageFailure), s))
      && (items.Some? && |items.value| > 0 && (Occupied(s, t) || (t in s.tables && KnownUser(s.users, user))) ==>
            Occupied(r.1, t))
  {
    var r := AddItems(s, t, items, user);
    if items.Some? && |items.value| > 0 {
      var e := EnsureOrder(s, t, user);
      if e.0.Ok? {
        EnsureOrderPreservesValid(s, t, user);
        BatchAccounting(e.1, e.0.value, items.value, user);
        assert IsOpenFor(r.1.orders[e.0.value], t);
      }
    }
  }

  lemma AddItemsPreservesValid(s: State, t: int, items: Option<seq<ItemRequest>>, user: Option<int>)
    requires Valid(s)
    ensures Valid(AddItems(s, t, items, user).1) && HistoryKept(s, AddItems(s, t, items, user).1)
  {
    if items.Some? && |items.value| > 0 {
      var e := EnsureOrder(s, t, user);
      EnsureOrderPreservesValid(s, t, user);
      if e.0.Ok? {
        ApplyItemsPreservesValid(e.1, e.0.value, items.value, user);
        HistoryKeptTransitive(s, e.1, AddItems(s, t, items, user).1);
      }
    }
  }

  // ---------------------------------------------------------------------------
  // Closing a table

  lemma CloseTablePreservesValid(s: State, t: int)
    requires Valid(s)
    ensures Valid(CloseTable(s, t).1) && HistoryKept(s, CloseTable(s, t).1)
  {
    var r := CloseTable(s, t);
    if r.0.Ok? {
      var o := r.0.value.0;
      var s' := r.1;
      forall i, j | 0 <= i < j < |s'.orders| && s'.orders[i].status == Open && s'.orders[j].status == Open
        ensures s'.orders[i].table != s'.orders[j].table
      {
        assert i != o && j != o;
      }
    }
  }

  /** Closing a table with an open order answers with that order and the sum of qty times
      price over exactly its items, marks it closed with that total, changes no stock, item
      or movement, and leaves the table unoccupied, so that a second close is refused. A table
      without an open order is refused with no change. */
  lemma CloseTableEffect(s: State, t: int)
    requires Valid(s)
    ensures var r := CloseTable(s, t);
      && (r.0.Err? <==> !Occupied(s, t))
      && (r.0.Err? ==> r == (Err(NoOpenOrder), s))
      && (r.0.Ok? ==>
            var o := r.0.value.0;
            && o < |s.orders| && IsOpenFor(s.orders[o], t)
            && r.0.value.1 == OrderTotal(s.items, o)
            && r.1 == s.(orders := s.orders[o := s.orders[o].(status := Closed, total := OrderTotal(s.items, o))])
            && !Occupied(r.1, t)
            && CloseTable(r.1, t) == (Err(NoOpenOrder), r.1))
  {
  }

  /** The frozen sale price: a line sold at the product's price keeps that price after the
      product is given a new one. */
  lemma SalePriceFrozen(s: State, o: nat, p: int, qty: Option<int>, user: Option<int>, name: string, price: int)
    requires Valid(s)
    requires ApplyItem(s, o, ItemRequest(p, qty), user).0.Reserved? && name != ""
    ensures var sold := ApplyItem(s, o, ItemRequest(p, qty), user).1;
      var updated := UpdateProduct(sold, p, Some(name), Some(price)).1;
      && updated.products[p].price == price
      && updated.items[|s.items|] == OrderItem(o, p, RequestedQty(qty), s.products[p].price)
  {
    ReserveEffect(s, o, ItemRequest(p, qty), user);
    var sold := ApplyItem(s, o, ItemRequest(p, qty), user).1;
    assert p in sold.products;
    assert sold.items[|s.items|] == OrderItem(o, p, RequestedQty(qty), s.products[p].price);
  }

  /** A closed order's total keeps matching its items whatever happens afterwards. */
  lemma ClosedTotalStaysCorrect(s: State, s': State, k: nat)
    requires Valid(s) && HistoryKept(s, s')
    requires k < |s.orders| && s.orders[k].status == Closed
    ensures s'.orders[k].status == Closed && s'.orders[k].total == OrderTotal(s'.items, k)
  {
  }
}
