/** The shared database that the handlers of server.js update in place, as one object
    whose fields are the relations. Each method performs its handler's reads and writes one
    statement at a time and is proved to end in the state, and give the answer, of the
    matching transition function of `Ledger`; the invariant `Valid()` is kept by all of them.
    The one exception to the handlers' statement order: for a user id that names no user,
    `MoveStock` and `ReserveLine` refuse before any write, as the corrected `Ledger`
    functions do, where the handlers write the stock (and the item) first. */
module BarStore {
  import opened Ledger
  import Invariants

  class Store {
    var products: map<int, Product>
    var inventory: map<int, int>
    var orders: seq<Order>
    var items: seq<OrderItem>
    var movements: seq<Movement>
    var tables: set<int>
    var users: set<int>
    var nextProductId: int

    /** The relations as one value. */
    function Snapshot(): State
      reads this
    {
      State(products, inventory, orders, items, movements, tables, users, nextProductId)
    }

    ghost predicate Valid()
      reads this
    {
      Ledger.Valid(Snapshot())
    }

    /** The database as `init()` of db.js leaves a fresh file. */
    constructor ()
      ensures Snapshot() == Seed() && Valid()
    {
      var s := Seed();
      products, inventory := s.products, s.inventory;
      orders, items, movements := s.orders, s.items, s.movements;
      tables, users, nextProductId := s.tables, s.users, s.nextProductId;
      Invariants.SeedValid();
    }

    /** `POST /api/products`. */
    method CreateProduct(name: Option<string>, price: Option<int>) returns (r: Result<int>)
      requires Valid()
      modifies this
      ensures Valid()
      ensures (r, Snapshot()) == Ledger.CreateProduct(old(Snapshot()), name, price)
    {
      ghost var s0 := Snapshot();
      if !ProductFieldsGiven(name, price) {
        return Err(MissingNameOrPrice);
      }
      var id := nextProductId;
      products := products[id := Product(name.value, price.value)];
      nextProductId := id + 1;
      inventory := inventory[id := 0];
      r := Ok(id);
      Invariants.CreateProductPreservesValid(s0, name, price);
    }

    /** `PUT /api/products/:id`: the update, then the re-read of the row. */
    method UpdateProduct(id: int, name: Option<string>, price: Option<int>) returns (r: Result<Option<Product>>)
      requires Valid()
      modifies this
      ensures Valid()
      ensures (r, Snapshot()) == Ledger.UpdateProduct(old(Snapshot()), id, name, price)
    {
      ghost var s0 := Snapshot();
      if !ProductFieldsGiven(name, price) {
        return Err(MissingNameOrPrice);
      }
      if id in products {
        products := products[id := Product(name.value, price.value)];
      }
      r := Ok(if id in products then Some(products[id]) else None);
      Invariants.UpdateProductPreservesValid(s0, id, name, price);
    }

    /** `DELETE /api/products/:id`: the two reference checks, then the inventory row and the product row. */
    method DeleteProduct(id: int) returns (r: Result<()>)
      requires Valid()
      modifies this
      ensures Valid()
      ensures (r, Snapshot()) == Ledger.DeleteProduct(old(Snapshot()), id)
    {
      ghost var s0 := Snapshot();
      if id == 0 {
        return Err(InvalidId);
      }
      if Referenced(Snapshot(), id) {
        return Err(ProductInUse);
      }
      inventory := inventory - {id};
      products := products - {id};
      r := Ok(());
      Invariants.DeleteProductPreservesValid(s0, id);
    }

    /** `POST /api/inventory/move`: read the stock, create the row if absent, store the
        clamped stock, record the movement. */
    method MoveStock(product: Option<int>, delta: Option<int>, user: Option<int>) returns (r: Result<int>)
      requires Valid()
      modifies this
      ensures Valid()
      ensures (r, Snapshot()) == Ledger.MoveStock(old(Snapshot()), product, delta, user)
    {
      ghost var s0 := Snapshot();
      if product.None? || product.value == 0 || delta.None? || delta.value == 0 {
        return Err(MissingData);
      }
      var p, d := product.value, delta.value;
      var current := if p in inventory then inventory[p] else 0;
      var newStock := Max(0, current + d);
      if p !in products || !KnownUser(users, user) {
        return Err(StorageFailure);
      }
      // INSERT OR IGNORE of the stock just read: a row that exists already holds `current`.
      ghost var rows := inventory;
      inventory := inventory[p := current];
      inventory := inventory[p := newStock];
      assert inventory == rows[p := newStock];
      movements := movements + [Movement(p, d, newStock, Attribution(user))];
      r := Ok(newStock);
      Invariants.MoveStockPreservesValid(s0, product, delta, user);
    }

    /** The `ensureOrder` step: reuse the table's latest open order or insert a new one. */
    method EnsureOrder(t: int, user: Option<int>) returns (r: Result<nat>)
      requires Valid()
      modifies this
      ensures Valid()
      ensures (r, Snapshot()) == Ledger.EnsureOrder(old(Snapshot()), t, user)
    {
      ghost var s0 := Snapshot();
      var found := LatestOpenOrder(orders, t);
      if found.Some? {
        return Ok(found.value);
      }
      if t !in tables || !KnownUser(users, user) {
        return Err(StorageFailure);
      }
      r := Ok(|orders|);
      orders := orders + [Order(t, Open, Attribution(user), 0)];
      Invariants.EnsureOrderPreservesValid(s0, t, user);
    }

    /** One requested line: read the stock, refuse a short line, otherwise write the new
        stock, the order item at the product's current price and the movement. */
    method ReserveLine(o: nat, req: ItemRequest, user: Option<int>) returns (out: ItemOutcome)
      requires Valid() && o < |orders| && orders[o].status == Open
      modifies this
      ensures Valid()
      ensures (out, Snapshot()) == ApplyItem(old(Snapshot()), o, req, user)
    {
      ghost var s0 := Snapshot();
      var p, qty := req.product, RequestedQty(req.qty);
      var current := if p in inventory then inventory[p] else 0;
      if current < qty {
        return ItemFailed(InsufficientStock(p));
      }
      if p !in products || !KnownUser(users, user) {
        return ItemFailed(StorageFailure);
      }
      var newStock := current - qty;
      if p in inventory {
        inventory := inventory[p := newStock];
      }
      items := items + [OrderItem(o, p, qty, products[p].price)];
      movements := movements + [Movement(p, -qty, newStock, Attribution(user))];
      out := Reserved(newStock);
      assert (out, Snapshot()) == ApplyItem(s0, o, req, user);
      Invariants.ApplyItemPreservesValid(s0, o, req, user);
    }

    /** The `forEach` over the requested lines of open order `o`: each line on its own,
        counting down `remaining` from the number of lines for each line that went through,
        and keeping the first failure. */
    method ReserveLines(o: nat, reqs: seq<ItemRequest>, user: Option<int>) returns (remaining: nat, firstFailure: Option<Failure>)
      requires Valid() && o < |orders| && orders[o].status == Open
      modifies this
      ensures Valid()
      ensures Snapshot() == ApplyItems(old(Snapshot()), o, reqs, user).0
      ensures var failures := ApplyItems(old(Snapshot()), o, reqs, user).1;
        remaining == |failures| && firstFailure == if failures == [] then None else Some(failures[0])
    {
      ghost var s1 := Snapshot();
      remaining, firstFailure := |reqs|, None;
      ghost var failures: seq<Failure> := [];
      var i := 0;
      while i < |reqs|
        invariant 0 <= i <= |reqs|
        invariant Valid() && o < |orders| && orders[o].status == Open
        invariant (Snapshot(), failures) == ApplyItems(s1, o, reqs[..i], user)
        invariant remaining == |reqs| - i + |failures|
        invariant firstFailure == if failures == [] then None else Some(failures[0])
      {
        assert reqs[..i + 1][..i] == reqs[..i];
        var out := ReserveLine(o, reqs[i], user);
        if out.Reserved? {
          remaining := remaining - 1;
        } else {
          failures := failures + [out.error];
          if firstFailure.None? {
            firstFailure := Some(out.error);
          }
        }
        i := i + 1;
      }
      assert reqs[..i] == reqs;
    }

    /** `POST /api/tables/:id/order/items`: resolve or create the open order, then handle
        every requested line; the batch succeeds when `remaining` reaches zero, and
        otherwise answers with the first failure. */
    method AddItems(t: int, lines: Option<seq<ItemRequest>>, user: Option<int>) returns (r: Result<nat>)
      requires Valid()
      modifies this
      ensures Valid()
      ensures (r, Snapshot()) == Ledger.AddItems(old(Snapshot()), t, lines, user)
    {
      if lines.None? || |lines.value| == 0 {
        return Err(NoItems);
      }
      var ensured := EnsureOrder(t, user);
      if ensured.Err? {
        return ensured;
      }
      var o := ensured.value;
      var remaining, firstFailure := ReserveLines(o, lines.value, user);
      r := if remaining == 0 then Ok(o) else Err(firstFailure.value);
    }

    /** `POST /api/tables/:id/close`: find the open order, sum its items, close it with that total. */
    method CloseTable(t: int) returns (r: Result<(nat, int)>)
      requires Valid()
      modifies this
      ensures Valid()
      ensures (r, Snapshot()) == Ledger.CloseTable(old(Snapshot()), t)
    {
      ghost var s0 := Snapshot();
      var found := LatestOpenOrder(orders, t);
      if found.None? {
        return Err(NoOpenOrder);
      }
      var o := found.value;
      var total := OrderTotal(items, o);
      orders := orders[o := orders[o].(status := Closed, total := total)];
      r := Ok((o, total));
      Invariants.CloseTablePreservesValid(s0, t);
    }
  }
}
