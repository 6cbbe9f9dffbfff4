/** Two handlers as the statements are actually issued, each committed on its own, with the
    foreign key on `user_id` that db.js declares for inventory_movements (enforced, since
    db.js switches foreign keys on). A user id that names no user lets the stock write
    through and then makes the movement insert fail, so stock changes with no audit row.
    `Ledger.MoveStock` and `Ledger.ApplyItem` are the corrected versions, which refuse such a
    request before writing anything; they agree with these everywhere else. */
module Findings {
  import opened Ledger

  /** The move handler statement by statement: the inventory insert (refused for an
      unknown product), the stock update, then the movement insert (refused for an unknown
      product or user) after the stock is already stored. */
  function MoveStockAsWritten(s: State, product: Option<int>, delta: Option<int>, user: Option<int>): (r: (Result<int>, State))
    ensures r.0.Ok? ==> r == MoveStock(s, product, delta, user)
    ensures r.0.Err? && r.1 != s ==> r.1.movements == s.movements && r.1.products == s.products
  {
    if product.None? || product.value == 0 || delta.None? || delta.value == 0 then (Err(MissingData), s)
    else
      var p, d := product.value, delta.value;
      var newStock := Max(0, StockOf(s, p) + d);
      if p !in s.inventory && p !in s.products then (Err(StorageFailure), s)
      else
        var stored := s.(inventory := s.inventory[p := newStock]);
        if p !in s.products || !KnownUser(s.users, user) then (Err(StorageFailure), stored)
        else (Ok(newStock), stored.(movements := s.movements + [Movement(p, d, newStock, Attribution(user))]))
  }

  /** One requested line statement by statement: the stock update, the order item insert
      (refused for an unknown product), then the movement insert (refused for an unknown
      user) after stock and order item are already stored. */
  function ApplyItemAsWritten(s: State, o: nat, req: ItemRequest, user: Option<int>): (r: (ItemOutcome, State))
    ensures r.0.Reserved? ==> r == ApplyItem(s, o, req, user)
    ensures r.0.ItemFailed? && r.1 != s ==> r.1.movements == s.movements && r.1.orders == s.orders
  {
    var p, qty := req.product, RequestedQty(req.qty);
    var current := StockOf(s, p);
    if current < qty then (ItemFailed(InsufficientStock(p)), s)
    else
      var newStock := current - qty;
      var stored := s.(inventory := if p in s.inventory then s.inventory[p := newStock] else s.inventory);
      if p !in s.products then (ItemFailed(StorageFailure), stored)
      else
        var sold := stored.(items := s.items + [OrderItem(o, p, qty, s.products[p].price)]);
        if !KnownUser(s.users, user) then (ItemFailed(StorageFailure), sold)
        else (Reserved(newStock), sold.(movements := s.movements + [Movement(p, -qty, newStock, Attribution(user))]))
  }

  /** Where the user is known, the handler as written and the corrected one agree. */
  lemma MoveStockAsWrittenAgreesForKnownUsers(s: State, product: Option<int>, delta: Option<int>, user: Option<int>)
    requires Valid(s) && KnownUser(s.users, user)
    ensures MoveStockAsWritten(s, product, delta, user) == MoveStock(s, product, delta, user)
  {
    if product.Some? && product.value != 0 && delta.Some? && delta.value != 0 {
      var p := product.value;
      assert p in s.inventory <==> p in s.products;
    }
  }

  lemma ApplyItemAsWrittenAgreesForKnownUsers(s: State, o: nat, req: ItemRequest, user: Option<int>)
    requires Valid(s) && KnownUser(s.users, user)
    ensures ApplyItemAsWritten(s, o, req, user) == ApplyItem(s, o, req, user)
  {
    var p := req.product;
    if StockOf(s, p) >= RequestedQty(req.qty) && p !in s.products {
      assert p !in s.inventory;
    }
  }

  /** A move for an existing product with a user id that names no user stores the new
      stock, answers with a server error and records no movement; when the product already
      had a movement, the audit trail no longer matches the stock. */
  lemma MoveStockAsWrittenSkipsMovement(s: State, p: int, d: int, u: int)
    requires Valid(s) && p != 0 && d != 0 && p in s.products && u != 0 && u !in s.users
    requires Max(0, StockOf(s, p) + d) != StockOf(s, p)
    ensures var r := MoveStockAsWritten(s, Some(p), Some(d), Some(u));
      && r.0 == Err(StorageFailure)
      && StockOf(r.1, p) != StockOf(s, p)
      && r.1.movements == s.movements
      && (LastMovement(s.movements, p).Some? ==> !MovementsMatchStock(r.1))
  {
    var r := MoveStockAsWritten(s, Some(p), Some(d), Some(u));
    if LastMovement(s.movements, p).Some? {
      assert LastMovement(r.1.movements, p).value.newStock == StockOf(s, p);
    }
  }

  /** The same on the seeded database: one movement of +5 for product 1 by user 99. */
  lemma MoveStockAsWrittenOnSeed()
    ensures var r := MoveStockAsWritten(Seed(), Some(1), Some(5), Some(99));
      r.0 == Err(StorageFailure) && StockOf(r.1, 1) == 25 && r.1.movements == []
  {
  }

  /** A line for an order that is already open, sent with a user id that names no user,
      lowers the stock and adds the order item but records no movement. */
  lemma ApplyItemAsWrittenSkipsMovement(s: State, o: nat, req: ItemRequest, u: int)
    requires Valid(s) && req.product in s.products && u != 0 && u !in s.users
    requires 0 < RequestedQty(req.qty) <= StockOf(s, req.product)
    ensures var r := ApplyItemAsWritten(s, o, req, Some(u));
      && r.0 == ItemFailed(StorageFailure)
      && StockOf(r.1, req.product) < StockOf(s, req.product)
      && |r.1.items| == |s.items| + 1
      && r.1.movements == s.movements
      && (LastMovement(s.movements, req.product).Some? ==> !MovementsMatchStock(r.1))
  {
    var r := ApplyItemAsWritten(s, o, req, Some(u));
    var p := req.product;
    assert p in s.inventory;
    if LastMovement(s.movements, p).Some? {
      assert LastMovement(r.1.movements, p).value.newStock == StockOf(s, p);
    }
  }

  /** The corrected line refuses the same request without touching anything. */
  lemma ApplyItemRefusesUnknownUser(s: State, o: nat, req: ItemRequest, u: int)
    requires req.product in s.products && u != 0 && u !in s.users
    requires RequestedQty(req.qty) <= StockOf(s, req.product)
    ensures ApplyItem(s, o, req, Some(u)) == (ItemFailed(StorageFailure), s)
  {
  }

  /** The corrected move refuses the same request without touching anything. */
  lemma MoveStockRefusesUnknownUser(s: State, p: int, d: int, u: int)
    requires p != 0 && d != 0 && u != 0 && u !in s.users
    ensures MoveStock(s, Some(p), Some(d), Some(u)) == (Err(StorageFailure), s)
  {
  }
}
