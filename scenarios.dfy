/** Worked runs of the handlers on the seeded database (product 1 costs 45, product 2
    costs 80, every product starts with 20 units). */
module Scenarios {
  import opened Ledger

  /** Five units of product 1 on table 1: stock 15, one movement of -5 carrying 15, one
      order item of five at 45, on a newly opened order. */
  lemma SellFive()
    ensures AddItems(Seed(), 1, Some([ItemRequest(1, Some(5))]), None)
         == (Ok(0), Seed().(inventory := Seed().inventory[1 := 15],
                           orders := [Order(1, Open, None, 0)],
                           items := [OrderItem(0, 1, 5, 45)],
                           movements := [Movement(1, -5, 15, None)]))
    ensures Occupied(AddItems(Seed(), 1, Some([ItemRequest(1, Some(5))]), None).1, 1)
  {
    var s0 := Seed();
    var s1 := s0.(orders := [Order(1, Open, None, 0)]);
    assert s0.orders + [Order(1, Open, None, 0)] == s1.orders;
    assert EnsureOrder(s0, 1, None) == (Ok(0), s1);
    var reqs := [ItemRequest(1, Some(5))];
    assert reqs[..0] == [];
    var s2 := s1.(inventory := s1.inventory[1 := 15], items := [OrderItem(0, 1, 5, 45)],
                  movements := [Movement(1, -5, 15, None)]);
    assert s1.items + [OrderItem(0, 1, 5, 45)] == s2.items;
    assert s1.movements + [Movement(1, -5, 15, None)] == s2.movements;
    assert ApplyItems(s1, 0, reqs, None) == (s2, []);
  }

  /** A line of thirty units of product 1 on table 1, whose open order is the only order
      and where 15 units are left, is refused for product 1 and changes nothing. */
  lemma ThirtyOnFifteen(s: State)
    requires s.orders == [Order(1, Open, None, 0)] && StockOf(s, 1) == 15
    ensures AddItems(s, 1, Some([ItemRequest(1, Some(30))]), None) == (Err(InsufficientStock(1)), s)
  {
    assert LatestOpenOrder(s.orders, 1) == Some(0);
    var reqs := [ItemRequest(1, Some(30))];
    assert reqs[..0] == [];
    assert ApplyItem(s, 0, reqs[0], None) == (ItemFailed(InsufficientStock(1)), s);
    assert [] + [InsufficientStock(1)] == [InsufficientStock(1)];
    assert ApplyItems(s, 0, reqs, None) == (s, [InsufficientStock(1)]);
  }

  /** Then thirty more units: refused for product 1, and nothing changes. */
  lemma SellMoreThanInStock()
    ensures var first := AddItems(Seed(), 1, Some([ItemRequest(1, Some(5))]), None).1;
      var r := AddItems(first, 1, Some([ItemRequest(1, Some(30))]), None);
      r == (Err(InsufficientStock(1)), first)
  {
    SellFive();
    ThirtyOnFifteen(AddItems(Seed(), 1, Some([ItemRequest(1, Some(5))]), None).1);
  }

  /** Three units of product 1 and a thousand of product 2 on table 2: the first line stays
      committed, the answer names product 2, and the order holds exactly one line. */
  lemma PartialBatch()
    ensures var r := AddItems(Seed(), 2, Some([ItemRequest(1, Some(3)), ItemRequest(2, Some(1000))]), None);
      && r.0 == Err(InsufficientStock(2))
      && ItemsOf(r.1.items, 0) == [OrderItem(0, 1, 3, 45)]
      && StockOf(r.1, 1) == 17 && StockOf(r.1, 2) == 20
      && |r.1.movements| == 1
  {
    var reqs := [ItemRequest(1, Some(3)), ItemRequest(2, Some(1000))];
    var s0 := Seed();
    var s1 := s0.(orders := [Order(2, Open, None, 0)]);
    assert s0.orders + [Order(2, Open, None, 0)] == s1.orders;
    assert EnsureOrder(s0, 2, None) == (Ok(0), s1);
    var s2 := s1.(inventory := s1.inventory[1 := 17], items := [OrderItem(0, 1, 3, 45)],
                  movements := [Movement(1, -3, 17, None)]);
    assert reqs[..1] == [ItemRequest(1, Some(3))] && reqs[..1][..0] == [];
    assert s1.items + [OrderItem(0, 1, 3, 45)] == s2.items;
    assert s1.movements + [Movement(1, -3, 17, None)] == s2.movements;
    assert ApplyItems(s1, 0, reqs[..1], None) == (s2, []);
    assert ApplyItem(s2, 0, reqs[1], None) == (ItemFailed(InsufficientStock(2)), s2);
    assert [] + [InsufficientStock(2)] == [InsufficientStock(2)];
    assert ApplyItems(s1, 0, reqs, None) == (s2, [InsufficientStock(2)]);
    assert [OrderItem(0, 1, 3, 45)][..0] == [];
  }

  /** The two lines for `CloseAfterTwoLines`: five of product 1 and two of product 2 on
      table 1 go through, on a newly opened order. */
  lemma ServeTwoLines()
    ensures AddItems(Seed(), 1, Some([ItemRequest(1, Some(5)), ItemRequest(2, Some(2))]), None)
         == (Ok(0), Seed().(inventory := Seed().inventory[1 := 15][2 := 18],
                           orders := [Order(1, Open, None, 0)],
                           items := [OrderItem(0, 1, 5, 45), OrderItem(0, 2, 2, 80)],
                           movements := [Movement(1, -5, 15, None), Movement(2, -2, 18, None)]))
  {
    var reqs := [ItemRequest(1, Some(5)), ItemRequest(2, Some(2))];
    var s0 := Seed();
    var s1 := s0.(orders := [Order(1, Open, None, 0)]);
    assert s0.orders + [Order(1, Open, None, 0)] == s1.orders;
    assert EnsureOrder(s0, 1, None) == (Ok(0), s1);
    var s2 := s1.(inventory := s1.inventory[1 := 15], items := [OrderItem(0, 1, 5, 45)],
                  movements := [Movement(1, -5, 15, None)]);
    var s3 := s2.(inventory := s2.inventory[2 := 18], items := [OrderItem(0, 1, 5, 45), OrderItem(0, 2, 2, 80)],
                  movements := [Movement(1, -5, 15, None), Movement(2, -2, 18, None)]);
    assert reqs[..1] == [ItemRequest(1, Some(5))] && reqs[..1][..0] == [];
    assert s1.items + [OrderItem(0, 1, 5, 45)] == s2.items;
    assert s1.movements + [Movement(1, -5, 15, None)] == s2.movements;
    assert ApplyItems(s1, 0, reqs[..1], None) == (s2, []);
    assert s2.items + [OrderItem(0, 2, 2, 80)] == s3.items;
    assert s2.movements + [Movement(2, -2, 18, None)] == s3.movements;
    assert ApplyItems(s1, 0, reqs, None) == (s3, []);
  }

  /** Five at 45 and two at 80 on order 0 come to 385. */
  lemma TwoLineTotal(items: seq<OrderItem>)
    requires items == [OrderItem(0, 1, 5, 45), OrderItem(0, 2, 2, 80)]
    ensures OrderTotal(items, 0) == 385
  {
    assert items[..1] == [OrderItem(0, 1, 5, 45)] && items[..1][..0] == [];
    assert ItemsOf(items, 0) == items;
    assert Total(items[..1]) == 225;
  }

  /** Closing table 1 whose only order is open and holds five at 45 and two at 80: the
      total is 385, the order is closed and the table is free; closing again is refused.
      Only the orders and the items matter, whatever the rest of the database holds. */
  lemma CloseTwoLineOrder(s: State)
    requires s.orders == [Order(1, Open, None, 0)]
    requires s.items == [OrderItem(0, 1, 5, 45), OrderItem(0, 2, 2, 80)]
    ensures CloseTable(s, 1) == (Ok((0, 385)), s.(orders := [Order(1, Closed, None, 385)]))
    ensures var closed := s.(orders := [Order(1, Closed, None, 385)]);
      !Occupied(closed, 1) && CloseTable(closed, 1) == (Err(NoOpenOrder), closed)
  {
    var closed := s.(orders := [Order(1, Closed, None, 385)]);
    TwoLineTotal(s.items);
    assert CloseTable(s, 1) == (Ok((0, 385)), closed) by {
      assert LatestOpenOrder(s.orders, 1) == Some(0);
      assert s.orders[0 := s.orders[0].(status := Closed, total := 385)] == closed.orders;
    }
    assert CloseTable(closed, 1) == (Err(NoOpenOrder), closed) && !Occupied(closed, 1) by {
      assert LatestOpenOrder(closed.orders, 1).None?;
    }
  }

  /** Five at 45 and two at 80, then close: the total is 385, the order is closed and the
      table is free; closing again is refused. */
  lemma CloseAfterTwoLines()
    ensures var served := AddItems(Seed(), 1, Some([ItemRequest(1, Some(5)), ItemRequest(2, Some(2))]), None).1;
      var r := CloseTable(served, 1);
      && r.0 == Ok((0, 385))
      && r.1.orders == [Order(1, Closed, None, 385)]
      && !Occupied(r.1, 1)
      && CloseTable(r.1, 1) == (Err(NoOpenOrder), r.1)
  {
    ServeTwoLines();
    CloseTwoLineOrder(AddItems(Seed(), 1, Some([ItemRequest(1, Some(5)), ItemRequest(2, Some(2))]), None).1);
  }

  /** Closing a table that has no open order is refused. */
  lemma CloseUnoccupiedTable()
    ensures CloseTable(Seed(), 3) == (Err(NoOpenOrder), Seed())
  {
  }
}
