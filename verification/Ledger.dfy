/**
  The accounts of the shop: what the orders of the table hold of a product. Order ids
  are positions in the sequence of orders.
 */
module Ledger {
  import opened Base
  import opened StockRows

  /** Pending and completed orders hold their lines; expired and cancelled ones hold nothing. */
  function Held(order: Order, p: int): int {
    if order.status == Pending || order.status == Completed then Demand(order.items, p) else 0
  }

  function Live(orders: seq<Order>, p: int): int {
    if orders == [] then 0
    else Live(orders[..|orders| - 1], p) + Held(orders[|orders| - 1], p)
  }

  /** The quantity conserved for a product: stock on the shelf plus what live orders hold. */
  function Total(table: Table, orders: seq<Order>, p: int): int
    requires p in table
  {
    table[p].stock + Live(orders, p)
  }

  predicate OrderRowOk(table: Table, order: Order) {
    && Positive(order.items)
    && (forall p | p in Named(order.items) :: p in table)
    && (order.pickup.Some? ==>
      order.reservedUntil.Some? && order.createdAt < order.pickup.value <= order.reservedUntil.value)
  }

  predicate OrdersOk(table: Table, orders: seq<Order>) {
    forall o | 0 <= o < |orders| :: OrderRowOk(table, orders[o])
  }

  lemma {:induction false} LiveUpdate(orders: seq<Order>, o: nat, row: Order, p: int)
    requires o < |orders|
    ensures Live(orders[o := row], p) == Live(orders, p) - Held(orders[o], p) + Held(row, p)
  {
    var last := |orders| - 1;
    if o == last {
      assert orders[o := row][..last] == orders[..last];
    } else {
      assert orders[o := row][..last] == orders[..last][o := row];
      LiveUpdate(orders[..last], o, row, p);
    }
  }

  lemma LiveAppend(orders: seq<Order>, row: Order, p: int)
    ensures Live(orders + [row], p) == Live(orders, p) + Held(row, p)
  {
    assert (orders + [row])[..|orders|] == orders;
  }

  /** Creating an order moves stock into the order: the total of every product stays. */
  lemma CreateKeepsTotals(table: Table, orders: seq<Order>, row: Order, p: int)
    requires p in table && row.status == Pending && Positive(row.items) && Covers(table, row.items)
    ensures Total(Charged(table, row.items), orders + [row], p) == Total(table, orders, p)
    ensures table[p].stock >= 0 ==> Charged(table, row.items)[p].stock >= 0
  {
    LiveAppend(orders, row, p);
    DemandBounds(row.items, p);
  }

  /** Releasing a pending order loses exactly the shortfall of its repeated lines. */
  lemma ReleaseLosesShortfall(table: Table, orders: seq<Order>, o: nat, target: OrderStatus, lines: map<int, nat>,
                              p: int)
    requires o < |orders| && orders[o].status == Pending && target in {Expired, Cancelled}
    requires OrdersOk(table, orders) && p in table && Joins(lines, orders[o].items)
    ensures Total(Restored(table, orders[o].items, lines), orders[o := orders[o].(status := target)], p)
            == Total(table, orders, p) - Shortfall(orders[o].items, lines, p)
    ensures table[p].stock >= 0 ==> Restored(table, orders[o].items, lines)[p].stock >= 0
  {
    LiveUpdate(orders, o, orders[o].(status := target), p);
    DemandBounds(orders[o].items, p);
  }

  /** Completing a pending order moves nothing. */
  lemma CompleteKeepsTotals(orders: seq<Order>, o: nat, p: int)
    requires o < |orders| && orders[o].status == Pending
    ensures Live(orders[o := orders[o].(status := Completed)], p) == Live(orders, p)
  {
    LiveUpdate(orders, o, orders[o].(status := Completed), p);
  }

  lemma DistinctHaveNoShortfall(items: seq<Item>, lines: map<int, nat>, p: int)
    requires Positive(items) && DistinctProducts(items) && Joins(lines, items)
    ensures Shortfall(items, lines, p) == 0
  {
    DistinctMeansSingleLines(items);
    assert Lines(items, p) <= 1;
    ShortfallExactlyForRepeatedLines(items, lines, p);
  }
}
