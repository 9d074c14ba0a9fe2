/**
  The order transactions of internal/db/orders.go run one at a time, on the tables they
  change. The database may refuse any of their statements; a transaction that does not
  commit leaves every table as it was.
 */
module OrderStores {
  import opened Base
  import opened StockRows
  import opened Ledger

  datatype CreateResult =
    | Created(id: nat, updated: seq<(int, Product)>)
    | InsufficientStock(product: int)
    | CreateFailed

  datatype CancelResult =
    | Released(remote: Option<int>, restored: map<int, Product>)
    | AlreadyHandled
    | Forbidden
    | InvalidTarget
    | CancelFailed

  datatype CompleteResult = CompletedNow | AlreadySettled | CompleteFailed

  /** Where a release breaks off: at the begin or the lock statement, or at a later statement or the commit. */
  datatype Fault = NoFault | OnLock | AfterLock

  lemma {:induction false} TakeAllAppend(table: Table, items: seq<Item>, item: Item)
    ensures TakeAll(table, items + [item]) ==
            match TakeAll(table, items)
            case None => None
            case Some(t) => if CanTake(t, item) then Some(Take(t, item)) else None
  {
    if items == [] {
      assert [item][1..] == [];
      assert items + [item] == [item];
      if CanTake(table, item) {
        assert TakeAll(Take(table, item), []) == Some(Take(table, item));
      }
    } else {
      assert (items + [item])[1..] == items[1..] + [item];
      if CanTake(table, items[0]) {
        TakeAllAppend(Take(table, items[0]), items[1..], item);
      }
    }
  }

  lemma {:induction false} FailedPrefixFailsAll(table: Table, items: seq<Item>, i: nat)
    requires i <= |items| && TakeAll(table, items[..i]) == None
    ensures TakeAll(table, items) == None
    decreases |items| - i
  {
    if i < |items| {
      assert items[..i + 1] == items[..i] + [items[i]];
      TakeAllAppend(table, items[..i], items[i]);
      FailedPrefixFailsAll(table, items, i + 1);
    } else {
      assert items[..i] == items;
    }
  }

  /** The row of line `i` as that line's decrement left it. */
  predicate RowAfterLine(table: Table, items: seq<Item>, i: nat, row: (int, Product))
    requires i < |items|
  {
    var after := TakeAll(table, items[..i + 1]);
    && after.Some?
    && items[i].product in after.value
    && row == (items[i].product, after.value[items[i].product])
  }

  /** The rows handed to the stock cache, one for each line. */
  predicate RowsAfterLines(table: Table, items: seq<Item>, updated: seq<(int, Product)>)
    requires |updated| <= |items|
  {
    forall i | 0 <= i < |updated| :: RowAfterLine(table, items, i, updated[i])
  }

  lemma StockAfterPrefix(table: Table, items: seq<Item>, n: nat, p: int)
    requires Positive(items) && n <= |items| && TakeAll(table, items[..n]).Some?
    requires p in Named(items[..n])
    ensures p in table && p in TakeAll(table, items[..n]).value
    ensures TakeAll(table, items[..n]).value[p].stock == table[p].stock - Demand(items[..n], p)
  {
    SequentialEqualsAggregate(table, items[..n]);
  }

  /**
    A row handed to the cache shows the committed stock exactly when no later line takes
    from the same product; a repeated product leaves a value no committed row ever held.
   */
  lemma HandedRowIsCommittedIffLast(table: Table, items: seq<Item>, i: nat, row: (int, Product))
    requires Positive(items) && i < |items| && TakeAll(table, items).Some?
    requires RowAfterLine(table, items, i, row)
    ensures row.0 in TakeAll(table, items).value
    ensures row.1.stock == TakeAll(table, items).value[row.0].stock <==> row.0 !in Named(items[i + 1..])
  {
    var p, front, rest := items[i].product, items[..i + 1], items[i + 1..];
    assert items == front + rest && items[..|items|] == items;
    assert front[i].product == p && items[i].product == p;
    assert p in Named(front) && p in Named(items);
    StockAfterPrefix(table, items, i + 1, p);
    StockAfterPrefix(table, items, |items|, p);
    DemandConcat(front, rest, p);
    DemandBounds(rest, p);
  }

  /**
    All the rows an order hands to the cache show the committed stocks exactly when its lines
    name distinct products.
   */
  lemma HandedRowsAreCommittedIffDistinct(table: Table, items: seq<Item>, updated: seq<(int, Product)>)
    requires Positive(items) && TakeAll(table, items).Some?
    requires |updated| == |items| && RowsAfterLines(table, items, updated)
    ensures HandedRowsAreCommitted(TakeAll(table, items).value, updated) <==> DistinctProducts(items)
  {
    var committed := TakeAll(table, items).value;
    forall i | 0 <= i < |items|
      ensures updated[i].0 == items[i].product
      ensures HandedRowIsCommitted(committed, updated[i]) <==> items[i].product !in Named(items[i + 1..])
    {
      assert RowAfterLine(table, items, i, updated[i]);
      HandedRowIsCommittedIffLast(table, items, i, updated[i]);
    }
    DistinctIffNoneNamedLater(items);
  }

  predicate HandedRowIsCommitted(committed: Table, row: (int, Product)) {
    row.0 in committed && row.1.stock == committed[row.0].stock
  }

  predicate HandedRowsAreCommitted(committed: Table, updated: seq<(int, Product)>) {
    forall i | 0 <= i < |updated| :: HandedRowIsCommitted(committed, updated[i])
  }

  lemma DistinctIffNoneNamedLater(items: seq<Item>)
    ensures DistinctProducts(items) <==> forall i | 0 <= i < |items| :: items[i].product !in Named(items[i + 1..])
  {
    forall i, j | 0 <= i < j < |items| && items[i].product == items[j].product
      ensures items[i].product in Named(items[i + 1..])
    {
      assert items[i + 1..][j - i - 1] == items[j];
    }
  }

  /** Two lines of one product: the first row handed over is not what the commit leaves. */
  lemma RepeatedLineHandsOverUncommittedStock()
    ensures
      var table: Table := map[7 := Product(5, true, Active)];
      var items := [Item(7, 1), Item(7, 2)];
      && TakeAll(table, items) == Some(map[7 := Product(2, true, Active)])
      && TakeAll(table, items[..1]) == Some(map[7 := Product(4, true, Active)])
  {
    var table: Table := map[7 := Product(5, true, Active)];
    var items := [Item(7, 1), Item(7, 2)];
    var one: Table := map[7 := Product(4, true, Active)];
    var both: Table := map[7 := Product(2, true, Active)];
    assert items[..1] == [] + [Item(7, 1)] && items == items[..1] + [Item(7, 2)];
    TakeAllAppend(table, [], Item(7, 1));
    TakeAllAppend(table, items[..1], Item(7, 2));
    assert Take(table, Item(7, 1)) == one && Take(one, Item(7, 2)) == both;
  }

  predicate Due(order: Order, now: int) {
    order.status == Pending && order.reservedUntil.Some? && order.reservedUntil.value < now
  }

  /** The overdue batch: at most `limit` overdue orders, earliest deadlines first, none passed over. */
  predicate OverdueBatch(orders: seq<Order>, now: int, limit: nat, ids: seq<nat>) {
    && |ids| <= limit
    && (forall i | 0 <= i < |ids| :: ids[i] < |orders| && Due(orders[ids[i]], now))
    && (forall i, j | 0 <= i < j < |ids| :: ids[i] != ids[j] && Until(orders, ids[i]) <= Until(orders, ids[j]))
    && (forall o: nat | o < |orders| && Due(orders[o], now) && o !in ids ::
          |ids| == limit && forall i | 0 <= i < |ids| :: Until(orders, ids[i]) <= Until(orders, o))
  }

  function Until(orders: seq<Order>, o: nat): int {
    if o < |orders| && orders[o].reservedUntil.Some? then orders[o].reservedUntil.value else 0
  }

  lemma {:induction false} EarliestExists(orders: seq<Order>, due: set<nat>) returns (first: nat)
    requires due != {}
    ensures first in due
    ensures forall o | o in due :: Until(orders, first) <= Until(orders, o)
    decreases |due|
  {
    var o :| o in due;
    if due == {o} {
      first := o;
    } else {
      var rest := due - {o};
      assert o in due && o !in rest && |rest| < |due|;
      first := EarliestExists(orders, rest);
      if Until(orders, o) < Until(orders, first) {
        first := o;
      }
    }
  }

  /** A batch under construction: `ids` are chosen, `due` is what is left to choose from. */
  ghost predicate Choosing(orders: seq<Order>, now: int, due: set<nat>, ids: seq<nat>) {
    && (forall i | 0 <= i < |ids| :: ids[i] < |orders| && Due(orders[ids[i]], now) && ids[i] !in due)
    && (forall i, j | 0 <= i < j < |ids| :: ids[i] != ids[j] && Until(orders, ids[i]) <= Until(orders, ids[j]))
    && (forall i, o | 0 <= i < |ids| && o in due :: Until(orders, ids[i]) <= Until(orders, o))
    && (forall o: nat | o < |orders| && Due(orders[o], now) :: o in due || o in ids)
  }

  lemma ChooseEarliest(orders: seq<Order>, now: int, due: set<nat>, ids: seq<nat>, first: nat)
    requires Choosing(orders, now, due, ids)
    requires first in due && first < |orders| && Due(orders[first], now)
    requires forall o | o in due :: Until(orders, first) <= Until(orders, o)
    ensures Choosing(orders, now, due - {first}, ids + [first])
  {
  }

  method TakeEarliest(orders: seq<Order>, due: set<nat>) returns (first: nat)
    requires due != {}
    ensures first in due
    ensures forall o | o in due :: Until(orders, first) <= Until(orders, o)
  {
    ghost var _ := EarliestExists(orders, due);
    first :| first in due && forall o | o in due :: Until(orders, first) <= Until(orders, o);
  }

  /** The restore statement: one pass over the product rows that some line of the order joins. */
  method RestoreStock(table: Table, items: seq<Item>)
    returns (work: Table, restored: map<int, Product>, lines: map<int, nat>)
    ensures Joins(lines, items)
    ensures work == Restored(table, items, lines)
    ensures restored == map p | p in work && p in lines :: work[p]
  {
    var todo := Named(items);
    work, lines := table, map[];
    assert work == Restored(table, items, lines);
    while todo != {}
      invariant todo <= Named(items) && lines.Keys == Named(items) - todo
      invariant JoinsSome(lines, items) && work == Restored(table, items, lines)
      decreases |todo|
    {
      var p :| p in todo;
      var l: nat :| l < |items| && items[l].product == p;
      RestoreOneMore(table, items, lines, p, l);
      lines := lines[p := l];
      if p in table {
        work := work[p := Moved(work[p], items[l].quantity)];
      }
      todo := todo - {p};
    }
    restored := map p | p in work && p in lines :: work[p];
  }

  /** Line `i` is the first the guarded loop cannot take. */
  predicate FirstShort(table: Table, items: seq<Item>, i: nat) {
    && i < |items|
    && TakeAll(table, items[..i]).Some?
    && !CanTake(TakeAll(table, items[..i]).value, items[i])
  }

  /** The shortage at line `i` is met before any statement is refused. */
  predicate ShortBefore(table: Table, items: seq<Item>, i: nat, fault: Option<nat>) {
    FirstShort(table, items, i) && (fault.Some? ==> fault.value > i + 1)
  }

  /** While the first `n` lines can be taken, no line among them is short. */
  lemma NotShortBefore(table: Table, items: seq<Item>, n: nat)
    requires n <= |items| && TakeAll(table, items[..n]).Some?
    ensures forall i: nat | FirstShort(table, items, i) :: i >= n
  {
    forall i: nat | FirstShort(table, items, i)
      ensures i >= n
    {
      if i < n {
        assert items[..i + 1] == items[..i] + [items[i]];
        TakeAllAppend(table, items[..i], items[i]);
        assert items[..n][..i + 1] == items[..i + 1];
        FailedPrefixFailsAll(table, items[..n], i + 1);
      }
    }
  }

  lemma BeginFails(table: Table, items: seq<Item>)
    ensures forall i: nat :: !ShortBefore(table, items, i, Some(0))
  {
  }

  /** The cart once the named products of the user are taken out of it. */
  function CartWithout(cart: set<(int, int)>, user: int, items: seq<Item>): set<(int, int)> {
    set c | c in cart && !(c.0 == user && c.1 in Named(items))
  }

  class OrderStore {
    var products: Table
    var orders: seq<Order>
    var cart: set<(int, int)>

    constructor (products: Table)
      ensures this.products == products && orders == [] && cart == {}
    {
      this.products, this.orders, this.cart := products, [], {};
    }

    /**
      `fault` is the first statement the database refuses: 0 is the begin, i + 1 the decrement
      of line i, and any number above the last line an insert, the cart cleanup or the commit.
     */
    method CreateOrderAtomic(order: Order, clearCartFor: int, fault: Option<nat>) returns (r: CreateResult)
      modifies this
      ensures r.Created? <==> fault.None? && TakeAll(old(products), order.items).Some?
      ensures r.InsufficientStock? <==> exists i: nat :: ShortBefore(old(products), order.items, i, fault)
      ensures r.InsufficientStock? ==>
        exists i: nat :: ShortBefore(old(products), order.items, i, fault) && r.product == order.items[i].product
      ensures r.Created? ==>
        && r.id == |old(orders)|
        && products == TakeAll(old(products), order.items).value
        && orders == old(orders) + [order]
        && (forall c :: c in cart <==>
              (c in old(cart)
               && !(c.0 == clearCartFor != 0 && exists i | 0 <= i < |order.items| :: order.items[i].product == c.1)))
        && |r.updated| == |order.items|
        && RowsAfterLines(old(products), order.items, r.updated)
      ensures !r.Created? ==> products == old(products) && orders == old(orders) && cart == old(cart)
    {
      var items := order.items;
      var work, updated := products, [];
      if fault == Some(0) {
        BeginFails(products, items);
        return CreateFailed;
      }
      for i := 0 to |items|
        invariant products == old(products) && orders == old(orders) && cart == old(cart)
        invariant TakeAll(products, items[..i]) == Some(work)
        invariant |updated| == i && RowsAfterLines(products, items, updated)
        invariant fault.Some? ==> fault.value > i
      {
        assert items[..i + 1] == items[..i] + [items[i]];
        TakeAllAppend(products, items[..i], items[i]);
        if fault == Some(i + 1) {
          NotShortBefore(products, items, i);
          return CreateFailed;
        }
        if !CanTake(work, items[i]) {
          FailedPrefixFailsAll(products, items, i + 1);
          assert ShortBefore(products, items, i, fault);
          return InsufficientStock(items[i].product);
        }
        work := Take(work, items[i]);
        updated := updated + [(items[i].product, work[items[i].product])];
        assert RowAfterLine(products, items, i, updated[i]);
      }
      assert items[..|items|] == items;
      NotShortBefore(products, items, |items|);
      if fault.Some? {
        return CreateFailed;
      }
      r := Created(|orders|, updated);
      products := work;
      orders := orders + [order];
      if clearCartFor != 0 && |items| > 0 {
        cart := CartWithout(cart, clearCartFor, items);
      }
    }

    /** `locked` tells that another transaction holds the order row, which SKIP LOCKED passes over. */
    method CancelPendingOrderAtomic(id: nat, target: OrderStatus, owner: Option<int>, locked: bool, fault: Fault)
      returns (r: CancelResult)
      modifies this
      ensures cart == old(cart)
      ensures r.InvalidTarget? <==> target !in {Expired, Cancelled}
      ensures !r.InvalidTarget? && fault.OnLock? ==> r.CancelFailed?
      ensures !r.InvalidTarget? && !fault.OnLock? ==>
        (r.AlreadyHandled? <==> id >= |old(orders)| || locked || old(orders)[id].status != Pending)
      ensures !r.InvalidTarget? && !fault.OnLock? && !r.AlreadyHandled? ==>
        (r.Forbidden? <==> owner.Some? && old(orders)[id].user != owner)
      ensures r.CancelFailed? ==> !fault.NoFault?
      ensures r.Released? ==>
        && fault.NoFault?
        && id < |old(orders)|
        && r.remote == old(orders)[id].remote
        && orders == old(orders)[id := old(orders)[id].(status := target)]
        && exists lines: map<int, nat> ::
             && Joins(lines, old(orders)[id].items)
             && products == Restored(old(products), old(orders)[id].items, lines)
             && r.restored == map p | p in products && p in lines :: products[p]
      ensures !r.Released? ==> products == old(products) && orders == old(orders)
    {
      if target != Expired && target != Cancelled {
        return InvalidTarget;
      }
      if fault.OnLock? {
        return CancelFailed;
      }
      if id >= |orders| || locked || orders[id].status != Pending {
        return AlreadyHandled;
      }
      if owner.Some? && orders[id].user != owner {
        return Forbidden;
      }
      var items := orders[id].items;
      var work, restored, lines := RestoreStock(products, items);
      if fault.AfterLock? {
        return CancelFailed;
      }
      r := Released(orders[id].remote, restored);
      products := work;
      orders := orders[id := orders[id].(status := target)];
    }

    /** `up` is whether the database accepts the update. */
    method CompleteOrder(id: nat, up: bool) returns (r: CompleteResult)
      modifies this`orders
      ensures r.CompleteFailed? <==> !up
      ensures up ==> (r.AlreadySettled? <==> id >= |old(orders)| || old(orders)[id].status != Pending)
      ensures orders ==
              if r.CompletedNow? then old(orders)[id := old(orders)[id].(status := Completed)] else old(orders)
    {
      if !up {
        return CompleteFailed;
      }
      if id >= |orders| || orders[id].status != Pending {
        return AlreadySettled;
      }
      orders := orders[id := orders[id].(status := Completed)];
      return CompletedNow;
    }

    method ListExpiredPendingIDs(now: int, limit: int) returns (ids: seq<nat>)
      ensures OverdueBatch(orders, now, if limit <= 0 then 100 else limit, ids)
      ensures forall i | 0 <= i < |ids| ::
        && ids[i] < |orders| && orders[ids[i]].status == Pending
        && orders[ids[i]].reservedUntil.Some? && orders[ids[i]].reservedUntil.value < now
      ensures forall o: nat | o < |orders| && orders[o].status == Pending && orders[o].reservedUntil.Some? ::
        orders[o].reservedUntil.value < now && o !in ids ==>
          && |ids| == (if limit <= 0 then 100 else limit)
          && forall i | 0 <= i < |ids| :: orders[ids[i]].reservedUntil.value <= orders[o].reservedUntil.value
    {
      var cap: nat := if limit <= 0 then 100 else limit;
      var due: set<nat> := set o: nat | o < |orders| && Due(orders[o], now);
      ids := [];
      while due != {} && |ids| < cap
        invariant |ids| <= cap && Choosing(orders, now, due, ids)
        invariant forall o | o in due :: o < |orders| && Due(orders[o], now)
        decreases |due|
      {
        var first := TakeEarliest(orders, due);
        ChooseEarliest(orders, now, due, ids, first);
        ids := ids + [first];
        due := due - {first};
      }
    }
  }

  // ---- the cron job ----

  /** An order's release in a table of orders: it was pending and is now expired. */
  predicate Expires(before: seq<Order>, after: seq<Order>, o: nat) {
    o < |before| == |after| && before[o].status == Pending && after[o].status == Expired
  }

  /** No released order names the product on two lines. */
  predicate ReleasesWhole(before: seq<Order>, after: seq<Order>, p: int) {
    forall o | 0 <= o < |before| && Expires(before, after, o) :: Lines(before[o].items, p) <= 1
  }

  /** The totals never grow, and one shrinks exactly if a released order names its product twice. */
  ghost predicate LosesOnlyRepeats(table: Table, orders: seq<Order>, tableAfter: Table, ordersAfter: seq<Order>) {
    && table.Keys == tableAfter.Keys
    && forall p | p in table ::
         && Total(tableAfter, ordersAfter, p) <= Total(table, orders, p)
         && (Total(tableAfter, ordersAfter, p) == Total(table, orders, p) <==> ReleasesWhole(orders, ordersAfter, p))
  }

  lemma NothingReleased(table: Table, orders: seq<Order>)
    ensures LosesOnlyRepeats(table, orders, table, orders)
  {
  }

  lemma ReleaseTotals(table: Table, orders: seq<Order>, id: nat, lines: map<int, nat>, p: int)
    requires OrdersOk(table, orders) && id < |orders| && orders[id].status == Pending
    requires Joins(lines, orders[id].items) && p in table
    ensures
      var after := Restored(table, orders[id].items, lines);
      var ordersAfter := orders[id := orders[id].(status := Expired)];
      && Total(after, ordersAfter, p) <= Total(table, orders, p)
      && (Total(after, ordersAfter, p) == Total(table, orders, p) <==> Lines(orders[id].items, p) <= 1)
  {
    ReleaseLosesShortfall(table, orders, id, Expired, lines, p);
    ShortfallExactlyForRepeatedLines(orders[id].items, lines, p);
  }

  /** One more release after some others. */
  lemma ReleaseLosesOnlyRepeats(table0: Table, orders0: seq<Order>, table: Table, orders: seq<Order>,
                                id: nat, lines: map<int, nat>)
    requires OrdersOk(table, orders) && LosesOnlyRepeats(table0, orders0, table, orders)
    requires |orders0| == |orders| && id < |orders| && orders[id].status == Pending && orders0[id] == orders[id]
    requires Joins(lines, orders[id].items)
    ensures
      var after := Restored(table, orders[id].items, lines);
      var ordersAfter := orders[id := orders[id].(status := Expired)];
      LosesOnlyRepeats(table0, orders0, after, ordersAfter) && OrdersOk(after, ordersAfter)
  {
    var after, ordersAfter := Restored(table, orders[id].items, lines), orders[id := orders[id].(status := Expired)];
    forall p | p in table0
      ensures Total(after, ordersAfter, p) <= Total(table0, orders0, p)
      ensures Total(after, ordersAfter, p) == Total(table0, orders0, p) <==> ReleasesWhole(orders0, ordersAfter, p)
    {
      ReleaseTotals(table, orders, id, lines, p);
      ReleasesOneMore(orders0, orders, id, p);
    }
  }

  lemma ReleasesOneMore(orders0: seq<Order>, orders: seq<Order>, id: nat, p: int)
    requires |orders0| == |orders| && id < |orders| && orders[id].status == Pending && orders0[id] == orders[id]
    ensures ReleasesWhole(orders0, orders[id := orders[id].(status := Expired)], p)
            <==> ReleasesWhole(orders0, orders, p) && Lines(orders[id].items, p) <= 1
  {
    var after := orders[id := orders[id].(status := Expired)];
    assert Expires(orders0, after, id) && !Expires(orders0, orders, id);
    assert forall o | 0 <= o < |orders| && o != id :: Expires(orders0, after, o) <==> Expires(orders0, orders, o);
  }

  function FaultAt(faults: map<nat, Fault>, id: nat): Fault {
    if id in faults then faults[id] else NoFault
  }

  /** The release of the order goes through: it is still pending, nobody holds it and the database agrees. */
  predicate GoesThrough(orders: seq<Order>, id: nat, busy: set<nat>, faults: map<nat, Fault>) {
    id < |orders| && orders[id].status == Pending && id !in busy && FaultAt(faults, id).NoFault?
  }

  /** The job reports the order as expired: its release went through or found it settled or held by another. */
  predicate Reports(orders: seq<Order>, id: nat, busy: set<nat>, faults: map<nat, Fault>) {
    match FaultAt(faults, id)
    case NoFault => true
    case OnLock => false
    case AfterLock => id >= |orders| || orders[id].status != Pending || id in busy
  }

  /** The row of one order after a cron run over the listed ids. */
  function AfterTick(orders: seq<Order>, o: nat, ids: seq<nat>, busy: set<nat>, faults: map<nat, Fault>): Order
    requires o < |orders|
  {
    if o in ids && GoesThrough(orders, o, busy, faults) then orders[o].(status := Expired) else orders[o]
  }

  /** The orders after the loop has gone through the listed ids one by one. */
  function ExpireLoop(orders: seq<Order>, ids: seq<nat>, busy: set<nat>, faults: map<nat, Fault>): (r: seq<Order>)
    ensures |r| == |orders|
  {
    if ids == [] then orders
    else
      var id := ids[|ids| - 1];
      var before := ExpireLoop(orders, ids[..|ids| - 1], busy, faults);
      if GoesThrough(before, id, busy, faults) then before[id := before[id].(status := Expired)] else before
  }

  function ReportLoop(orders: seq<Order>, ids: seq<nat>, busy: set<nat>, faults: map<nat, Fault>): nat {
    if ids == [] then 0
    else
      var front, id := ids[..|ids| - 1], ids[|ids| - 1];
      var reports := Reports(ExpireLoop(orders, front, busy, faults), id, busy, faults);
      ReportLoop(orders, front, busy, faults) + if reports then 1 else 0
  }

  /** The listed orders a tick reports as expired. */
  function Reported(orders: seq<Order>, ids: seq<nat>, busy: set<nat>, faults: map<nat, Fault>): set<nat> {
    set o | o in ids && Reports(orders, o, busy, faults)
  }

  predicate ListedOnce(ids: seq<nat>) {
    forall i, j | 0 <= i < j < |ids| :: ids[i] != ids[j]
  }

  lemma {:induction false} LoopTouchesEachOnce(orders: seq<Order>, ids: seq<nat>, busy: set<nat>,
                                               faults: map<nat, Fault>, o: nat)
    requires o < |orders|
    ensures ExpireLoop(orders, ids, busy, faults)[o] == AfterTick(orders, o, ids, busy, faults)
  {
    if ids != [] {
      var front, id := ids[..|ids| - 1], ids[|ids| - 1];
      LoopTouchesEachOnce(orders, front, busy, faults, o);
      assert ids == front + [id];
    }
  }

  /** Releasing other orders first changes nothing of what one order's turn reports. */
  lemma ReportsAtItsTurn(orders: seq<Order>, others: seq<nat>, busy: set<nat>, faults: map<nat, Fault>, id: nat)
    requires id !in others
    ensures Reports(ExpireLoop(orders, others, busy, faults), id, busy, faults) <==> Reports(orders, id, busy, faults)
  {
    if id < |orders| {
      LoopTouchesEachOnce(orders, others, busy, faults, id);
    }
  }

  lemma ReportedOneMore(orders: seq<Order>, ids: seq<nat>, id: nat, busy: set<nat>, faults: map<nat, Fault>)
    requires id !in ids
    ensures |Reported(orders, ids + [id], busy, faults)|
            == |Reported(orders, ids, busy, faults)| + if Reports(orders, id, busy, faults) then 1 else 0
  {
    var before, after := Reported(orders, ids, busy, faults), Reported(orders, ids + [id], busy, faults);
    assert id !in before;
    if Reports(orders, id, busy, faults) {
      assert after == before + {id};
    } else {
      assert after == before;
    }
  }

  lemma {:induction false} ReportCounts(orders: seq<Order>, ids: seq<nat>, busy: set<nat>, faults: map<nat, Fault>)
    requires ListedOnce(ids)
    ensures ReportLoop(orders, ids, busy, faults) == |Reported(orders, ids, busy, faults)|
  {
    if ids != [] {
      var front, id := ids[..|ids| - 1], ids[|ids| - 1];
      ReportCounts(orders, front, busy, faults);
      ReportsAtItsTurn(orders, front, busy, faults, id);
      assert ids == front + [id];
      ReportedOneMore(orders, front, id, busy, faults);
    }
  }

  predicate PickupsPassed(orders: seq<Order>, ids: seq<nat>, now: int) {
    forall i | 0 <= i < |ids| && ids[i] < |orders| :: orders[ids[i]].pickup.Some? ==> orders[ids[i]].pickup.value < now
  }

  /** An order the cron lists has its accepted pickup time behind it. */
  lemma OverduePickupsPassed(table: Table, orders: seq<Order>, now: int, limit: nat, ids: seq<nat>)
    requires OrdersOk(table, orders) && OverdueBatch(orders, now, limit, ids)
    ensures PickupsPassed(orders, ids, now)
  {
    forall i | 0 <= i < |ids|
      ensures orders[ids[i]].pickup.Some? ==> orders[ids[i]].pickup.value < now
    {
      assert Due(orders[ids[i]], now) && OrderRowOk(table, orders[ids[i]]);
    }
  }

  class ReservationExpiryService {
    var batchSize: int

    /** The cron's cancellation of one listed order, whatever has become of it since it was listed. */
    method ExpireOne(store: OrderStore, id: nat, busy: set<nat>, faults: map<nat, Fault>) returns (ok: bool)
      modifies store
      ensures ok <==> Reports(old(store.orders), id, busy, faults)
      ensures id !in faults || faults[id] == NoFault ==> ok
      ensures id in faults && faults[id] == OnLock ==> !ok
      ensures id in faults && faults[id] == AfterLock ==>
        (ok <==> id >= |old(store.orders)| || old(store.orders)[id].status != Pending || id in busy)
      ensures
        && id < |old(store.orders)| && old(store.orders)[id].status == Pending && id !in busy
        && (id !in faults || faults[id] == NoFault)
        <==> store.orders != old(store.orders)
      ensures store.orders != old(store.orders) ==>
        id < |old(store.orders)| && store.orders == old(store.orders)[id := old(store.orders)[id].(status := Expired)]
      ensures store.orders == ExpireLoop(old(store.orders), [id], busy, faults)
      ensures if GoesThrough(old(store.orders), id, busy, faults)
        then exists lines: map<int, nat> ::
               && Joins(lines, old(store.orders)[id].items)
               && store.products == Restored(old(store.products), old(store.orders)[id].items, lines)
        else store.products == old(store.products)
    {
      ghost var orders := store.orders;
      var r := store.CancelPendingOrderAtomic(id, Expired, None, id in busy, FaultAt(faults, id));
      ok := !r.CancelFailed?;
      assert [id][..0] == [];
      assert ExpireLoop(orders, [], busy, faults) == orders;
    }

    /**
      The loop of the job over the listed orders. `busy` are the orders another transaction
      holds, `faults` the releases the database refuses; it passes over both.
     */
    method ExpireListed(store: OrderStore, ids: seq<nat>, busy: set<nat>, faults: map<nat, Fault>)
      returns (expired: nat)
      modifies store
      ensures store.orders == ExpireLoop(old(store.orders), ids, busy, faults)
      ensures old(OrdersOk(store.products, store.orders)) ==>
        && OrdersOk(store.products, store.orders)
        && LosesOnlyRepeats(old(store.products), old(store.orders), store.products, store.orders)
      ensures expired == ReportLoop(old(store.orders), ids, busy, faults)
    {
      ghost var table0, orders0 := store.products, store.orders;
      expired := 0;
      NothingReleased(table0, orders0);
      for i := 0 to |ids|
        invariant expired == ReportLoop(orders0, ids[..i], busy, faults)
        invariant store.orders == ExpireLoop(orders0, ids[..i], busy, faults)
        invariant OrdersOk(table0, orders0) ==>
          OrdersOk(store.products, store.orders) && LosesOnlyRepeats(table0, orders0, store.products, store.orders)
      {
        assert ids[..i + 1][..i] == ids[..i];
        assert [ids[i]][..0] == [];
        ghost var table, orders := store.products, store.orders;
        var ok := ExpireOne(store, ids[i], busy, faults);
        if GoesThrough(orders, ids[i], busy, faults) && OrdersOk(table0, orders0) {
          LoopTouchesEachOnce(orders0, ids[..i], busy, faults, ids[i]);
          ghost var lines: map<int, nat> :|
            Joins(lines, orders[ids[i]].items) && store.products == Restored(table, orders[ids[i]].items, lines);
          ReleaseLosesOnlyRepeats(table0, orders0, table, orders, ids[i], lines);
        }
        if ok {
          expired := expired + 1;
        }
      }
      assert ids[..|ids|] == ids;
    }

    /**
      One run of the cron job: the earliest overdue orders expire, a total falls only by repeated
      lines, no pickup time is cut off. Nothing happens if the listing query fails.
     */
    method Tick(store: OrderStore, now: int, up: bool, busy: set<nat>, faults: map<nat, Fault>)
      returns (ids: seq<nat>, expired: nat)
      modifies store
      ensures up ==> OverdueBatch(old(store.orders), now, if batchSize <= 0 then 100 else batchSize, ids)
      ensures !up ==> ids == []
      ensures |store.orders| == |old(store.orders)|
      ensures forall o: nat | o < |store.orders| ::
        store.orders[o] == AfterTick(old(store.orders), o, ids, busy, faults)
      ensures old(OrdersOk(store.products, store.orders)) ==>
        && OrdersOk(store.products, store.orders)
        && LosesOnlyRepeats(old(store.products), old(store.orders), store.products, store.orders)
        && PickupsPassed(old(store.orders), ids, now)
      ensures expired == |Reported(old(store.orders), ids, busy, faults)|
    {
      ids := [];
      ghost var table, orders := store.products, store.orders;
      if up {
        ids := store.ListExpiredPendingIDs(now, batchSize);
        if OrdersOk(table, orders) {
          OverduePickupsPassed(table, orders, now, if batchSize <= 0 then 100 else batchSize, ids);
        }
      }
      forall o: nat | o < |orders|
        ensures ExpireLoop(orders, ids, busy, faults)[o] == AfterTick(orders, o, ids, busy, faults)
      {
        LoopTouchesEachOnce(orders, ids, busy, faults, o);
      }
      ReportCounts(orders, ids, busy, faults);
      expired := ExpireListed(store, ids, busy, faults);
    }
  }
}
