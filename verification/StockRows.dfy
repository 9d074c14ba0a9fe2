/**
  Rows of the products, orders and order_items tables, and the arithmetic of the two
  statements that move stock: the guarded decrement of an order line and the restore
  of a released order.
 */
module StockRows {
  import opened Base

  datatype ProductStatus = Active | OutOfStock | Deleted | Archived

  datatype Product = Product(stock: int, active: bool, status: ProductStatus)

  datatype Item = Item(product: int, quantity: int)

  datatype OrderStatus = Pending | Completed | Expired | Cancelled

  datatype Order = Order(user: Option<int>, status: OrderStatus, items: seq<Item>, remote: Option<int>,
                         createdAt: int, reservedUntil: Option<int>, pickup: Option<int>)

  type Table = map<int, Product>

  /** The CASE expression both statements use for products_status. */
  function StatusFor(stock: int): ProductStatus {
    if stock > 0 then Active else OutOfStock
  }

  /** The row after `stock = stock + delta`; a decrement has a negative delta. */
  function Moved(row: Product, delta: int): Product {
    row.(stock := row.stock + delta, status := StatusFor(row.stock + delta))
  }

  /** The WHERE clause of the decrement: the row exists, is active and holds enough. */
  predicate CanTake(table: Table, item: Item) {
    item.product in table && table[item.product].active && table[item.product].stock >= item.quantity
  }

  function Take(table: Table, item: Item): Table
    requires CanTake(table, item)
  {
    table[item.product := Moved(table[item.product], -item.quantity)]
  }

  /** The guarded loop over the lines of an order; None is ErrInsufficientStock. */
  function TakeAll(table: Table, items: seq<Item>): Option<Table> {
    if items == [] then Some(table)
    else if !CanTake(table, items[0]) then None
    else TakeAll(Take(table, items[0]), items[1..])
  }

  function Named(items: seq<Item>): set<int> {
    set i | 0 <= i < |items| :: items[i].product
  }

  predicate Positive(items: seq<Item>) {
    forall i | 0 <= i < |items| :: items[i].quantity > 0
  }

  predicate DistinctProducts(items: seq<Item>) {
    forall i, j | 0 <= i < j < |items| :: items[i].product != items[j].product
  }

  /** What the lines ask of one product in all. */
  function Demand(items: seq<Item>, p: int): int {
    if items == [] then 0
    else Demand(items[..|items| - 1], p) + LineDemand(items[|items| - 1], p)
  }

  function LineDemand(item: Item, p: int): int {
    if item.product == p then item.quantity else 0
  }

  /** How many lines name the product. */
  function Lines(items: seq<Item>, p: int): nat {
    if items == [] then 0
    else Lines(items[..|items| - 1], p) + if items[|items| - 1].product == p then 1 else 0
  }

  /** The aggregate form of the check: every named product covers its total demand. */
  predicate Covers(table: Table, items: seq<Item>) {
    forall p | p in Named(items) :: p in table && table[p].active && table[p].stock >= Demand(items, p)
  }

  /** The table with every named product charged its total demand at once. */
  function Charged(table: Table, items: seq<Item>): Table {
    map p | p in table :: if p in Named(items) then Moved(table[p], -Demand(items, p)) else table[p]
  }

  ghost predicate SingleLines(items: seq<Item>) {
    forall p :: Lines(items, p) <= 1
  }

  // ---- Demand and line counts ----

  lemma {:induction false} DemandHead(items: seq<Item>, p: int)
    requires items != []
    ensures Demand(items, p) == LineDemand(items[0], p) + Demand(items[1..], p)
  {
    if |items| == 1 {
      assert items[1..] == [] && items[..0] == [];
    } else {
      var front := items[..|items| - 1];
      DemandHead(front, p);
      assert items[1..][..|items| - 2] == front[1..];
    }
  }

  lemma {:induction false} DemandBounds(items: seq<Item>, p: int)
    requires Positive(items)
    ensures Demand(items, p) >= Lines(items, p)
    ensures p in Named(items) <==> Lines(items, p) > 0
    ensures p in Named(items) <==> Demand(items, p) > 0
    ensures p !in Named(items) ==> Demand(items, p) == 0
  {
    if items != [] {
      var front := items[..|items| - 1];
      DemandBounds(front, p);
      assert forall i | 0 <= i < |front| :: front[i] == items[i];
      assert p in Named(items) <==> p in Named(front) || items[|items| - 1].product == p;
    }
  }

  /** One line never exceeds the total, and equals it exactly when it is the only line of its product. */
  lemma {:induction false} LineAgainstDemand(items: seq<Item>, l: nat)
    requires Positive(items) && l < |items|
    ensures items[l].quantity <= Demand(items, items[l].product)
    ensures items[l].quantity == Demand(items, items[l].product) <==> Lines(items, items[l].product) == 1
  {
    var front, p := items[..|items| - 1], items[l].product;
    DemandBounds(front, p);
    if l < |front| {
      assert front[l] == items[l];
      LineAgainstDemand(front, l);
    }
  }

  lemma {:induction false} DistinctMeansSingleLines(items: seq<Item>)
    ensures DistinctProducts(items) <==> SingleLines(items)
  {
    if items != [] {
      var front, last := items[..|items| - 1], items[|items| - 1].product;
      DistinctMeansSingleLines(front);
      LinesNamed(front, last);
      assert forall i | 0 <= i < |front| :: front[i] == items[i];
      assert DistinctProducts(items) <==> DistinctProducts(front) && last !in Named(front);
      if DistinctProducts(items) {
        forall p ensures Lines(items, p) <= 1 {
          assert Lines(front, p) <= 1;
        }
      }
      if SingleLines(items) {
        assert Lines(items, last) <= 1;
        forall p ensures Lines(front, p) <= 1 {
          assert Lines(items, p) <= 1;
        }
      }
    }
  }

  lemma {:induction false} LinesNamed(items: seq<Item>, p: int)
    ensures p in Named(items) <==> Lines(items, p) > 0
  {
    if items != [] {
      var front := items[..|items| - 1];
      LinesNamed(front, p);
      assert forall i | 0 <= i < |front| :: front[i] == items[i];
      assert p in Named(items) <==> p in Named(front) || items[|items| - 1].product == p;
    }
  }

  // ---- the loop against the aggregate check ----

  lemma HeadAndRest(items: seq<Item>, p: int)
    requires items != [] && Positive(items)
    ensures Demand(items, p) == LineDemand(items[0], p) + Demand(items[1..], p)
    ensures p in Named(items) <==> p in Named(items[1..]) || p == items[0].product
    ensures p !in Named(items[1..]) ==> Demand(items[1..], p) == 0
    ensures Demand(items[1..], p) >= 0
  {
    var rest := items[1..];
    assert forall i | 0 < i < |items| :: items[i] == rest[i - 1];
    assert forall i | 0 <= i < |rest| :: rest[i] == items[i + 1];
    DemandHead(items, p);
    DemandBounds(rest, p);
  }

  lemma CoversHead(table: Table, items: seq<Item>)
    requires items != [] && Positive(items) && CanTake(table, items[0])
    ensures Covers(table, items) <==> Covers(Take(table, items[0]), items[1..])
  {
    var next, rest := Take(table, items[0]), items[1..];
    if Covers(next, rest) {
      forall p | p in Named(items)
        ensures p in table && table[p].active && table[p].stock >= Demand(items, p)
      {
        HeadAndRest(items, p);
      }
    }
    if Covers(table, items) {
      forall p | p in Named(rest)
        ensures p in next && next[p].active && next[p].stock >= Demand(rest, p)
      {
        HeadAndRest(items, p);
      }
    }
  }

  lemma ChargedHead(table: Table, items: seq<Item>)
    requires items != [] && Positive(items) && CanTake(table, items[0])
    ensures Charged(table, items) == Charged(Take(table, items[0]), items[1..])
  {
    var next, rest := Take(table, items[0]), items[1..];
    forall p | p in table
      ensures Charged(table, items)[p] == Charged(next, rest)[p]
    {
      HeadAndRest(items, p);
    }
  }

  /** The guarded loop succeeds iff the aggregate check holds, and then charges every product its total. */
  lemma {:induction false} SequentialEqualsAggregate(table: Table, items: seq<Item>)
    requires Positive(items)
    ensures TakeAll(table, items).Some? <==> Covers(table, items)
    ensures TakeAll(table, items).Some? ==> TakeAll(table, items).value == Charged(table, items)
  {
    if items == [] {
      assert Charged(table, items) == table;
    } else if CanTake(table, items[0]) {
      CoversHead(table, items);
      ChargedHead(table, items);
      SequentialEqualsAggregate(Take(table, items[0]), items[1..]);
    } else {
      var p := items[0].product;
      assert p in Named(items);
      DemandHead(items, p);
      DemandBounds(items[1..], p);
    }
  }

  /**
    What an order leaves of a row: each named product loses its total demand and is active if any
    stock remains and out of stock if none does; the other rows are untouched.
   */
  lemma RowsAfterOrder(table: Table, items: seq<Item>, p: int)
    requires Positive(items) && TakeAll(table, items).Some? && p in table
    ensures p in TakeAll(table, items).value
    ensures var row := TakeAll(table, items).value[p];
      if p in Named(items) then
        && row.stock == table[p].stock - Demand(items, p) && row.active
        && row.status == if row.stock == 0 then OutOfStock else Active
      else row == table[p]
  {
    SequentialEqualsAggregate(table, items);
  }

  lemma MultisetWithout(ys: seq<Item>, k: nat)
    requires k < |ys|
    ensures multiset(ys[..k] + ys[k + 1..]) == multiset(ys) - multiset{ys[k]}
  {
    assert ys == ys[..k] + [ys[k]] + ys[k + 1..];
  }

  lemma {:induction false} DemandOfPermutation(xs: seq<Item>, ys: seq<Item>, p: int)
    requires multiset(xs) == multiset(ys)
    ensures Demand(xs, p) == Demand(ys, p)
  {
    if xs == [] {
      assert |ys| == |multiset(ys)| == 0;
    } else {
      var l := |xs| - 1;
      assert xs[l] in multiset(ys);
      var k :| 0 <= k < |ys| && ys[k] == xs[l];
      MultisetWithout(xs, l);
      MultisetWithout(ys, k);
      assert xs[..l] + xs[l + 1..] == xs[..l];
      DemandOfPermutation(xs[..l], ys[..k] + ys[k + 1..], p);
      DemandWithout(ys, k, p);
    }
  }

  lemma DemandWithout(ys: seq<Item>, k: nat, p: int)
    requires k < |ys|
    ensures Demand(ys, p) == Demand(ys[..k] + ys[k + 1..], p) + LineDemand(ys[k], p)
  {
    DemandConcat(ys[..k], ys[k + 1..], p);
    assert ys == ys[..k + 1] + ys[k + 1..];
    DemandConcat(ys[..k + 1], ys[k + 1..], p);
    assert ys[..k + 1][..k] == ys[..k];
  }

  lemma {:induction false} DemandConcat(xs: seq<Item>, ys: seq<Item>, p: int)
    ensures Demand(xs + ys, p) == Demand(xs, p) + Demand(ys, p)
  {
    if ys == [] {
      assert xs + ys == xs;
    } else {
      assert (xs + ys)[..|xs + ys| - 1] == xs + ys[..|ys| - 1];
      DemandConcat(xs, ys[..|ys| - 1], p);
    }
  }

  lemma NamedOfPermutation(xs: seq<Item>, ys: seq<Item>)
    requires multiset(xs) == multiset(ys)
    ensures forall item | item in xs :: item in ys
    ensures Named(xs) <= Named(ys)
  {
    forall item | item in xs ensures item in ys {
      assert item in multiset(xs);
      assert item in multiset(ys);
    }
    forall i | 0 <= i < |xs| ensures xs[i].product in Named(ys) {
      var item := xs[i];
      assert item in xs;
      assert item in ys;
    }
  }

  lemma CoversSame(table: Table, xs: seq<Item>, ys: seq<Item>)
    requires Named(xs) == Named(ys) && forall p :: Demand(xs, p) == Demand(ys, p)
    ensures Covers(table, xs) ==> Covers(table, ys)
    ensures Covers(table, ys) ==> Covers(table, xs)
  {
    if Covers(table, ys) {
      forall p | p in Named(xs) ensures p in table && table[p].active && table[p].stock >= Demand(xs, p) {
        assert p in Named(ys) && Demand(xs, p) == Demand(ys, p);
      }
    }
    if Covers(table, xs) {
      forall p | p in Named(ys) ensures p in table && table[p].active && table[p].stock >= Demand(ys, p) {
        assert p in Named(xs) && Demand(xs, p) == Demand(ys, p);
      }
    }
  }

  /** The order of the lines changes neither the verdict nor the final table. */
  lemma OutcomeIgnoresLineOrder(table: Table, xs: seq<Item>, ys: seq<Item>)
    requires Positive(xs) && multiset(xs) == multiset(ys)
    ensures TakeAll(table, xs) == TakeAll(table, ys)
  {
    NamedOfPermutation(xs, ys);
    NamedOfPermutation(ys, xs);
    assert Positive(ys) by {
      forall i | 0 <= i < |ys| ensures ys[i].quantity > 0 {
        assert ys[i] in xs;
      }
    }
    forall p ensures Demand(xs, p) == Demand(ys, p) {
      DemandOfPermutation(xs, ys, p);
    }
    SequentialEqualsAggregate(table, xs);
    SequentialEqualsAggregate(table, ys);
    assert Named(xs) == Named(ys);
    CoversSame(table, xs, ys);
    assert Charged(table, xs) == Charged(table, ys);
  }

  // ---- the restore statement ----

  /** Some product rows, each joined with one of the order's lines for that product. */
  predicate JoinsSome(lines: map<int, nat>, items: seq<Item>) {
    forall p | p in lines :: lines[p] < |items| && items[lines[p]].product == p
  }

  /** `UPDATE ... FROM order_items` touches every named product row once, whichever of its lines it joins. */
  predicate Joins(lines: map<int, nat>, items: seq<Item>) {
    JoinsSome(lines, items) && lines.Keys == Named(items)
  }

  function Restored(table: Table, items: seq<Item>, lines: map<int, nat>): Table
    requires JoinsSome(lines, items)
  {
    map p | p in table :: if p in lines then Moved(table[p], items[lines[p]].quantity) else table[p]
  }

  lemma RestoreOneMore(table: Table, items: seq<Item>, lines: map<int, nat>, p: int, l: nat)
    requires JoinsSome(lines, items) && p !in lines && l < |items| && items[l].product == p
    ensures JoinsSome(lines[p := l], items)
    ensures Restored(table, items, lines[p := l]) ==
            if p in table then Restored(table, items, lines)[p := Moved(table[p], items[l].quantity)]
            else Restored(table, items, lines)
  {
  }

  /** What a release leaves of a row: the joined line's quantity comes back, and a row with stock is active again. */
  lemma RowsAfterRestore(table: Table, items: seq<Item>, lines: map<int, nat>, p: int)
    requires Positive(items) && Joins(lines, items) && p in table
    ensures var row := Restored(table, items, lines)[p];
      if exists i | 0 <= i < |items| :: items[i].product == p then
        && (exists i | 0 <= i < |items| :: items[i].product == p && row.stock == table[p].stock + items[i].quantity)
        && row.active == table[p].active && row.status == if row.stock > 0 then Active else OutOfStock
      else row == table[p]
  {
    assert p in Named(items) <==> exists i | 0 <= i < |items| :: items[i].product == p;
  }

  /** What the restore fails to return of one product. */
  function Shortfall(items: seq<Item>, lines: map<int, nat>, p: int): int
    requires Joins(lines, items)
  {
    if p in lines then Demand(items, p) - items[lines[p]].quantity else 0
  }

  /**
    The restore returns all that the order took of a product exactly when the order
    names the product on at most one line; otherwise it falls short.
   */
  lemma ShortfallExactlyForRepeatedLines(items: seq<Item>, lines: map<int, nat>, p: int)
    requires Positive(items) && Joins(lines, items)
    ensures 0 <= Shortfall(items, lines, p) <= Demand(items, p)
    ensures Shortfall(items, lines, p) == 0 <==> Lines(items, p) <= 1
  {
    LinesNamed(items, p);
    DemandBounds(items, p);
    if p in lines {
      LineAgainstDemand(items, lines[p]);
    }
  }

  ghost predicate StockBack(before: Table, after: Table) {
    forall p | p in before :: p in after && after[p].stock == before[p].stock
  }

  lemma ChargeThenRestoreOne(table: Table, items: seq<Item>, lines: map<int, nat>, p: int)
    requires Positive(items) && Joins(lines, items) && p in table
    ensures Restored(Charged(table, items), items, lines)[p].stock == table[p].stock - Shortfall(items, lines, p)
    ensures Restored(Charged(table, items), items, lines)[p].stock == table[p].stock <==> Lines(items, p) <= 1
  {
    ShortfallExactlyForRepeatedLines(items, lines, p);
  }

  /** A charge followed by the restore gives the stock back for every product iff the products are distinct. */
  lemma ChargeThenRestore(table: Table, items: seq<Item>, lines: map<int, nat>)
    requires Positive(items) && Joins(lines, items) && Covers(table, items)
    ensures StockBack(table, Restored(Charged(table, items), items, lines)) <==> DistinctProducts(items)
  {
    var after := Restored(Charged(table, items), items, lines);
    DistinctMeansSingleLines(items);
    if StockBack(table, after) {
      forall p ensures Lines(items, p) <= 1 {
        LinesNamed(items, p);
        if p in Named(items) {
          ChargeThenRestoreOne(table, items, lines, p);
        }
      }
    }
    if SingleLines(items) {
      forall p | p in table ensures p in after && after[p].stock == table[p].stock {
        assert Lines(items, p) <= 1;
        ChargeThenRestoreOne(table, items, lines, p);
      }
    }
  }
}
