/**
  The page loop of internal/usecase/product.go. Rows are what the catalogue or the search
  query returns, in its order; they and the available stocks stay fixed during a call.
 */
module CatalogPages {
  import opened Base

  const MAX_BATCHES: nat := 20

  datatype Row = Row(id: int, stock: int)

  /** A product loaded from the database; the loop overwrites its stock. */
  class Product {
    const id: int
    var stock: int

    constructor (row: Row)
      ensures id == row.id && stock == row.stock
    {
      id, stock := row.id, row.stock;
    }
  }

  /** The available stocks the cache answers, and the buffer in percent. */
  datatype Stocks = Stocks(available: map<int, int>, buffer: real)

  /** The integer part, as a conversion from float64 truncates. */
  function Truncate(x: real): int {
    if x >= 0.0 then x.Floor else -((-x).Floor)
  }

  function LessBuffer(stock: int, buffer: real): int {
    Truncate(stock as real * (1.0 - buffer / 100.0))
  }

  /** The row's stock less the buffer, or the available stock when there is one. */
  function Buffered(row: Row, stocks: Stocks): int {
    if stocks.buffer <= 0.0 then row.stock
    else if row.id in stocks.available && stocks.available[row.id] >= 0 then stocks.available[row.id]
    else LessBuffer(row.stock, stocks.buffer)
  }

  /** The stock a page shows. */
  function Shown(row: Row, stocks: Stocks): int {
    if row.id in stocks.available then stocks.available[row.id] else Buffered(row, stocks)
  }

  /** Row `k` with the stock it shows, if a page may hold it. */
  function Visible(rows: seq<Row>, stocks: Stocks, k: nat): seq<Row> {
    if k < |rows| && Shown(rows[k], stocks) > 0 then [Row(rows[k].id, Shown(rows[k], stocks))] else []
  }

  /** What the rows from `from` up to `to` show. */
  function Span(rows: seq<Row>, stocks: Stocks, from: nat, to: nat): seq<Row> {
    if to <= from then [] else Span(rows, stocks, from, to - 1) + Visible(rows, stocks, to - 1)
  }

  function Take(s: seq<Row>, n: nat): seq<Row> {
    if n <= |s| then s[..n] else s
  }

  /** The first `limit` rows with a positive stock among the 20 * limit rows from `offset` on. */
  function Page(rows: seq<Row>, stocks: Stocks, limit: nat, offset: nat): seq<Row> {
    Take(Span(rows, stocks, offset, offset + MAX_BATCHES * limit), limit)
  }

  lemma {:induction false} SpanAppend(rows: seq<Row>, stocks: Stocks, from: nat, mid: nat, to: nat)
    requires from <= mid <= to
    ensures Span(rows, stocks, from, to) == Span(rows, stocks, from, mid) + Span(rows, stocks, mid, to)
  {
    if mid < to {
      SpanAppend(rows, stocks, from, mid, to - 1);
      Associate(Span(rows, stocks, from, mid), Span(rows, stocks, mid, to - 1), Visible(rows, stocks, to - 1));
    }
  }

  lemma Associate(a: seq<Row>, b: seq<Row>, c: seq<Row>)
    ensures (a + b) + c == a + (b + c)
  {
  }

  lemma {:induction false} SpanPastEnd(rows: seq<Row>, stocks: Stocks, from: nat, to: nat)
    requires |rows| <= from
    ensures Span(rows, stocks, from, to) == []
  {
    if from < to {
      SpanPastEnd(rows, stocks, from, to - 1);
    }
  }

  // ---- the objects ----

  predicate Loaded(products: seq<Product>, rows: seq<Row>)
    reads products
  {
    && |products| == |rows|
    && forall i | 0 <= i < |rows| :: products[i].id == rows[i].id && products[i].stock == rows[i].stock
  }

  predicate Distinct(products: seq<Product>) {
    forall i, j | 0 <= i < j < |products| :: products[i] != products[j]
  }

  /** No object of `a` is among `b` from index `n` on. */
  predicate Apart(a: seq<Product>, b: seq<Product>, n: nat) {
    forall i, j | 0 <= i < |a| && n <= j < |b| :: a[i] != b[j]
  }

  function Window(rows: seq<Row>, limit: nat, offset: nat): (window: seq<Row>)
    ensures |window| == if |rows| <= offset then 0 else if |rows| <= offset + limit then |rows| - offset else limit
    ensures forall i | 0 <= i < |window| :: window[i] == rows[offset + i]
  {
    if |rows| <= offset then [] else if |rows| <= offset + limit then rows[offset..] else rows[offset..offset + limit]
  }

  /** The query with LIMIT and OFFSET; the objects are new. */
  method Fetch(rows: seq<Row>, limit: nat, offset: nat) returns (products: seq<Product>)
    ensures Loaded(products, Window(rows, limit, offset)) && Distinct(products)
    ensures forall i | 0 <= i < |products| :: fresh(products[i])
  {
    var window := Window(rows, limit, offset);
    products := [];
    for i := 0 to |window|
      invariant Loaded(products, window[..i]) && Distinct(products)
      invariant forall j | 0 <= j < |products| :: fresh(products[j])
    {
      var p := new Product(window[i]);
      products := products + [p];
    }
  }

  predicate Ready(products: seq<Product>, rows: seq<Row>, stocks: Stocks, n: nat)
    requires |products| == |rows|
    reads products
  {
    forall i | n <= i < |rows| :: products[i].id == rows[i].id && products[i].stock == Buffered(rows[i], stocks)
  }

  method ApplyStockBuffer(products: seq<Product>, rows: seq<Row>, stocks: Stocks)
    requires Loaded(products, rows) && Distinct(products)
    modifies products
    ensures Ready(products, rows, stocks, 0)
  {
    if stocks.buffer <= 0.0 {
      return;
    }
    for i := 0 to |products|
      invariant forall j | 0 <= j < i :: products[j].stock == Buffered(rows[j], stocks)
      invariant forall j | i <= j < |products| :: products[j].stock == rows[j].stock
    {
      var p := products[i];
      if p.id in stocks.available && stocks.available[p.id] >= 0 {
        p.stock := stocks.available[p.id];
      } else {
        p.stock := LessBuffer(p.stock, stocks.buffer);
      }
    }
  }

  /** The inner loop: sets the available stocks and collects what is in stock until the page is full. */
  method Collect(products: seq<Product>, rows: seq<Row>, stocks: Stocks, limit: nat, before: seq<Product>,
                 ghost shown: seq<Row>)
    returns (collected: seq<Product>, ghost kept: seq<Row>)
    requires |products| == |rows| && Distinct(products) && Ready(products, rows, stocks, 0)
    requires Loaded(before, shown) && |before| < limit && Apart(before, products, 0)
    modifies products
    ensures kept == Take(shown + Span(rows, stocks, 0, |rows|), limit) && Loaded(collected, kept)
    ensures forall i | 0 <= i < |collected| :: collected[i] in before || collected[i] in products
  {
    collected, kept := before, shown;
    for i := 0 to |products|
      invariant |collected| < limit && Apart(collected, products, i)
      invariant kept == shown + Span(rows, stocks, 0, i)
      invariant Loaded(collected, kept)
      invariant Ready(products, rows, stocks, i)
      invariant forall j | 0 <= j < |collected| :: collected[j] in before || collected[j] in products
    {
      var p := products[i];
      kept := kept + Visible(rows, stocks, i);
      Associate(shown, Span(rows, stocks, 0, i), Visible(rows, stocks, i));
      if p.id in stocks.available {
        p.stock := stocks.available[p.id];
      }
      assert p.stock == Shown(rows[i], stocks);
      if p.stock > 0 {
        collected := collected + [p];
        if |collected| >= limit {
          FullPage(kept, shown, rows, stocks, limit, i + 1);
          return;
        }
      }
    }
  }

  lemma FullPage(kept: seq<Row>, shown: seq<Row>, rows: seq<Row>, stocks: Stocks, limit: nat, n: nat)
    requires n <= |rows| && |kept| == limit && kept == shown + Span(rows, stocks, 0, n)
    ensures kept == Take(shown + Span(rows, stocks, 0, |rows|), limit)
  {
    SpanAppend(rows, stocks, 0, n, |rows|);
    Associate(shown, Span(rows, stocks, 0, n), Span(rows, stocks, n, |rows|));
  }

  lemma {:induction false} WindowSpan(rows: seq<Row>, stocks: Stocks, limit: nat, at: nat, n: nat)
    requires n <= limit
    ensures Span(rows, stocks, at, at + n) ==
            Span(Window(rows, limit, at), stocks, 0,
                 if n <= |Window(rows, limit, at)| then n else |Window(rows, limit, at)|)
  {
    if n > 0 {
      WindowSpan(rows, stocks, limit, at, n - 1);
    }
  }

  /** Where batch `k` starts. */
  function BatchOffset(limit: nat, offset: nat, k: nat): (at: nat)
    ensures at >= offset
  {
    if k == 0 then offset else BatchOffset(limit, offset, k - 1) + limit
  }

  lemma {:induction false} BatchOffsetIs(limit: nat, offset: nat, k: nat)
    ensures BatchOffset(limit, offset, k) == offset + k * limit
  {
    if k > 0 {
      BatchOffsetIs(limit, offset, k - 1);
      assert (k - 1) * limit + limit == k * limit;
    }
  }

  lemma {:induction false} BatchOffsetGrows(limit: nat, offset: nat, n: nat, k: nat)
    requires n <= k
    ensures BatchOffset(limit, offset, n) <= BatchOffset(limit, offset, k)
    ensures 0 < limit && n < k ==> BatchOffset(limit, offset, n) < BatchOffset(limit, offset, k)
  {
    if n < k {
      BatchOffsetGrows(limit, offset, n, k - 1);
    }
  }

  /** The batch at `at` is asked for: the rows reach that far and the batches before it do not fill the page. */
  predicate Asked(rows: seq<Row>, stocks: Stocks, limit: nat, offset: nat, at: nat) {
    at == offset || (offset < at <= |rows| && |Span(rows, stocks, offset, at)| < limit)
  }

  ghost predicate SomeBatchFails(rows: seq<Row>, stocks: Stocks, limit: nat, offset: nat, outages: set<nat>) {
    exists k | k in outages && k < MAX_BATCHES :: Asked(rows, stocks, limit, offset, BatchOffset(limit, offset, k))
  }

  /** After the batches up to `at` the page is full or the rows are at an end. */
  predicate Over(rows: seq<Row>, stocks: Stocks, limit: nat, offset: nat, at: nat) {
    |Span(rows, stocks, offset, at)| >= limit || |rows| < at
  }

  lemma NothingLater(rows: seq<Row>, stocks: Stocks, limit: nat, offset: nat, at: nat, later: nat)
    requires offset <= at <= later && Over(rows, stocks, limit, offset, at)
    ensures later > offset ==> !Asked(rows, stocks, limit, offset, later)
    ensures Take(Span(rows, stocks, offset, later), limit) == Take(Span(rows, stocks, offset, at), limit)
  {
    SpanAppend(rows, stocks, offset, at, later);
    if |rows| < at {
      SpanPastEnd(rows, stocks, at, later);
    }
  }

  lemma {:induction false} LoopEnds(rows: seq<Row>, stocks: Stocks, limit: nat, offset: nat, n: nat, max: nat)
    requires 0 < limit && 0 < n <= max
    requires n == max || Over(rows, stocks, limit, offset, BatchOffset(limit, offset, n))
    ensures Take(Span(rows, stocks, offset, BatchOffset(limit, offset, n)), limit) ==
            Take(Span(rows, stocks, offset, offset + max * limit), limit)
    ensures forall k: nat | n <= k < max :: !Asked(rows, stocks, limit, offset, BatchOffset(limit, offset, k))
  {
    BatchOffsetIs(limit, offset, max);
    BatchOffsetGrows(limit, offset, 0, n);
    if n < max {
      forall k: nat | n <= k <= max
        ensures !Asked(rows, stocks, limit, offset, BatchOffset(limit, offset, k))
        ensures Take(Span(rows, stocks, offset, BatchOffset(limit, offset, k)), limit) ==
                Take(Span(rows, stocks, offset, BatchOffset(limit, offset, n)), limit)
      {
        BatchOffsetGrows(limit, offset, n, k);
        NothingLater(rows, stocks, limit, offset, BatchOffset(limit, offset, n), BatchOffset(limit, offset, k));
      }
    }
  }

  lemma BatchSpan(rows: seq<Row>, stocks: Stocks, limit: nat, offset: nat, at: nat)
    requires offset <= at
    ensures var window := Window(rows, limit, at);
      Span(rows, stocks, offset, at + limit) == Span(rows, stocks, offset, at) + Span(window, stocks, 0, |window|)
  {
    SpanAppend(rows, stocks, offset, at, at + limit);
    var window := Window(rows, limit, at);
    assert Span(rows, stocks, at, at + limit) == Span(window, stocks, 0, |window|) by {
      WindowSpan(rows, stocks, limit, at, limit);
    }
  }

  /** One round of the loop: the query, the buffer and the collecting. */
  method Batch(rows: seq<Row>, stocks: Stocks, limit: nat, ghost offset: nat, at: nat, before: seq<Product>)
    returns (fetched: nat, collected: seq<Product>, ghost shown: seq<Row>)
    requires offset <= at && |before| < limit && Loaded(before, Span(rows, stocks, offset, at))
    ensures shown == Take(Span(rows, stocks, offset, at + limit), limit) && Loaded(collected, shown)
    ensures fetched < limit <==> |rows| < at + limit
    ensures forall i | 0 <= i < |collected| :: collected[i] in before || fresh(collected[i])
  {
    var window := Window(rows, limit, at);
    BatchSpan(rows, stocks, limit, offset, at);
    var products := Fetch(rows, limit, at);
    fetched := |products|;
    if fetched == 0 {
      collected, shown := before, Span(rows, stocks, offset, at);
      return;
    }
    ApplyStockBuffer(products, window, stocks);
    collected, shown := Collect(products, window, stocks, limit, before, Span(rows, stocks, offset, at));
  }

  /** The first `n` batches do not fail. */
  predicate Up(outages: set<nat>, n: nat) {
    forall k | k in outages :: n <= k
  }

  /** `n` batches are done, each of them full, and show `shown`. */
  predicate Progress(rows: seq<Row>, stocks: Stocks, limit: nat, offset: nat, outages: set<nat>, n: nat,
                     shown: seq<Row>)
  {
    && n <= MAX_BATCHES && Up(outages, n)
    && shown == Take(Span(rows, stocks, offset, BatchOffset(limit, offset, n)), limit)
    && (n == 0 || offset < BatchOffset(limit, offset, n) <= |rows|)
  }

  lemma NextBatch(rows: seq<Row>, stocks: Stocks, limit: nat, offset: nat, outages: set<nat>, n: nat, shown: seq<Row>,
                  next: seq<Row>)
    requires 0 < limit && n < MAX_BATCHES && n !in outages && |shown| < limit
    requires Progress(rows, stocks, limit, offset, outages, n, shown)
    requires next == Take(Span(rows, stocks, offset, BatchOffset(limit, offset, n) + limit), limit)
    ensures BatchOffset(limit, offset, n + 1) == BatchOffset(limit, offset, n) + limit
    ensures BatchOffset(limit, offset, n) + limit <= |rows| ==>
      Progress(rows, stocks, limit, offset, outages, n + 1, next)
    ensures BatchOffset(limit, offset, n) + limit > |rows| ==> Finished(rows, stocks, limit, offset, outages, next)
  {
    if BatchOffset(limit, offset, n) + limit > |rows| {
      LoopEnds(rows, stocks, limit, offset, n + 1, MAX_BATCHES);
    }
  }

  /** The page is made, and no batch that is asked for fails. */
  ghost predicate Finished(rows: seq<Row>, stocks: Stocks, limit: nat, offset: nat, outages: set<nat>,
                           shown: seq<Row>)
  {
    shown == Page(rows, stocks, limit, offset) && !SomeBatchFails(rows, stocks, limit, offset, outages)
  }

  lemma LastBatch(rows: seq<Row>, stocks: Stocks, limit: nat, offset: nat, outages: set<nat>, n: nat, shown: seq<Row>)
    requires 0 < limit && Progress(rows, stocks, limit, offset, outages, n, shown)
    requires n == MAX_BATCHES || |shown| >= limit
    ensures Finished(rows, stocks, limit, offset, outages, shown)
  {
    LoopEnds(rows, stocks, limit, offset, n, MAX_BATCHES);
  }

  lemma FailingBatch(rows: seq<Row>, stocks: Stocks, limit: nat, offset: nat, outages: set<nat>, n: nat,
                     shown: seq<Row>)
    requires 0 < limit && n < MAX_BATCHES && n in outages && |shown| < limit
    requires Progress(rows, stocks, limit, offset, outages, n, shown)
    ensures SomeBatchFails(rows, stocks, limit, offset, outages)
  {
    assert Asked(rows, stocks, limit, offset, BatchOffset(limit, offset, n));
  }

  /** `outages` are the batches whose query fails; one that is asked for fails the call. */
  method GetCatalogProducts(rows: seq<Row>, stocks: Stocks, limit: int, offset: nat, outages: set<nat>)
    returns (r: Option<seq<Product>>)
    ensures limit <= 0 ==> r == Some([])
    ensures limit > 0 ==> (r == None <==> SomeBatchFails(rows, stocks, limit, offset, outages))
    ensures limit > 0 && r.Some? ==> Loaded(r.value, Page(rows, stocks, limit, offset))
    ensures r.Some? ==> forall i | 0 <= i < |r.value| :: fresh(r.value[i])
  {
    if limit <= 0 {
      return Some([]);
    }
    var collected: seq<Product> := [];
    var batches: nat, batchOffset: nat := 0, offset;
    ghost var shown: seq<Row> := [];
    while batches < MAX_BATCHES && |collected| < limit
      invariant batchOffset == BatchOffset(limit, offset, batches)
      invariant Progress(rows, stocks, limit, offset, outages, batches, shown)
      invariant Loaded(collected, shown)
      invariant forall i | 0 <= i < |collected| :: fresh(collected[i])
    {
      if batches in outages {
        FailingBatch(rows, stocks, limit, offset, outages, batches, shown);
        return None;
      }
      var fetched;
      ghost var before := shown;
      fetched, collected, shown := Batch(rows, stocks, limit, offset, batchOffset, collected);
      NextBatch(rows, stocks, limit, offset, outages, batches, before, shown);
      if fetched < limit {
        return Some(collected);
      }
      batchOffset := batchOffset + limit;
      batches := batches + 1;
    }
    LastBatch(rows, stocks, limit, offset, outages, batches, shown);
    return Some(collected);
  }

  // ---- paging ----

  predicate Unique(rows: seq<Row>) {
    forall i, j | 0 <= i < j < |rows| :: rows[i].id != rows[j].id
  }

  /** What a span shows are rows of the span. */
  lemma {:induction false} SpanRows(rows: seq<Row>, stocks: Stocks, from: nat, to: nat, r: Row)
    requires r in Span(rows, stocks, from, to)
    ensures exists i | from <= i < to && i < |rows| :: rows[i].id == r.id
  {
    if r !in Visible(rows, stocks, to - 1) {
      SpanRows(rows, stocks, from, to - 1, r);
    }
  }

  ghost predicate Overlap(a: seq<Row>, b: seq<Row>) {
    exists r :: r in a && r in b
  }

  lemma SpansApart(rows: seq<Row>, stocks: Stocks, from: nat, mid: nat, to: nat)
    requires Unique(rows) && from <= mid <= to
    ensures !Overlap(Span(rows, stocks, from, mid), Span(rows, stocks, mid, to))
  {
    forall r | r in Span(rows, stocks, from, mid)
      ensures r !in Span(rows, stocks, mid, to)
    {
      SpanRows(rows, stocks, from, mid, r);
      if r in Span(rows, stocks, mid, to) {
        SpanRows(rows, stocks, mid, to, r);
      }
    }
  }

  /**
    Two pages a limit apart show a row twice exactly when the rows of the first page's own
    stretch do not fill it and the rest of its window has something to show.
   */
  lemma PagesOverlapIff(rows: seq<Row>, stocks: Stocks, limit: nat, offset: nat)
    requires Unique(rows) && limit > 0
    ensures Overlap(Page(rows, stocks, limit, offset), Page(rows, stocks, limit, offset + limit)) <==>
            |Span(rows, stocks, offset, offset + limit)| < limit
            && Span(rows, stocks, offset + limit, offset + MAX_BATCHES * limit) != []
  {
    var own, rest, next := TwoPages(rows, stocks, limit, offset);
    SpansApart(rows, stocks, offset, offset + limit, offset + limit + MAX_BATCHES * limit);
    OverlapOfTakes(own, rest, next, limit);
  }

  /** The first page is cut from its own stretch and the rest of its window; the next page's window begins with it. */
  lemma TwoPages(rows: seq<Row>, stocks: Stocks, limit: nat, offset: nat)
    returns (own: seq<Row>, rest: seq<Row>, next: seq<Row>)
    requires limit > 0
    ensures own == Span(rows, stocks, offset, offset + limit) && |own| <= limit
    ensures rest == Span(rows, stocks, offset + limit, offset + MAX_BATCHES * limit)
    ensures next == Span(rows, stocks, offset + limit, offset + limit + MAX_BATCHES * limit) && rest <= next
    ensures Page(rows, stocks, limit, offset) == Take(own + rest, limit)
    ensures Page(rows, stocks, limit, offset + limit) == Take(next, limit)
  {
    var mid, end, later := offset + limit, offset + MAX_BATCHES * limit, offset + limit + MAX_BATCHES * limit;
    own, rest, next := Span(rows, stocks, offset, mid), Span(rows, stocks, mid, end), Span(rows, stocks, mid, later);
    SpanAppend(rows, stocks, offset, mid, end);
    SpanAppend(rows, stocks, mid, end, later);
    SpanBound(rows, stocks, offset, mid);
  }

  lemma {:induction false} SpanBound(rows: seq<Row>, stocks: Stocks, from: nat, to: nat)
    requires from <= to
    ensures |Span(rows, stocks, from, to)| <= to - from
  {
    if from < to {
      SpanBound(rows, stocks, from, to - 1);
    }
  }

  lemma OverlapOfTakes(own: seq<Row>, rest: seq<Row>, next: seq<Row>, limit: nat)
    requires 0 < limit && |own| <= limit && rest <= next && !Overlap(own, next)
    ensures Overlap(Take(own + rest, limit), Take(next, limit)) <==> |own| < limit && rest != []
  {
    if |own| < limit && rest != [] {
      var r := rest[0];
      assert Take(own + rest, limit)[|own|] == r && Take(next, limit)[0] == r;
      assert r in Take(own + rest, limit) && r in Take(next, limit);
    } else {
      assert Take(own + rest, limit) == own;
      assert forall r | r in Take(next, limit) :: r in next;
    }
  }
}
