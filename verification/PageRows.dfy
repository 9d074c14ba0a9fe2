/** Which rows a catalogue page holds, and with what stock: the page in terms of the rows alone. */
module PageRows {
  import opened CatalogPages

  /** Something is left to sell: of the available stock where it is known, else of the row's less the buffer. */
  predicate InStock(row: Row, stocks: Stocks) {
    if row.id in stocks.available then stocks.available[row.id] > 0
    else if stocks.buffer <= 0.0 then row.stock > 0
    else row.stock as real * (100.0 - stocks.buffer) >= 100.0
  }

  /** `r` is the row with the available stock where it is known, else with the row's less the buffer, rounded down. */
  predicate ShowsRow(r: Row, row: Row, stocks: Stocks) {
    && r.id == row.id && r.stock > 0
    && (row.id in stocks.available ==> r.stock == stocks.available[row.id])
    && (row.id !in stocks.available && stocks.buffer <= 0.0 ==> r.stock == row.stock)
    && (row.id !in stocks.available && stocks.buffer > 0.0 ==>
          var left := row.stock as real * (100.0 - stocks.buffer);
          100.0 * r.stock as real <= left < 100.0 * r.stock as real + 100.0)
  }

  lemma Percent(stock: int, buffer: real)
    ensures var left := stock as real * (100.0 - buffer);
      if left >= 100.0
      then 100.0 * LessBuffer(stock, buffer) as real <= left < 100.0 * LessBuffer(stock, buffer) as real + 100.0
      else LessBuffer(stock, buffer) <= 0
  {
    var x := stock as real * (1.0 - buffer / 100.0);
    assert 100.0 * x == stock as real * (100.0 - buffer);
  }

  lemma RowShown(rows: seq<Row>, stocks: Stocks, k: nat)
    requires k < |rows|
    ensures if InStock(rows[k], stocks)
            then |Visible(rows, stocks, k)| == 1 && ShowsRow(Visible(rows, stocks, k)[0], rows[k], stocks)
            else Visible(rows, stocks, k) == []
  {
    Percent(rows[k].stock, stocks.buffer);
  }

  /** A span shows its rows in stock, all of them, once each and in order: `at` are their places. */
  lemma {:induction false} SpanExactly(rows: seq<Row>, stocks: Stocks, from: nat, to: nat) returns (at: seq<nat>)
    ensures |at| == |Span(rows, stocks, from, to)|
    ensures forall i | 0 <= i < |at| ::
      from <= at[i] < to && at[i] < |rows| && ShowsRow(Span(rows, stocks, from, to)[i], rows[at[i]], stocks)
    ensures forall i, j | 0 <= i < j < |at| :: at[i] < at[j]
    ensures forall k | from <= k < to && k < |rows| && InStock(rows[k], stocks) :: k in at
  {
    at := [];
    if from < to {
      at := SpanExactly(rows, stocks, from, to - 1);
      if to <= |rows| {
        RowShown(rows, stocks, to - 1);
        if InStock(rows[to - 1], stocks) {
          at := at + [to - 1];
        }
      }
    }
  }

  /**
    A page holds, in order and once each, rows in stock of the 20 * limit rows from `offset` on, at most
    `limit` of them. One that it passes over comes after a full page.
   */
  lemma PageExactly(rows: seq<Row>, stocks: Stocks, limit: nat, offset: nat) returns (at: seq<nat>)
    ensures |at| == |Page(rows, stocks, limit, offset)| <= limit
    ensures forall i | 0 <= i < |at| ::
      && offset <= at[i] < offset + 20 * limit && at[i] < |rows|
      && ShowsRow(Page(rows, stocks, limit, offset)[i], rows[at[i]], stocks)
    ensures forall i, j | 0 <= i < j < |at| :: at[i] < at[j]
    ensures forall k | offset <= k < offset + 20 * limit && k < |rows| && InStock(rows[k], stocks) && k !in at ::
      |at| == limit && forall i | 0 <= i < limit :: at[i] < k
  {
    var all := SpanExactly(rows, stocks, offset, offset + 20 * limit);
    at := if limit <= |all| then all[..limit] else all;
    forall k | k in all && k !in at
      ensures |at| == limit && forall i | 0 <= i < limit :: at[i] < k
    {
      PassedOver(all, limit, k);
    }
  }

  lemma PassedOver(all: seq<nat>, limit: nat, k: nat)
    requires limit <= |all| && k in all && k !in all[..limit]
    requires forall i, j | 0 <= i < j < |all| :: all[i] < all[j]
    ensures forall i | 0 <= i < limit :: all[i] < k
  {
    assert all == all[..limit] + all[limit..];
    var j :| 0 <= j < |all[limit..]| && all[limit..][j] == k;
  }
}
