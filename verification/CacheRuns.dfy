/**
  How old a stock served from the cache can be. An order hands the cache the row each of its
  decrements returned; a release, a sync and a cold read hand it rows as they stand. Each such
  write reaches the cache server later, in any order, any number of times or never.
 */
module CacheRuns {
  import opened Base
  import opened StockRows
  import opened OrderStores
  import opened StockCaches

  /** A cache write on its way: what it will store and when the shop got hold of it. */
  datatype Write = Write(id: int, stock: int, moyskladID: string, readAt: int)

  /** `tags` are the MoySklad ids of the products that have one. */
  datatype State = State(now: int, products: Table, tags: map<int, string>,
                         entries: map<int, Entry>, flying: set<Write>)

  datatype Event =
    | Tick(now: int)
    | Ordered(items: seq<Item>, updated: seq<(int, Product)>)             // a created order and the rows it hands over
    | Commit(products: Table, tags: map<int, string>, handed: set<int>)   // a release or a sync, and what it hands over
    | Read(id: int, moyskladID: string)                                   // a cold read, which will warm the cache
    | Arrive(write: Write)
    | Drop(ids: set<int>)                                                 // invalidation

  /** The product rows as the cache's queries read them. */
  function Rows(s: State): map<int, Row> {
    map id | id in s.products :: Row(s.products[id].stock, if id in s.tags then Some(s.tags[id]) else None)
  }

  function TagOf(tags: map<int, string>, id: int): string {
    if id in tags then tags[id] else ""
  }

  function Handed(products: Table, tags: map<int, string>, ids: set<int>, now: int): set<Write> {
    set id | id in ids && id in products :: Write(id, products[id].stock, TagOf(tags, id), now)
  }

  function HandedByOrder(updated: seq<(int, Product)>, tags: map<int, string>, now: int): set<Write> {
    set i | 0 <= i < |updated| :: Write(updated[i].0, updated[i].1.stock, TagOf(tags, updated[i].0), now)
  }

  predicate Enabled(s: State, e: Event, delay: nat) {
    match e
    case Tick(now) => s.now <= now
    case Ordered(items, updated) =>
      && Positive(items) && TakeAll(s.products, items).Some?
      && |updated| == |items| && RowsAfterLines(s.products, items, updated)
    case Commit(_, _, _) => true
    case Read(id, _) => id in s.products
    case Arrive(w) => w in s.flying && s.now <= w.readAt + delay
    case Drop(_) => true
  }

  function Apply(s: State, e: Event): State {
    match e
    case Tick(now) => s.(now := now)
    case Ordered(items, updated) =>
      var after := TakeAll(s.products, items);
      if after.None? then s
      else s.(products := after.value, flying := s.flying + HandedByOrder(updated, s.tags, s.now))
    case Commit(products, tags, handed) =>
      s.(products := products, tags := tags, flying := s.flying + Handed(products, tags, handed, s.now))
    case Read(id, ms) =>
      if id in s.products then s.(flying := s.flying + {Write(id, s.products[id].stock, ms, s.now)}) else s
    case Arrive(w) => s.(entries := Put(s.entries, w.id, w.moyskladID, w.stock, s.now))
    case Drop(ids) => s.(entries := s.entries - ids)
  }

  predicate Cleared(s: State) {
    s.entries == map[] && s.flying == {}
  }

  /** A run from an empty cache, no write of which is under way longer than `delay`. */
  predicate Run(states: seq<State>, events: seq<Event>, delay: nat) {
    && |states| == |events| + 1 && Cleared(states[0])
    && forall i | 0 <= i < |events| ::
         Enabled(states[i], events[i], delay) && states[i + 1] == Apply(states[i], events[i])
  }

  /** Every order of the run names each product once. */
  predicate DistinctOrders(events: seq<Event>) {
    forall i | 0 <= i < |events| && events[i].Ordered? :: DistinctProducts(events[i].items)
  }

  predicate Holds(s: State, id: int, stock: int, since: int) {
    s.now >= since && id in s.products && s.products[id].stock == stock
  }

  /** In one of the first `n` states, no earlier than `since`, the row of `id` held `stock`. */
  ghost predicate HeldSince(states: seq<State>, n: nat, id: int, stock: int, since: int) {
    exists j | 0 <= j < n <= |states| :: Holds(states[j], id, stock, since)
  }

  ghost predicate FlyingWasHeld(states: seq<State>, n: nat, w: Write) {
    HeldSince(states, n, w.id, w.stock, w.readAt)
  }

  ghost predicate EntryWasHeld(states: seq<State>, n: nat, id: int, entry: Entry, delay: nat) {
    HeldSince(states, n, id, entry.info.stock, entry.until - TTL - delay)
  }

  ghost predicate Inv(states: seq<State>, n: nat, delay: nat)
    requires n < |states|
  {
    && (forall w | w in states[n].flying :: FlyingWasHeld(states, n + 1, w))
    && (forall id | id in states[n].entries :: EntryWasHeld(states, n + 1, id, states[n].entries[id], delay))
  }

  /** What an order of distinct products hands over is what its commit leaves. */
  lemma OrderHandsCommitted(s: State, e: Event, w: Write, delay: nat)
    requires e.Ordered? && Enabled(s, e, delay) && DistinctProducts(e.items)
    requires w in HandedByOrder(e.updated, s.tags, s.now)
    ensures Holds(Apply(s, e), w.id, w.stock, w.readAt)
  {
    HandedRowsAreCommittedIffDistinct(s.products, e.items, e.updated);
    var i :| 0 <= i < |e.updated|
      && w == Write(e.updated[i].0, e.updated[i].1.stock, TagOf(s.tags, e.updated[i].0), s.now);
    assert HandedRowIsCommitted(TakeAll(s.products, e.items).value, e.updated[i]);
  }

  lemma StepKeepsInv(states: seq<State>, n: nat, e: Event, delay: nat)
    requires n + 1 < |states| && Inv(states, n, delay)
    requires Enabled(states[n], e, delay) && states[n + 1] == Apply(states[n], e)
    requires e.Ordered? ==> DistinctProducts(e.items)
    ensures Inv(states, n + 1, delay)
  {
    var s, t := states[n], states[n + 1];
    forall w | w in t.flying
      ensures FlyingWasHeld(states, n + 2, w)
    {
      if w in s.flying {
        assert FlyingWasHeld(states, n + 1, w);
      } else {
        if e.Ordered? {
          OrderHandsCommitted(s, e, w, delay);
        }
        assert Holds(t, w.id, w.stock, w.readAt);
      }
    }
    forall id | id in t.entries
      ensures EntryWasHeld(states, n + 2, id, t.entries[id], delay)
    {
      if e.Arrive? && id == e.write.id {
        assert FlyingWasHeld(states, n + 1, e.write);
        var j :| 0 <= j < n + 1 && Holds(states[j], id, e.write.stock, e.write.readAt);
        assert Holds(states[j], id, e.write.stock, t.entries[id].until - TTL - delay);
      } else {
        assert EntryWasHeld(states, n + 1, id, s.entries[id], delay);
      }
    }
  }

  lemma {:induction false} RunKeepsInv(states: seq<State>, events: seq<Event>, n: nat, delay: nat)
    requires Run(states, events, delay) && DistinctOrders(events) && n < |states|
    ensures Inv(states, n, delay)
  {
    if n > 0 {
      RunKeepsInv(states, events, n - 1, delay);
      StepKeepsInv(states, n - 1, events[n - 1], delay);
    }
  }

  /** If the cache answers for `id`, its stock was the row's no earlier than 30 minutes and the delay ago. */
  ghost predicate Fresh(states: seq<State>, n: nat, delay: nat, id: int)
    requires n < |states|
  {
    var s := states[n];
    Seen(s.entries, id, s.now).Some? ==>
      HeldSince(states, n + 1, id, Seen(s.entries, id, s.now).value.stock, s.now - TTL - delay)
  }

  /**
    Whatever orders, commits, delayed or lost writes, cold reads, invalidations and expiries
    came before: while every order names distinct products, a stock served from the cache at t
    was the row's stock at some moment of the run no earlier than t - 30 minutes - the largest
    delay of a cache write.
   */
  lemma ServedStockIsRecent(states: seq<State>, events: seq<Event>, n: nat, delay: nat, id: int)
    requires Run(states, events, delay) && DistinctOrders(events) && n < |states|
    ensures Fresh(states, n, delay, id)
  {
    RunKeepsInv(states, events, n, delay);
    if Seen(states[n].entries, id, states[n].now).Some? {
      var entry := states[n].entries[id];
      assert EntryWasHeld(states, n + 1, id, entry, delay);
      var j :| 0 <= j < n + 1 && Holds(states[j], id, entry.info.stock, entry.until - TTL - delay);
      assert Holds(states[j], id, entry.info.stock, states[n].now - TTL - delay);
    }
  }

  /** With no counter set, a positive stock shown by a batch is a recent stock of the row, whatever fails. */
  lemma ShownStockIsRecent(states: seq<State>, events: seq<Event>, n: nat, delay: nat, id: int, f: Faults)
    requires Run(states, events, delay) && DistinctOrders(events) && n < |states|
    requires InBatch(states[n].entries, map[], Rows(states[n]), id, states[n].now, f) > 0
    ensures HeldSince(states, n + 1, id, InBatch(states[n].entries, map[], Rows(states[n]), id, states[n].now, f),
                      states[n].now - TTL - delay)
  {
    var s := states[n];
    if !Cold(s.entries, id, s.now, f) {
      ServedStockIsRecent(states, events, n, delay, id);
    } else {
      assert Holds(s, id, s.products[id].stock, s.now - TTL - delay);
    }
  }

  // ---- when freshness holds ----

  /** Every order of the run is the given one or names distinct products. */
  predicate OnlyOrder(events: seq<Event>, items: seq<Item>) {
    forall i | 0 <= i < |events| && events[i].Ordered? :: events[i].items == items || DistinctProducts(events[i].items)
  }

  /** A run that starts on `table`. */
  predicate StartsWith(states: seq<State>, events: seq<Event>, table: Table, items: seq<Item>, delay: nat) {
    Run(states, events, delay) && states[0].products == table && OnlyOrder(events, items)
  }

  ghost predicate FreshThroughout(states: seq<State>, delay: nat) {
    forall n: nat, id | n < |states| :: Fresh(states, n, delay, id)
  }

  /** Every run that starts on `table` and may contain the order serves only recent stocks. */
  ghost predicate AlwaysFresh(table: Table, items: seq<Item>, delay: nat) {
    forall states: seq<State>, events: seq<Event> | StartsWith(states, events, table, items, delay) ::
      FreshThroughout(states, delay)
  }

  lemma PrefixSucceeds(table: Table, items: seq<Item>, i: nat)
    requires TakeAll(table, items).Some? && i < |items|
    ensures TakeAll(table, items[..i + 1]).Some? && items[i].product in TakeAll(table, items[..i + 1]).value
  {
    if TakeAll(table, items[..i + 1]).None? {
      FailedPrefixFailsAll(table, items, i + 1);
    }
    if TakeAll(table, items[..i]).None? {
      FailedPrefixFailsAll(table, items, i);
    }
    assert items[..i + 1] == items[..i] + [items[i]];
    TakeAllAppend(table, items[..i], items[i]);
  }

  /** The row the decrement of line `i` returns. */
  function UpdatedRow(table: Table, items: seq<Item>, i: nat): (row: (int, Product))
    requires TakeAll(table, items).Some? && i < |items|
    ensures RowAfterLine(table, items, i, row)
  {
    PrefixSucceeds(table, items, i);
    (items[i].product, TakeAll(table, items[..i + 1]).value[items[i].product])
  }

  function Updated(table: Table, items: seq<Item>): (updated: seq<(int, Product)>)
    requires TakeAll(table, items).Some?
    ensures |updated| == |items| && RowsAfterLines(table, items, updated)
  {
    seq(|items|, i requires 0 <= i < |items| => UpdatedRow(table, items, i))
  }

  /** The order commits, the write of its line `i` arrives and the others are lost. */
  function OneWriteArrives(table: Table, items: seq<Item>, i: nat): (run: (seq<State>, seq<Event>))
    requires TakeAll(table, items).Some? && i < |items|
    ensures |run.0| == 3 && |run.1| == 2
  {
    var updated := Updated(table, items);
    var start := State(0, table, map[], map[], {});
    var write := Write(updated[i].0, updated[i].1.stock, "", 0);
    var events := [Ordered(items, updated), Arrive(write)];
    ([start, Apply(start, events[0]), Apply(Apply(start, events[0]), events[1])], events)
  }

  lemma OneWriteArrivesRuns(table: Table, items: seq<Item>, i: nat, delay: nat)
    requires Positive(items) && TakeAll(table, items).Some? && i < |items|
    ensures var (states, events) := OneWriteArrives(table, items, i);
      StartsWith(states, events, table, items, delay)
  {
    var (states, events) := OneWriteArrives(table, items, i);
    assert Enabled(states[1], events[1], delay) by {
      assert events[1].write in HandedByOrder(Updated(table, items), map[], 0);
    }
    assert Enabled(states[0], events[0], delay) && !events[1].Ordered?;
  }

  /** If a later line takes from the same product, the cache now serves a stock the row has never held. */
  lemma RepeatedLineIsServedStale(table: Table, items: seq<Item>, i: nat, since: int)
    requires Positive(items) && TakeAll(table, items).Some? && i < |items|
    requires items[i].product in Named(items[i + 1..])
    ensures var states := OneWriteArrives(table, items, i).0;
      var seen := Seen(states[2].entries, items[i].product, states[2].now);
      seen.Some? && !HeldSince(states, 3, items[i].product, seen.value.stock, since)
  {
    var states := OneWriteArrives(table, items, i).0;
    var p, row := items[i].product, Updated(table, items)[i];
    assert RowAfterLine(table, items, i, row);
    HandedRowIsCommittedIffLast(table, items, i, row);
    assert items[..i + 1][i] == items[i];
    assert p in Named(items[..i + 1]);
    StockAfterPrefix(table, items, i + 1, p);
    DemandBounds(items[..i + 1], p);
    forall j | 0 <= j < 3
      ensures !Holds(states[j], p, row.1.stock, since)
    {
      assert states[j].products == table || states[j].products == TakeAll(table, items).value;
    }
  }

  /**
    The served stocks are recent in every run around an order exactly when the order names
    distinct products. A caller can check it on the cart.
   */
  lemma FreshIffDistinct(table: Table, items: seq<Item>, delay: nat)
    requires Positive(items) && TakeAll(table, items).Some?
    ensures AlwaysFresh(table, items, delay) <==> DistinctProducts(items)
  {
    if DistinctProducts(items) {
      forall states: seq<State>, events: seq<Event> | StartsWith(states, events, table, items, delay)
        ensures FreshThroughout(states, delay)
      {
        forall n: nat, id | n < |states|
          ensures Fresh(states, n, delay, id)
        {
          ServedStockIsRecent(states, events, n, delay, id);
        }
      }
    } else {
      DistinctIffNoneNamedLater(items);
      var i: nat :| i < |items| && items[i].product in Named(items[i + 1..]);
      var (states, events) := OneWriteArrives(table, items, i);
      OneWriteArrivesRuns(table, items, i, delay);
      RepeatedLineIsServedStale(table, items, i, states[2].now - TTL - delay);
      assert !Fresh(states, 2, delay, items[i].product);
    }
  }

  /** Lines (7, 1) and (7, 2) on a stock of 5: if the second write is lost, 4 is served, which was never the stock. */
  lemma LostSecondWriteServesUncommittedStock(since: int)
    ensures
      var table: Table := map[7 := Product(5, true, Active)];
      var items := [Item(7, 1), Item(7, 2)];
      && TakeAll(table, items).Some?
      && var (states, events) := OneWriteArrives(table, items, 0);
      && Run(states, events, 0)
      && Seen(states[2].entries, 7, states[2].now) == Some(StockInfo(4, 0, ""))
      && !HeldSince(states, 3, 7, 4, since)
  {
    var table: Table := map[7 := Product(5, true, Active)];
    var items := [Item(7, 1), Item(7, 2)];
    RepeatedLineHandsOverUncommittedStock();
    assert items[1..][0] == Item(7, 2);
    OneWriteArrivesRuns(table, items, 0, 0);
    RepeatedLineIsServedStale(table, items, 0, since);
    assert RowAfterLine(table, items, 0, Updated(table, items)[0]);
  }

  // ---- the cache's own calls are runs ----

  /** Events that lead from `s` to `t` with every write arriving at once. */
  ghost predicate Leads(s: State, t: State, events: seq<Event>)
    decreases |events|
  {
    if events == [] then s == t
    else Enabled(s, events[0], 0) && Leads(Apply(s, events[0]), t, events[1..])
  }

  /** The cold read of one product, and its cache write unless that is lost. */
  function Warming(rows: map<int, Row>, id: int, now: int, lost: bool): seq<Event>
    requires id in rows
  {
    [Read(id, Tag(rows[id]))] + (if lost then [] else [Arrive(Write(id, rows[id].stock, Tag(rows[id]), now))])
  }

  lemma {:induction false} LeadsOn(s: State, t: State, u: State, first: seq<Event>, second: seq<Event>)
    requires Leads(s, t, first) && Leads(t, u, second)
    ensures Leads(s, u, first + second)
    decreases |first|
  {
    if first == [] {
      assert first + second == second;
    } else {
      LeadsOn(Apply(s, first[0]), t, u, first[1..], second);
      assert (first + second)[1..] == first[1..] + second;
    }
  }

  lemma WarmingLeads(s: State, id: int, lost: bool)
    requires id in s.products
    ensures var t := s.(flying := s.flying + {Write(id, s.products[id].stock, TagOf(s.tags, id), s.now)});
      Leads(s, if lost then t else t.(entries := Put(s.entries, id, TagOf(s.tags, id), s.products[id].stock, s.now)),
            Warming(Rows(s), id, s.now, lost))
  {
    var events := Warming(Rows(s), id, s.now, lost);
    var t := Apply(s, events[0]);
    if lost {
      assert Leads(t, t, events[1..]);
    } else {
      assert events[1..][1..] == [];
      assert Leads(Apply(t, events[1]), Apply(t, events[1]), events[1..][1..]);
      assert Leads(t, Apply(t, events[1]), events[1..]);
    }
  }

  lemma {:induction false} WarmingRun(s: State, ids: seq<int>, f: Faults) returns (t: State, events: seq<Event>)
    ensures Leads(s, t, events)
    ensures t.now == s.now && t.products == s.products && t.tags == s.tags
    ensures WarmedAll(s.entries, t.entries, Rows(s), ids, s.now, f)
  {
    if ids == [] {
      t, events := s, [];
    } else {
      var front, id := ids[..|ids| - 1], ids[|ids| - 1];
      var mid, first := WarmingRun(s, front, f);
      t, events := mid, first;
      assert ids == front + [id];
      if Cold(s.entries, id, s.now, f) && !f.query && id in s.products {
        WarmingLeads(mid, id, id in f.writes);
        events := Warming(Rows(mid), id, mid.now, id in f.writes);
        t := mid.(flying := mid.flying + {Write(id, mid.products[id].stock, TagOf(mid.tags, id), mid.now)});
        if id !in f.writes {
          t := t.(entries := Put(mid.entries, id, TagOf(mid.tags, id), mid.products[id].stock, mid.now));
        }
        LeadsOn(s, mid, t, first, events);
        events := first + events;
        WarmStep(s.entries, mid.entries, Rows(s), front, id, s.now, f);
      } else {
        ColdUnchanged(s.entries, mid.entries, Rows(s), front, id, s.now, f);
      }
    }
  }

  /**
    What a batch call leaves in the cache is what a run of cold reads and arrivals leaves: the
    theorems about runs cover it.
   */
  lemma BatchIsARun(s: State, ids: seq<int>, f: Faults, after: map<int, Entry>) returns (t: State, events: seq<Event>)
    requires WarmedAll(s.entries, after, Rows(s), ids, s.now, f)
    ensures Leads(s, t, events) && t.entries == after && t.now == s.now && t.products == s.products && t.tags == s.tags
  {
    t, events := WarmingRun(s, ids, f);
    forall id
      ensures Lookup(t.entries, id) == Lookup(after, id)
    {
      assert Lookup(t.entries, id) == Warmed(s.entries, Rows(s), ids, id, s.now, f);
    }
    SameEntries(t.entries, after);
  }

  lemma SameEntries(a: map<int, Entry>, b: map<int, Entry>)
    requires forall id :: Lookup(a, id) == Lookup(b, id)
    ensures a == b
  {
    forall id
      ensures id in a <==> id in b
      ensures id in a ==> a[id] == b[id]
    {
      assert Lookup(a, id) == Lookup(b, id);
    }
  }

  lemma ColdUnchanged(before: map<int, Entry>, after: map<int, Entry>, rows: map<int, Row>, ids: seq<int>, id: int,
                      now: int, f: Faults)
    requires WarmedAll(before, after, rows, ids, now, f)
    requires !(Cold(before, id, now, f) && !f.query && id in rows)
    ensures WarmedAll(before, after, rows, ids + [id], now, f)
  {
    forall x
      ensures Lookup(after, x) == Warmed(before, rows, ids + [id], x, now, f)
    {
      assert Lookup(after, x) == Warmed(before, rows, ids, x, now, f);
      assert x in ids + [id] <==> x in ids || x == id;
    }
  }

  /** The row changes right after it is read, the write takes the whole delay and the entry lives its whole life. */
  function Stalest(id: int, was: int, becomes: int, delay: nat): (run: (seq<State>, seq<Event>))
    ensures |run.0| == 6 && |run.1| == 5
  {
    var start := State(0, map[id := Product(was, true, Active)], map[], map[], {});
    var events := [Read(id, ""), Commit(map[id := Product(becomes, true, Active)], map[], {}), Tick(delay),
                   Arrive(Write(id, was, "", 0)), Tick(delay + TTL)];
    var read := Apply(start, events[0]);
    var changed := Apply(read, events[1]);
    var late := Apply(changed, events[2]);
    var stored := Apply(late, events[3]);
    ([start, read, changed, late, stored, Apply(stored, events[4])], events)
  }

  /** The bound is reached: a served stock can be one the row last held exactly 30 minutes and the delay ago. */
  lemma BoundIsTight(id: int, was: int, becomes: int, delay: nat)
    requires was != becomes
    ensures var (states, events) := Stalest(id, was, becomes, delay);
      && Run(states, events, delay) && DistinctOrders(events)
      && Seen(states[5].entries, id, states[5].now).Some?
      && Seen(states[5].entries, id, states[5].now).value.stock == was
      && !HeldSince(states, 6, id, was, states[5].now - TTL - delay + 1)
  {
    var (states, events) := Stalest(id, was, becomes, delay);
    assert Enabled(states[3], events[3], delay);
  }
}
