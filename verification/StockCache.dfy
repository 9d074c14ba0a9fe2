/**
  The stock cache of internal/cache/redis.go. Entries live for thirty minutes; `Faults`
  says which calls to the cache server or to the database fail. The clock is an integer
  number of nanoseconds.
 */
module StockCaches {
  import opened Base

  const TTL: int := 30 * 60 * 1_000_000_000

  datatype Row = Row(stock: int, moyskladID: Option<string>)

  datatype StockInfo = StockInfo(stock: int, cachedAt: int, moyskladID: string)

  datatype Entry = Entry(info: StockInfo, until: int)

  /** Ids whose cached stock, reservation counter or cache write or delete fails, and whether the product query does. */
  datatype Faults = Faults(stockReads: set<int>, counterReads: set<int>, query: bool, writes: set<int>)

  function Put(entries: map<int, Entry>, id: int, moyskladID: string, stock: int, now: int): map<int, Entry> {
    entries[id := Entry(StockInfo(stock, now, moyskladID), now + TTL)]
  }

  /** What the server answers: an entry past its time to live is gone. */
  function Seen(entries: map<int, Entry>, id: int, now: int): Option<StockInfo> {
    if id in entries && now <= entries[id].until then Some(entries[id].info) else None
  }

  function Floor0(n: int): (m: int)
    ensures m >= 0 && (m == n || (m == 0 && n < 0))
  {
    if n < 0 then 0 else n
  }

  function Reserved(reserved: map<int, nat>, id: int): nat {
    if id in reserved then reserved[id] else 0
  }

  /** The answer for one product: the counter is subtracted from a cached and from a fetched stock alike. */
  function Single(entries: map<int, Entry>, reserved: map<int, nat>, rows: map<int, Row>, id: int, now: int,
                  f: Faults): Option<int>
  {
    if id in f.stockReads then None
    else
      var stock :=
        if Seen(entries, id, now).Some? then Some(Seen(entries, id, now).value.stock)
        else if f.query || id !in rows then None
        else Some(rows[id].stock);
      if stock == None || id in f.counterReads then None
      else Some(Floor0(stock.value - Reserved(reserved, id)))
  }

  predicate Cold(entries: map<int, Entry>, id: int, now: int, f: Faults) {
    id in f.stockReads || Seen(entries, id, now) == None
  }

  /** The batch answer for one id: no counter for a cold id, and 0 for a cold id with no row. */
  function InBatch(entries: map<int, Entry>, reserved: map<int, nat>, rows: map<int, Row>, id: int, now: int,
                   f: Faults): int
  {
    if Cold(entries, id, now, f) then
      if f.query || id !in rows then 0 else Floor0(rows[id].stock)
    else
      Floor0(Seen(entries, id, now).value.stock - (if id in f.counterReads then 0 else Reserved(reserved, id)))
  }

  function Tag(row: Row): string {
    if row.moyskladID.Some? then row.moyskladID.value else ""
  }

  /** The entry of `id` once a batch over `ids` has warmed the cache. */
  function Warmed(entries: map<int, Entry>, rows: map<int, Row>, ids: seq<int>, id: int, now: int,
                  f: Faults): Option<Entry>
  {
    if id in ids && Cold(entries, id, now, f) && !f.query && id in rows && id !in f.writes then
      Some(Entry(StockInfo(rows[id].stock, now, Tag(rows[id])), now + TTL))
    else if id in entries then Some(entries[id]) else None
  }

  function Lookup(entries: map<int, Entry>, id: int): Option<Entry> {
    if id in entries then Some(entries[id]) else None
  }

  ghost predicate WarmedAll(before: map<int, Entry>, after: map<int, Entry>, rows: map<int, Row>, ids: seq<int>,
                            now: int, f: Faults)
  {
    forall id {:trigger Lookup(after, id)} :: Lookup(after, id) == Warmed(before, rows, ids, id, now, f)
  }

  lemma WarmStep(before: map<int, Entry>, after: map<int, Entry>, rows: map<int, Row>, ids: seq<int>, id: int,
                 now: int, f: Faults)
    requires WarmedAll(before, after, rows, ids, now, f) && id in rows && !f.query && Cold(before, id, now, f)
    ensures
      var next := if id in f.writes then after else Put(after, id, Tag(rows[id]), rows[id].stock, now);
      WarmedAll(before, next, rows, ids + [id], now, f)
  {
    var next := if id in f.writes then after else Put(after, id, Tag(rows[id]), rows[id].stock, now);
    forall x
      ensures Lookup(next, x) == Warmed(before, rows, ids + [id], x, now, f)
    {
      assert Lookup(after, x) == Warmed(before, rows, ids, x, now, f);
      assert x in ids + [id] <==> x in ids || x == id;
    }
  }

  /** The table's rows for `ids`, each once, whatever repeats in `ids`. */
  method GetByIDs(rows: map<int, Row>, ids: seq<int>) returns (found: seq<int>)
    ensures forall id :: id in found <==> id in ids && id in rows
    ensures forall i, j | 0 <= i < j < |found| :: found[i] != found[j]
  {
    found := [];
    for k := 0 to |ids|
      invariant forall id :: id in found <==> id in ids[..k] && id in rows
      invariant forall i, j | 0 <= i < j < |found| :: found[i] != found[j]
    {
      if ids[k] in rows && ids[k] !in found {
        found := found + [ids[k]];
      }
    }
  }

  class StockCache {
    var entries: map<int, Entry>
    var reserved: map<int, nat>

    constructor ()
      ensures entries == map[] && reserved == map[]
    {
      entries, reserved := map[], map[];
    }

    method SetStock(id: int, moyskladID: string, stock: int, now: int, f: Faults) returns (ok: bool)
      modifies this`entries
      ensures ok == (id !in f.writes)
      ensures entries == if ok then Put(old(entries), id, moyskladID, stock, now) else old(entries)
      ensures ok ==>
        entries == old(entries)[id := Entry(StockInfo(stock, now, moyskladID), now + 1_800_000_000_000)]
    {
      ok := id !in f.writes;
      if ok {
        entries := entries[id := Entry(StockInfo(stock, now, moyskladID), now + TTL)];
      }
    }

    /** `None`: the read failed. `Some(None)`: nothing is cached. */
    method GetStock(id: int, now: int, f: Faults) returns (r: Option<Option<StockInfo>>)
      ensures r == if id in f.stockReads then None else Some(Seen(entries, id, now))
      ensures r.Some? ==>
        r.value == if id in entries && now <= entries[id].until then Some(entries[id].info) else None
    {
      if id in f.stockReads {
        return None;
      }
      if id in entries && now <= entries[id].until {
        return Some(Some(entries[id].info));
      }
      return Some(None);
    }

    method InvalidateStock(id: int, f: Faults) returns (ok: bool)
      modifies this`entries
      ensures ok == (id !in f.writes)
      ensures entries == if ok then old(entries) - {id} else old(entries)
    {
      ok := id !in f.writes;
      if ok {
        entries := entries - {id};
      }
    }

    method GetAvailableStock(id: int, rows: map<int, Row>, now: int, f: Faults) returns (r: Option<int>)
      modifies this`entries
      ensures r == Single(old(entries), reserved, rows, id, now, f)
      ensures entries ==
              if id !in f.stockReads && Seen(old(entries), id, now) == None && !f.query && id in rows && id !in f.writes
              then Put(old(entries), id, "", rows[id].stock, now)
              else old(entries)
    {
      var info := GetStock(id, now, f);
      if info == None {
        return None;
      }
      var stock: int;
      if info.value == None {
        if f.query || id !in rows {
          return None;
        }
        var _ := SetStock(id, "", rows[id].stock, now, f);
        stock := rows[id].stock;
      } else {
        stock := info.value.value.stock;
      }
      if id in f.counterReads {
        return None;
      }
      var available := stock - Reserved(reserved, id);
      if available < 0 {
        available := 0;
      }
      return Some(available);
    }

    /** Reads every id, then fetches the cold ones in one query and warms the cache with them. */
    method BatchGetAvailableStocks(ids: seq<int>, rows: map<int, Row>, now: int, f: Faults)
      returns (result: map<int, int>)
      modifies this`entries
      ensures result.Keys == set id | id in ids
      ensures forall id | id in ids :: result[id] == InBatch(old(entries), reserved, rows, id, now, f)
      ensures WarmedAll(old(entries), entries, rows, ids, now, f)
    {
      var stockMap, reservedMap, cold := ReadAll(ids, now, f);
      if |cold| > 0 {
        stockMap := FetchCold(cold, stockMap, rows, now, f);
      }
      result := map[];
      for k := 0 to |ids|
        invariant result.Keys == set id | id in ids[..k]
        invariant forall id | id in ids[..k] :: result[id] == InBatch(old(entries), reserved, rows, id, now, f)
      {
        var available := stockMap[ids[k]] - (if ids[k] in reservedMap then reservedMap[ids[k]] else 0);
        if available < 0 {
          available := 0;
        }
        result := result[ids[k] := available];
      }
    }

    /** The pipeline: the stocks and counters of the hot ids, and the list of the cold ones. */
    method ReadAll(ids: seq<int>, now: int, f: Faults)
      returns (stockMap: map<int, int>, reservedMap: map<int, int>, cold: seq<int>)
      ensures forall id :: id in cold <==> id in ids && Cold(entries, id, now, f)
      ensures stockMap.Keys == set id | id in ids && !Cold(entries, id, now, f)
      ensures forall id | id in stockMap :: stockMap[id] == Seen(entries, id, now).value.stock
      ensures reservedMap.Keys == set id | id in stockMap && id !in f.counterReads && id in reserved
      ensures forall id | id in reservedMap :: id in reserved && reservedMap[id] == reserved[id]
    {
      stockMap, reservedMap, cold := map[], map[], [];
      for k := 0 to |ids|
        invariant forall id :: id in cold <==> id in ids[..k] && Cold(entries, id, now, f)
        invariant stockMap.Keys == set id | id in ids[..k] && !Cold(entries, id, now, f)
        invariant forall id | id in stockMap :: stockMap[id] == Seen(entries, id, now).value.stock
        invariant reservedMap.Keys == set id | id in stockMap && id !in f.counterReads && id in reserved
        invariant forall id | id in reservedMap :: id in reserved && reservedMap[id] == reserved[id]
      {
        var id := ids[k];
        if id in f.stockReads || id !in entries || now > entries[id].until {
          cold := cold + [id];
        } else {
          stockMap := stockMap[id := entries[id].info.stock];
          if id !in f.counterReads && id in reserved {
            reservedMap := reservedMap[id := reserved[id]];
          }
        }
      }
    }

    method Warm(found: seq<int>, stockMap: map<int, int>, rows: map<int, Row>, now: int, f: Faults)
      returns (filled: map<int, int>)
      requires !f.query
      requires forall id | id in found :: id in rows && id !in stockMap && Cold(entries, id, now, f)
      modifies this`entries
      ensures filled.Keys == stockMap.Keys + set id | id in found
      ensures forall id | id in stockMap :: filled[id] == stockMap[id]
      ensures forall id | id in found :: filled[id] == rows[id].stock
      ensures WarmedAll(old(entries), entries, rows, found, now, f)
    {
      filled := stockMap;
      for k := 0 to |found|
        invariant filled.Keys == stockMap.Keys + set id | id in found[..k]
        invariant forall id | id in stockMap :: filled[id] == stockMap[id]
        invariant forall id | id in found[..k] :: filled[id] == rows[id].stock
        invariant WarmedAll(old(entries), entries, rows, found[..k], now, f)
      {
        var id := found[k];
        WarmStep(old(entries), entries, rows, found[..k], id, now, f);
        assert found[..k + 1] == found[..k] + [id];
        filled := filled[id := rows[id].stock];
        var _ := SetStock(id, Tag(rows[id]), rows[id].stock, now, f);
      }
    }

    method FetchCold(cold: seq<int>, stockMap: map<int, int>, rows: map<int, Row>, now: int, f: Faults)
      returns (filled: map<int, int>)
      requires forall id | id in cold :: id !in stockMap && Cold(entries, id, now, f)
      modifies this`entries
      ensures filled.Keys == stockMap.Keys + set id | id in cold
      ensures forall id | id in stockMap :: filled[id] == stockMap[id]
      ensures forall id | id in cold :: filled[id] == if !f.query && id in rows then rows[id].stock else 0
      ensures WarmedAll(old(entries), entries, rows, cold, now, f)
    {
      filled := stockMap;
      if !f.query {
        var found := GetByIDs(rows, cold);
        filled := Warm(found, stockMap, rows, now, f);
        forall id
          ensures Warmed(old(entries), rows, found, id, now, f) == Warmed(old(entries), rows, cold, id, now, f)
        {
        }
      }
      for k := 0 to |cold|
        invariant filled.Keys >= stockMap.Keys + set id | id in cold[..k]
        invariant filled.Keys <= stockMap.Keys + set id | id in cold
        invariant forall id | id in stockMap :: filled[id] == stockMap[id]
        invariant forall id | id in cold && !f.query && id in rows :: id in filled && filled[id] == rows[id].stock
        invariant forall id | id in filled && id in cold && (f.query || id !in rows) :: filled[id] == 0
      {
        if cold[k] !in filled {
          filled := filled[cold[k] := 0];
        }
      }
    }
  }

  /**
    What the two readers answer for one product when nothing fails: the cached stock, or the row's if
    nothing live is cached, less the reservation counter, never below zero; a batch leaves the counter
    out for a product it has to fetch, and answers 0 for one that has no row.
   */
  lemma AnswersMean(entries: map<int, Entry>, reserved: map<int, nat>, rows: map<int, Row>, id: int, now: int)
    ensures var ok := Faults({}, {}, false, {});
      var counter := if id in reserved then reserved[id] else 0;
      if id in entries && now <= entries[id].until then
        && Single(entries, reserved, rows, id, now, ok) == Some(Floor0(entries[id].info.stock - counter))
        && InBatch(entries, reserved, rows, id, now, ok) == Floor0(entries[id].info.stock - counter)
      else if id in rows then
        && Single(entries, reserved, rows, id, now, ok) == Some(Floor0(rows[id].stock - counter))
        && InBatch(entries, reserved, rows, id, now, ok) == Floor0(rows[id].stock)
      else
        Single(entries, reserved, rows, id, now, ok) == None && InBatch(entries, reserved, rows, id, now, ok) == 0
  {
  }

  /** What fails where: a batch goes on with what it has, the single reader gives up. */
  lemma FailuresMean(entries: map<int, Entry>, reserved: map<int, nat>, rows: map<int, Row>,
                     id: int, now: int, f: Faults)
    ensures id in f.stockReads ==>
      && Single(entries, reserved, rows, id, now, f) == None
      && InBatch(entries, reserved, rows, id, now, f) == if !f.query && id in rows then Floor0(rows[id].stock) else 0
    ensures id !in f.stockReads && id in f.counterReads ==>
      && Single(entries, reserved, rows, id, now, f) == None
      && (id in entries && now <= entries[id].until ==>
            InBatch(entries, reserved, rows, id, now, f) == Floor0(entries[id].info.stock))
    ensures id !in f.stockReads && f.query && !(id in entries && now <= entries[id].until) ==>
      Single(entries, reserved, rows, id, now, f) == None && InBatch(entries, reserved, rows, id, now, f) == 0
  {
  }

  /** What a batch leaves in the cache: the fetched rows, for thirty minutes, and everything else as it was. */
  lemma WarmingMeans(before: map<int, Entry>, after: map<int, Entry>, rows: map<int, Row>, ids: seq<int>,
                     id: int, now: int, f: Faults)
    requires WarmedAll(before, after, rows, ids, now, f)
    ensures
      var fetched := id in ids && id in rows && !f.query && id !in f.writes
        && (id in f.stockReads || id !in before || before[id].until < now);
      if fetched then
        && id in after && after[id].until == now + 1_800_000_000_000
        && after[id].info.stock == rows[id].stock && after[id].info.cachedAt == now
      else
        (id in after <==> id in before) && (id in after ==> after[id] == before[id])
  {
    assert Lookup(after, id) == Warmed(before, rows, ids, id, now, f);
  }

  /**
    One product asked for alone and in a batch gets the same answer exactly when its reads succeed
    and it is cached, or is fetched and unreserved or out of stock. Alone, a failure and a missing
    row are errors; in a batch they are not.
   */
  lemma SingleAgreesWithBatchIff(entries: map<int, Entry>, reserved: map<int, nat>, rows: map<int, Row>,
                                 id: int, now: int, f: Faults)
    ensures Single(entries, reserved, rows, id, now, f) == Some(InBatch(entries, reserved, rows, id, now, f))
      <==> && id !in f.stockReads && id !in f.counterReads
           && (Seen(entries, id, now).None? ==>
                 !f.query && id in rows && (Reserved(reserved, id) == 0 || rows[id].stock <= 0))
  {
    if id !in f.stockReads && id !in f.counterReads && Seen(entries, id, now).None? && !f.query && id in rows {
      assert Single(entries, reserved, rows, id, now, f) == Some(Floor0(rows[id].stock - Reserved(reserved, id)));
    }
  }
}
