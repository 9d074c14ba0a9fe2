/**
  The promotion pricer. Money is in kopecks and discounts in hundredths of a percent.
  A `Row` is one link of a promotion to a product or a category, joined with the
  promotion; the queries filter a sequence of rows, and SQL fixes no order for it.
 */
module Pricing {
  import opened Base
  import opened Calendar

  datatype Row = Row(key: int, promo: Promotion)

  datatype Level = NoLevel | ProductLevel | CategoryLevel

  /** The promotion a product is sold under and the level it came from. */
  datatype Choice = Choice(promo: Promotion, level: Level)

  const FULL: int := 10_000

  // ---- the price of a discount ----

  /** Rounding of a / b to the nearest integer, halves away from zero, as math.Round. */
  function Nearest(a: int, b: int): int
    requires b > 0
  {
    if a >= 0 then (2 * a + b) / (2 * b) else -((2 * -a + b) / (2 * b))
  }

  function Capped(discount: int): int {
    if discount > FULL then FULL else discount
  }

  function EffectivePrice(price: int, discount: int): int {
    Nearest(price * (FULL - Capped(discount)), FULL)
  }

  lemma NearestOfFull(a: nat)
    ensures 2 * FULL * Nearest(a, FULL) <= 2 * a + FULL < 2 * FULL * Nearest(a, FULL) + 2 * FULL
  {
  }

  lemma NearestQuotient(price: nat, off: nat, x: nat, q: int)
    requires x == FULL * price - off
    requires 2 * FULL * q <= 2 * x + FULL < 2 * FULL * q + 2 * FULL
    ensures 0 <= q <= price && -FULL <= 2 * FULL * q - 2 * x <= FULL
    ensures x == 0 ==> q == 0
    ensures q < price <==> 2 * off > FULL
  {
  }

  /**
    The shown price lies between nothing and the base price, within half a kopeck of the
    exact one, and below the base price exactly when the discount is worth over half a kopeck.
   */
  lemma EffectivePriceBounds(price: nat, discount: nat)
    ensures 0 <= EffectivePrice(price, discount) <= price
    ensures -FULL <= 2 * FULL * EffectivePrice(price, discount) - 2 * price * (FULL - Capped(discount)) <= FULL
    ensures discount >= FULL ==> EffectivePrice(price, discount) == 0
    ensures EffectivePrice(price, discount) < price <==> 2 * price * Capped(discount) > FULL
  {
    var off: int := price * Capped(discount);
    var x: int := price * (FULL - Capped(discount));
    assert off >= 0 && x >= 0 && x == FULL * price - off;
    NearestOfFull(x);
    NearestQuotient(price, off, x, Nearest(x, FULL));
    assert 2 * price * (FULL - Capped(discount)) == 2 * x;
    assert 2 * price * Capped(discount) == 2 * off;
  }

  lemma BiggerDiscountNeverCostsMore(price: nat, small: nat, big: nat)
    requires small <= big
    ensures EffectivePrice(price, big) <= EffectivePrice(price, small)
  {
    var x, y := price * (FULL - Capped(small)), price * (FULL - Capped(big));
    assert y <= x by {
      assert x - y == price * (Capped(big) - Capped(small));
    }
    assert 0 <= y;
  }

  // ---- the best promotion of a key ----

  /** The WHERE clauses on the promotion: active and inside its dates. */
  predicate InForce(promo: Promotion, now: int) {
    promo.active && (promo.start.Some? ==> promo.start.value <= now) && (promo.end.Some? ==> now <= promo.end.value)
  }

  predicate Matches(row: Row, key: int, now: int) {
    row.key == key && InForce(row.promo, now)
  }

  /** The first of the biggest discounts among the rows of a key. */
  function KeyBest(rows: seq<Row>, key: int, now: int): Option<Promotion> {
    if rows == [] then None
    else
      var best, row := KeyBest(rows[..|rows| - 1], key, now), rows[|rows| - 1];
      if Matches(row, key, now) && (best.None? || row.promo.discount > best.value.discount) then Some(row.promo)
      else best
  }

  lemma {:induction false} KeyBestIsBiggest(rows: seq<Row>, key: int, now: int)
    ensures forall row | row in rows && Matches(row, key, now) ::
      KeyBest(rows, key, now).Some? && row.promo.discount <= KeyBest(rows, key, now).value.discount
    ensures KeyBest(rows, key, now).Some? ==>
      exists row :: row in rows && Matches(row, key, now) && row.promo == KeyBest(rows, key, now).value
  {
    if rows != [] {
      var front, last := rows[..|rows| - 1], rows[|rows| - 1];
      KeyBestIsBiggest(front, key, now);
      assert rows == front + [last];
      if KeyBest(front, key, now).Some? {
        var row :| row in front && Matches(row, key, now) && row.promo == KeyBest(front, key, now).value;
        assert row in rows;
      }
      assert last in rows;
    }
  }

  function BestMap(rows: seq<Row>, ids: set<int>, now: int): map<int, Promotion> {
    map k | k in ids && KeyBest(rows, k, now).Some? :: KeyBest(rows, k, now).value
  }

  /**
    internal/db/promotion_links.go: the query keeps rows of the asked ids in force, the loop
    keeps the best of each.
   */
  method BestActiveByLink(rows: seq<Row>, ids: set<int>, now: int) returns (best: map<int, Promotion>)
    ensures best == BestMap(rows, ids, now)
  {
    best := map[];
    if ids == {} {
      return;
    }
    for i := 0 to |rows|
      invariant best == BestMap(rows[..i], ids, now)
    {
      var row := rows[i];
      BestMapStep(rows[..i], row, ids, now);
      assert rows[..i + 1] == rows[..i] + [row];
      if row.key in ids && InForce(row.promo, now) {
        if row.key !in best || row.promo.discount > best[row.key].discount {
          best := best[row.key := row.promo];
        }
      }
    }
    assert rows[..|rows|] == rows;
  }

  lemma BestMapStep(rows: seq<Row>, row: Row, ids: set<int>, now: int)
    ensures BestMap(rows + [row], ids, now) ==
            var best := BestMap(rows, ids, now);
            if row.key in ids && InForce(row.promo, now) &&
              (row.key !in best || row.promo.discount > best[row.key].discount)
            then best[row.key := row.promo] else best
  {
    assert (rows + [row])[..|rows|] == rows;
  }

  function InWindow(best: map<int, Promotion>, now: int): map<int, Promotion> {
    map k | k in best && AppliesAt(best[k], now) :: best[k]
  }

  /** filterPromotionsMap: the window filter runs on the maxima, after they are taken. */
  method FilterPromotionsMap(best: map<int, Promotion>, now: int) returns (out: map<int, Promotion>)
    ensures out == InWindow(best, now)
  {
    if |best| == 0 {
      return best;
    }
    out := map[];
    var todo := best.Keys;
    while todo != {}
      invariant todo <= best.Keys
      invariant out == map k | k in best && k !in todo && AppliesAt(best[k], now) :: best[k]
      decreases |todo|
    {
      var id := PickKey(todo);
      if AppliesAt(best[id], now) {
        out := out[id := best[id]];
      }
      todo := todo - {id};
    }
  }

  // ---- one product ----

  /** What a key contributes: its best promotion, if that one is in the window and discounts at all. */
  function Offer(rows: seq<Row>, key: int, now: int): Option<Promotion> {
    match KeyBest(rows, key, now)
    case Some(promo) => if AppliesAt(promo, now) && promo.discount > 0 then Some(promo) else None
    case None => None
  }

  /**
    What an offer is: the promotion of a row of the key that is active, inside its dates, applies now,
    discounts at all, and is beaten by no other active row of the key inside its dates. Without an
    offer, every row that could make one is tied or beaten by a row that does not apply.
   */
  lemma OfferMeans(rows: seq<Row>, key: int, now: int)
    ensures var offer := Offer(rows, key, now);
      offer.Some? ==>
        && offer.value.discount > 0 && offer.value.active && AppliesAt(offer.value, now)
        && (offer.value.start.Some? ==> offer.value.start.value <= now)
        && (offer.value.end.Some? ==> now <= offer.value.end.value)
        && (exists row :: row in rows && row.key == key && row.promo == offer.value)
        && forall row | row in rows && row.key == key && row.promo.active
             && (row.promo.start.Some? ==> row.promo.start.value <= now)
             && (row.promo.end.Some? ==> now <= row.promo.end.value) :: row.promo.discount <= offer.value.discount
    ensures Offer(rows, key, now).None? ==>
      forall row | row in rows && row.key == key && row.promo.active && row.promo.discount > 0
        && (row.promo.start.Some? ==> row.promo.start.value <= now)
        && (row.promo.end.Some? ==> now <= row.promo.end.value) && AppliesAt(row.promo, now) ::
        exists other :: other in rows && other.key == key && other.promo.active
          && row.promo.discount <= other.promo.discount && !AppliesAt(other.promo, now)
  {
    KeyBestIsBiggest(rows, key, now);
    var best := KeyBest(rows, key, now);
    forall row | row in rows && row.key == key && row.promo.active
      && (row.promo.start.Some? ==> row.promo.start.value <= now)
      && (row.promo.end.Some? ==> now <= row.promo.end.value)
      ensures best.Some? && row.promo.discount <= best.value.discount
    {
      assert Matches(row, key, now);
    }
  }

  function ChainOffer(rows: seq<Row>, chain: seq<int>, now: int): Option<Promotion> {
    if chain == [] then None
    else
      var best, offer := ChainOffer(rows, chain[..|chain| - 1], now), Offer(rows, chain[|chain| - 1], now);
      if offer.Some? && (best.None? || offer.value.discount > best.value.discount) then offer else best
  }

  function ChainOf(ancestors: map<int, seq<int>>, category: int): seq<int> {
    if category in ancestors && ancestors[category] != [] then ancestors[category] else [category]
  }

  /**
    The price list for one product, by itself: its own offer first, else the biggest
    offer along the chain of its category.
   */
  function Priced(productRows: seq<Row>, categoryRows: seq<Row>, ancestors: map<int, seq<int>>,
                  id: int, category: Option<int>, now: int): Option<Choice>
  {
    var own := Offer(productRows, id, now);
    if own.Some? then Some(Choice(own.value, ProductLevel))
    else if category.None? then None
    else
      match ChainOffer(categoryRows, ChainOf(ancestors, category.value), now)
      case Some(promo) => Some(Choice(promo, CategoryLevel))
      case None => None
  }

  class PricedProduct {
    const id: int
    const price: int
    const category: Option<int>
    var effective: Option<int>
    var discount: Option<int>
    var level: Level
    var title: string
    var kind: Option<Kind>

    constructor (id: int, price: int, category: Option<int>)
      ensures this.id == id && this.price == price && this.category == category
      ensures effective == None && discount == None && level == NoLevel && title == "" && kind == None
    {
      this.id, this.price, this.category := id, price, category;
      effective, discount, level, title, kind := None, None, NoLevel, "", None;
    }

    predicate Shows(choice: Choice)
      reads this
    {
      && effective == Some(EffectivePrice(price, choice.promo.discount))
      && discount == Some(Capped(choice.promo.discount))
      && level == choice.level
      && title == choice.promo.title
      && kind == Some(choice.promo.kind)
    }

    method SetEffective(promo: Promotion, level: Level)
      modifies this
      ensures promo.discount > 0 ==> Shows(Choice(promo, level))
      ensures promo.discount > 0 ==>
        && effective == Some(EffectivePrice(price, promo.discount))
        && discount == Some(if promo.discount > 10_000 then 10_000 else promo.discount)
        && this.level == level && title == promo.title && kind == Some(promo.kind)
      ensures promo.discount <= 0 ==> unchanged(this)
    {
      if promo.discount <= 0 {
        return;
      }
      this.discount := Some(Capped(promo.discount));
      effective := Some(EffectivePrice(price, promo.discount));
      this.level := level;
      title := promo.title;
      kind := Some(promo.kind);
    }
  }

  /** The map of window-filtered bests answers for a key as the rows do. */
  ghost predicate Answers(promos: map<int, Promotion>, rows: seq<Row>, key: int, now: int) {
    var best := KeyBest(rows, key, now);
    && (key in promos <==> best.Some? && AppliesAt(best.value, now))
    && (key in promos ==> promos[key] == best.value)
  }

  /** The loop of applyToProduct over the category chain. */
  method BestOfChain(chain: seq<int>, categoryPromos: map<int, Promotion>, ghost rows: seq<Row>, ghost now: int)
    returns (best: Option<Promotion>)
    requires forall k | k in chain :: Answers(categoryPromos, rows, k, now)
    ensures best == ChainOffer(rows, chain, now)
  {
    best := None;
    for i := 0 to |chain|
      invariant best == ChainOffer(rows, chain[..i], now)
    {
      assert chain[..i + 1][..i] == chain[..i];
      assert Answers(categoryPromos, rows, chain[i], now);
      if chain[i] in categoryPromos && categoryPromos[chain[i]].discount > 0 {
        if best.None? || categoryPromos[chain[i]].discount > best.value.discount {
          best := Some(categoryPromos[chain[i]]);
        }
      }
    }
    assert chain[..|chain|] == chain;
  }

  method ApplyToProduct(prod: PricedProduct, productPromos: map<int, Promotion>, categoryPromos: map<int, Promotion>,
                        ancestors: map<int, seq<int>>,
                        ghost productRows: seq<Row>, ghost categoryRows: seq<Row>, ghost now: int)
    requires Answers(productPromos, productRows, prod.id, now)
    requires prod.category.Some? ==>
      forall k | k in ChainOf(ancestors, prod.category.value) :: Answers(categoryPromos, categoryRows, k, now)
    modifies prod
    ensures var choice := Priced(productRows, categoryRows, ancestors, prod.id, prod.category, now);
      if choice.Some? then prod.Shows(choice.value) else unchanged(prod)
  {
    if prod.id in productPromos && productPromos[prod.id].discount > 0 {
      prod.SetEffective(productPromos[prod.id], ProductLevel);
      return;
    }
    if prod.category.None? {
      return;
    }
    var chain := if prod.category.value in ancestors then ancestors[prod.category.value] else [];
    if |chain| == 0 {
      chain := [prod.category.value];
    }
    var best := BestOfChain(chain, categoryPromos, categoryRows, now);
    if best.Some? {
      ChainOfferIsPositive(categoryRows, chain, now);
      prod.SetEffective(best.value, CategoryLevel);
    }
  }

  lemma {:induction false} ChainOfferIsPositive(rows: seq<Row>, chain: seq<int>, now: int)
    ensures ChainOffer(rows, chain, now).Some? ==>
      && ChainOffer(rows, chain, now).value.discount > 0
      && exists c :: c in chain && Offer(rows, c, now) == ChainOffer(rows, chain, now)
    ensures forall c | c in chain && Offer(rows, c, now).Some? ::
      ChainOffer(rows, chain, now).Some? &&
        Offer(rows, c, now).value.discount <= ChainOffer(rows, chain, now).value.discount
  {
    if chain != [] {
      ChainOfferIsPositive(rows, chain[..|chain| - 1], now);
      assert chain == chain[..|chain| - 1] + [chain[|chain| - 1]];
    }
  }

  /** The rows a query answers with; a failed one counts as no rows. */
  function Answered(rows: seq<Row>, up: bool): seq<Row> {
    if up then rows else []
  }

  /** One link query of the batch and the window filter on its answer; the pricer goes on when the query fails. */
  method PromotionsOf(rows: seq<Row>, up: bool, ids: set<int>, now: int) returns (promos: map<int, Promotion>)
    ensures promos == InWindow(BestMap(Answered(rows, up), ids, now), now)
  {
    var best: map<int, Promotion> := map[];
    if up {
      best := BestActiveByLink(rows, ids, now);
    }
    assert best == BestMap(Answered(rows, up), ids, now);
    promos := FilterPromotionsMap(best, now);
  }

  /**
    The batch pricer: whatever the batch holds, in whatever order and with whatever
    repetitions and nils, each product ends up as the price list for it alone says, and
    a product with no promotion is not touched. A link query may fail.
   */
  method Apply(products: seq<PricedProduct?>, productRows: seq<Row>, categoryRows: seq<Row>,
               ancestors: map<int, seq<int>>, now: int, productsUp: bool, categoriesUp: bool)
    modifies set i | 0 <= i < |products| :: products[i]
    ensures forall i | 0 <= i < |products| && products[i] != null ::
      var choice := Priced(Answered(productRows, productsUp), Answered(categoryRows, categoriesUp), ancestors,
                           products[i].id, products[i].category, now);
      if choice.Some? then products[i].Shows(choice.value) else unchanged(products[i])
  {
    if |products| == 0 {
      return;
    }
    var productIds, categoryIds: set<int> := {}, {};
    for i := 0 to |products|
      invariant forall j | 0 <= j < i && products[j] != null :: products[j].id in productIds
      invariant forall j | 0 <= j < i && products[j] != null && products[j].category.Some? ::
        products[j].category.value in categoryIds
    {
      var prod := products[i];
      if prod != null {
        productIds := productIds + {prod.id};
        if prod.category.Some? {
          categoryIds := categoryIds + {prod.category.value};
        }
      }
    }
    var productPromos := PromotionsOf(productRows, productsUp, productIds, now);
    var expanded := Expand(categoryIds, ancestors);
    var categoryPromos := PromotionsOf(categoryRows, categoriesUp, expanded, now);
    ghost var asked, askedCategories := Answered(productRows, productsUp), Answered(categoryRows, categoriesUp);
    for i := 0 to |products|
      invariant forall j | 0 <= j < |products| && products[j] != null ::
        var choice := Priced(asked, askedCategories, ancestors, products[j].id, products[j].category, now);
        if choice.None? then unchanged(products[j])
        else products[j] in products[..i] ==> products[j].Shows(choice.value)
    {
      var prod := products[i];
      if prod != null {
        ApplyToProduct(prod, productPromos, categoryPromos, ancestors, asked, askedCategories, now);
      }
    }
  }

  /** The categories to ask for: each category of the batch and, if the map is there, all its ancestors. */
  method Expand(categoryIds: set<int>, ancestors: map<int, seq<int>>) returns (expanded: set<int>)
    ensures forall c | c in categoryIds :: forall k | k in ChainOf(ancestors, c) :: k in expanded
  {
    expanded := categoryIds;
    if |ancestors| > 0 {
      expanded := {};
      var todo := categoryIds;
      while todo != {}
        invariant todo <= categoryIds
        invariant forall c | c in categoryIds && c !in todo :: forall k | k in ChainOf(ancestors, c) :: k in expanded
        decreases |todo|
      {
        var cid := PickKey(todo);
        expanded := expanded + {cid};
        if cid in ancestors {
          expanded := expanded + set k | k in ancestors[cid];
        }
        todo := todo - {cid};
      }
    }
  }
}
