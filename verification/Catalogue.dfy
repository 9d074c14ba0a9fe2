/**
  The promotional catalogue without search, category or kind filters: candidates are
  resolved from the links of the current promotions, priced, and kept if discounted.
 */
module Catalogue {
  import opened Base
  import opened Calendar
  import opened Pricing
  import opened Categories

  datatype ProductRow = ProductRow(price: int, category: Option<int>, active: bool, statusActive: bool)

  /** The tables the catalogue reads; a link row names a promotion of the promotions table. */
  datatype Shop = Shop(products: map<int, ProductRow>, promos: seq<Promotion>,
                       productRows: seq<Row>, categoryRows: seq<Row>, parents: Parents)

  predicate LinksOk(shop: Shop) {
    && (forall row | row in shop.productRows :: row.promo in shop.promos)
    && (forall row | row in shop.categoryRows :: row.promo in shop.promos && row.key in shop.parents)
  }

  predicate Current(shop: Shop, ancestors: map<int, seq<int>>) {
    && ancestors.Keys == shop.parents.Keys
    && forall k | k in ancestors :: IsChain(shop.parents, k, MAX_DEPTH, ancestors[k])
  }

  predicate OnSale(shop: Shop, id: int) {
    id in shop.products && shop.products[id].active && shop.products[id].statusActive
  }

  function PricedAt(shop: Shop, ancestors: map<int, seq<int>>, id: int, now: int): Option<Choice>
    requires id in shop.products
  {
    Priced(shop.productRows, shop.categoryRows, ancestors, id, shop.products[id].category, now)
  }

  /** The pricer's result is below the base price. */
  predicate Discounted(shop: Shop, ancestors: map<int, seq<int>>, id: int, now: int) {
    && id in shop.products
    && var choice := PricedAt(shop, ancestors, id, now);
       choice.Some? && EffectivePrice(shop.products[id].price, choice.value.promo.discount) < shop.products[id].price
  }

  predicate Distinct(ids: seq<int>) {
    forall i, j | 0 <= i < j < |ids| :: ids[i] != ids[j]
  }

  predicate DistinctIds(products: seq<PricedProduct>) {
    forall i, j | 0 <= i < j < |products| :: products[i].id != products[j].id
  }

  function ActiveNow(promos: seq<Promotion>, now: int): seq<Promotion> {
    if promos == [] then []
    else ActiveNow(promos[..|promos| - 1], now) +
         if InForce(promos[|promos| - 1], now) then [promos[|promos| - 1]] else []
  }

  lemma {:induction false} ActiveMembers(promos: seq<Promotion>, now: int, promo: Promotion)
    ensures promo in ActiveNow(promos, now) <==> promo in promos && InForce(promo, now)
  {
    if promos != [] {
      ActiveMembers(promos[..|promos| - 1], now, promo);
      assert promos == promos[..|promos| - 1] + [promos[|promos| - 1]];
    }
  }

  /** The keys linked to one of the given promotions. */
  function KeysOf(rows: seq<Row>, promos: seq<Promotion>): set<int> {
    set row | row in rows && row.promo in promos :: row.key
  }

  /** ListIDsByCategoryTrees: products on sale in the trees of the given categories. */
  function IdsInTrees(shop: Shop, categories: set<int>): set<int> {
    set id | id in shop.products && OnSale(shop, id) && shop.products[id].category.Some?
             && InSomeTree(shop.parents, categories, shop.products[id].category.value)
  }

  predicate InSomeTree(parents: Parents, categories: set<int>, k: int) {
    exists c | c in categories :: k in Tree(parents, c, |parents|)
  }

  method ResolveCandidateIds(shop: Shop, promos: seq<Promotion>) returns (ids: seq<int>)
    ensures forall id :: id in ids <==>
      id in KeysOf(shop.productRows, promos) || id in IdsInTrees(shop, KeysOf(shop.categoryRows, promos))
    ensures forall id :: id in ids <==>
      ((exists row :: row in shop.productRows && row.promo in promos && row.key == id)
       || (id in shop.products && shop.products[id].active && shop.products[id].statusActive
           && shop.products[id].category.Some?
           && exists row :: row in shop.categoryRows && row.promo in promos
                && shop.products[id].category.value in Tree(shop.parents, row.key, |shop.parents|)))
    ensures Distinct(ids)
  {
    ids := AddNew([], KeysOf(shop.productRows, promos));
    var categories := KeysOf(shop.categoryRows, promos);
    if categories != {} {
      ids := AddNew(ids, IdsInTrees(shop, categories));
    } else {
      assert IdsInTrees(shop, categories) == {};
    }
  }

  /** The `seen` closure: append each id once, in the order met. */
  method AddNew(before: seq<int>, more: set<int>) returns (ids: seq<int>)
    requires Distinct(before)
    ensures forall id :: id in ids <==> id in before || id in more
    ensures Distinct(ids)
  {
    ids := before;
    var todo := more;
    while todo != {}
      invariant todo <= more
      invariant forall id :: id in ids <==> id in before || (id in more && id !in todo)
      invariant Distinct(ids)
      decreases |todo|
    {
      var id := PickKey(todo);
      if id !in ids {
        ids := ids + [id];
      }
      todo := todo - {id};
    }
  }

  /**
    The price of a product in terms of the forest. Its own offer wins. Without one, it is sold at the
    biggest offer among its category and the 32 nearest ancestors of it: no offer there is bigger, one
    of them is the price's, and without any of them, or without a category, there is no price.
   */
  lemma PriceMeans(shop: Shop, ancestors: map<int, seq<int>>, id: int, now: int)
    requires Current(shop, ancestors) && id in shop.products
    requires shop.products[id].category.Some? ==> shop.products[id].category.value in shop.parents
    ensures var own, price := Offer(shop.productRows, id, now), PricedAt(shop, ancestors, id, now);
      && (own.Some? ==> price == Some(Choice(own.value, ProductLevel)))
      && (own.None? && price.Some? ==> price.value.level == CategoryLevel && shop.products[id].category.Some?)
    ensures Offer(shop.productRows, id, now).None? && shop.products[id].category.Some? ==>
      forall n: nat, c | n <= 32 && Up(shop.parents, shop.products[id].category.value, n) == Some(c)
                         && Offer(shop.categoryRows, c, now).Some? ::
        var price := PricedAt(shop, ancestors, id, now);
        price.Some? && Offer(shop.categoryRows, c, now).value.discount <= price.value.promo.discount
    ensures Offer(shop.productRows, id, now).None? && PricedAt(shop, ancestors, id, now).Some? ==>
      exists n: nat, c | n <= 32 && Up(shop.parents, shop.products[id].category.value, n) == Some(c) ::
        Offer(shop.categoryRows, c, now) == Some(PricedAt(shop, ancestors, id, now).value.promo)
  {
    if Offer(shop.productRows, id, now).None? && shop.products[id].category.Some? {
      var k := shop.products[id].category.value;
      var chain := ancestors[k];
      ChainOfferIsPositive(shop.categoryRows, chain, now);
      forall n: nat, c | n <= 32 && Up(shop.parents, k, n) == Some(c) && Offer(shop.categoryRows, c, now).Some?
        ensures c in chain
      {
        if n >= |chain| {
          UpPrefix(shop.parents, k, |chain|, n);
        }
        assert chain[n] == c;
      }
      if PricedAt(shop, ancestors, id, now).Some? {
        var c :| c in chain && Offer(shop.categoryRows, c, now) == ChainOffer(shop.categoryRows, chain, now);
        var n :| 0 <= n < |chain| && chain[n] == c;
        assert Up(shop.parents, k, n) == Some(c);
      }
    }
  }

  /**
    A product under a promoted category: its category lies in the tree of `c`, at most 32 levels below
    its root, it has no offer of its own, and the offer of `c` is worth more than half a kopeck on it.
   */
  ghost predicate SellsThrough(shop: Shop, id: int, c: int, now: int) {
    && id in shop.products && shop.products[id].price >= 0 && shop.products[id].category.Some?
    && shop.products[id].category.value in shop.parents
    && Up(shop.parents, shop.products[id].category.value, 33) == None
    && InTree(shop.parents, c, shop.products[id].category.value)
    && Offer(shop.productRows, id, now).None?
    && var offer := Offer(shop.categoryRows, c, now);
    && offer.Some?
    && 2 * shop.products[id].price * (if offer.value.discount < 10_000 then offer.value.discount else 10_000) > 10_000
  }

  /** A discount worth more than half a kopeck lowers the price, and so does every bigger one. */
  lemma WorthIt(price: nat, least: nat, discount: nat)
    requires 0 < least <= discount && 2 * price * Capped(least) > FULL
    ensures EffectivePrice(price, discount) < price
  {
    EffectivePriceBounds(price, least);
    BiggerDiscountNeverCostsMore(price, least, discount);
  }

  /** A category of the tree of `c` has it within 32 steps up if its walk ends that soon. */
  lemma NearAncestor(parents: Parents, c: int, k: int) returns (n: nat)
    requires k in parents && InTree(parents, c, k) && Up(parents, k, 33) == None
    ensures n <= 32 && Up(parents, k, n) == Some(c)
  {
    n :| k in Round(parents, c, n);
    RoundIsUp(parents, c, k, n);
    if n > 32 {
      UpPrefix(parents, k, 33, n);
    }
  }

  /** Such a product is discounted, at the category level and by at least that offer. */
  lemma TreeIsDiscounted(shop: Shop, ancestors: map<int, seq<int>>, id: int, c: int, now: int)
    requires Current(shop, ancestors) && SellsThrough(shop, id, c, now)
    ensures var price := PricedAt(shop, ancestors, id, now);
      && price.Some? && price.value.level == CategoryLevel
      && Offer(shop.categoryRows, c, now).value.discount <= price.value.promo.discount
    ensures Discounted(shop, ancestors, id, now)
  {
    var n := NearAncestor(shop.parents, c, shop.products[id].category.value);
    PriceMeans(shop, ancestors, id, now);
    OfferMeans(shop.categoryRows, c, now);
    WorthIt(shop.products[id].price, Offer(shop.categoryRows, c, now).value.discount,
            PricedAt(shop, ancestors, id, now).value.promo.discount);
  }

  /** No discounted product escapes candidate resolution. */
  lemma DiscountedIsCandidate(shop: Shop, ancestors: map<int, seq<int>>, now: int, id: int)
    requires LinksOk(shop) && ForeignKey(shop.parents) && Acyclic(shop.parents) && Current(shop, ancestors)
    requires OnSale(shop, id) && PricedAt(shop, ancestors, id, now).Some?
    ensures
      var promos := Applicable(ActiveNow(shop.promos, now), now);
      id in KeysOf(shop.productRows, promos) || id in IdsInTrees(shop, KeysOf(shop.categoryRows, promos))
  {
    var promos := Applicable(ActiveNow(shop.promos, now), now);
    var choice := PricedAt(shop, ancestors, id, now).value;
    if Offer(shop.productRows, id, now).Some? {
      OfferHasRow(shop, shop.productRows, id, now);
    } else {
      var category := shop.products[id].category.value;
      var chain := ChainOf(ancestors, category);
      ChainOfferIsPositive(shop.categoryRows, chain, now);
      var c :| c in chain && Offer(shop.categoryRows, c, now).Some?;
      OfferHasRow(shop, shop.categoryRows, c, now);
      ChainIsInTree(shop.parents, category, ancestors[category], c);
      TreeIsComplete(shop.parents, c, category);
    }
  }

  lemma OfferHasRow(shop: Shop, rows: seq<Row>, key: int, now: int)
    requires forall row | row in rows :: row.promo in shop.promos
    requires Offer(rows, key, now).Some?
    ensures key in KeysOf(rows, Applicable(ActiveNow(shop.promos, now), now))
    ensures exists row :: row in rows && row.key == key
  {
    KeyBestIsBiggest(rows, key, now);
    var row :| row in rows && Matches(row, key, now) && row.promo == KeyBest(rows, key, now).value;
    ActiveMembers(shop.promos, now, row.promo);
    var _ := ApplicableMembers(ActiveNow(shop.promos, now), now);
  }

  method ActivePromotions(promos: seq<Promotion>, now: int) returns (out: seq<Promotion>)
    ensures out == ActiveNow(promos, now)
    ensures forall promo :: promo in out <==>
      (promo in promos && promo.active && (promo.start.Some? ==> promo.start.value <= now)
       && (promo.end.Some? ==> now <= promo.end.value))
  {
    out := [];
    for i := 0 to |promos|
      invariant out == ActiveNow(promos[..i], now)
    {
      assert promos[..i + 1][..i] == promos[..i];
      if InForce(promos[i], now) {
        out := out + [promos[i]];
      }
    }
    assert promos[..|promos|] == promos;
    forall promo
      ensures promo in out <==> promo in promos && InForce(promo, now)
    {
      ActiveMembers(promos, now, promo);
    }
  }

  /** The active ones of the ids, in the order asked. */
  function ActiveIds(shop: Shop, ids: seq<int>): (r: seq<int>)
    ensures forall id :: id in r <==> id in ids && id in shop.products && shop.products[id].active
    ensures Distinct(ids) ==> Distinct(r)
  {
    if ids == [] then []
    else
      var front, id := ids[..|ids| - 1], ids[|ids| - 1];
      assert ids == front + [id];
      ActiveIds(shop, front) + if id in shop.products && shop.products[id].active then [id] else []
  }

  lemma {:induction false} ActiveIdsKeepOrder(shop: Shop, ids: seq<int>) returns (from: seq<nat>)
    ensures |from| == |ActiveIds(shop, ids)|
    ensures forall i | 0 <= i < |from| :: from[i] < |ids| && ActiveIds(shop, ids)[i] == ids[from[i]]
    ensures forall i, j | 0 <= i < j < |from| :: from[i] < from[j]
  {
    if ids == [] {
      from := [];
    } else {
      from := ActiveIdsKeepOrder(shop, ids[..|ids| - 1]);
      if ids[|ids| - 1] in shop.products && shop.products[ids[|ids| - 1]].active {
        from := from + [|ids| - 1];
      }
    }
  }

  /** The records of the ids, in their order. */
  predicate Records(byID: map<int, PricedProduct>, ids: seq<int>, loaded: seq<PricedProduct>) {
    |loaded| == |ids| && forall i | 0 <= i < |ids| :: ids[i] in byID && loaded[i] == byID[ids[i]]
  }

  /** GetProductsByIDs: a fresh record for each active id, in the order asked; a repeated id shares its record. */
  method LoadProducts(shop: Shop, ids: seq<int>) returns (loaded: seq<PricedProduct>)
    ensures |loaded| == |ActiveIds(shop, ids)|
    ensures forall i | 0 <= i < |loaded| ::
      fresh(loaded[i]) && Loaded(shop, loaded[i]) && loaded[i].id == ActiveIds(shop, ids)[i]
    ensures forall i, j | 0 <= i < j < |loaded| && loaded[i].id == loaded[j].id :: loaded[i] == loaded[j]
  {
    var byID := LoadRows(shop, ids);
    loaded := [];
    for n := 0 to |ids|
      invariant Records(byID, ActiveIds(shop, ids[..n]), loaded)
    {
      assert ids[..n + 1][..n] == ids[..n];
      var id := ids[n];
      assert id in ids;
      if id in byID {
        loaded := loaded + [byID[id]];
      }
    }
    assert ids[..|ids|] == ids;
    forall i | 0 <= i < |loaded|
      ensures fresh(loaded[i]) && Loaded(shop, loaded[i]) && loaded[i].id == ActiveIds(shop, ids)[i]
    {
      var id := ActiveIds(shop, ids)[i];
      assert loaded[i] == byID[id];
    }
  }

  /** The records of the active ids, by id. */
  method LoadRows(shop: Shop, ids: seq<int>) returns (byID: map<int, PricedProduct>)
    ensures forall id :: id in byID <==> id in ids && id in shop.products && shop.products[id].active
    ensures forall id | id in byID :: byID[id].id == id && fresh(byID[id]) && Loaded(shop, byID[id])
  {
    byID := map[];
    for n := 0 to |ids|
      invariant forall id :: id in byID <==> id in ids[..n] && id in shop.products && shop.products[id].active
      invariant forall id | id in byID :: byID[id].id == id && fresh(byID[id]) && Loaded(shop, byID[id])
    {
      var id := ids[n];
      if id in shop.products && shop.products[id].active && id !in byID {
        var p := new PricedProduct(id, shop.products[id].price, shop.products[id].category);
        byID := byID[id := p];
      }
    }
  }

  predicate Loaded(shop: Shop, p: PricedProduct)
    reads p
  {
    && p.id in shop.products && shop.products[p.id].active
    && p.price == shop.products[p.id].price && p.category == shop.products[p.id].category
    && p.effective == None
  }

  lemma LoadedIds(shop: Shop, ids: seq<int>, loaded: seq<PricedProduct>)
    requires |loaded| == |ActiveIds(shop, ids)|
    requires forall i | 0 <= i < |loaded| :: loaded[i].id == ActiveIds(shop, ids)[i]
    ensures forall id | id in ids && OnSale(shop, id) :: exists p :: p in loaded && p.id == id
    ensures forall p | p in loaded :: p.id in ids
    ensures Distinct(ids) ==> DistinctIds(loaded)
  {
    forall id | id in ids && OnSale(shop, id)
      ensures exists p :: p in loaded && p.id == id
    {
      var i :| 0 <= i < |loaded| && ActiveIds(shop, ids)[i] == id;
      assert loaded[i].id == id;
    }
  }

  /** filterProductsWithPromotion. */
  method KeepDiscounted(products: seq<PricedProduct>) returns (kept: seq<PricedProduct>)
    ensures forall p :: p in kept <==> p in products && p.effective.Some? && p.effective.value < p.price
    ensures DistinctIds(products) ==> DistinctIds(kept)
  {
    kept := [];
    for n := 0 to |products|
      invariant forall p :: p in kept <==> p in products[..n] && p.effective.Some? && p.effective.value < p.price
      invariant DistinctIds(products) ==> DistinctIds(kept)
    {
      if products[n].effective.Some? && products[n].effective.value < products[n].price {
        forall i | 0 <= i < |kept| && DistinctIds(products) ensures kept[i].id != products[n].id {
          assert kept[i] in products[..n];
        }
        kept := kept + [products[n]];
      }
    }
  }

  predicate ShowsPrice(shop: Shop, ancestors: map<int, seq<int>>, p: PricedProduct, now: int)
    reads p
  {
    && p.id in shop.products
    && PricedAt(shop, ancestors, p.id, now).Some?
    && p.Shows(PricedAt(shop, ancestors, p.id, now).value)
  }

  /** FilterPromotionalIDs with an empty search and no category. */
  method FilterOnSale(shop: Shop, ids: seq<int>) returns (out: seq<int>)
    ensures forall id :: id in out <==> id in ids && OnSale(shop, id)
    ensures forall id :: id in out <==>
      (id in ids && id in shop.products && shop.products[id].active && shop.products[id].statusActive)
    ensures Distinct(ids) ==> Distinct(out)
  {
    out := [];
    for n := 0 to |ids|
      invariant forall id :: id in out <==> id in ids[..n] && OnSale(shop, id)
      invariant Distinct(ids) ==> Distinct(out)
    {
      if OnSale(shop, ids[n]) {
        out := out + [ids[n]];
      }
    }
  }

  /** ListProducts up to sorting and paging. */
  method ListProducts(shop: Shop, ancestors: map<int, seq<int>>, now: int) returns (listed: seq<PricedProduct>)
    requires LinksOk(shop) && ForeignKey(shop.parents) && Acyclic(shop.parents) && Current(shop, ancestors)
    ensures forall id :: (exists p :: p in listed && p.id == id) <==>
      OnSale(shop, id) && Discounted(shop, ancestors, id, now)
    ensures forall id, c |
      SellsThrough(shop, id, c, now) && shop.products[id].active && shop.products[id].statusActive ::
      exists p :: p in listed && p.id == id
    ensures DistinctIds(listed)
    ensures forall p | p in listed :: ShowsPrice(shop, ancestors, p, now)
  {
    var active := ActivePromotions(shop.promos, now);
    var promos := FilterForReservation(active, now);
    forall id | OnSale(shop, id) && Discounted(shop, ancestors, id, now)
      ensures id in KeysOf(shop.productRows, promos) || id in IdsInTrees(shop, KeysOf(shop.categoryRows, promos))
    {
      DiscountedIsCandidate(shop, ancestors, now, id);
    }
    forall id, c | SellsThrough(shop, id, c, now) && shop.products[id].active && shop.products[id].statusActive
      ensures OnSale(shop, id) && Discounted(shop, ancestors, id, now)
    {
      TreeIsDiscounted(shop, ancestors, id, c, now);
    }
    if |promos| == 0 {
      return [];
    }
    var candidates := ResolveCandidateIds(shop, promos);
    if |candidates| == 0 {
      return [];
    }
    var filtered := FilterOnSale(shop, candidates);
    var loaded := LoadProducts(shop, filtered);
    LoadedIds(shop, filtered, loaded);
    Apply(loaded, shop.productRows, shop.categoryRows, ancestors, now, true, true);
    listed := KeepDiscounted(loaded);
  }
}
