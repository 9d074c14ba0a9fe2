/**
  When the order in which SQL hands over the rows matters to a price, and what the order
  checks for day promotions decide.
 */
module PricingLaws {
  import opened Base
  import opened Calendar
  import opened Pricing

  /** The discount a key contributes, nothing counting as 0. */
  function Discount(offer: Option<Promotion>): int {
    if offer.Some? then offer.value.discount else 0
  }

  predicate IsTop(rows: seq<Row>, row: Row, key: int, now: int) {
    && row in rows && Matches(row, key, now)
    && forall other | other in rows && Matches(other, key, now) :: other.promo.discount <= row.promo.discount
  }

  /** Two rows of the key tie for the biggest discount, and the window admits only one of them. */
  ghost predicate Straddles(rows: seq<Row>, key: int, now: int) {
    exists a, b :: IsTop(rows, a, key, now) && IsTop(rows, b, key, now)
      && a.promo.discount > 0 && AppliesAt(a.promo, now) && !AppliesAt(b.promo, now)
  }

  lemma BestIsTop(rows: seq<Row>, key: int, now: int)
    requires KeyBest(rows, key, now).Some?
    ensures exists row :: IsTop(rows, row, key, now) && row.promo == KeyBest(rows, key, now).value
  {
    KeyBestIsBiggest(rows, key, now);
    var row :| row in rows && Matches(row, key, now) && row.promo == KeyBest(rows, key, now).value;
    assert IsTop(rows, row, key, now);
  }

  lemma SameMembers(xs: seq<Row>, ys: seq<Row>)
    requires multiset(xs) == multiset(ys)
    ensures forall row :: row in xs <==> row in ys
  {
    forall row ensures row in xs <==> row in ys {
      assert row in xs <==> row in multiset(xs);
      assert row in ys <==> row in multiset(ys);
    }
  }

  lemma UntiedOfferIsFixed(xs: seq<Row>, ys: seq<Row>, key: int, now: int)
    requires multiset(xs) == multiset(ys) && !Straddles(xs, key, now)
    ensures Discount(Offer(xs, key, now)) == Discount(Offer(ys, key, now))
  {
    SameMembers(xs, ys);
    KeyBestIsBiggest(xs, key, now);
    KeyBestIsBiggest(ys, key, now);
    if KeyBest(xs, key, now).Some? {
      BestIsTop(xs, key, now);
      var a :| IsTop(xs, a, key, now) && a.promo == KeyBest(xs, key, now).value;
      assert a in ys && KeyBest(ys, key, now).Some?;
      BestIsTop(ys, key, now);
      var b :| IsTop(ys, b, key, now) && b.promo == KeyBest(ys, key, now).value;
      assert IsTop(xs, b, key, now);
      assert a.promo.discount == b.promo.discount;
    }
  }

  lemma {:induction false} FirstTopWins(row: Row, rest: seq<Row>, key: int, now: int)
    requires IsTop([row] + rest, row, key, now)
    ensures KeyBest([row] + rest, key, now) == Some(row.promo)
  {
    if rest == [] {
      assert [row] + rest == [row];
      assert [row][..0] == [];
    } else {
      var front := [row] + rest[..|rest| - 1];
      assert ([row] + rest)[..|rest|] == front;
      assert forall other | other in front :: other in [row] + rest;
      FirstTopWins(row, rest[..|rest| - 1], key, now);
      assert rest[|rest| - 1] in [row] + rest;
    }
  }

  /** The later of two bests, if it is bigger. */
  function Better(a: Option<Promotion>, b: Option<Promotion>): Option<Promotion> {
    if b.Some? && (a.None? || b.value.discount > a.value.discount) then b else a
  }

  lemma {:induction false} KeyBestConcat(xs: seq<Row>, ys: seq<Row>, key: int, now: int)
    ensures KeyBest(xs + ys, key, now) == Better(KeyBest(xs, key, now), KeyBest(ys, key, now))
  {
    if ys == [] {
      assert xs + ys == xs;
    } else {
      KeyBestConcat(xs, ys[..|ys| - 1], key, now);
      assert (xs + ys)[..|xs + ys| - 1] == xs + ys[..|ys| - 1];
    }
  }

  /** The rows with one of them moved to the front: another order SQL may return them in. */
  function Promoted(rows: seq<Row>, i: nat): seq<Row>
    requires i < |rows|
  {
    [rows[i]] + (rows[..i] + rows[i + 1..])
  }

  lemma PromotionLeavesOthers(rows: seq<Row>, i: nat, key: int, now: int)
    requires i < |rows| && rows[i].key != key
    ensures KeyBest(Promoted(rows, i), key, now) == KeyBest(rows, key, now)
  {
    var front, row, rest := rows[..i], [rows[i]], rows[i + 1..];
    assert rows == front + (row + rest);
    KeyBestConcat(front, row + rest, key, now);
    KeyBestConcat(row, rest, key, now);
    KeyBestConcat(row, front + rest, key, now);
    KeyBestConcat(front, rest, key, now);
    assert row[..0] == [] && KeyBest(row, key, now) == None;
  }

  lemma PromotedRowWins(rows: seq<Row>, row: Row, key: int, now: int) returns (other: seq<Row>)
    requires IsTop(rows, row, key, now)
    ensures multiset(other) == multiset(rows) && KeyBest(other, key, now) == Some(row.promo)
    ensures forall k | k != key :: KeyBest(other, k, now) == KeyBest(rows, k, now)
  {
    var i: nat :| i < |rows| && rows[i] == row;
    other := Promoted(rows, i);
    assert rows == rows[..i] + [row] + rows[i + 1..];
    SameMembers(rows, other);
    assert IsTop(other, row, key, now);
    FirstTopWins(row, rows[..i] + rows[i + 1..], key, now);
    forall k | k != key
      ensures KeyBest(other, k, now) == KeyBest(rows, k, now)
    {
      PromotionLeavesOthers(rows, i, k, now);
    }
  }

  /** In the order `other` of the rows the picked ones win their keys, and the other keys are as before. */
  ghost predicate PicksWin(rows: seq<Row>, other: seq<Row>, picks: map<int, Row>, now: int) {
    && multiset(other) == multiset(rows)
    && forall k :: KeyBest(other, k, now) == if k in picks then Some(picks[k].promo) else KeyBest(rows, k, now)
  }

  lemma PickOneMore(rows: seq<Row>, before: seq<Row>, picks: map<int, Row>, key: int, now: int)
    returns (other: seq<Row>)
    requires key in picks && IsTop(rows, picks[key], key, now) && PicksWin(rows, before, picks - {key}, now)
    ensures PicksWin(rows, other, picks, now)
  {
    SameMembers(rows, before);
    assert IsTop(before, picks[key], key, now);
    other := PromotedRowWins(before, picks[key], key, now);
  }

  /** For any choice of one top row for each of some keys there is an order of the rows in which those rows win. */
  lemma {:induction false} PickedRowsWin(rows: seq<Row>, picks: map<int, Row>, now: int) returns (other: seq<Row>)
    requires forall k | k in picks :: IsTop(rows, picks[k], k, now)
    ensures PicksWin(rows, other, picks, now)
    decreases |picks|
  {
    if picks == map[] {
      other := rows;
    } else {
      var key :| key in picks;
      var fewer := picks - {key};
      assert fewer.Keys == picks.Keys - {key};
      var before := PickedRowsWin(rows, fewer, now);
      other := PickOneMore(rows, before, picks, key, now);
    }
  }

  /** Every order SQL may return the rows in gives the key the same discount. */
  ghost predicate OrderIrrelevant(rows: seq<Row>, key: int, now: int) {
    forall xs, ys | multiset(xs) == multiset(rows) && multiset(ys) == multiset(rows) ::
      Discount(Offer(xs, key, now)) == Discount(Offer(ys, key, now))
  }

  /**
    The maximum is taken before the window filter, so the discount of a key is a function
    of the set of its rows exactly when no tie for the maximum straddles the window.
   */
  lemma OrderIrrelevantIffUntied(rows: seq<Row>, key: int, now: int)
    ensures OrderIrrelevant(rows, key, now) <==> !Straddles(rows, key, now)
  {
    if !Straddles(rows, key, now) {
      forall xs, ys | multiset(xs) == multiset(rows) && multiset(ys) == multiset(rows)
        ensures Discount(Offer(xs, key, now)) == Discount(Offer(ys, key, now))
      {
        UntiedOfferIsFixed(rows, xs, key, now);
        UntiedOfferIsFixed(rows, ys, key, now);
      }
    } else {
      var a, b :| IsTop(rows, a, key, now) && IsTop(rows, b, key, now)
        && a.promo.discount > 0 && AppliesAt(a.promo, now) && !AppliesAt(b.promo, now);
      var xs := PromotedRowWins(rows, a, key, now);
      var ys := PromotedRowWins(rows, b, key, now);
      assert Discount(Offer(xs, key, now)) != Discount(Offer(ys, key, now));
    }
  }

  lemma FirstOfTwo(first: Row, second: Row, now: int)
    requires first.key == second.key && InForce(first.promo, now) && second.promo.discount <= first.promo.discount
    ensures KeyBest([first, second], first.key, now) == Some(first.promo)
  {
    assert [first, second][..1] == [first] && [first][..0] == [];
    assert KeyBest([first], first.key, now) == Some(first.promo);
  }

  /**
    A tie that straddles the window: a manual promotion and a day promotion of a past
    window, both of 20%. One order of the rows gives the discount, the other gives none.
   */
  lemma TieAcrossTheWindow(now: int)
    ensures
      var manual := Promotion(1, "", 2000, true, Manual, None, None, None, 0);
      var past := Promotion(2, "", 2000, true, Day, None, None, Some(now - 3 * DAY), 0);
      && Discount(Offer([Row(7, manual), Row(7, past)], 7, now)) == 2000
      && Discount(Offer([Row(7, past), Row(7, manual)], 7, now)) == 0
  {
    var manual := Row(7, Promotion(1, "", 2000, true, Manual, None, None, None, 0));
    var past := Row(7, Promotion(2, "", 2000, true, Day, None, None, Some(now - 3 * DAY), 0));
    assert !AppliesAt(past.promo, now) by {
      DeadlineBounds(now - 3 * DAY);
      DayPromotionOwnsOneWindow(past.promo, now);
    }
    FirstOfTwo(manual, past, now);
    FirstOfTwo(past, manual, now);
  }

  lemma {:induction false} ChainDiscountIsFixed(xs: seq<Row>, ys: seq<Row>, chain: seq<int>, now: int)
    requires multiset(xs) == multiset(ys)
    requires forall k | k in chain :: !Straddles(xs, k, now)
    ensures Discount(ChainOffer(xs, chain, now)) == Discount(ChainOffer(ys, chain, now))
    ensures ChainOffer(xs, chain, now).Some? <==> ChainOffer(ys, chain, now).Some?
  {
    if chain != [] {
      var front, last := chain[..|chain| - 1], chain[|chain| - 1];
      assert chain == front + [last];
      ChainDiscountIsFixed(xs, ys, front, now);
      assert last in chain;
      UntiedOfferIsFixed(xs, ys, last, now);
      ChainOfferIsPositive(xs, front, now);
      ChainOfferIsPositive(ys, front, now);
    }
  }

  /**
    Two runs of the pricer on the same links give a product the same discount and level when no
    tie straddles the window.
   */
  lemma PriceIgnoresRowOrder(productRows: seq<Row>, productRows': seq<Row>,
                             categoryRows: seq<Row>, categoryRows': seq<Row>,
                             ancestors: map<int, seq<int>>, id: int, category: Option<int>, now: int)
    requires multiset(productRows) == multiset(productRows') && multiset(categoryRows) == multiset(categoryRows')
    requires !Straddles(productRows, id, now)
    requires category.Some? ==> forall k | k in ChainOf(ancestors, category.value) :: !Straddles(categoryRows, k, now)
    ensures
      var a := Priced(productRows, categoryRows, ancestors, id, category, now);
      var b := Priced(productRows', categoryRows', ancestors, id, category, now);
      && (a.Some? <==> b.Some?)
      && (a.Some? ==> a.value.level == b.value.level && a.value.promo.discount == b.value.promo.discount)
  {
    UntiedOfferIsFixed(productRows, productRows', id, now);
    if category.Some? {
      ChainDiscountIsFixed(categoryRows, categoryRows', ChainOf(ancestors, category.value), now);
    }
  }

  // ---- when the order of the rows moves the price of a product ----

  /** The discount shown for a promotion, nothing counting as 0. */
  function ShownDiscount(offer: Option<Promotion>): int {
    Capped(Discount(offer))
  }

  /** The discount a key's best promotion has, in the window or not. */
  function TopDiscount(rows: seq<Row>, key: int, now: int): int {
    Discount(KeyBest(rows, key, now))
  }

  lemma TopsAreEqual(xs: seq<Row>, ys: seq<Row>, key: int, now: int)
    requires multiset(xs) == multiset(ys)
    ensures KeyBest(xs, key, now).Some? <==> KeyBest(ys, key, now).Some?
    ensures TopDiscount(xs, key, now) == TopDiscount(ys, key, now)
    ensures forall row | IsTop(xs, row, key, now) :: row.promo.discount == TopDiscount(ys, key, now)
  {
    SameMembers(xs, ys);
    KeyBestIsBiggest(xs, key, now);
    KeyBestIsBiggest(ys, key, now);
  }

  /** A top row of a straddling key that is in the window, and one that is not. */
  ghost function RowInside(rows: seq<Row>, key: int, now: int): (row: Row)
    requires Straddles(rows, key, now)
    ensures IsTop(rows, row, key, now) && row.promo.discount > 0 && AppliesAt(row.promo, now)
  {
    var a, b :| IsTop(rows, a, key, now) && IsTop(rows, b, key, now)
      && a.promo.discount > 0 && AppliesAt(a.promo, now) && !AppliesAt(b.promo, now);
    a
  }

  ghost function RowOutside(rows: seq<Row>, key: int, now: int): (row: Row)
    requires Straddles(rows, key, now)
    ensures IsTop(rows, row, key, now) && !AppliesAt(row.promo, now)
  {
    var a, b :| IsTop(rows, a, key, now) && IsTop(rows, b, key, now)
      && a.promo.discount > 0 && AppliesAt(a.promo, now) && !AppliesAt(b.promo, now);
    b
  }

  /** The chain shows one discount in every order SQL may return the rows in. */
  ghost predicate ChainFixed(rows: seq<Row>, chain: seq<int>, now: int) {
    forall xs, ys | multiset(xs) == multiset(rows) && multiset(ys) == multiset(rows) ::
      ShownDiscount(ChainOffer(xs, chain, now)) == ShownDiscount(ChainOffer(ys, chain, now))
  }

  /** Some unstraddled key of the chain offers at least the discount. */
  ghost predicate CoveredBy(rows: seq<Row>, chain: seq<int>, discount: int, now: int) {
    exists u | u in chain :: !Straddles(rows, u, now) && Capped(discount) <= ShownDiscount(Offer(rows, u, now))
  }

  /** Every straddling key of the chain has its top covered. */
  ghost predicate Covered(rows: seq<Row>, chain: seq<int>, now: int) {
    forall k | k in chain && Straddles(rows, k, now) :: CoveredBy(rows, chain, TopDiscount(rows, k, now), now)
  }

  lemma OfferBelowChain(rows: seq<Row>, chain: seq<int>, key: int, now: int)
    requires key in chain
    ensures ShownDiscount(Offer(rows, key, now)) <= ShownDiscount(ChainOffer(rows, chain, now))
  {
    ChainOfferIsPositive(rows, chain, now);
  }

  lemma CoveredChainIsLeast(rows: seq<Row>, xs: seq<Row>, ys: seq<Row>, chain: seq<int>, now: int)
    requires multiset(xs) == multiset(rows) && multiset(ys) == multiset(rows) && Covered(rows, chain, now)
    ensures ShownDiscount(ChainOffer(xs, chain, now)) <= ShownDiscount(ChainOffer(ys, chain, now))
  {
    ChainOfferIsPositive(xs, chain, now);
    ChainOfferIsPositive(ys, chain, now);
    if ChainOffer(xs, chain, now).Some? {
      var c :| c in chain && Offer(xs, c, now) == ChainOffer(xs, chain, now);
      var u := c;
      if Straddles(rows, c, now) {
        TopsAreEqual(xs, rows, c, now);
        u :| u in chain && !Straddles(rows, u, now)
          && Capped(TopDiscount(rows, c, now)) <= ShownDiscount(Offer(rows, u, now));
      } else {
        UntiedOfferIsFixed(rows, xs, c, now);
      }
      UntiedOfferIsFixed(rows, ys, u, now);
      OfferBelowChain(ys, chain, u, now);
    }
  }

  /** In the order that lets every straddling key of the chain down, only the others offer. */
  lemma LowestChain(rows: seq<Row>, chain: seq<int>, now: int) returns (low: seq<Row>)
    ensures multiset(low) == multiset(rows)
    ensures ChainOffer(low, chain, now).Some? ==>
      exists u | u in chain :: !Straddles(rows, u, now)
        && ShownDiscount(ChainOffer(low, chain, now)) == ShownDiscount(Offer(rows, u, now))
  {
    var picks := map k | k in chain && Straddles(rows, k, now) :: RowOutside(rows, k, now);
    low := PickedRowsWin(rows, picks, now);
    ChainOfferIsPositive(low, chain, now);
    if ChainOffer(low, chain, now).Some? {
      var c :| c in chain && Offer(low, c, now) == ChainOffer(low, chain, now);
      assert c !in picks;
      UntiedOfferIsFixed(rows, low, c, now);
    }
  }

  lemma HighestOffer(rows: seq<Row>, key: int, now: int) returns (high: seq<Row>)
    requires Straddles(rows, key, now)
    ensures multiset(high) == multiset(rows)
    ensures Discount(Offer(high, key, now)) == TopDiscount(rows, key, now) > 0
  {
    high := PromotedRowWins(rows, RowInside(rows, key, now), key, now);
    TopsAreEqual(rows, rows, key, now);
  }

  lemma LowestOffer(rows: seq<Row>, key: int, now: int) returns (low: seq<Row>)
    requires Straddles(rows, key, now)
    ensures multiset(low) == multiset(rows) && Offer(low, key, now) == None
  {
    low := PromotedRowWins(rows, RowOutside(rows, key, now), key, now);
  }

  /** The chain's discount ignores the row order exactly when its straddling tops are covered by its other offers. */
  lemma ChainFixedIffCovered(rows: seq<Row>, chain: seq<int>, now: int)
    ensures ChainFixed(rows, chain, now) <==> Covered(rows, chain, now)
  {
    if Covered(rows, chain, now) {
      forall xs, ys | multiset(xs) == multiset(rows) && multiset(ys) == multiset(rows)
        ensures ShownDiscount(ChainOffer(xs, chain, now)) == ShownDiscount(ChainOffer(ys, chain, now))
      {
        CoveredChainIsLeast(rows, xs, ys, chain, now);
        CoveredChainIsLeast(rows, ys, xs, chain, now);
      }
    } else {
      var k :| k in chain && Straddles(rows, k, now) && !CoveredBy(rows, chain, TopDiscount(rows, k, now), now);
      var high := HighestOffer(rows, k, now);
      OfferBelowChain(high, chain, k, now);
      var low := LowestChain(rows, chain, now);
      assert ShownDiscount(ChainOffer(low, chain, now)) < ShownDiscount(ChainOffer(high, chain, now));
    }
  }

  /** The chain the pricer walks for a product, if it has a category. */
  function ChainFor(ancestors: map<int, seq<int>>, category: Option<int>): seq<int> {
    if category.Some? then ChainOf(ancestors, category.value) else []
  }

  /** The discount a product is shown with. */
  function SoldAt(choice: Option<Choice>): int {
    if choice.Some? then Capped(choice.value.promo.discount) else 0
  }

  lemma PriceByLevel(productRows: seq<Row>, categoryRows: seq<Row>, ancestors: map<int, seq<int>>,
                     id: int, category: Option<int>, now: int)
    ensures SoldAt(Priced(productRows, categoryRows, ancestors, id, category, now)) ==
            if Offer(productRows, id, now).Some? then ShownDiscount(Offer(productRows, id, now))
            else ShownDiscount(ChainOffer(categoryRows, ChainFor(ancestors, category), now))
  {
  }

  /** The product is shown with one discount in every order SQL may return the rows in. */
  ghost predicate PriceFixed(productRows: seq<Row>, categoryRows: seq<Row>, ancestors: map<int, seq<int>>,
                             id: int, category: Option<int>, now: int)
  {
    forall ps, cs | multiset(ps) == multiset(productRows) && multiset(cs) == multiset(categoryRows) ::
      SoldAt(Priced(ps, cs, ancestors, id, category, now))
      == SoldAt(Priced(productRows, categoryRows, ancestors, id, category, now))
  }

  /**
    A product's discount ignores the row order exactly when: its own tie straddles the window, and
    its chain shows one discount, the same as that tie's; or its own offer stands untied; or it has
    no offer of its own and its chain shows one discount.
   */
  lemma PriceFixedIff(productRows: seq<Row>, categoryRows: seq<Row>, ancestors: map<int, seq<int>>,
                      id: int, category: Option<int>, now: int)
    ensures var chain := ChainFor(ancestors, category);
      PriceFixed(productRows, categoryRows, ancestors, id, category, now) <==>
      if Straddles(productRows, id, now) then
        && Covered(categoryRows, chain, now)
        && ShownDiscount(ChainOffer(categoryRows, chain, now)) == Capped(TopDiscount(productRows, id, now))
      else
        Offer(productRows, id, now).Some? || Covered(categoryRows, chain, now)
  {
    ChainFixedIffCovered(categoryRows, ChainFor(ancestors, category), now);
    if Straddles(productRows, id, now) {
      StraddlingPrice(productRows, categoryRows, ancestors, id, category, now);
    } else {
      UntiedPrice(productRows, categoryRows, ancestors, id, category, now);
    }
  }

  lemma StraddlingPrice(productRows: seq<Row>, categoryRows: seq<Row>, ancestors: map<int, seq<int>>,
                        id: int, category: Option<int>, now: int)
    requires Straddles(productRows, id, now)
    ensures var chain := ChainFor(ancestors, category);
      PriceFixed(productRows, categoryRows, ancestors, id, category, now) <==>
      && ChainFixed(categoryRows, chain, now)
      && ShownDiscount(ChainOffer(categoryRows, chain, now)) == Capped(TopDiscount(productRows, id, now))
  {
    var chain, top := ChainFor(ancestors, category), Capped(TopDiscount(productRows, id, now));
    var base := SoldAt(Priced(productRows, categoryRows, ancestors, id, category, now));
    if PriceFixed(productRows, categoryRows, ancestors, id, category, now) {
      var high := HighestOffer(productRows, id, now);
      var low := LowestOffer(productRows, id, now);
      PriceByLevel(high, categoryRows, ancestors, id, category, now);
      assert top == base;
      forall cs | multiset(cs) == multiset(categoryRows)
        ensures ShownDiscount(ChainOffer(cs, chain, now)) == base
      {
        PriceByLevel(low, cs, ancestors, id, category, now);
      }
    }
    if ChainFixed(categoryRows, chain, now) && ShownDiscount(ChainOffer(categoryRows, chain, now)) == top {
      forall ps, cs | multiset(ps) == multiset(productRows) && multiset(cs) == multiset(categoryRows)
        ensures SoldAt(Priced(ps, cs, ancestors, id, category, now)) == top
      {
        PriceByLevel(ps, cs, ancestors, id, category, now);
        TopsAreEqual(ps, productRows, id, now);
      }
    }
  }

  lemma UntiedPrice(productRows: seq<Row>, categoryRows: seq<Row>, ancestors: map<int, seq<int>>,
                    id: int, category: Option<int>, now: int)
    requires !Straddles(productRows, id, now)
    ensures PriceFixed(productRows, categoryRows, ancestors, id, category, now) <==>
            Offer(productRows, id, now).Some? || ChainFixed(categoryRows, ChainFor(ancestors, category), now)
  {
    var chain := ChainFor(ancestors, category);
    forall ps, cs | multiset(ps) == multiset(productRows) && multiset(cs) == multiset(categoryRows)
      ensures SoldAt(Priced(ps, cs, ancestors, id, category, now)) ==
              if Offer(productRows, id, now).Some? then ShownDiscount(Offer(productRows, id, now))
              else ShownDiscount(ChainOffer(cs, chain, now))
    {
      UntiedOfferIsFixed(productRows, ps, id, now);
      PriceByLevel(ps, cs, ancestors, id, category, now);
    }
    if PriceFixed(productRows, categoryRows, ancestors, id, category, now) && Offer(productRows, id, now).None? {
      forall cs | multiset(cs) == multiset(categoryRows)
        ensures ShownDiscount(ChainOffer(cs, chain, now)) == ShownDiscount(ChainOffer(categoryRows, chain, now))
      {
        assert multiset(productRows) == multiset(productRows);
        assert SoldAt(Priced(productRows, cs, ancestors, id, category, now)) ==
          ShownDiscount(ChainOffer(cs, chain, now));
      }
    }
  }

  // ---- the day-promotion checks of CreateOrder ----

  /** A day promotion, and whether it is in the window. */
  predicate ByDay(promo: Promotion, now: int, applies: bool) {
    promo.kind == Day && (AppliesAt(promo, now) <==> applies)
  }

  /** The product's best promotion is such a day promotion. */
  predicate SoldByDay(rows: seq<Row>, id: int, now: int, applies: bool) {
    var best := KeyBest(rows, id, now);
    best.Some? && ByDay(best.value, now, applies)
  }

  /** The order is refused; a failed query lets it pass. */
  method CheckDayPromotionWindow(rows: seq<Row>, ids: set<int>, now: int, up: bool) returns (closed: bool)
    ensures closed <==> up && AnySoldByDay(rows, ids, now, false)
  {
    if !up {
      return false;
    }
    var promos := BestActiveByLink(rows, ids, now);
    var todo := promos.Keys;
    while todo != {}
      invariant todo <= promos.Keys
      invariant forall id | id in promos && id !in todo :: !SoldByDay(rows, id, now, false)
      decreases |todo|
    {
      var id := PickKey(todo);
      if promos[id].kind == Day && !AppliesAt(promos[id], now) {
        assert SoldByDay(rows, id, now, false);
        return true;
      }
      todo := todo - {id};
    }
    return false;
  }

  /** `None`: the query failed. */
  method DayPromotionDeadline(rows: seq<Row>, ids: set<int>, now: int, up: bool) returns (r: Option<Option<int>>)
    ensures r.None? <==> !up && ids != {}
    ensures r.Some? ==> (r.value.Some? <==> AnySoldByDay(rows, ids, now, true))
    ensures r.Some? && r.value.Some? ==> forall id | id in ids && SoldByDay(rows, id, now, true) ::
      && r.value.value == Cutoff(PromotionDay(KeyBest(rows, id, now).value))
      && now < r.value.value <= now + 26 * HOUR
  {
    if ids == {} {
      return Some(None);
    }
    if !up {
      return None;
    }
    DeadlineBounds(now);
    forall id | id in ids && SoldByDay(rows, id, now, true)
      ensures ReservationDeadline(now) == Cutoff(PromotionDay(KeyBest(rows, id, now).value))
    {
      KeyBestIsBiggest(rows, id, now);
      DayPromotionOwnsOneWindow(KeyBest(rows, id, now).value, now);
    }
    var promos := BestActiveByLink(rows, ids, now);
    var todo := promos.Keys;
    while todo != {}
      invariant todo <= promos.Keys
      invariant forall id | id in promos && id !in todo :: !SoldByDay(rows, id, now, true)
      decreases |todo|
    {
      var id := PickKey(todo);
      if promos[id].kind == Day && AppliesAt(promos[id], now) {
        assert SoldByDay(rows, id, now, true);
        return Some(Some(ReservationDeadline(now)));
      }
      todo := todo - {id};
    }
    return Some(None);
  }

  /**
    A manual promotion tied with a day promotion, both of 20%: the order of the rows decides whether
    a day promotion of a past window refuses the order, and whether one of this window shortens it.
   */
  lemma TieDecidesTheChecks(now: int)
    ensures
      var manual := Row(7, Promotion(1, "", 2000, true, Manual, None, None, None, 0));
      var past := Row(7, Promotion(2, "", 2000, true, Day, None, None, Some(now - 3 * DAY), 0));
      var today := Row(7, Promotion(3, "", 2000, true, Day, None, None, Some(now), 0));
      && SoldByDay([past, manual], 7, now, false) && !SoldByDay([manual, past], 7, now, false)
      && SoldByDay([today, manual], 7, now, true) && !SoldByDay([manual, today], 7, now, true)
  {
    var manual := Row(7, Promotion(1, "", 2000, true, Manual, None, None, None, 0));
    var past := Row(7, Promotion(2, "", 2000, true, Day, None, None, Some(now - 3 * DAY), 0));
    var today := Row(7, Promotion(3, "", 2000, true, Day, None, None, Some(now), 0));
    DeadlineBounds(now - 3 * DAY);
    DayPromotionOwnsOneWindow(past.promo, now);
    DayPromotionOwnsOneWindow(today.promo, now);
    FirstOfTwo(manual, past, now);
    FirstOfTwo(past, manual, now);
    FirstOfTwo(manual, today, now);
    FirstOfTwo(today, manual, now);
  }

  /** What both checks ask of the products of an order. */
  predicate AnySoldByDay(rows: seq<Row>, ids: set<int>, now: int, applies: bool) {
    exists id | id in ids :: SoldByDay(rows, id, now, applies)
  }

  /** The check answers alike in every order SQL may return the rows in. */
  ghost predicate VerdictFixed(rows: seq<Row>, ids: set<int>, now: int, applies: bool) {
    forall xs | multiset(xs) == multiset(rows) ::
      AnySoldByDay(xs, ids, now, applies) <==> AnySoldByDay(rows, ids, now, applies)
  }

  /** The product has tied tops, some of which pass the check's test and some do not. */
  ghost predicate Mixed(rows: seq<Row>, id: int, now: int, applies: bool) {
    exists a, b :: IsTop(rows, a, id, now) && IsTop(rows, b, id, now)
      && ByDay(a.promo, now, applies) && !ByDay(b.promo, now, applies)
  }

  ghost function FailingTop(rows: seq<Row>, id: int, now: int, applies: bool): (row: Row)
    requires Mixed(rows, id, now, applies)
    ensures IsTop(rows, row, id, now) && !ByDay(row.promo, now, applies)
  {
    var a, b :| IsTop(rows, a, id, now) && IsTop(rows, b, id, now)
      && ByDay(a.promo, now, applies) && !ByDay(b.promo, now, applies);
    b
  }

  /** All of the product's tied tops pass the test. */
  ghost predicate Sure(rows: seq<Row>, id: int, now: int, applies: bool) {
    SoldByDay(rows, id, now, applies) && !Mixed(rows, id, now, applies)
  }

  lemma UnmixedIsFixed(rows: seq<Row>, xs: seq<Row>, id: int, now: int, applies: bool)
    requires multiset(xs) == multiset(rows) && !Mixed(rows, id, now, applies)
    ensures SoldByDay(xs, id, now, applies) <==> SoldByDay(rows, id, now, applies)
  {
    TopsAreEqual(rows, xs, id, now);
    SameMembers(rows, xs);
    if KeyBest(rows, id, now).Some? {
      BestIsTop(rows, id, now);
      BestIsTop(xs, id, now);
      var a :| IsTop(rows, a, id, now) && a.promo == KeyBest(rows, id, now).value;
      var b :| IsTop(xs, b, id, now) && b.promo == KeyBest(xs, id, now).value;
      assert IsTop(rows, b, id, now);
    }
  }

  /** Some product passes the test in every order, or on no product the order matters. */
  ghost predicate SureOrUnmixed(rows: seq<Row>, ids: set<int>, now: int, applies: bool) {
    || (exists id | id in ids :: Sure(rows, id, now, applies))
    || (forall id | id in ids :: !Mixed(rows, id, now, applies))
  }

  lemma SureOrUnmixedIsFixed(rows: seq<Row>, xs: seq<Row>, ids: set<int>, now: int, applies: bool)
    requires multiset(xs) == multiset(rows)
    requires SureOrUnmixed(rows, ids, now, applies)
    ensures AnySoldByDay(xs, ids, now, applies) <==> AnySoldByDay(rows, ids, now, applies)
  {
    forall id | id in ids && !Mixed(rows, id, now, applies)
      ensures SoldByDay(xs, id, now, applies) <==> SoldByDay(rows, id, now, applies)
    {
      UnmixedIsFixed(rows, xs, id, now, applies);
    }
  }

  /** Every mixed product can be made to fail the test in one and the same order. */
  lemma AllCanFail(rows: seq<Row>, ids: set<int>, now: int, applies: bool) returns (low: seq<Row>)
    requires forall id | id in ids :: !Sure(rows, id, now, applies)
    ensures multiset(low) == multiset(rows) && !AnySoldByDay(low, ids, now, applies)
  {
    var picks := map k | k in ids && Mixed(rows, k, now, applies) :: FailingTop(rows, k, now, applies);
    low := PickedRowsWin(rows, picks, now);
    forall id | id in ids
      ensures !SoldByDay(low, id, now, applies)
    {
      if id in picks {
        assert KeyBest(low, id, now) == Some(picks[id].promo);
      } else {
        assert KeyBest(low, id, now) == KeyBest(rows, id, now);
      }
    }
  }

  lemma OneCanPass(rows: seq<Row>, ids: set<int>, id: int, now: int, applies: bool) returns (high: seq<Row>)
    requires id in ids && Mixed(rows, id, now, applies)
    ensures multiset(high) == multiset(rows) && AnySoldByDay(high, ids, now, applies)
  {
    var a :| IsTop(rows, a, id, now) && ByDay(a.promo, now, applies);
    high := PromotedRowWins(rows, a, id, now);
    assert SoldByDay(high, id, now, applies);
  }

  /**
    The verdict on an order ignores the row order exactly when some product passes the test in
    every order, or no product has tied tops on which the test differs.
   */
  lemma VerdictFixedIff(rows: seq<Row>, ids: set<int>, now: int, applies: bool)
    ensures VerdictFixed(rows, ids, now, applies) <==> SureOrUnmixed(rows, ids, now, applies)
  {
    if SureOrUnmixed(rows, ids, now, applies) {
      forall xs | multiset(xs) == multiset(rows)
        ensures AnySoldByDay(xs, ids, now, applies) <==> AnySoldByDay(rows, ids, now, applies)
      {
        SureOrUnmixedIsFixed(rows, xs, ids, now, applies);
      }
    } else {
      var id :| id in ids && Mixed(rows, id, now, applies);
      var high := OneCanPass(rows, ids, id, now, applies);
      var low := AllCanFail(rows, ids, now, applies);
    }
  }
}
