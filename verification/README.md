# Reservation shop: a verified model

The shop sells by reservation. An order takes stock at once, is mirrored as a customer order
in MoySklad, and is later completed, cancelled or expired by a cron job. Around that core sit a
webhook inbox, promotions over a category forest, a reservation calendar, a stock cache, a rate
counter, a circuit breaker with a retry loop, the paging loop of the catalogue and a splitter of
SQL migration scripts. This project models those parts and proves what they keep.

Code that changes state step by step is a class or a method with loops, tied to functions that
say what it computes; protocols are state machines whose theorems quantify over every run.

| file | content |
|---|---|
| `Base.dfy` | the optional value and two facts about sets |
| `StockRows.dfy`, `Ledger.dfy` | stock rows, the guarded decrement, the restore, and the accounts of an order table |
| `OrderStore.dfy` | the order transactions and the expiry job, run one at a time |
| `OrderProtocol.dfy`, `OrderRuns.dfy` | the same operations interleaved statement by statement, with failures, the saga with MoySklad, and the theorems over whole runs |
| `OrderLives.dfy` | what each order owes to its request, over whole runs: booking, release, the remote order; and that every order can be placed and released |
| `Calendar.dfy` | closing times, reservation windows, deadlines, bookings |
| `Categories.dfy` | ancestor chains upwards, recursive trees downwards |
| `Pricing.dfy`, `PricingLaws.dfy`, `Catalogue.dfy` | the batch pricer, its laws, the promotional catalogue |
| `Inbox.dfy`, `InboxRuns.dfy` | the webhook inbox, its workers, and all their runs |
| `RateCounter.dfy` | the fixed-window counter and its cleanup |
| `StockCache.dfy`, `CacheRuns.dfy` | the stock cache and the age of what it serves |
| `Breaker.dfy`, `RetryLoop.dfy` | the breaker, the retry loop, the outbound semaphore |
| `CatalogPage.dfy`, `PageRows.dfy` | the batched page loop, and which rows a page holds |
| `Splitter.dfy`, `DollarBlocks.dfy` | the migration splitter, and what it does to dollar-quoted blocks |

## What is true only on a condition

- **Repeated products in one order.** `CreateOrder` does not merge lines, and the restore
  statement touches each product row once. A release then returns less than the order took. The
  shortfall is given exactly (`StockRows.ShortfallExactlyForRepeatedLines`,
  `Ledger.ReleaseLosesShortfall`); conservation holds when every order names each product once
  (`OrderRuns.StockIsConserved`), and charge-then-restore is the identity on stock iff it does
  (`StockRows.ChargeThenRestore`).
- **Repeated products and the cache.** Such an order also hands the cache a stock no committed row
  ever held; its handed rows are all committed ones iff its products are distinct
  (`OrderStores.HandedRowsAreCommittedIffDistinct`). If a later write is lost, the cache serves that
  stock (`CacheRuns.LostSecondWriteServesUncommittedStock`). Served stocks are recent in every run
  around an order iff it names distinct products (`CacheRuns.FreshIffDistinct`).
- **Ties and the reservation window.** The best promotion of a key is chosen before the window
  filter runs, so a tie between promotions in and out of the window leaves the key's discount to the
  order in which SQL returns the rows (`PricingLaws.TieAcrossTheWindow`), and nothing else does
  (`PricingLaws.OrderIrrelevantIffUntied`). Whether such a tie moves the discount of a product
  depends on its other offers: `PricingLaws.PriceFixedIff` says exactly when it does not.
- **Ties and the day-promotion checks.** Whether an order is refused or shortened can depend on the
  row order as well (`PricingLaws.TieDecidesTheChecks`); `PricingLaws.VerdictFixedIff` says exactly
  when it does not.
- **Chains and trees.** The depth guard and cycles are the only things that part the upward chains
  from the downward trees (`Categories.DualityExactly`).
- **One product or a batch.** The batch reader ignores the reservation counter of a cold product and
  turns failures into stocks, the single reader does neither (`StockCaches.SingleAgreesWithBatchIff`).
- **Pages.** Two neighbouring pages show a row twice when hidden rows made the first one look
  further (`CatalogPages.PagesOverlapIff`).
- **One-line dollar quotes.** A quote with a named tag that opens and closes on one line is taken
  as left open; one with `$$` is not (`Splitter.OneLineQuoteClosesIffUnnamed`).

Where text and code disagree, the code is modelled. README.md:18 and
migrations/007_orders_reserved_until.sql:2 speak of a 48-hour booking; the code books until 03:00
three calendar days later, which is always more than 51 hours.

## Model

| member | source | states |
|---|---|---|
| `StockRows.SequentialEqualsAggregate` | internal/db/orders.go:336-361 | for lines with positive quantities, repeats allowed, the guarded loop succeeds iff every named product exists, is sellable and has its total demand in stock, and then each stock drops by exactly its total |
| `StockRows.OutcomeIgnoresLineOrder` | internal/db/orders.go:336-361 | permuting the lines changes neither success nor the resulting rows |
| `StockRows.RowsAfterOrder` | internal/db/orders.go:336-361 | each named product loses its total demand and is active if any stock remains, out of stock if none does; other rows stay |
| `StockRows.ShortfallExactlyForRepeatedLines` | internal/db/orders.go:508-517 | a restore misses nothing of a product iff the order names it on at most one line |
| `StockRows.ChargeThenRestore` | internal/db/orders.go:508-517 | taking and then restoring an order gives every stock back iff its lines name distinct products, whichever line each row joined |
| `StockRows.RowsAfterRestore` | internal/db/orders.go:508-517 | each named product gains the quantity of one of its lines and is active again if it has stock; other rows stay |
| `Ledger.CreateKeepsTotals` | internal/db/orders.go:324-425 | stock plus live holdings of every product is the same after an order is created |
| `Ledger.ReleaseLosesShortfall` | internal/db/orders.go:467-545 | a release changes that total by exactly minus the shortfall, and keeps stock non-negative |
| `Ledger.CompleteKeepsTotals` | internal/db/orders.go:547-565 | completing an order moves none of what orders hold |
| `OrderStores.OrderStore.CreateOrderAtomic` | internal/db/orders.go:324-425 | whichever statement the database refuses: it succeeds iff none is refused and every line can be taken, and then products, orders, cart and the rows handed back are determined; it reports a shortage iff the first short line is met before the refused statement, naming its product; otherwise no table changes |
| `OrderStores.OrderStore.CancelPendingOrderAtomic` | internal/db/orders.go:467-545 | exactly when it answers released, already handled, forbidden, invalid target or failed, with the database failing before or after the lock; what it writes on release, and that nothing changes otherwise |
| `OrderStores.OrderStore.CompleteOrder` | internal/db/orders.go:547-565 | completes exactly the pending order asked for, and tells a settled order from a failed update |
| `OrderStores.OrderStore.ListExpiredPendingIDs` | internal/db/orders.go:427-459 | at most the limit of overdue pending orders, earliest booking first, none passed over |
| `OrderStores.RestoreStock` | internal/db/orders.go:508-517 | the restore touches each named product once, adding the quantity of one of its lines |
| `OrderStores.HandedRowIsCommittedIffLast` | internal/usecase/order.go:230-243 | a row handed to the cache after an order shows the committed stock iff no later line takes from its product |
| `OrderStores.HandedRowsAreCommittedIffDistinct` | internal/usecase/order.go:230-243 | all the rows an order hands over are committed ones iff its lines name distinct products |
| `OrderStores.RepeatedLineHandsOverUncommittedStock` | internal/usecase/order.go:230-243 | a two-line order whose first handed row is a stock never committed |
| `OrderStores.ReservationExpiryService.ExpireOne` | internal/services/reservation_expiry.go:116-165 | whatever became of the listed order: it expires iff still pending, free and not refused by the database, its stock is restored then and only then, and a settled or held one counts as handled |
| `OrderStores.ReservationExpiryService.ExpireListed` | internal/services/reservation_expiry.go:101-113 | for any list of ids the loop releases what can be released and counts what it reports; no total grows, and one falls iff a released order names its product twice |
| `OrderStores.ReservationExpiryService.Tick` | internal/services/reservation_expiry.go:83-114 | one run of the job on any tables: who is listed, what every order becomes, what is reported; a total falls iff a released order names its product twice, and no accepted pickup is still ahead |
| `OrderStores.LoopTouchesEachOnce` | internal/services/reservation_expiry.go:101-113 | what the loop leaves of each order is said by that order alone |
| `OrderStores.ReportCounts` | internal/services/reservation_expiry.go:101-113 | for distinct ids the reported number is the number of listed orders released, found settled or held |
| `OrderStores.OverduePickupsPassed` | internal/db/orders.go:435-442 | every listed order's accepted pickup time is past |
| `OrderProtocol.StepKeepsInv` | internal/usecase/order.go:88-357 | every step of every call keeps the protocol invariant: no row, order or remote order in two hands, transactions consistent with the committed tables, live orders tied to an issued remote order |
| `OrderProtocol.StepGrows` | internal/db/orders.go:467-565 | no step loses an order, changes a settled one, or changes anything of an order but its status |
| `OrderRuns.CommitsAreAtomic` | internal/db/orders.go:324-565 | serializability: in every interleaving each commit acts as the operation run alone at that instant, and a failed create or cancel leaves products and orders as they were |
| `OrderRuns.TerminalIsAbsorbing` | internal/db/orders.go:481-545 | a completed, cancelled or expired order never changes again |
| `OrderRuns.TotalsDriftOnly` | internal/db/orders.go:324-565 | in every committed state of every run, stock plus live holdings is the initial total plus the sync changes minus the shortfalls so far |
| `OrderRuns.StockIsConserved` | internal/db/orders.go:324-565 | with distinct products per order and no sync of the product, that total never changes, in any interleaving with rollbacks and crashes anywhere |
| `OrderRuns.StockNeverNegative` | internal/db/orders.go:336-361 | stock goes below zero only if a sync writes it there |
| `OrderRuns.ReleasedExactlyOnce` | internal/db/orders.go:481-562 | an order leaves pending at most once; its stock is returned once if it ended cancelled or expired, in full iff the product is on one line, and never otherwise |
| `OrderRuns.DeletionAbandons` | internal/usecase/order.go:203-213 | when the shop deletes a remote order, no live order names it and no running create can commit under it |
| `OrderRuns.DeletedOnlyWhenAbandoned` | internal/usecase/order.go:289-333 | and that stays so for the rest of the run: a remote order is deleted only if its local order was never committed, and never will be, or is cancelled or expired |
| `OrderRuns.LiveOrdersKeepRemote` | internal/usecase/order.go:190-213 | with the integration on, every pending or completed order has its remote order, unless someone deleted it in MoySklad itself |
| `OrderRuns.CronNeverExpiresEarly` | internal/services/reservation_expiry.go:83-165 | in every run, an order the cron releases has outlived its booking and its accepted pickup time, and an ordinary booking 51 hours |
| `OrderLives.RequestBooks` | internal/usecase/order.go:157-188 | every accepted request without a day promotion is booked until a 03:00 of the shop's zone more than 51 and at most 75 hours ahead, one with a day promotion until the closing time that ends its window, at most 26 hours ahead; a wanted pickup lies between now and then |
| `OrderLives.OrderIsItsRequest` | internal/usecase/order.go:178-203 | in every run a committed order has the user, lines, pickup and booking of the request it came from, and the remote order its call was given |
| `OrderLives.EveryOrderWasRequested` | internal/usecase/order.go:178-203 | every order a run adds was committed from such a request |
| `OrderLives.CronHonoursTheRequest` | internal/services/reservation_expiry.go:83-165 | in every run, an order asked for without a day promotion is never released by the cron within 51 hours of the request; with one, never before the closing time that ended its window; and never before its pickup |
| `OrderLives.WhoReleases` | internal/db/orders.go:467-506 | in every run a user ends only own orders, by cancelling them, and the cron only lets orders expire |
| `OrderLives.FailedCreateIsUndone` | internal/usecase/order.go:203-213 | a create that fails after making its remote order deletes exactly that one if MoySklad answers, and touches nothing else |
| `OrderLives.ReleaseIsUnregistered` | internal/usecase/order.go:317-330 | a release deletes exactly the remote order of its order if MoySklad answers, and stands either way |
| `OrderLives.OrderCanBePlaced` | internal/usecase/order.go:88-228 | from every state that keeps the invariant, a request whose lines are covered and whose rows are free can reach its commit, with the stock charged |
| `OrderLives.OrderCanBeReleased` | internal/db/orders.go:467-545 | and every free pending order can be cancelled with its stock restored |
| `Calendar.WindowsPartitionTime` | internal/services/promotionwindow.go:57-65 | the reservation date is D iff the instant lies between the closing times of D-1 and D |
| `Calendar.DateIsMonotone` | internal/services/promotionwindow.go:57-75 | dates and deadlines never go back as time goes on |
| `Calendar.ClosingTimes` | internal/services/promotionwindow.go:20-33 | the shop closes at 16:00 Moscow time on Saturdays and Sundays and at 18:00 otherwise |
| `Calendar.DayPromotionOwnsOneWindow` | internal/services/promotionwindow.go:84-109 | an active day promotion applies at exactly the instants of the one window that holds its start, and the pickup deadline there is the window's end |
| `Calendar.DeadlineBounds` | internal/services/promotionwindow.go:71-75 | the deadline is after now by at most 26 hours |
| `Calendar.DeadlineBoundIsTight` | internal/services/promotionwindow.go:20-33 | Sunday at closing time reaches the 26 hours |
| `Calendar.BookingBounds` | internal/usecase/order.go:17-20 | in any fixed-offset zone a booking ends at a 03:00, more than 51 and at most 75 hours ahead |
| `Calendar.DayPromotionShortensBooking` | internal/usecase/order.go:157-176 | the day-promotion deadline always comes before the ordinary booking ends |
| `Calendar.FilterForReservation` | internal/services/promotionwindow.go:112-123 | the loop keeps, in order, the promotions that apply |
| `Calendar.ApplicableMembers` | internal/services/promotionwindow.go:112-123 | a promotion survives the filter iff it was given, is active, and is no day promotion or is one of the current window; the order is kept |
| `Categories.AncestorMap` | internal/db/categories.go:81-118 | every category gets its chain of ancestors, self first, cut after 32 proper ones, on any parent graph |
| `Categories.ChainFollowsParents` | internal/db/categories.go:105-116 | a chain starts at the category, each next entry is the parent of the one before, and it stops only at a root, a missing row or after 33 entries |
| `Categories.RoundIsUp` | internal/db/products.go:517-530 | a category enters the recursive tree of c in round n iff c is its n-th ancestor |
| `Categories.ChainIsInTree` | internal/db/categories.go:105-116 | with cycles too, a chain has at most 33 entries, and c is in it iff the tree of c reaches the category within 32 rounds |
| `Categories.DualityExactly` | internal/db/products.go:517-530 | chain and tree membership agree on every category iff the guard cuts off nothing new |
| `Categories.Duality` | internal/db/categories.go:105-116 | when the walk ends within 32 ancestors they agree, and the chain is duplicate-free and ends at a root |
| `Categories.QueryEndsIffAcyclic` | internal/db/products.go:517-530 | the recursive query runs dry for every root iff the parent graph is acyclic |
| `Categories.TreeIsComplete` | internal/db/products.go:517-530 | and has then collected the whole tree |
| `Pricing.EffectivePriceBounds` | internal/usecase/promotion_pricing.go:148-166 | the shown price lies in [0, price], within half a kopeck of the exact one, and below the price iff the discount is worth more than half a kopeck |
| `Pricing.BiggerDiscountNeverCostsMore` | internal/usecase/promotion_pricing.go:148-166 | the price is antitone in the discount |
| `Pricing.BestActiveByLink` | internal/db/promotion_links.go:211-266 | the loop leaves for each asked key its best promotion in force |
| `Pricing.KeyBestIsBiggest` | internal/db/promotion_links.go:258-264 | that best is one of the key's rows in force and none of them is bigger |
| `Pricing.FilterPromotionsMap` | internal/usecase/promotion_pricing.go:199-210 | keeps exactly the maxima that apply in the window |
| `Pricing.PromotionsOf` | internal/usecase/promotion_pricing.go:70-75 | a link query and its filter leave each asked key its best if it applies, and a failed query leaves nothing |
| `Pricing.OfferMeans` | internal/db/promotion_links.go:211-266 | a key's offer is positive, active, inside its dates and its window, linked to the key, and no other row in force is bigger |
| `Pricing.PricedProduct.SetEffective` | internal/usecase/promotion_pricing.go:148-166 | writes price, discount, title, kind and level, and nothing for a discount that is not positive |
| `Pricing.BestOfChain` | internal/usecase/promotion_pricing.go:128-145 | the loop along the chain finds the chain's offer |
| `Pricing.ChainOfferIsPositive` | internal/usecase/promotion_pricing.go:128-145 | the chain's offer is an ancestor's own, positive, and at least every other ancestor's |
| `Pricing.ApplyToProduct` | internal/usecase/promotion_pricing.go:111-146 | a product is sold under its own offer, else the best of its chain, else left alone |
| `Pricing.Apply` | internal/usecase/promotion_pricing.go:52-109 | whatever the batch holds, in whatever order, with repetitions and nils, each product is priced as if alone; a failed link query counts as no links |
| `PricingLaws.OrderIrrelevantIffUntied` | internal/db/promotion_links.go:258-264 | the discount of a key does not depend on the order of the rows iff no tie for the maximum straddles the window |
| `PricingLaws.PickedRowsWin` | internal/db/promotion_links.go:258-264 | for any choice of one top row per key there is one order of the rows in which all of them are chosen |
| `PricingLaws.ChainFixedIffCovered` | internal/usecase/promotion_pricing.go:128-145 | the chain's discount does not depend on the row order iff every straddling tie of the chain is covered by the offer of an unstraddled key of it |
| `PricingLaws.PriceFixedIff` | internal/usecase/promotion_pricing.go:111-146 | a product's shown discount does not depend on the row order iff: its own tie straddles, the chain is covered and shows that tie's discount; or its own untied offer stands; or it offers nothing itself and the chain is covered |
| `PricingLaws.TieAcrossTheWindow` | internal/usecase/promotion_pricing.go:199-210 | two rows whose order decides between 20% and nothing |
| `PricingLaws.ChainDiscountIsFixed` | internal/usecase/promotion_pricing.go:128-145 | without such ties the chain's discount is a function of the set of rows |
| `PricingLaws.PriceIgnoresRowOrder` | internal/usecase/promotion_pricing.go:52-146 | and so are a product's discount and level: the level too is fixed without such ties |
| `PricingLaws.CheckDayPromotionWindow` | internal/usecase/promotion_pricing.go:247-265 | refuses iff the query succeeds and some product's own best promotion is a day promotion out of its window |
| `PricingLaws.DayPromotionDeadline` | internal/usecase/promotion_pricing.go:224-242 | fails iff a query is made and fails; else finds a deadline iff some product's own best is a day promotion in its window, and it is the window's end, at most 26 hours ahead |
| `PricingLaws.TieDecidesTheChecks` | internal/usecase/promotion_pricing.go:224-265 | two tied promotions whose row order decides between refused and passed, and between shortened and not |
| `PricingLaws.VerdictFixedIff` | internal/usecase/promotion_pricing.go:224-265 | either check answers an order alike for every row order iff some product passes the test in all of them, or no product has tied tops on which the test differs |
| `Catalogue.ActivePromotions` | internal/db/promotions.go:156-187 | the promotions in force |
| `Catalogue.ResolveCandidateIds` | internal/usecase/promotion_catalog.go:307-364 | each linked product and each product of a linked category's tree, once |
| `Catalogue.DiscountedIsCandidate` | internal/usecase/promotion_catalog.go:307-364 | on an acyclic forest with a current ancestor map no product the pricer would discount escapes the candidates |
| `Catalogue.PriceMeans` | internal/usecase/promotion_pricing.go:111-146 | in terms of the parent links: an own offer wins; without one the price is the biggest offer among the category and its 32 nearest ancestors, one of them has it, and there is none exactly when none offers |
| `Catalogue.TreeIsDiscounted` | internal/usecase/promotion_pricing.go:128-145 | a product anywhere in the tree of a promoted category, at most 32 levels below, is discounted at the category level by at least that promotion |
| `Catalogue.FilterOnSale` | internal/db/products.go:540-580 | without search and category, keeps exactly the active, status-active ids |
| `Catalogue.LoadProducts` | internal/usecase/product.go:171-211 | the active ids in the order asked, whatever their status, each with a fresh record that a repeated id shares |
| `Catalogue.KeepDiscounted` | internal/usecase/promotion_catalog.go:366-377 | keeps exactly the products whose shown price is below the base price |
| `Catalogue.ListProducts` | internal/usecase/promotion_catalog.go:77-145 | the catalogue is exactly the set of products on sale whose price for themselves alone is below base, each once, with that price shown; it holds every product on sale in the tree of a promoted category |
| `Inbox.WebhookInboxRepo.Enqueue` | internal/db/webhook_inbox.go:49-67 | inserts iff the key is new |
| `Inbox.WebhookInboxRepo.ClaimBatch` | internal/db/webhook_inbox.go:69-118 | takes the due rows with the smallest ids that no other claim holds, none skipped, reads each once, in no promised order, and moves exactly those to processing |
| `Inbox.ClaimMeans` | internal/db/webhook_inbox.go:69-118 | what a claim takes was pending, due and free and is processing now; all other rows stay, and one that was due and free has a larger id than everything taken |
| `Inbox.WebhookInboxRepo.Replay` | internal/db/webhook_inbox.go:174-186 | only a dead letter becomes pending again, with its attempts kept |
| `Inbox.WebhookInboxWorker.HandleOne` | internal/services/webhook_inbox_worker.go:63-101 | the row of a handled job: completed if handled well; else pending again with one more attempt, or dead at its last; unchanged if the mark is lost |
| `InboxRuns.RunKeepsInv` | internal/db/webhook_inbox.go:49-186 | in every reachable state attempts stay below the maximum and no row is in two hands |
| `InboxRuns.ProcessedAtMost` | internal/services/webhook_inbox_worker.go:63-101 | a row is processed at most max_attempts times plus once for each replay |
| `InboxRuns.CompletedIsFinal` | internal/db/webhook_inbox.go:120-126 | a completed row never changes and is never processed again |
| `InboxRuns.DoneIffMarkedWell` | internal/services/webhook_inbox_worker.go:63-101 | in every run from the start a row is completed iff a claim of it that was handled well has been marked |
| `InboxRuns.DeadOnlyAtTheLastAttempt` | internal/services/webhook_inbox_worker.go:84-98 | a row becomes a dead letter only by the mark of a failed handling whose attempts reach the maximum |
| `InboxRuns.DueRowCanComplete` | internal/services/webhook_inbox_worker.go:39-101 | in every reachable state a due row that nothing holds can be claimed, handled and completed |
| `InboxRuns.FailuresEndInDeadLetter` | internal/services/webhook_inbox_worker.go:77-98 | if every handling fails and every mark gets through, exactly the max_attempts-th one buries the row |
| `RateCounter.MemCounter.Incr` | internal/cache/ratestore.go:108-119 | opens a window or counts in the live one |
| `RateCounter.MemCounter.Get` | internal/cache/ratestore.go:121-129 | the count of the live window, 0 without one |
| `RateCounter.MemCounter.Reset` | internal/cache/ratestore.go:131-135 | forgets the key |
| `RateCounter.MemCounter.Cleanup` | internal/cache/ratestore.go:94-106 | drops exactly the expired records |
| `RateCounter.MemCounter.Allow` | internal/cache/ratestore.go:31-33 | true iff the window's count so far is below the limit |
| `RateCounter.SimilarStep` | internal/cache/ratestore.go:94-135 | tables with the same live records are bisimilar, a cleanup on one side alone included |
| `RateCounter.ResetStartsAfresh` | internal/cache/ratestore.go:131-135 | after a reset the key counts from nothing in a new window and other keys count on |
| `RateCounter.CleanupIsUnobservable` | internal/cache/ratestore.go:94-106 | every history of calls answers as if cleanup had never run |
| `RateCounter.LimitPerWindow` | internal/cache/ratestore.go:31-33 | with fixed limit and ttl and no reset, at most limit calls are allowed in each window |
| `RateCounter.TwiceTheLimitPerInterval` | internal/cache/ratestore.go:31-33 | and at most twice the limit in any interval of length ttl |
| `StockCaches.StockCache.SetStock` | internal/cache/redis.go:59-75 | the entry is replaced and lives 30 minutes, or nothing changes |
| `StockCaches.StockCache.GetStock` | internal/cache/redis.go:78-95 | a failed read, no live entry, or the live entry |
| `StockCaches.StockCache.InvalidateStock` | internal/cache/redis.go:115-118 | removes exactly that entry, or fails and changes nothing |
| `StockCaches.StockCache.GetAvailableStock` | internal/cache/redis.go:227-257 | cached or fetched stock less the counter, never below zero, with every failure answered as the code does; a fetched stock warms the cache |
| `StockCaches.GetByIDs` | internal/db/products.go:140-159 | the existing rows of the ids, each once |
| `StockCaches.StockCache.BatchGetAvailableStocks` | internal/cache/redis.go:270-358 | one answer for each id, 0 for one that can be found nowhere, and exactly the cold rows warmed, under any failures |
| `StockCaches.AnswersMean` | internal/cache/redis.go:227-344 | what either reader answers when nothing fails, in terms of the entry, the row and the counter |
| `StockCaches.FailuresMean` | internal/cache/redis.go:227-344 | what either reader answers under each failure |
| `StockCaches.WarmingMeans` | internal/cache/redis.go:321-344 | a batch leaves each fetched row in the cache for 30 minutes and every other entry as it was |
| `StockCaches.SingleAgreesWithBatchIff` | internal/cache/redis.go:227-344 | under any failures, alone and in a batch a product gets one answer iff its reads succeed and it is hot, or is fetched and unreserved or out of stock |
| `CacheRuns.RunKeepsInv` | internal/cache/redis.go:59-95 | in every run whose orders name distinct products, each cached stock was held by the row no earlier than its storing less the delay bound |
| `CacheRuns.ServedStockIsRecent` | internal/cache/redis.go:78-95 | in every such run, with the rows each order's decrements returned as its cache writes, a stock served at t was the row's at some moment no earlier than t - 30 minutes - the largest write delay |
| `CacheRuns.ShownStockIsRecent` | internal/cache/redis.go:270-344 | and so was a positive stock shown by a batch, cold or hot, whatever fails, while no counter is set |
| `CacheRuns.FreshIffDistinct` | internal/usecase/order.go:230-243 | for every order that can be created: all runs it takes part in, beside orders of distinct products, serve only recent stocks iff it names distinct products |
| `CacheRuns.RepeatedLineIsServedStale` | internal/usecase/order.go:230-243 | a line followed by another of its product lets the cache serve a stock the row never held |
| `CacheRuns.LostSecondWriteServesUncommittedStock` | internal/usecase/order.go:230-243 | lines of 1 and 2 on a stock of 5: with the second write lost, 4 is served |
| `CacheRuns.BatchIsARun` | internal/cache/redis.go:321-344 | what a batch call leaves in the cache is what a run of cold reads and arriving writes leaves, so the theorems about runs cover it |
| `CacheRuns.BoundIsTight` | internal/cache/redis.go:59-75 | for every delay a run reaches the bound exactly |
| `Breaker.CircuitBreaker.constructor` | internal/resilience/circuitbreaker.go:28-40 | settings below the minimum become 5 failures and 45 seconds |
| `Breaker.CircuitBreaker.Allow` | internal/resilience/circuitbreaker.go:44-63 | refuses exactly while open and not yet timed out, and turns half-open when the time is up |
| `Breaker.CircuitBreaker.OnSuccess` | internal/resilience/circuitbreaker.go:65-78 | what a reported success changes in each state |
| `Breaker.CircuitBreaker.OnFailure` | internal/resilience/circuitbreaker.go:80-95 | what a reported failure changes in each state |
| `Breaker.CircuitBreaker.Call` | internal/resilience/circuitbreaker.go:97-108 | one question and, if admitted, one report |
| `Breaker.CounterMeaning` | internal/resilience/circuitbreaker.go:65-95 | over every history: closed, the counter is the failures since the last success and below the threshold; open or half-open, it is the threshold |
| `Breaker.TripsExactlyAtThreshold` | internal/resilience/circuitbreaker.go:80-95 | it opens at exactly the failure that makes the run of failures reach the threshold |
| `Breaker.NothingAdmittedWhileOpen` | internal/resilience/circuitbreaker.go:44-63 | nothing is admitted from a trip at t until t + openTimeout, whatever late reports arrive |
| `Breaker.Recloses` | internal/resilience/circuitbreaker.go:65-78 | it closes again iff a success arrives in half-open |
| `Breaker.ProbeDecides` | internal/resilience/circuitbreaker.go:44-95 | once the timeout is over a question is admitted, and the report of that probe closes the breaker or opens it anew |
| `Breaker.HalfOpenAdmitsEveryProbe` | internal/resilience/circuitbreaker.go:44-63 | half-open admits any number of probes before a report |
| `RetryLoop.DoRequestWithRetry` | internal/moysklad/client.go:264-351 | the loop does what the attempts one by one decide, and the code after it is unreachable |
| `RetryLoop.RetryDiscipline` | internal/moysklad/client.go:264-351 | for every sequence of answers: at most maxRetries + 1 sends, slots released before any sleep, report or return, one report per request with a breaker unless the circuit was open |
| `RetryLoop.EndsAsTheAnswersSay` | internal/moysklad/client.go:264-351 | the sends are 0, 1, .., k in order, where k is the first attempt that is refused, answered for good or the last; with a breaker an answer below 500 is reported as a success, one from 500 on and giving up as a failure, and an open circuit is not reported |
| `RetryLoop.PoolStep` | internal/moysklad/client.go:112-118 | every step keeps the token count equal to the holders |
| `RetryLoop.ConcurrentSendsBounded` | internal/moysklad/client.go:264-351 | in any interleaving of any number of requests at most capacity sends are under way |
| `RetryLoop.NeverStuck` | internal/moysklad/client.go:112-118 | while a request is unfinished, some request can step: the semaphore never deadlocks |
| `CatalogPages.GetCatalogProducts` | internal/usecase/product.go:73-137 | the page is the first limit rows with a positive shown stock among rows [offset, offset + 20*limit), in order, each object showing that stock; the call fails iff a batch that is asked for fails; the search loop of lines 213-266 is the same over its own rows |
| `CatalogPages.ApplyStockBuffer` | internal/usecase/product.go:282-297 | the stock after the buffer, truncated, or the available one |
| `CatalogPages.Collect` | internal/usecase/product.go:113-127 | the inner loop takes what is in stock until the page is full |
| `PageRows.PageExactly` | internal/usecase/product.go:73-137 | a page holds, in order and once each, rows in stock of the 20 * limit from offset on, with the available stock where it is known and else the row's less the buffer; a row in stock is passed over only behind a full page |
| `CatalogPages.PagesOverlapIff` | internal/usecase/product.go:84-132 | neighbouring pages share a row iff the first page's own stretch does not fill it and the rest of its window shows something |
| `Splitter.SplitStatements` | internal/db/migrate.go:162-222 | the loop over lines and flags computes the scan the laws below speak of |
| `Splitter.KeepsEveryLine` | internal/db/migrate.go:162-222 | the pieces joined are the newline-ended input lines less the comment lines met outside dollar quotes; with none of those, the input and a newline |
| `Splitter.CutsExactly` | internal/db/migrate.go:203-219 | every piece stops at its first line that ends in a semicolon with no tag open; only the last piece may have none |
| `Splitter.ResplitsWhole` | internal/db/migrate.go:162-222 | splitting a piece again returns it whole, up to a blank piece or line at the end |
| `Splitter.OneLineQuoteClosesIffUnnamed` | internal/db/migrate.go:180-202 | a quote that opens and closes on one line is seen to close iff its tag has no name |
| `DollarBlocks.TwoDollars` | internal/db/migrate.go:185-192 | with no dollar before it, "$$" opens a quote iff the line has no second one |
| `DollarBlocks.QuoteOpens` | internal/db/migrate.go:180-202 | a line that is no comment opens the quote of its first tag, however it is indented |
| `DollarBlocks.BlockStaysWhole` | internal/db/migrate.go:162-222 | a dollar-quoted block met outside quotes lies in one piece, whatever semicolons and comments its lines hold, and the quote is shut after it; with a command ended before it and one at its end, the piece is the block |
| `DollarBlocks.NoDollarsKept` | internal/db/migrate.go:168-178 | without dollars the lines kept are those that are no comments, in order |
| `DollarBlocks.PlainScript` | internal/db/migrate.go:209-219 | and they are cut after each line that ends in a semicolon and nowhere else |

## Left out

- `OrderRuns.StockIsConserved`: a sync writes stock absolutely and rebases the total; `OrderRuns.TotalsDriftOnly` carries the exact amounts.
- `OrderRuns.StockNeverNegative`: a sync can write a negative stock, so the claim is about syncs that do not.
- `OrderRuns.LiveOrdersKeepRemote`: only existence of the remote order is claimed; its positions skip products without a MoySklad id, so quantities may differ.
- `OrderRuns.CronNeverExpiresEarly`: the creation time of the model is the instant the request was accepted.
- `InboxRuns.ProcessedAtMost`: a worker that dies leaves its row in processing; `InboxRuns.DueRowCanComplete` says what can happen, and nothing is claimed to happen eventually.
- `RateCounter.TwiceTheLimitPerInterval`: the in-memory counter only; the Redis counter is not part of this model.
- `CacheRuns.ServedStockIsRecent`: one clock serves the shop and the cache; without distinct products it fails, as `CacheRuns.FreshIffDistinct` says.
- `CatalogPages.GetCatalogProducts`: rows and available stocks stay fixed during a call and SQL returns equal rows in one order; negative offsets and the final pricing call are not modelled.
- `Pricing.Apply`: one clock reading serves both queries and both filters.
- `Catalogue.ListProducts`: without sorting, paging, search, category and kind filters, with one clock reading, and with an ancestor map taken from the current categories (its refresh interval is not modelled).
- `Categories.QueryEndsIffAcyclic`: acyclicity itself is a hypothesis, since folders are upserted by name and old parents stay.
- `Splitter.SplitStatements`: strings are sequences of Unicode characters; invalid UTF-8 is not modelled.
- Deadlocks, lock timeouts and progress: a transaction can always abort, and nothing is claimed to happen eventually. A commit whose answer is lost counts as not committed.
- Order ids are positions in the order table; gaps of a serial column are not modelled. Product rows are not deleted.
- Prices and totals of an order, its audit events, its renaming in MoySklad, and cart rows beyond the ones an order clears.
- Decimal prices are integers: kopecks, and hundredths of a percent. The buffer percentage is a real number.
- Moscow is the fixed zone UTC+3, as in the fallback of the code; historic daylight saving is not modelled.
- `WebhookRetryDelay` and the rate limiter: the next attempt time is arbitrary, and waiting for the limiter has no effect on the claims.
- Reservation counters are read, never written: nothing shown calls ReserveStock, and its release is not modelled.
- `GetProductsByIDs` in its stock-cache part, `GetProductByID`, `InvalidateByMoyskladID`: easy beside the loops modelled.
- HTTP handlers, JWT, hashing, sanitizers, email, metrics, configuration and presentation.
- internal/usecase/moysklad_orders.go, which is not wired in; the rest of the MoySklad client; product and image sync beyond its absolute stock write; the sync worker pool.
