/** What holds over whole runs of the order protocol, whatever the interleaving and the failures. */
module OrderRuns {
  import opened Base
  import opened StockRows
  import opened Ledger
  import opened OrderProtocol
  import Calendar

  predicate Run(states: seq<State>, events: seq<Event>) {
    && |states| == |events| + 1
    && forall i | 0 <= i < |events| :: Enabled(states[i], events[i]) && states[i + 1] == Apply(states[i], events[i])
  }

  lemma InitSatisfiesInv(s: State)
    requires Init(s)
    ensures Inv(s)
  {
  }

  lemma {:induction false} RunKeepsInv(states: seq<State>, events: seq<Event>, n: nat)
    requires Run(states, events) && n < |states| && Inv(states[0])
    ensures Inv(states[n])
  {
    if n > 0 {
      RunKeepsInv(states, events, n - 1);
      StepKeepsInv(states[n - 1], events[n - 1]);
    }
  }

  lemma {:induction false} RunGrows(states: seq<State>, events: seq<Event>, i: nat, j: nat, o: nat)
    requires Run(states, events) && i <= j < |states| && Inv(states[0])
    requires o < |states[i].orders|
    ensures o < |states[j].orders| && SameRow(states[i].orders[o], states[j].orders[o])
    ensures states[i].clock <= states[j].clock
    decreases j
  {
    if i < j {
      RunGrows(states, events, i, j - 1, o);
      RunKeepsInv(states, events, j - 1);
      StepGrows(states[j - 1], events[j - 1]);
      assert SameRow(states[j - 1].orders[o], states[j].orders[o]);
    }
  }

  /** Completed, expired and cancelled are absorbing: such an order's row never changes again. */
  lemma TerminalIsAbsorbing(states: seq<State>, events: seq<Event>, i: nat, j: nat, o: nat)
    requires Run(states, events) && i <= j < |states| && Inv(states[0])
    requires o < |states[i].orders| && states[i].orders[o].status != Pending
    ensures o < |states[j].orders| && states[j].orders[o] == states[i].orders[o]
  {
    RunGrows(states, events, i, j, o);
  }

  // ---- the interleaved transactions act as atomic ones ----

  lemma CommittedCreateIsTakeAll(s: State, call: Call)
    requires CallOk(s, call) && call.Creating? && call.taken == |call.draft.items|
    ensures TakeAll(s.products, call.draft.items) == Some(s.products + call.writes)
  {
    var items := call.draft.items;
    assert items[..|items|] == items;
    SequentialEqualsAggregate(s.products, items);
    assert Covers(s.products, items);
    assert s.products + call.writes == Charged(s.products, items);
  }

  lemma CommittedReleaseIsRestore(s: State, call: Call)
    requires CallOk(s, call) && call.Releasing? && call.lines.Keys == Named(s.orders[call.order].items)
    ensures Joins(call.lines, s.orders[call.order].items)
    ensures s.products + call.writes == Restored(s.products, s.orders[call.order].items, call.lines)
  {
  }

  /** Step `e` from `s` to `t` in terms of the operations run alone; any other step moves no committed row. */
  predicate Atomic(s: State, e: Event, t: State) {
    match e
    case CommitCreate(call) =>
      && call in s.calls && s.calls[call].Creating?
      && TakeAll(s.products, s.calls[call].draft.items) == Some(t.products)
      && t.orders == s.orders + [s.calls[call].draft]
    case CommitRelease(call) =>
      && call in s.calls && s.calls[call].Releasing?
      && var c := s.calls[call];
      && c.order < |s.orders| && s.orders[c.order].status == Pending
      && c.target in {Expired, Cancelled}
      && Joins(c.lines, s.orders[c.order].items)
      && t.products == Restored(s.products, s.orders[c.order].items, c.lines)
      && t.orders == s.orders[c.order := s.orders[c.order].(status := c.target)]
    case Complete(o) =>
      && o < |s.orders| && s.orders[o].status == Pending
      && t.products == s.products && t.orders == s.orders[o := s.orders[o].(status := Completed)]
    case Sync(p, row) => t.products == s.products[p := row] && t.orders == s.orders
    case _ => t.products == s.products && t.orders == s.orders
  }

  /**
    Serializability: in every interleaving, each commit acts on the committed tables as
    the guarded loop, the restore or the completion run alone at that instant, and every
    other step (a failed create among them) leaves products and orders as they were.
   */
  lemma CommitsAreAtomic(states: seq<State>, events: seq<Event>, i: nat)
    requires Run(states, events) && i < |events| && Inv(states[0])
    ensures Atomic(states[i], events[i], states[i + 1])
  {
    var s, e := states[i], events[i];
    RunKeepsInv(states, events, i);
    if e.CommitCreate? {
      assert CallOk(s, s.calls[e.call]);
      CommittedCreateIsTakeAll(s, s.calls[e.call]);
    } else if e.CommitRelease? {
      assert CallOk(s, s.calls[e.call]);
      CommittedReleaseIsRestore(s, s.calls[e.call]);
    }
  }

  // ---- conservation ----

  /** The change of a product's total in one step: a sync rebases it, a release may fall short. */
  function Drift(s: State, e: Event, t: State, p: int): int
    requires Atomic(s, e, t)
  {
    match e
    case CommitRelease(call) => -Shortfall(s.orders[s.calls[call].order].items, s.calls[call].lines, p)
    case Sync(q, row) => if p == q then StockOf(t.products, p) - StockOf(s.products, p) else 0
    case _ => 0
  }

  function StockOf(table: Table, p: int): int {
    if p in table then table[p].stock else 0
  }

  lemma StepDrift(s: State, e: Event, t: State, p: int)
    requires Inv(s) && Enabled(s, e) && t == Apply(s, e) && Atomic(s, e, t) && p in s.products
    ensures p in t.products
    ensures Total(t.products, t.orders, p) == Total(s.products, s.orders, p) + Drift(s, e, t, p)
  {
    match e
    case CommitCreate(call) =>
      var draft := s.calls[call].draft;
      assert CallOk(s, s.calls[call]);
      SequentialEqualsAggregate(s.products, draft.items);
      CreateKeepsTotals(s.products, s.orders, draft, p);
    case CommitRelease(call) =>
      var c := s.calls[call];
      assert OrdersOk(s.products, s.orders) by {
        forall o | 0 <= o < |s.orders| ensures OrderRowOk(s.products, s.orders[o]) {
          assert OrderOk(s, s.orders[o]);
        }
      }
      ReleaseLosesShortfall(s.products, s.orders, c.order, c.target, c.lines, p);
    case Complete(o) => CompleteKeepsTotals(s.orders, o, p);
    case _ =>
  }

  predicate AtomicRun(states: seq<State>, events: seq<Event>) {
    Run(states, events) && forall i | 0 <= i < |events| :: Atomic(states[i], events[i], states[i + 1])
  }

  ghost function DriftSum(states: seq<State>, events: seq<Event>, p: int, n: nat): int
    requires AtomicRun(states, events) && n <= |events|
  {
    if n == 0 then 0 else DriftSum(states, events, p, n - 1) + Drift(states[n - 1], events[n - 1], states[n], p)
  }

  lemma RunIsAtomic(states: seq<State>, events: seq<Event>)
    requires Run(states, events) && Inv(states[0])
    ensures AtomicRun(states, events)
  {
    forall i | 0 <= i < |events| ensures Atomic(states[i], events[i], states[i + 1]) {
      CommitsAreAtomic(states, events, i);
    }
  }

  lemma StepKeepsProduct(s: State, e: Event, p: int)
    requires Enabled(s, e) && p in s.products
    ensures p in Apply(s, e).products
  {
  }

  lemma {:induction false} ProductsStay(states: seq<State>, events: seq<Event>, p: int, n: nat)
    requires Run(states, events) && n < |states| && p in states[0].products
    ensures p in states[n].products
  {
    if n > 0 {
      ProductsStay(states, events, p, n - 1);
      StepKeepsProduct(states[n - 1], events[n - 1], p);
    }
  }

  /** In every committed state, stock plus what live orders hold is the initial total plus the drift so far. */
  lemma {:induction false} TotalsDriftOnly(states: seq<State>, events: seq<Event>, p: int, n: nat)
    requires Run(states, events) && Inv(states[0]) && n <= |events| && p in states[0].products
    ensures AtomicRun(states, events)
    ensures p in states[n].products
    ensures Total(states[n].products, states[n].orders, p)
            == Total(states[0].products, states[0].orders, p) + DriftSum(states, events, p, n)
  {
    RunIsAtomic(states, events);
    if n > 0 {
      TotalsDriftOnly(states, events, p, n - 1);
      RunKeepsInv(states, events, n - 1);
      StepDrift(states[n - 1], events[n - 1], states[n], p);
    }
  }

  predicate Single(call: Call) {
    (call.Drafted? || call.Registered? || call.Creating?) ==> DistinctProducts(call.draft.items)
  }

  predicate AllDistinct(s: State) {
    && (forall o | 0 <= o < |s.orders| :: DistinctProducts(s.orders[o].items))
    && (forall c | c in s.calls :: Single(s.calls[c]))
  }

  lemma StepKeepsDistinct(s: State, e: Event)
    requires Enabled(s, e) && AllDistinct(s)
    requires e.Request? ==> DistinctProducts(e.items)
    ensures AllDistinct(Apply(s, e))
  {
    var t := Apply(s, e);
    forall c | c in t.calls ensures Single(t.calls[c]) {
      if c in s.calls {
        assert Single(s.calls[c]);
      }
    }
    forall o | 0 <= o < |t.orders| ensures DistinctProducts(t.orders[o].items) {
      if e.CommitCreate? && o == |s.orders| {
        assert Single(s.calls[e.call]);
      } else {
        assert t.orders[o].items == s.orders[o].items;
      }
    }
  }

  lemma {:induction false} RunKeepsDistinct(states: seq<State>, events: seq<Event>, n: nat)
    requires Run(states, events) && n < |states| && AllDistinct(states[0])
    requires forall i | 0 <= i < |events| :: events[i].Request? ==> DistinctProducts(events[i].items)
    ensures AllDistinct(states[n])
  {
    if n > 0 {
      RunKeepsDistinct(states, events, n - 1);
      StepKeepsDistinct(states[n - 1], events[n - 1]);
    }
  }

  lemma StepConserves(s: State, e: Event, t: State, p: int)
    requires Inv(s) && Enabled(s, e) && t == Apply(s, e) && Atomic(s, e, t) && p in s.products
    requires AllDistinct(s) && (e.Sync? ==> e.product != p)
    ensures p in t.products && Total(t.products, t.orders, p) == Total(s.products, s.orders, p)
  {
    StepDrift(s, e, t, p);
    if e.CommitRelease? {
      var c := s.calls[e.call];
      assert OrderOk(s, s.orders[c.order]);
      DistinctHaveNoShortfall(s.orders[c.order].items, c.lines, p);
    }
  }

  /**
    Conservation: when every order names each product once and no sync writes the product,
    its stock plus its quantities in pending and completed orders never changes, in any
    interleaving of creates, cancellations, expiries and completions with any failures.
   */
  lemma {:induction false} StockIsConserved(states: seq<State>, events: seq<Event>, p: int, n: nat)
    requires Run(states, events) && Inv(states[0]) && AllDistinct(states[0]) && n <= |events|
    requires p in states[0].products
    requires forall i | 0 <= i < |events| :: events[i].Request? ==> DistinctProducts(events[i].items)
    requires forall i | 0 <= i < |events| :: events[i].Sync? ==> events[i].product != p
    ensures p in states[n].products
    ensures Total(states[n].products, states[n].orders, p) == Total(states[0].products, states[0].orders, p)
  {
    if n > 0 {
      var s, e := states[n - 1], events[n - 1];
      StockIsConserved(states, events, p, n - 1);
      RunKeepsInv(states, events, n - 1);
      RunKeepsDistinct(states, events, n - 1);
      CommitsAreAtomic(states, events, n - 1);
      StepConserves(s, e, states[n], p);
    }
  }

  predicate NonNegative(table: Table) {
    forall p | p in table :: table[p].stock >= 0
  }

  /** Stock goes below zero only if a sync writes it there. */
  lemma {:induction false} StockNeverNegative(states: seq<State>, events: seq<Event>, n: nat)
    requires Run(states, events) && Inv(states[0]) && n <= |events| && NonNegative(states[0].products)
    requires forall i | 0 <= i < |events| :: events[i].Sync? ==> events[i].row.stock >= 0
    ensures NonNegative(states[n].products)
  {
    if n > 0 {
      var s, e, t := states[n - 1], events[n - 1], states[n];
      StockNeverNegative(states, events, n - 1);
      RunKeepsInv(states, events, n - 1);
      CommitsAreAtomic(states, events, n - 1);
      if e.CommitCreate? {
        SequentialEqualsAggregate(s.products, s.calls[e.call].draft.items);
        assert CallOk(s, s.calls[e.call]);
      } else if e.CommitRelease? {
        var c := s.calls[e.call];
        assert OrderOk(s, s.orders[c.order]);
        assert Positive(s.orders[c.order].items);
      }
    }
  }

  // ---- exactly-once release ----

  /** How often an order left `pending` in the first `n` steps. */
  ghost function Exits(states: seq<State>, o: nat, n: nat): nat
    requires n < |states|
  {
    if n == 0 then 0
    else Exits(states, o, n - 1) +
         if o < |states[n - 1].orders| && o < |states[n].orders| &&
            states[n - 1].orders[o].status == Pending && states[n].orders[o].status != Pending then 1 else 0
  }

  predicate ReleasesOrder(s: State, e: Event, o: nat) {
    e.CommitRelease? && e.call in s.calls && s.calls[e.call].Releasing? && s.calls[e.call].order == o
  }

  /** The stock of `p` returned by releases of order `o` in the first `n` steps. */
  ghost function Returned(states: seq<State>, events: seq<Event>, o: nat, p: int, n: nat): int
    requires Run(states, events) && n <= |events|
  {
    if n == 0 then 0
    else Returned(states, events, o, p, n - 1) +
         if ReleasesOrder(states[n - 1], events[n - 1], o)
         then StockOf(states[n].products, p) - StockOf(states[n - 1].products, p) else 0
  }

  /** The quantity one release of `order` gives back of `p`: all of it iff `p` is on at most one line. */
  predicate OneRelease(order: Order, p: int, quantity: int) {
    && 0 <= quantity <= Demand(order.items, p)
    && (quantity == Demand(order.items, p) <==> Lines(order.items, p) <= 1)
  }

  lemma ReleaseReturns(s: State, e: Event, t: State, p: int)
    requires Inv(s) && Atomic(s, e, t) && e.CommitRelease? && p in s.products
    ensures p in t.products
    ensures OneRelease(s.orders[s.calls[e.call].order], p, t.products[p].stock - s.products[p].stock)
  {
    var c := s.calls[e.call];
    assert OrderOk(s, s.orders[c.order]);
    var items := s.orders[c.order].items;
    ShortfallExactlyForRepeatedLines(items, c.lines, p);
    DemandBounds(items, p);
  }

  /** Where an order that starts pending, or is created on the way, stands after `n` steps. */
  predicate Accounted(s: State, o: nat, p: int, exits: nat, returned: int) {
    if o >= |s.orders| then exits == 0 && returned == 0
    else
      && (s.orders[o].status == Pending <==> exits == 0) && exits <= 1
      && (Gone(s.orders[o]) ==> OneRelease(s.orders[o], p, returned))
      && (!Gone(s.orders[o]) ==> returned == 0)
  }

  lemma AccountedStep(s: State, e: Event, t: State, o: nat, p: int, exits: nat, returned: int)
    requires Inv(s) && Enabled(s, e) && t == Apply(s, e) && Atomic(s, e, t) && p in s.products && p in t.products
    requires Accounted(s, o, p, exits, returned)
    ensures Accounted(t, o, p,
      exits + if o < |s.orders| && o < |t.orders| && s.orders[o].status == Pending &&
        t.orders[o].status != Pending then 1 else 0,
      returned + if ReleasesOrder(s, e, o) then StockOf(t.products, p) - StockOf(s.products, p) else 0)
  {
    if e.CommitRelease? {
      ReleaseReturns(s, e, t, p);
    } else if e.CommitCreate? {
      assert CallOk(s, s.calls[e.call]);
    }
  }

  /**
    Exactly-once release: however user, administrator, cron and completion race, an order
    leaves `pending` at most once, and releases return its stock once if it ended expired
    or cancelled (fully iff the product is on one line) and never if it is pending or completed.
   */
  lemma {:induction false} ReleasedExactlyOnce(states: seq<State>, events: seq<Event>, o: nat, p: int, n: nat)
    requires Run(states, events) && Inv(states[0]) && n <= |events|
    requires o < |states[0].orders| ==> states[0].orders[o].status == Pending
    requires p in states[0].products
    ensures Accounted(states[n], o, p, Exits(states, o, n), Returned(states, events, o, p, n))
  {
    if n > 0 {
      ReleasedExactlyOnce(states, events, o, p, n - 1);
      RunKeepsInv(states, events, n - 1);
      CommitsAreAtomic(states, events, n - 1);
      ProductsStay(states, events, p, n - 1);
      ProductsStay(states, events, p, n);
      AccountedStep(states[n - 1], events[n - 1], states[n], o, p,
        Exits(states, o, n - 1), Returned(states, events, o, p, n - 1));
    }
  }

  // ---- the saga with MoySklad ----

  /** A remote id no live order names and no running create can still commit under. */
  predicate Abandoned(s: State, id: int) {
    && id in s.issued
    && (forall o | 0 <= o < |s.orders| :: s.orders[o].remote == Some(id) ==> Gone(s.orders[o]))
    && (forall c | c in s.calls :: s.calls[c].Registered? || s.calls[c].Creating? ==> Carries(s.calls[c]) != Some(id))
  }

  lemma DeletionAbandons(s: State, e: Event, id: int)
    requires Inv(s) && Enabled(s, e) && !e.RemovedOutside?
    requires id in s.remote && id !in Apply(s, e).remote
    ensures Abandoned(s, id) && Abandoned(Apply(s, e), id)
  {
    var t := Apply(s, e);
    assert CallOk(s, s.calls[e.call]);
    if e.Unregister? {
      var g :| 0 <= g < |s.orders| && s.orders[g].remote == Some(id) && Gone(s.orders[g]);
      forall c | c in s.calls ensures Carries(s.calls[c]) != Some(id) {
        assert CallOk(s, s.calls[c]);
      }
    } else {
      forall c | c in s.calls && c != e.call ensures Carries(s.calls[c]) != Some(id) {
        assert Apart(s.calls[e.call], s.calls[c]);
      }
    }
  }

  lemma AbandonedStays(s: State, e: Event, id: int)
    requires Inv(s) && Enabled(s, e) && Abandoned(s, id)
    ensures Abandoned(Apply(s, e), id)
  {
    var t := Apply(s, e);
    StepGrows(s, e);
    if e.CommitCreate? {
      assert Carries(s.calls[e.call]) != Some(id);
    }
    forall o | 0 <= o < |t.orders| && t.orders[o].remote == Some(id) ensures Gone(t.orders[o]) {
      if o < |s.orders| {
        assert SameRow(s.orders[o], t.orders[o]);
      }
    }
    if e.RemoteCreated? || e.Request? || e.Begin? || e.TakeLine? {
      assert e.call in s.calls ==> CallOk(s, s.calls[e.call]);
    }
  }

  /**
    Saga safety: when the shop itself deletes a remote order, no order that names it is
    live at that moment or ever after: its local order was never committed and never will
    be, or it is already expired or cancelled.
   */
  lemma {:induction false} DeletedOnlyWhenAbandoned(states: seq<State>, events: seq<Event>, i: nat, j: nat, id: int)
    requires Run(states, events) && Inv(states[0]) && i < |events| && i <= j < |states|
    requires !events[i].RemovedOutside? && id in states[i].remote && id !in states[i + 1].remote
    ensures Abandoned(states[j], id)
    decreases j
  {
    if j <= i + 1 {
      RunKeepsInv(states, events, i);
      DeletionAbandons(states[i], events[i], id);
    } else {
      DeletedOnlyWhenAbandoned(states, events, i, j - 1, id);
      RunKeepsInv(states, events, j - 1);
      AbandonedStays(states[j - 1], events[j - 1], id);
    }
  }

  lemma {:induction false} LostOnlyOutside(states: seq<State>, events: seq<Event>, n: nat, id: int)
    requires Run(states, events) && n < |states| && id in states[n].lost && id !in states[0].lost
    ensures exists i | 0 <= i < n :: events[i] == RemovedOutside(id)
  {
    if id in states[n - 1].lost {
      LostOnlyOutside(states, events, n - 1, id);
    } else {
      assert events[n - 1] == RemovedOutside(id);
    }
  }

  lemma StepKeepsSettings(s: State, e: Event)
    requires Enabled(s, e)
    ensures Apply(s, e).integrated == s.integrated && Apply(s, e).zone == s.zone
  {
  }

  lemma {:induction false} SettingsStay(states: seq<State>, events: seq<Event>, n: nat)
    requires Run(states, events) && n < |states|
    ensures states[n].integrated == states[0].integrated && states[n].zone == states[0].zone
  {
    if n > 0 {
      SettingsStay(states, events, n - 1);
      StepKeepsSettings(states[n - 1], events[n - 1]);
    }
  }

  /** With the integration on, every live order still has its remote order unless someone else deleted it. */
  lemma LiveOrdersKeepRemote(states: seq<State>, events: seq<Event>, n: nat, o: nat)
    requires Run(states, events) && Init(states[0]) && states[0].integrated
    requires n < |states| && o < |states[n].orders| && !Gone(states[n].orders[o])
    ensures states[n].orders[o].remote.Some?
    ensures var id := states[n].orders[o].remote.value;
      id in states[n].remote || exists i | 0 <= i < n :: events[i] == RemovedOutside(id)
  {
    InitSatisfiesInv(states[0]);
    RunKeepsInv(states, events, n);
    SettingsStay(states, events, n);
    assert OrderOk(states[n], states[n].orders[o]);
    var id := states[n].orders[o].remote.value;
    if id !in states[n].remote {
      LostOnlyOutside(states, events, n, id);
    }
  }

  // ---- the cron ----

  /**
    No early expiry: an order the cron releases has outlived its booking and its accepted
    pickup time, and the booking was either the ordinary one, of more than 51 hours, or the
    closing time of the reservation day it was made in.
   */
  lemma CronNeverExpiresEarly(states: seq<State>, events: seq<Event>, i: nat)
    requires Run(states, events) && Inv(states[0]) && i < |events|
    requires events[i].CommitRelease?
    requires states[i].calls[events[i].call].actor.Cron?
    ensures
      var order := states[i].orders[states[i].calls[events[i].call].order];
      && order.reservedUntil.Some? && order.reservedUntil.value < states[i].clock
      && (order.pickup.Some? ==> order.pickup.value < states[i].clock)
      && order.createdAt < states[i].clock
      && (order.reservedUntil.value != Calendar.ReservationDeadline(order.createdAt) ==>
            order.createdAt + 51 * Calendar.HOUR < states[i].clock)
  {
    var s, e := states[i], events[i];
    RunKeepsInv(states, events, i);
    assert CallOk(s, s.calls[e.call]);
    var order := s.orders[s.calls[e.call].order];
    assert OrderOk(s, order);
    Calendar.DeadlineBounds(order.createdAt);
    Calendar.BookingBounds(order.createdAt, s.zone);
  }
}
