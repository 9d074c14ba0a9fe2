/**
  The shop as a state machine: order calls of users, administrators and the cron job
  interleave statement by statement over committed tables, under row locks and READ
  COMMITTED, with failures and crashes anywhere, around the remote orders of MoySklad.
  A statement of an open transaction reads the committed row unless the transaction
  itself wrote it, and waits while another transaction holds the row.
 */
module OrderProtocol {
  import opened Base
  import opened StockRows
  import opened Ledger
  import Calendar

  datatype Actor = User(id: int) | Admin | Cron

  /** Where a running call of the order use cases stands; `writes` are its uncommitted rows. */
  datatype Call =
    | Drafted(draft: Order)
    | Registered(draft: Order)
    | Creating(draft: Order, taken: nat, writes: Table)
    | Undoing(remote: int)
    | Releasing(order: nat, target: OrderStatus, actor: Actor, lines: map<int, nat>, writes: Table)
    | Unregistering(remote: int)

  /**
    `remote` are the orders MoySklad holds, `issued` the ids it ever gave out and `lost`
    those deleted there by others; `listed` are the order ids the cron has read.
   */
  datatype State = State(integrated: bool, zone: int, clock: int,
                         products: Table, orders: seq<Order>,
                         remote: set<int>, issued: set<int>, lost: set<int>,
                         listed: set<nat>, calls: map<int, Call>)

  datatype Event =
    | Pass(time: int)
    | Request(call: int, user: int, items: seq<Item>, dayPromotion: bool, pickup: Option<int>)
    | RemoteCreated(call: int, id: int)
    | RemoteFailed(call: int, orphan: Option<int>)
    | Begin(call: int)
    | TakeLine(call: int)
    | CommitCreate(call: int)
    | AbortCreate(call: int)
    | Undo(call: int, reached: bool)
    | CronList(ids: set<nat>)
    | Lock(call: int, order: nat, target: OrderStatus, actor: Actor)
    | RestoreRow(call: int, product: int, line: nat)
    | CommitRelease(call: int)
    | AbortRelease(call: int)
    | Unregister(call: int, reached: bool)
    | Complete(order: nat)
    | Sync(product: int, row: Product)
    | RemovedOutside(id: int)
    | Crash(call: int)

  // ---- reading the state ----

  function Writes(call: Call): Table {
    match call
    case Creating(_, _, writes) => writes
    case Releasing(_, _, _, _, writes) => writes
    case _ => map[]
  }

  /** The remote order a call still answers for: made, and not yet named by a committed order. */
  function Carries(call: Call): Option<int> {
    match call
    case Registered(draft) => draft.remote
    case Creating(draft, _, _) => draft.remote
    case Undoing(remote) => Some(remote)
    case _ => None
  }

  predicate RowFree(s: State, call: int, p: int) {
    forall c | c in s.calls && c != call :: p !in Writes(s.calls[c])
  }

  predicate OrderFree(s: State, o: nat) {
    forall c | c in s.calls :: !(s.calls[c].Releasing? && s.calls[c].order == o)
  }

  function BookedUntil(now: int, zone: int, dayPromotion: bool): int {
    if dayPromotion then Calendar.ReservationDeadline(now) else Calendar.ReservedUntilFor(now, zone)
  }

  function Draft(s: State, user: int, items: seq<Item>, dayPromotion: bool, pickup: Option<int>): Order {
    Order(Some(user), Pending, items, None, s.clock, Some(BookedUntil(s.clock, s.zone, dayPromotion)), pickup)
  }

  /** MoySklad has never given the id out, if there is one. */
  predicate NeverIssued(s: State, id: Option<int>) {
    id.Some? ==> id.value !in s.issued
  }

  // ---- the steps ----

  predicate Enabled(s: State, e: Event) {
    match e
    case Pass(time) => s.clock <= time
    case Request(call, user, items, dayPromotion, pickup) =>
      && call !in s.calls
      && items != [] && Positive(items)
      && (forall p | p in Named(items) :: p in s.products && s.products[p].active)
      && (pickup.Some? ==> s.clock < pickup.value <= BookedUntil(s.clock, s.zone, dayPromotion))
    case RemoteCreated(call, id) => call in s.calls && s.calls[call].Drafted? && s.integrated && id !in s.issued
    case RemoteFailed(call, orphan) => call in s.calls && s.calls[call].Drafted? && NeverIssued(s, orphan)
    case Begin(call) => call in s.calls && s.calls[call].Registered?
    case TakeLine(call) =>
      && call in s.calls && s.calls[call].Creating?
      && var c := s.calls[call];
      && c.taken < |c.draft.items|
      && RowFree(s, call, c.draft.items[c.taken].product)
      && CanTake(s.products + c.writes, c.draft.items[c.taken])
    case CommitCreate(call) =>
      call in s.calls && s.calls[call].Creating? && s.calls[call].taken == |s.calls[call].draft.items|
    case AbortCreate(call) => call in s.calls && (s.calls[call].Creating? || s.calls[call].Registered?)
    case Undo(call, _) => call in s.calls && s.calls[call].Undoing?
    case CronList(ids) =>
      forall o | o in ids ::
        && o < |s.orders| && s.orders[o].status == Pending
        && s.orders[o].reservedUntil.Some? && s.orders[o].reservedUntil.value < s.clock
    case Lock(call, o, target, actor) =>
      && call !in s.calls
      && o < |s.orders| && s.orders[o].status == Pending && OrderFree(s, o)
      && target in {Expired, Cancelled}
      && (actor.User? ==> target == Cancelled && s.orders[o].user == Some(actor.id))
      && (actor.Cron? ==> target == Expired && o in s.listed)
    case RestoreRow(call, p, line) =>
      && call in s.calls && s.calls[call].Releasing?
      && var c := s.calls[call];
      && c.order < |s.orders|
      && p in s.products && p !in c.lines && RowFree(s, call, p)
      && line < |s.orders[c.order].items| && s.orders[c.order].items[line].product == p
    case CommitRelease(call) =>
      && call in s.calls && s.calls[call].Releasing?
      && s.calls[call].order < |s.orders|
      && s.calls[call].lines.Keys == Named(s.orders[s.calls[call].order].items)
    case AbortRelease(call) => call in s.calls && s.calls[call].Releasing?
    case Unregister(call, _) => call in s.calls && s.calls[call].Unregistering?
    case Complete(o) => o < |s.orders| && s.orders[o].status == Pending && OrderFree(s, o)
    case Sync(p, _) => forall c | c in s.calls :: p !in Writes(s.calls[c])
    case RemovedOutside(id) => id in s.remote
    case Crash(call) => call in s.calls
  }

  function Drop(s: State, call: int): map<int, Call> {
    map c | c in s.calls && c != call :: s.calls[c]
  }

  /** The decrement of the next line, on the row as the transaction sees it. */
  function AfterLine(s: State, c: Call): Call
    requires c.Creating? && c.taken < |c.draft.items|
    requires c.draft.items[c.taken].product in s.products + c.writes
  {
    var item := c.draft.items[c.taken];
    c.(taken := c.taken + 1,
       writes := c.writes[item.product := Moved((s.products + c.writes)[item.product], -item.quantity)])
  }

  function Apply(s: State, e: Event): State
    requires Enabled(s, e)
  {
    match e
    case Pass(time) => s.(clock := time)
    case Request(call, user, items, dayPromotion, pickup) =>
      var draft := Draft(s, user, items, dayPromotion, pickup);
      s.(calls := s.calls[call := if s.integrated then Drafted(draft) else Registered(draft)])
    case RemoteCreated(call, id) =>
      s.(remote := s.remote + {id}, issued := s.issued + {id},
         calls := s.calls[call := Registered(s.calls[call].draft.(remote := Some(id)))])
    case RemoteFailed(call, orphan) =>
      var ids := if orphan.Some? then {orphan.value} else {};
      s.(remote := s.remote + ids, issued := s.issued + ids, calls := Drop(s, call))
    case Begin(call) => s.(calls := s.calls[call := Creating(s.calls[call].draft, 0, map[])])
    case TakeLine(call) => s.(calls := s.calls[call := AfterLine(s, s.calls[call])])
    case CommitCreate(call) =>
      s.(products := s.products + s.calls[call].writes, orders := s.orders + [s.calls[call].draft],
        calls := Drop(s, call))
    case AbortCreate(call) =>
      var remote := s.calls[call].draft.remote;
      s.(calls := if remote.Some? then s.calls[call := Undoing(remote.value)] else Drop(s, call))
    case Undo(call, reached) =>
      s.(remote := if reached then s.remote - {s.calls[call].remote} else s.remote, calls := Drop(s, call))
    case CronList(ids) => s.(listed := s.listed + ids)
    case Lock(call, o, target, actor) => s.(calls := s.calls[call := Releasing(o, target, actor, map[], map[])])
    case RestoreRow(call, p, line) =>
      var c := s.calls[call];
      s.(calls := s.calls[call := c.(lines := c.lines[p := line],
                                     writes := c.writes[p := Moved(
                                       s.products[p], s.orders[c.order].items[line].quantity)])])
    case CommitRelease(call) =>
      var c := s.calls[call];
      var remote := s.orders[c.order].remote;
      s.(products := s.products + c.writes,
         orders := s.orders[c.order := s.orders[c.order].(status := c.target)],
         calls := if remote.Some? && s.integrated then s.calls[call := Unregistering(remote.value)] else Drop(s, call))
    case AbortRelease(call) => s.(calls := Drop(s, call))
    case Unregister(call, reached) =>
      s.(remote := if reached then s.remote - {s.calls[call].remote} else s.remote, calls := Drop(s, call))
    case Complete(o) => s.(orders := s.orders[o := s.orders[o].(status := Completed)])
    case Sync(p, row) => s.(products := s.products[p := row])
    case RemovedOutside(id) => s.(remote := s.remote - {id}, lost := s.lost + {id})
    case Crash(call) => s.(calls := Drop(s, call))
  }

  // ---- the invariant ----

  predicate Dated(zone: int, order: Order) {
    || order.reservedUntil == Some(BookedUntil(order.createdAt, zone, true))
    || order.reservedUntil == Some(BookedUntil(order.createdAt, zone, false))
  }

  predicate DraftOk(s: State, draft: Order) {
    draft.status == Pending && OrderRowOk(s.products, draft) && Dated(s.zone, draft)
  }

  predicate Gone(order: Order) {
    order.status == Expired || order.status == Cancelled
  }

  /** A committed order against MoySklad: it names an issued id, which exists while the order is live. */
  predicate OrderOk(s: State, order: Order) {
    && OrderRowOk(s.products, order) && Dated(s.zone, order)
    && (s.integrated ==> order.remote.Some?)
    && (order.remote.Some? ==>
          order.remote.value in s.issued &&
            (Gone(order) || order.remote.value in s.remote || order.remote.value in s.lost))
  }

  predicate CreatingOk(s: State, items: seq<Item>, taken: nat, writes: Table) {
    && taken <= |items|
    && writes.Keys == Named(items[..taken])
    && forall p | p in writes ::
         && p in s.products && s.products[p].active
         && s.products[p].stock >= Demand(items[..taken], p)
         && writes[p] == Moved(s.products[p], -Demand(items[..taken], p))
  }

  predicate ReleasingOk(s: State, items: seq<Item>, lines: map<int, nat>, writes: Table) {
    && JoinsSome(lines, items)
    && writes.Keys == lines.Keys
    && forall p | p in writes :: p in s.products && writes[p] == Moved(s.products[p], items[lines[p]].quantity)
  }

  predicate CarriesOk(s: State, call: Call) {
    var id := Carries(call);
    id.Some? ==>
      && id.value in s.issued
      && (id.value in s.remote || id.value in s.lost)
      && forall o | 0 <= o < |s.orders| :: s.orders[o].remote != id
  }

  predicate CallOk(s: State, call: Call) {
    && CarriesOk(s, call)
    && match call
       case Drafted(draft) => DraftOk(s, draft) && draft.remote == None
       case Registered(draft) => DraftOk(s, draft) && (s.integrated ==> draft.remote.Some?)
       case Creating(draft, taken, writes) =>
         DraftOk(s, draft) && (s.integrated ==> draft.remote.Some?) && CreatingOk(s, draft.items, taken, writes)
       case Undoing(_) => true
       case Releasing(o, target, actor, lines, writes) =>
         && o < |s.orders| && s.orders[o].status == Pending
         && target in {Expired, Cancelled}
         && (actor.User? ==> target == Cancelled && s.orders[o].user == Some(actor.id))
         && (actor.Cron? ==> target == Expired)
         && (actor.Cron? ==> s.orders[o].reservedUntil.Some? && s.orders[o].reservedUntil.value < s.clock)
         && ReleasingOk(s, s.orders[o].items, lines, writes)
       case Unregistering(id) =>
         id in s.issued && exists o :: 0 <= o < |s.orders| && s.orders[o].remote == Some(id) && Gone(s.orders[o])
  }

  /** Two running calls never hold one row, release one order or answer for one remote order. */
  predicate Apart(a: Call, b: Call) {
    && Writes(a).Keys !! Writes(b).Keys
    && (a.Releasing? && b.Releasing? ==> a.order != b.order)
    && (Carries(a).Some? ==> Carries(a) != Carries(b))
  }

  predicate AllApart(s: State) {
    forall c, d | c in s.calls && d in s.calls && c != d :: Apart(s.calls[c], s.calls[d])
  }

  predicate OwnRemotes(s: State) {
    forall o, q | 0 <= o < |s.orders| && 0 <= q < |s.orders| && o != q ::
      s.orders[o].remote.Some? ==> s.orders[o].remote != s.orders[q].remote
  }

  predicate OrdersFine(s: State) {
    forall o | 0 <= o < |s.orders| :: OrderOk(s, s.orders[o])
  }

  predicate ListedOverdue(s: State) {
    forall o | o in s.listed ::
      o < |s.orders| && s.orders[o].reservedUntil.Some? && s.orders[o].reservedUntil.value < s.clock
  }

  predicate Inv(s: State) {
    && (forall c | c in s.calls :: CallOk(s, s.calls[c]))
    && AllApart(s)
    && OrdersFine(s)
    && OwnRemotes(s)
    && ListedOverdue(s)
    && s.remote <= s.issued
  }

  predicate Init(s: State) {
    s.orders == [] && s.calls == map[] && s.remote == {} && s.issued == {} && s.lost == {} && s.listed == {}
  }

  // ---- what a step leaves alone ----

  predicate SameRow(before: Order, after: Order) {
    after == before || (before.status == Pending && after == before.(status := after.status))
  }

  /** What every step does to the shared state at most. */
  predicate Grows(s: State, t: State) {
    && t.zone == s.zone && t.integrated == s.integrated && s.clock <= t.clock
    && s.products.Keys <= t.products.Keys
    && s.issued <= t.issued
    && |s.orders| <= |t.orders|
    && forall o | 0 <= o < |s.orders| :: SameRow(s.orders[o], t.orders[o])
  }

  predicate Known(s: State, id: int) {
    id in s.remote || id in s.lost
  }

  /** The rows, the order and the remote order a call depends on are as they were. */
  predicate Spares(s: State, t: State, call: Call) {
    && (forall p | p in Writes(call) && p in s.products :: p in t.products && t.products[p] == s.products[p])
    && (call.Releasing? && call.order < |s.orders| ==>
      call.order < |t.orders| && t.orders[call.order] == s.orders[call.order])
    && (Carries(call).Some? && Known(s, Carries(call).value) ==> Known(t, Carries(call).value))
    && (Carries(call).Some? ==> forall o | |s.orders| <= o < |t.orders| :: t.orders[o].remote != Carries(call))
  }

  lemma StepGrows(s: State, e: Event)
    requires Inv(s) && Enabled(s, e)
    ensures Grows(s, Apply(s, e))
  {
    if e.CommitRelease? {
      assert CallOk(s, s.calls[e.call]);
    }
  }

  lemma CallKept(s: State, t: State, call: Call)
    requires CallOk(s, call) && Grows(s, t) && Spares(s, t, call)
    ensures CallOk(t, call)
  {
    assert CarriesOk(t, call) by {
      forall o | 0 <= o < |t.orders| && Carries(call).Some? ensures t.orders[o].remote != Carries(call) {
        if o < |s.orders| {
          assert SameRow(s.orders[o], t.orders[o]);
        }
      }
    }
    if call.Unregistering? {
      var o :| 0 <= o < |s.orders| && s.orders[o].remote == Some(call.remote) && Gone(s.orders[o]);
      assert SameRow(s.orders[o], t.orders[o]);
    }
  }

  lemma OrderKept(s: State, t: State, order: Order)
    requires OrderOk(s, order) && Grows(s, t)
    requires order.remote.Some? && !Gone(order) && Known(s, order.remote.value) ==> Known(t, order.remote.value)
    ensures OrderOk(t, order)
  {
  }

  predicate MovesOnly(s: State, t: State, call: int) {
    && t.calls.Keys <= s.calls.Keys + {call}
    && (forall c | c in t.calls && c != call :: c in s.calls && t.calls[c] == s.calls[c])
    && (call in t.calls ==>
          && CallOk(t, t.calls[call])
          && forall c | c in s.calls && c != call :: Apart(t.calls[call], s.calls[c]))
  }

  /** A step of one call keeps what the other calls rely on. */
  lemma OthersKept(s: State, t: State, call: int)
    requires Inv(s) && Grows(s, t) && MovesOnly(s, t, call)
    requires forall c | c in s.calls && c != call :: Spares(s, t, s.calls[c])
    ensures forall c | c in t.calls :: CallOk(t, t.calls[c])
    ensures AllApart(t)
  {
    forall c | c in t.calls ensures CallOk(t, t.calls[c]) {
      if c != call {
        CallKept(s, t, s.calls[c]);
      }
    }
    forall c, d | c in t.calls && d in t.calls && c != d ensures Apart(t.calls[c], t.calls[d]) {
      if c == call {
        assert Apart(t.calls[call], s.calls[d]);
      } else if d == call {
        assert Apart(t.calls[call], s.calls[c]);
      } else {
        assert Apart(s.calls[c], s.calls[d]);
      }
    }
  }

  lemma OrdersKept(s: State, t: State)
    requires Inv(s) && Grows(s, t) && t.orders == s.orders
    requires forall o | 0 <= o < |s.orders| && s.orders[o].remote.Some? && !Gone(s.orders[o]) ::
      Known(s, s.orders[o].remote.value) ==> Known(t, s.orders[o].remote.value)
    ensures OrdersFine(t) && OwnRemotes(t)
  {
    forall o | 0 <= o < |t.orders| ensures OrderOk(t, t.orders[o]) {
      OrderKept(s, t, s.orders[o]);
    }
  }

  // ---- steps that move only calls ----

  lemma CallStep(s: State, t: State, call: int)
    requires Inv(s) && t == s.(calls := t.calls) && MovesOnly(s, t, call)
    ensures Inv(t)
  {
    OthersKept(s, t, call);
    OrdersKept(s, t);
  }

  lemma RequestStep(s: State, e: Event)
    requires Inv(s) && Enabled(s, e) && e.Request?
    ensures Inv(Apply(s, e))
  {
    CallStep(s, Apply(s, e), e.call);
  }

  lemma BeginStep(s: State, e: Event)
    requires Inv(s) && Enabled(s, e) && e.Begin?
    ensures Inv(Apply(s, e))
  {
    var t := Apply(s, e);
    var items := s.calls[e.call].draft.items;
    assert items[..0] == [];
    forall c | c in s.calls && c != e.call ensures Apart(t.calls[e.call], s.calls[c]) {
      assert Apart(s.calls[e.call], s.calls[c]);
    }
    CallStep(s, t, e.call);
  }

  lemma TakeKeepsCreating(s: State, items: seq<Item>, taken: nat, writes: Table)
    requires CreatingOk(s, items, taken, writes) && taken < |items| && Positive(items)
    requires CanTake(s.products + writes, items[taken])
    ensures CreatingOk(s, items, taken + 1,
              writes[items[taken].product := Moved((s.products + writes)[items[taken].product],
                -items[taken].quantity)])
  {
    var front, item := items[..taken], items[taken];
    assert items[..taken + 1] == front + [item];
    assert items[..taken + 1][..taken] == front;
    assert Named(items[..taken + 1]) == Named(front) + {item.product} by {
      assert forall i | 0 <= i < taken :: items[..taken + 1][i] == front[i];
    }
    DemandBounds(front, item.product);
  }

  lemma {:induction false} AfterLineOk(s: State, c: Call)
    requires CallOk(s, c) && c.Creating? && c.taken < |c.draft.items|
    requires CanTake(s.products + c.writes, c.draft.items[c.taken])
    ensures CallOk(s, AfterLine(s, c))
    ensures Carries(AfterLine(s, c)) == Carries(c)
    ensures Writes(AfterLine(s, c)).Keys == Writes(c).Keys + {c.draft.items[c.taken].product}
  {
    TakeKeepsCreating(s, c.draft.items, c.taken, c.writes);
  }

  lemma {:induction false} TakeLineStep(s: State, e: Event)
    requires Inv(s) && Enabled(s, e) && e.TakeLine?
    ensures Inv(Apply(s, e))
  {
    var t, call := Apply(s, e), s.calls[e.call];
    AfterLineOk(s, call);
    var next := AfterLine(s, call);
    assert t.calls == s.calls[e.call := next];
    forall c | c in s.calls && c != e.call ensures Apart(next, s.calls[c]) {
      assert Apart(call, s.calls[c]);
      assert call.draft.items[call.taken].product !in Writes(s.calls[c]);
    }
    CallKept(s, t, next);
    CallStep(s, t, e.call);
  }

  lemma AbortCreateStep(s: State, e: Event)
    requires Inv(s) && Enabled(s, e) && e.AbortCreate?
    ensures Inv(Apply(s, e))
  {
    var t := Apply(s, e);
    forall c | c in s.calls && c != e.call && e.call in t.calls ensures Apart(t.calls[e.call], s.calls[c]) {
      assert Apart(s.calls[e.call], s.calls[c]);
    }
    assert CallOk(s, s.calls[e.call]);
    CallStep(s, t, e.call);
  }

  lemma {:induction false} LockStep(s: State, e: Event)
    requires Inv(s) && Enabled(s, e) && e.Lock?
    ensures Inv(Apply(s, e))
  {
    CallStep(s, Apply(s, e), e.call);
  }

  lemma {:induction false} RestoreRowStep(s: State, e: Event)
    requires Inv(s) && Enabled(s, e) && e.RestoreRow?
    ensures Inv(Apply(s, e))
  {
    var t := Apply(s, e);
    assert CallOk(s, s.calls[e.call]);
    forall c | c in s.calls && c != e.call ensures Apart(t.calls[e.call], s.calls[c]) {
      assert Apart(s.calls[e.call], s.calls[c]);
      assert e.product !in Writes(s.calls[c]);
    }
    CallStep(s, t, e.call);
  }

  lemma {:induction false} EndStep(s: State, e: Event)
    requires Inv(s) && Enabled(s, e) && (e.AbortRelease? || e.Crash?)
    ensures Inv(Apply(s, e))
  {
    CallStep(s, Apply(s, e), e.call);
  }

  // ---- steps that move remote orders ----

  lemma RemoteCreatedStep(s: State, e: Event)
    requires Inv(s) && Enabled(s, e) && e.RemoteCreated?
    ensures Inv(Apply(s, e))
  {
    var t := Apply(s, e);
    assert CallOk(s, s.calls[e.call]);
    forall o | 0 <= o < |s.orders| ensures s.orders[o].remote != Some(e.id) {
      assert OrderOk(s, s.orders[o]);
    }
    forall c | c in s.calls && c != e.call ensures Apart(t.calls[e.call], s.calls[c]) {
      assert CallOk(s, s.calls[c]);
    }
    OthersKept(s, t, e.call);
    OrdersKept(s, t);
  }

  lemma RemoteFailedStep(s: State, e: Event)
    requires Inv(s) && Enabled(s, e) && e.RemoteFailed?
    ensures Inv(Apply(s, e))
  {
    var t := Apply(s, e);
    OthersKept(s, t, e.call);
    OrdersKept(s, t);
  }

  lemma UndoStep(s: State, e: Event)
    requires Inv(s) && Enabled(s, e) && e.Undo?
    ensures Inv(Apply(s, e))
  {
    var t := Apply(s, e);
    assert CallOk(s, s.calls[e.call]);
    forall c | c in s.calls && c != e.call ensures Spares(s, t, s.calls[c]) {
      assert Apart(s.calls[e.call], s.calls[c]);
    }
    OthersKept(s, t, e.call);
    OrdersKept(s, t);
  }

  lemma UnregisterStep(s: State, e: Event)
    requires Inv(s) && Enabled(s, e) && e.Unregister?
    ensures Inv(Apply(s, e))
  {
    var t, id := Apply(s, e), s.calls[e.call].remote;
    assert CallOk(s, s.calls[e.call]);
    var g :| 0 <= g < |s.orders| && s.orders[g].remote == Some(id) && Gone(s.orders[g]);
    forall c | c in s.calls && c != e.call ensures Spares(s, t, s.calls[c]) {
      assert CallOk(s, s.calls[c]);
    }
    OthersKept(s, t, e.call);
    OrdersKept(s, t);
  }

  lemma OutsideStep(s: State, e: Event)
    requires Inv(s) && Enabled(s, e) && (e.RemovedOutside? || e.Pass? || e.CronList?)
    ensures Inv(Apply(s, e))
  {
    var t := Apply(s, e);
    forall c | c in t.calls ensures CallOk(t, t.calls[c]) {
      CallKept(s, t, s.calls[c]);
    }
    assert AllApart(t);
    OrdersKept(s, t);
  }

  // ---- steps that move committed rows ----

  lemma SyncStep(s: State, e: Event)
    requires Inv(s) && Enabled(s, e) && e.Sync?
    ensures Inv(Apply(s, e))
  {
    var t := Apply(s, e);
    forall c | c in t.calls ensures CallOk(t, t.calls[c]) {
      assert e.product !in Writes(s.calls[c]);
      CallKept(s, t, s.calls[c]);
    }
    OrdersKept(s, t);
  }

  lemma CommitCreateStep(s: State, e: Event)
    requires Inv(s) && Enabled(s, e) && e.CommitCreate?
    ensures Inv(Apply(s, e))
  {
    var t, call := Apply(s, e), s.calls[e.call];
    assert CallOk(s, call);
    forall c | c in s.calls && c != e.call ensures Spares(s, t, s.calls[c]) {
      assert Apart(call, s.calls[c]);
      assert Apart(s.calls[c], call);
    }
    OthersKept(s, t, e.call);
    forall o | 0 <= o < |t.orders| ensures OrderOk(t, t.orders[o]) {
      if o < |s.orders| {
        OrderKept(s, t, s.orders[o]);
      }
    }
  }

  /** Changing the status of one pending order keeps the order table fine. */
  lemma StatusKept(s: State, t: State, o: nat, status: OrderStatus)
    requires Inv(s) && Grows(s, t) && o < |s.orders| && s.orders[o].status == Pending
    requires t.orders == s.orders[o := s.orders[o].(status := status)]
    requires t.remote == s.remote && t.lost == s.lost && t.listed == s.listed && t.issued == s.issued
    ensures OrdersFine(t) && OwnRemotes(t) && ListedOverdue(t)
  {
    forall q | 0 <= q < |t.orders| ensures OrderOk(t, t.orders[q]) {
      OrderKept(s, t, s.orders[q]);
    }
  }

  lemma CommitReleaseStep(s: State, e: Event)
    requires Inv(s) && Enabled(s, e) && e.CommitRelease?
    ensures Inv(Apply(s, e))
  {
    var t, call := Apply(s, e), s.calls[e.call];
    StepGrows(s, e);
    assert CallOk(s, call);
    StatusKept(s, t, call.order, call.target);
    forall c | c in s.calls && c != e.call ensures Spares(s, t, s.calls[c]) {
      assert Apart(call, s.calls[c]);
    }
    if e.call in t.calls {
      assert OrderOk(s, s.orders[call.order]);
      assert t.orders[call.order].remote == Some(t.calls[e.call].remote);
    }
    OthersKept(s, t, e.call);
  }

  lemma CompleteStep(s: State, e: Event)
    requires Inv(s) && Enabled(s, e) && e.Complete?
    ensures Inv(Apply(s, e))
  {
    var t := Apply(s, e);
    StepGrows(s, e);
    StatusKept(s, t, e.order, Completed);
    forall c | c in t.calls ensures CallOk(t, t.calls[c]) {
      assert Spares(s, t, s.calls[c]);
      CallKept(s, t, s.calls[c]);
    }
  }

  lemma {:induction false} StepKeepsInv(s: State, e: Event)
    requires Inv(s) && Enabled(s, e)
    ensures Inv(Apply(s, e))
  {
    match e
    case Request(_, _, _, _, _) => RequestStep(s, e);
    case RemoteCreated(_, _) => RemoteCreatedStep(s, e);
    case RemoteFailed(_, _) => RemoteFailedStep(s, e);
    case Begin(_) => BeginStep(s, e);
    case TakeLine(_) => TakeLineStep(s, e);
    case CommitCreate(_) => CommitCreateStep(s, e);
    case AbortCreate(_) => AbortCreateStep(s, e);
    case Undo(_, _) => UndoStep(s, e);
    case Lock(_, _, _, _) => LockStep(s, e);
    case RestoreRow(_, _, _) => RestoreRowStep(s, e);
    case CommitRelease(_) => CommitReleaseStep(s, e);
    case AbortRelease(_) => EndStep(s, e);
    case Crash(_) => EndStep(s, e);
    case Unregister(_, _) => UnregisterStep(s, e);
    case Complete(_) => CompleteStep(s, e);
    case Sync(_, _) => SyncStep(s, e);
    case _ => OutsideStep(s, e);
  }
}
