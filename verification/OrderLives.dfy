/**
  The life of one order, told from the request that asked for it: what the request books, what is
  committed from it, who may end it and when, and that every such life can be lived to its end.
 */
module OrderLives {
  import opened Base
  import opened StockRows
  import opened Ledger
  import opened OrderProtocol
  import opened OrderRuns
  import Calendar

  // ---- from the request to the order ----

  predicate HasDraft(call: Call) {
    call.Drafted? || call.Registered? || call.Creating?
  }

  /**
    What a request books. Without a day promotion: until the 03:00 of the shop's zone that lies more
    than 51 and at most 75 hours ahead. With one: until the closing time that ends the current
    reservation window, at most 26 hours ahead.
   */
  lemma RequestBooks(s: State, e: Event)
    requires Enabled(s, e) && e.Request?
    ensures e.call in Apply(s, e).calls && HasDraft(Apply(s, e).calls[e.call])
    ensures var draft := Apply(s, e).calls[e.call].draft;
      && draft.user == Some(e.user) && draft.items == e.items && draft.pickup == e.pickup
      && draft.status == Pending && draft.remote == None && draft.createdAt == s.clock
      && draft.reservedUntil.Some?
      && (e.pickup.Some? ==> s.clock < e.pickup.value <= draft.reservedUntil.value)
    ensures !e.dayPromotion ==>
      var until := Apply(s, e).calls[e.call].draft.reservedUntil.value;
      && s.clock + 51 * Calendar.HOUR < until <= s.clock + 75 * Calendar.HOUR
      && (until + s.zone) % (24 * Calendar.HOUR) == 3 * Calendar.HOUR
    ensures e.dayPromotion ==>
      var until := Apply(s, e).calls[e.call].draft.reservedUntil.value;
      && s.clock < until <= s.clock + 26 * Calendar.HOUR
      && exists day :: until == Calendar.Cutoff(day) && Calendar.Cutoff(day - 1) <= s.clock
  {
    Calendar.BookingBounds(s.clock, s.zone);
    Calendar.DeadlineBounds(s.clock);
    Calendar.WindowsPartitionTime(s.clock, Calendar.ReservationDate(s.clock));
  }

  /** Only a request gives a call a draft, and no later step changes more of it than its remote order. */
  lemma DraftStep(s: State, e: Event, call: int)
    requires Enabled(s, e) && call in Apply(s, e).calls && HasDraft(Apply(s, e).calls[call])
    requires !(e.Request? && e.call == call)
    ensures call in s.calls && HasDraft(s.calls[call])
    ensures SameButRemote(s.calls[call].draft, Apply(s, e).calls[call].draft)
  {
  }

  predicate SameButRemote(a: Order, b: Order) {
    b == a.(remote := b.remote)
  }

  /** If the call carries a draft, it is `draft`, up to its remote order. */
  predicate Carries(s: State, call: int, draft: Order) {
    call in s.calls && HasDraft(s.calls[call]) ==> SameButRemote(draft, s.calls[call].draft)
  }

  lemma CarriesStep(s: State, e: Event, t: State, call: int, draft: Order)
    requires Enabled(s, e) && t == Apply(s, e) && !(e.Request? && e.call == call)
    requires Carries(s, call, draft)
    ensures Carries(t, call, draft)
  {
    if call in t.calls && HasDraft(t.calls[call]) {
      DraftStep(s, e, call);
    }
  }

  /** Step `i` is the last request before `m` under its call number. */
  predicate LatestRequest(events: seq<Event>, i: nat, m: nat) {
    && i < m <= |events| && events[i].Request?
    && forall k | i < k < m && events[k].Request? :: events[k].call != events[i].call
  }

  /** As long as a call of that number carries a draft, it is the request's, up to its remote order. */
  lemma {:induction false} DraftStays(states: seq<State>, events: seq<Event>, i: nat, m: nat)
    requires Run(states, events) && LatestRequest(events, i, m)
    ensures var call := events[i].call;
      call in states[i + 1].calls && HasDraft(states[i + 1].calls[call])
    ensures Carries(states[m], events[i].call, states[i + 1].calls[events[i].call].draft)
    decreases m
  {
    RequestBooks(states[i], events[i]);
    if m > i + 1 {
      var call := events[i].call;
      DraftStays(states, events, i, m - 1);
      CarriesStep(states[m - 1], events[m - 1], states[m], call, states[i + 1].calls[call].draft);
    }
  }

  /** Order `o` was asked for in step `i` and committed in step `j`. */
  predicate MadeBy(states: seq<State>, events: seq<Event>, o: nat, i: nat, j: nat)
    requires Run(states, events)
  {
    && LatestRequest(events, i, j) && j < |events|
    && events[j] == CommitCreate(events[i].call) && |states[j].orders| == o
  }

  /** The committed order is the request, with the remote order its call was given. */
  lemma OrderIsItsRequest(states: seq<State>, events: seq<Event>, o: nat, i: nat, j: nat)
    requires Run(states, events) && MadeBy(states, events, o, i, j)
    ensures |states[j + 1].orders| == o + 1 && states[j + 1].orders[..o] == states[j].orders
    ensures var order, request := states[j + 1].orders[o], events[i];
      && order.user == Some(request.user) && order.items == request.items && order.pickup == request.pickup
      && order.status == Pending && order.createdAt == states[i].clock
      && order.reservedUntil == states[i + 1].calls[request.call].draft.reservedUntil
      && order.reservedUntil.Some?
      && order.remote == states[j].calls[request.call].draft.remote
  {
    DraftStays(states, events, i, j);
    RequestBooks(states[i], events[i]);
  }

  /**
    The cron and the booking: an order the cron releases has had its whole booking. Asked for without
    a day promotion it is never released within 51 hours of the request; asked for with one, never
    before the closing time that ended the request's reservation window.
   */
  lemma CronHonoursTheRequest(states: seq<State>, events: seq<Event>, o: nat, i: nat, j: nat, k: nat)
    requires Run(states, events) && Inv(states[0]) && MadeBy(states, events, o, i, j) && j < k < |events|
    requires events[k].CommitRelease? && states[k].calls[events[k].call].order == o
    requires states[k].calls[events[k].call].actor.Cron?
    ensures !events[i].dayPromotion ==> states[i].clock + 51 * Calendar.HOUR < states[k].clock
    ensures events[i].dayPromotion ==>
      exists day :: Calendar.Cutoff(day - 1) <= states[i].clock < Calendar.Cutoff(day) < states[k].clock
    ensures events[i].pickup.Some? ==> events[i].pickup.value < states[k].clock
    ensures k + 1 < |states| && o < |states[k + 1].orders| && states[k + 1].orders[o].status == Expired
  {
    OrderIsItsRequest(states, events, o, i, j);
    RequestBooks(states[i], events[i]);
    RunGrows(states, events, j + 1, k, o);
    RunKeepsInv(states, events, k);
    assert CallOk(states[k], states[k].calls[events[k].call]);
  }

  /** A user ends an order only by cancelling it, and only an order of theirs; the cron only lets orders expire. */
  lemma WhoReleases(states: seq<State>, events: seq<Event>, k: nat)
    requires Run(states, events) && Inv(states[0]) && k < |events| && events[k].CommitRelease?
    ensures var release := states[k].calls[events[k].call];
      && release.Releasing? && release.order < |states[k].orders|
      && (release.actor.User? ==>
            states[k].orders[release.order].user == Some(release.actor.id)
            && states[k + 1].orders[release.order].status == Cancelled)
      && (release.actor.Cron? ==> states[k + 1].orders[release.order].status == Expired)
  {
    RunKeepsInv(states, events, k);
    assert CallOk(states[k], states[k].calls[events[k].call]);
  }

  lemma {:induction false} DraftHasRequest(states: seq<State>, events: seq<Event>, call: int, m: nat) returns (i: nat)
    requires Run(states, events) && states[0].calls == map[] && m <= |events|
    requires call in states[m].calls && HasDraft(states[m].calls[call])
    ensures LatestRequest(events, i, m) && events[i].call == call
  {
    if events[m - 1].Request? && events[m - 1].call == call {
      i := m - 1;
    } else {
      DraftStep(states[m - 1], events[m - 1], call);
      i := DraftHasRequest(states, events, call, m - 1);
    }
  }

  lemma OnlyCommitsAdd(s: State, e: Event)
    requires Enabled(s, e) && |Apply(s, e).orders| > |s.orders|
    ensures e.CommitCreate? && e.call in s.calls && s.calls[e.call].Creating? && |Apply(s, e).orders| == |s.orders| + 1
  {
  }

  /** Every order a run has added was asked for: there is a request it was committed from. */
  lemma {:induction false} EveryOrderWasRequested(states: seq<State>, events: seq<Event>, o: nat, n: nat)
    returns (i: nat, j: nat)
    requires Run(states, events) && Inv(states[0]) && states[0].calls == map[] && n <= |events|
    requires |states[0].orders| <= o < |states[n].orders|
    ensures MadeBy(states, events, o, i, j) && j < n
  {
    if o < |states[n - 1].orders| {
      i, j := EveryOrderWasRequested(states, events, o, n - 1);
    } else {
      OnlyCommitsAdd(states[n - 1], events[n - 1]);
      j := n - 1;
      i := DraftHasRequest(states, events, events[j].call, j);
    }
  }

  // ---- the remote side ----

  /** A create that fails after its remote order was made deletes it again, if MoySklad can be reached. */
  lemma FailedCreateIsUndone(s: State, call: int, reached: bool)
    requires Enabled(s, AbortCreate(call)) && s.calls[call].draft.remote.Some?
    ensures var t := Apply(s, AbortCreate(call));
      && Enabled(t, Undo(call, reached))
      && var u := Apply(t, Undo(call, reached));
      && u.remote == (if reached then s.remote - {s.calls[call].draft.remote.value} else s.remote)
      && u.orders == s.orders && u.products == s.products && call !in u.calls
  {
  }

  /** A release deletes the order's remote order, if MoySklad can be reached; the release stands either way. */
  lemma ReleaseIsUnregistered(s: State, call: int, reached: bool)
    requires Enabled(s, CommitRelease(call)) && s.integrated
    requires s.orders[s.calls[call].order].remote.Some?
    ensures var t := Apply(s, CommitRelease(call));
      && Enabled(t, Unregister(call, reached))
      && var u := Apply(t, Unregister(call, reached));
      && u.remote == (if reached then s.remote - {s.orders[s.calls[call].order].remote.value} else s.remote)
      && u.orders == t.orders && u.products == t.products && call !in u.calls
  {
  }

  /** A remote order that was made exists, and its call carries it to the committed order. */
  lemma RemoteOrderIsCarried(s: State, call: int, id: int)
    requires Enabled(s, RemoteCreated(call, id))
    ensures var t := Apply(s, RemoteCreated(call, id));
      && t.remote == s.remote + {id} && t.calls[call] == Registered(s.calls[call].draft.(remote := Some(id)))
      && t.orders == s.orders && t.products == s.products
  {
  }

  // ---- every life can be lived ----

  ghost predicate Reaches(s: State, t: State) {
    exists states, events :: Run(states, events) && states[0] == s && states[|events|] == t
  }

  lemma ReachesSelf(s: State)
    ensures Reaches(s, s)
  {
    assert Run([s], []);
  }

  lemma RunOneMore(states: seq<State>, events: seq<Event>, e: Event)
    requires Run(states, events) && Enabled(states[|events|], e)
    ensures Run(states + [Apply(states[|events|], e)], events + [e])
  {
    var more, all := states + [Apply(states[|events|], e)], events + [e];
    forall i | 0 <= i < |all|
      ensures Enabled(more[i], all[i]) && more[i + 1] == Apply(more[i], all[i])
    {
      if i < |events| {
        assert more[i] == states[i] && more[i + 1] == states[i + 1] && all[i] == events[i];
      }
    }
  }

  lemma ReachesOn(s: State, t: State, e: Event)
    requires Reaches(s, t) && Enabled(t, e)
    ensures Reaches(s, Apply(t, e))
  {
    var states, events :| Run(states, events) && states[0] == s && states[|events|] == t;
    var more, all := states + [Apply(t, e)], events + [e];
    RunOneMore(states, events, e);
    assert more[0] == s && more[|all|] == Apply(t, e);
  }

  /** No running transaction but that of `call` holds a row of the named products. */
  predicate RowsFree(s: State, call: int, items: seq<Item>) {
    forall c, p | c in s.calls && c != call && p in Named(items) :: p !in Writes(s.calls[c])
  }

  lemma Advance(s0: State, s: State, e: Event) returns (t: State)
    requires Reaches(s0, s) && Inv(s) && Enabled(s, e)
    ensures t == Apply(s, e) && Reaches(s0, t) && Inv(t)
  {
    ReachesOn(s0, s, e);
    StepKeepsInv(s, e);
    t := Apply(s, e);
  }

  lemma NextLineCanBeTaken(s: State, call: int)
    requires call in s.calls && s.calls[call].Creating? && CallOk(s, s.calls[call])
    requires s.calls[call].taken < |s.calls[call].draft.items| && Covers(s.products, s.calls[call].draft.items)
    requires RowsFree(s, call, s.calls[call].draft.items)
    ensures Enabled(s, TakeLine(call))
  {
    var c := s.calls[call];
    var items, item := c.draft.items, c.draft.items[c.taken];
    assert item.product in Named(items);
    assert items[..c.taken + 1] == items[..c.taken] + [item] && items == items[..c.taken + 1] + items[c.taken + 1..];
    DemandConcat(items[..c.taken + 1], items[c.taken + 1..], item.product);
    DemandConcat(items[..c.taken], [item], item.product);
    assert [item][..0] == [];
    DemandBounds(items[c.taken + 1..], item.product);
    DemandBounds(items[..c.taken], item.product);
  }

  /** `t` is `s` but for the call. */
  predicate OnlyCallMoved(s: State, t: State, call: int) {
    call in s.calls && call in t.calls && t == s.(calls := s.calls[call := t.calls[call]])
  }

  lemma MovedTwice(s: State, t: State, u: State, call: int)
    requires OnlyCallMoved(s, t, call) && OnlyCallMoved(t, u, call)
    ensures OnlyCallMoved(s, u, call)
  {
    assert t.calls[call := u.calls[call]] == s.calls[call := u.calls[call]];
  }

  lemma NotMoved(s: State, call: int)
    requires call in s.calls
    ensures OnlyCallMoved(s, s, call)
  {
    assert s.calls[call := s.calls[call]] == s.calls;
  }

  lemma RowsStayFree(s: State, t: State, call: int, items: seq<Item>)
    requires RowsFree(s, call, items) && OnlyCallMoved(s, t, call)
    ensures RowsFree(t, call, items)
  {
  }

  lemma OneLineCanBeTaken(s0: State, s: State, call: int) returns (t: State)
    requires Reaches(s0, s) && Inv(s) && call in s.calls && s.calls[call].Creating?
    requires s.calls[call].taken < |s.calls[call].draft.items| && Covers(s.products, s.calls[call].draft.items)
    requires RowsFree(s, call, s.calls[call].draft.items)
    ensures Reaches(s0, t) && Inv(t) && OnlyCallMoved(s, t, call) && t.calls[call].Creating?
    ensures t.calls[call].draft == s.calls[call].draft && t.calls[call].taken == s.calls[call].taken + 1
    ensures RowsFree(t, call, s.calls[call].draft.items)
  {
    NextLineCanBeTaken(s, call);
    t := Advance(s0, s, TakeLine(call));
    RowsStayFree(s, t, call, s.calls[call].draft.items);
  }

  /** The decrements of a create, one after the other, when its whole demand is covered and the rows are free. */
  lemma {:induction false} LinesCanBeTaken(s0: State, s: State, call: int) returns (t: State)
    requires Reaches(s0, s) && Inv(s) && call in s.calls && s.calls[call].Creating?
    requires Covers(s.products, s.calls[call].draft.items) && RowsFree(s, call, s.calls[call].draft.items)
    ensures Reaches(s0, t) && Inv(t) && OnlyCallMoved(s, t, call) && t.calls[call].Creating?
    ensures t.calls[call].draft == s.calls[call].draft && t.calls[call].taken == |t.calls[call].draft.items|
    decreases |s.calls[call].draft.items| - s.calls[call].taken
  {
    assert CallOk(s, s.calls[call]);
    if s.calls[call].taken == |s.calls[call].draft.items| {
      t := s;
      NotMoved(s, call);
    } else {
      var next := OneLineCanBeTaken(s0, s, call);
      t := LinesCanBeTaken(s0, next, call);
      MovedTwice(s, next, t, call);
    }
  }

  /** From the request to the registered draft: the remote order is made first, if the integration is on. */
  lemma RequestCanRegister(s: State, e: Event, id: int) returns (t: State)
    requires Inv(s) && Enabled(s, e) && e.Request? && id !in s.issued
    ensures Reaches(s, t) && Inv(t) && e.call in t.calls && t.calls[e.call].Registered?
    ensures t.calls == s.calls[e.call := t.calls[e.call]] && t.products == s.products && t.orders == s.orders
    ensures t.remote == if s.integrated then s.remote + {id} else s.remote
    ensures var draft := t.calls[e.call].draft;
      && draft.user == Some(e.user) && draft.items == e.items && draft.status == Pending
      && draft.remote == if s.integrated then Some(id) else None
  {
    ReachesSelf(s);
    t := Advance(s, s, e);
    if s.integrated {
      t := Advance(s, t, RemoteCreated(e.call, id));
    }
  }

  lemma CreateCanBegin(s0: State, s: State, call: int) returns (t: State)
    requires Reaches(s0, s) && Inv(s) && call in s.calls && s.calls[call].Registered?
    ensures Reaches(s0, t) && Inv(t) && OnlyCallMoved(s, t, call)
    ensures t.calls[call] == Creating(s.calls[call].draft, 0, map[])
  {
    t := Advance(s0, s, Begin(call));
  }

  lemma OrderCanCommit(s0: State, s: State, call: int) returns (t: State)
    requires Reaches(s0, s) && Inv(s) && call in s.calls && s.calls[call].Creating?
    requires s.calls[call].taken == |s.calls[call].draft.items|
    ensures Reaches(s0, t) && t.orders == s.orders + [s.calls[call].draft]
    ensures t.products == Charged(s.products, s.calls[call].draft.items)
    ensures t.calls == s.calls - {call} && t.remote == s.remote
  {
    var c := s.calls[call];
    t := Advance(s0, s, CommitCreate(call));
    CommittedCreateIsTakeAll(s, c);
    SequentialEqualsAggregate(s.products, c.draft.items);
  }

  /**
    Every order the guarded loop would accept can be placed: from any state a run has reached, with
    free rows and the demand covered, a request can go all the way to its commit.
   */
  lemma OrderCanBePlaced(s: State, e: Event, id: int) returns (t: State)
    requires Inv(s) && Enabled(s, e) && e.Request? && RowsFree(s, e.call, e.items) && Covers(s.products, e.items)
    requires id !in s.issued
    ensures Reaches(s, t) && t.calls == s.calls && t.products == Charged(s.products, e.items)
    ensures |t.orders| == |s.orders| + 1 && t.orders[..|s.orders|] == s.orders
    ensures var order := t.orders[|s.orders|];
      && order.user == Some(e.user) && order.items == e.items && order.status == Pending
      && order.remote == if s.integrated then Some(id) else None
    ensures t.remote == if s.integrated then s.remote + {id} else s.remote
  {
    var registered := RequestCanRegister(s, e, id);
    var begun := CreateCanBegin(s, registered, e.call);
    var taken := LinesCanBeTaken(s, begun, e.call);
    t := OrderCanCommit(s, taken, e.call);
    assert e.call !in s.calls && t.calls == s.calls;
  }

  lemma OneRowCanBeRestored(s0: State, s: State, call: int, p: int) returns (t: State)
    requires Reaches(s0, s) && Inv(s) && call in s.calls && s.calls[call].Releasing?
    requires s.calls[call].order < |s.orders| && RowsFree(s, call, s.orders[s.calls[call].order].items)
    requires p in Named(s.orders[s.calls[call].order].items) && p !in s.calls[call].lines
    ensures Reaches(s0, t) && Inv(t) && OnlyCallMoved(s, t, call) && t.calls[call].Releasing?
    ensures t.calls[call].order == s.calls[call].order && t.calls[call].target == s.calls[call].target
    ensures t.calls[call].lines.Keys == s.calls[call].lines.Keys + {p}
    ensures RowsFree(t, call, s.orders[s.calls[call].order].items)
  {
    var items := s.orders[s.calls[call].order].items;
    var l: nat :| l < |items| && items[l].product == p;
    assert OrderOk(s, s.orders[s.calls[call].order]);
    t := Advance(s0, s, RestoreRow(call, p, l));
    RowsStayFree(s, t, call, items);
  }

  lemma RestoredAreNamed(s: State, call: int)
    requires Inv(s) && call in s.calls && s.calls[call].Releasing?
    ensures s.calls[call].order < |s.orders|
    ensures s.calls[call].lines.Keys <= Named(s.orders[s.calls[call].order].items)
  {
    var c := s.calls[call];
    assert CallOk(s, c);
    forall p | p in c.lines
      ensures p in Named(s.orders[c.order].items)
    {
      assert s.orders[c.order].items[c.lines[p]].product == p;
    }
  }

  lemma NothingLeft(named: set<int>, keys: set<int>)
    requires keys <= named && named - keys == {}
    ensures keys == named
  {
    forall p | p in named
      ensures p in keys
    {
      assert p in keys || p in named - keys;
    }
  }

  /** The restores of a release, one row after the other, when the rows are free. */
  lemma {:induction false} RowsCanBeRestored(s0: State, s: State, call: int, todo: set<int>) returns (t: State)
    requires Reaches(s0, s) && Inv(s) && call in s.calls && s.calls[call].Releasing? && s.calls[call].order < |s.orders|
    requires RowsFree(s, call, s.orders[s.calls[call].order].items)
    requires todo == Named(s.orders[s.calls[call].order].items) - s.calls[call].lines.Keys
    ensures Reaches(s0, t) && Inv(t) && OnlyCallMoved(s, t, call) && t.calls[call].Releasing?
    ensures t.calls[call].order == s.calls[call].order && t.calls[call].target == s.calls[call].target
    ensures t.calls[call].lines.Keys == Named(s.orders[s.calls[call].order].items)
    decreases todo
  {
    var items := s.orders[s.calls[call].order].items;
    RestoredAreNamed(s, call);
    if todo == {} {
      NothingLeft(Named(items), s.calls[call].lines.Keys);
      t := s;
      NotMoved(s, call);
    } else {
      var p :| p in todo;
      var next := OneRowCanBeRestored(s0, s, call, p);
      assert todo - {p} == Named(items) - next.calls[call].lines.Keys;
      t := RowsCanBeRestored(s0, next, call, todo - {p});
      MovedTwice(s, next, t, call);
    }
  }

  /** Every pending order that nothing holds can be cancelled by an administrator, its stock restored. */
  lemma OrderCanBeReleased(s: State, o: nat, call: int) returns (t: State, lines: map<int, nat>)
    requires Inv(s) && o < |s.orders| && s.orders[o].status == Pending && OrderFree(s, o) && call !in s.calls
    requires RowsFree(s, call, s.orders[o].items)
    ensures Reaches(s, t) && Joins(lines, s.orders[o].items)
    ensures t.products == Restored(s.products, s.orders[o].items, lines)
    ensures t.orders == s.orders[o := s.orders[o].(status := Cancelled)]
  {
    ReachesSelf(s);
    var locked := Advance(s, s, Lock(call, o, Cancelled, Admin));
    var restored := RowsCanBeRestored(s, locked, call, Named(s.orders[o].items));
    lines := restored.calls[call].lines;
    assert CallOk(restored, restored.calls[call]);
    t := Advance(s, restored, CommitRelease(call));
    CommittedReleaseIsRestore(restored, restored.calls[call]);
  }
}
