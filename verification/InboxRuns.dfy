/** Many workers on one inbox: what every interleaving of claims, handlings, marks, deaths and replays keeps. */
module InboxRuns {
  import opened Inbox

  /** A job in a worker's hands, before and after the processor has run on it. */
  datatype Claim = Waiting(job: Job) | Finished(job: Job, ok: bool)

  /** `claims` by claim number; `picking` are the rows locked by claim transactions still open. */
  datatype State = State(clock: int, rows: seq<Row>, picking: map<int, set<nat>>, claims: map<int, Claim>)

  datatype Event =
    | Pass(time: int)
    | Enqueue(key: string, kind: string, maxAttempts: int)
    | Pick(worker: int, ids: set<nat>)
    | PickCommit(worker: int, hands: map<int, nat>)   // the rows by the number of the claim that gets them
    | PickAbort(worker: int)
    | Handle(claim: int, ok: bool)
    | Mark(claim: int, nextAt: int)
    | MarkLost(claim: int)
    | Die(claim: int)
    | Replay(id: nat)

  predicate Unlocked(s: State, id: nat) {
    forall w | w in s.picking :: id !in s.picking[w]
  }

  predicate Enabled(s: State, e: Event) {
    match e
    case Pass(time) => s.clock <= time
    case Enqueue(_, _, _) => true
    case Pick(w, ids) =>
      && w !in s.picking
      && forall id | id in ids :: id < |s.rows| && Claimable(s.rows[id], s.clock) && Unlocked(s, id)
    case PickCommit(w, hands) =>
      && w in s.picking
      && (forall id | id in s.picking[w] :: id < |s.rows| && InHand(hands, id))
      && (forall c | c in hands :: c !in s.claims && hands[c] in s.picking[w])
      && (forall c, d | c in hands && d in hands && c != d :: hands[c] != hands[d])
    case PickAbort(w) => w in s.picking
    case Handle(c, ok) => c in s.claims && s.claims[c].Waiting? && (ok ==> KnownKind(s.claims[c].job.kind))
    case Mark(c, _) => c in s.claims && s.claims[c].Finished? && s.claims[c].job.id < |s.rows|
    case MarkLost(c) => c in s.claims && s.claims[c].Finished?
    case Die(c) => c in s.claims
    case Replay(id) => id < |s.rows|
  }

  predicate InHand(hands: map<int, nat>, id: nat) {
    exists c | c in hands :: hands[c] == id
  }

  /** The running claims once the rows of a batch are handed out. */
  function Handed(s: State, hands: map<int, nat>): map<int, Claim>
    requires forall c | c in hands :: hands[c] < |s.rows|
  {
    map c | c in s.claims.Keys + hands.Keys :: if c in hands then Waiting(JobOf(s.rows, hands[c])) else s.claims[c]
  }

  function Apply(s: State, e: Event): State
    requires Enabled(s, e)
  {
    match e
    case Pass(time) => s.(clock := time)
    case Enqueue(key, kind, maxAttempts) => s.(rows := Enqueued(s.rows, key, kind, maxAttempts, s.clock))
    case Pick(w, ids) => s.(picking := s.picking[w := ids])
    case PickCommit(w, hands) =>
      s.(rows := Claimed(s.rows, s.picking[w]), picking := s.picking - {w}, claims := Handed(s, hands))
    case PickAbort(w) => s.(picking := s.picking - {w})
    case Handle(c, ok) => s.(claims := s.claims[c := Finished(s.claims[c].job, ok)])
    case Mark(c, nextAt) =>
      s.(rows := Settled(s.rows, s.claims[c].job, s.claims[c].ok, nextAt), claims := s.claims - {c})
    case MarkLost(c) => s.(claims := s.claims - {c})
    case Die(c) => s.(claims := s.claims - {c})
    case Replay(id) => s.(rows := Replayed(s.rows, id, s.clock))
  }

  // ---- the invariant ----

  predicate RowOk(row: Row) {
    0 <= row.attempts < row.maxAttempts
  }

  /** A claimed job is a row in `processing`, read as it still stands. */
  predicate Holds(s: State, job: Job) {
    job.id < |s.rows| && s.rows[job.id].status == Processing && job == JobOf(s.rows, job.id)
  }

  predicate SingleHolders(s: State) {
    forall c, d | c in s.claims && d in s.claims && c != d :: s.claims[c].job.id != s.claims[d].job.id
  }

  predicate PickingOk(s: State) {
    && (forall w | w in s.picking :: forall id | id in s.picking[w] :: id < |s.rows| && s.rows[id].status == Pending)
    && (forall v, w | v in s.picking && w in s.picking && v != w :: s.picking[v] !! s.picking[w])
  }

  predicate Inv(s: State) {
    && (forall i | 0 <= i < |s.rows| :: RowOk(s.rows[i]))
    && (forall c | c in s.claims :: Holds(s, s.claims[c].job))
    && SingleHolders(s)
    && PickingOk(s)
  }

  predicate Init(s: State) {
    s.rows == [] && s.picking == map[] && s.claims == map[]
  }

  lemma PickCommitStep(s: State, e: Event)
    requires Inv(s) && Enabled(s, e) && e.PickCommit?
    ensures Inv(Apply(s, e))
  {
    var t := Apply(s, e);
    forall c | c in t.claims ensures Holds(t, t.claims[c].job) {
      if c in s.claims {
        assert s.rows[s.claims[c].job.id].status == Processing;
      } else {
        assert e.hands[c] in s.picking[e.worker];
      }
    }
    forall c, d | c in t.claims && d in t.claims && c != d ensures t.claims[c].job.id != t.claims[d].job.id {
      assert c in s.claims ==> Holds(s, s.claims[c].job);
      assert d in s.claims ==> Holds(s, s.claims[d].job);
      assert c !in s.claims ==> e.hands[c] in s.picking[e.worker];
      assert d !in s.claims ==> e.hands[d] in s.picking[e.worker];
    }
    forall w, id | w in t.picking && id in t.picking[w] ensures id < |t.rows| && t.rows[id].status == Pending {
      assert s.picking[w] !! s.picking[e.worker];
    }
  }

  lemma MarkStep(s: State, e: Event)
    requires Inv(s) && Enabled(s, e) && e.Mark?
    ensures Inv(Apply(s, e))
  {
    var t, job := Apply(s, e), s.claims[e.claim].job;
    assert Holds(s, job) && RowOk(s.rows[job.id]);
    forall c | c in t.claims ensures Holds(t, t.claims[c].job) {
      assert t.claims[c].job.id != job.id;
    }
  }

  lemma RowStep(s: State, e: Event)
    requires Inv(s) && Enabled(s, e) && (e.Enqueue? || e.Replay?)
    ensures Inv(Apply(s, e))
  {
    var t := Apply(s, e);
    forall c | c in t.claims ensures Holds(t, t.claims[c].job) {
      assert Holds(s, s.claims[c].job);
    }
  }

  lemma PickStep(s: State, e: Event)
    requires Inv(s) && Enabled(s, e) && e.Pick?
    ensures Inv(Apply(s, e))
  {
    var t := Apply(s, e);
    forall c | c in t.claims ensures Holds(t, t.claims[c].job) {
      assert Holds(s, s.claims[c].job);
    }
  }

  lemma OtherStep(s: State, e: Event)
    requires Inv(s) && Enabled(s, e) && !e.PickCommit? && !e.Mark? && !e.Enqueue? && !e.Replay? && !e.Pick?
    ensures Inv(Apply(s, e))
  {
    var t := Apply(s, e);
    forall c | c in t.claims ensures Holds(t, t.claims[c].job) {
      assert Holds(s, s.claims[c].job);
    }
  }

  lemma StepKeepsInv(s: State, e: Event)
    requires Inv(s) && Enabled(s, e)
    ensures Inv(Apply(s, e))
  {
    match e
    case PickCommit(_, _) => PickCommitStep(s, e);
    case Mark(_, _) => MarkStep(s, e);
    case Enqueue(_, _, _) => RowStep(s, e);
    case Replay(_) => RowStep(s, e);
    case Pick(_, _) => PickStep(s, e);
    case _ => OtherStep(s, e);
  }

  // ---- runs ----

  predicate Run(states: seq<State>, events: seq<Event>) {
    && |states| == |events| + 1
    && forall i | 0 <= i < |events| :: Enabled(states[i], events[i]) && states[i + 1] == Apply(states[i], events[i])
  }

  /** In every reachable state attempts stay below the maximum and no row is in two hands. */
  lemma {:induction false} RunKeepsInv(states: seq<State>, events: seq<Event>, n: nat)
    requires Run(states, events) && n < |states| && Init(states[0])
    ensures Inv(states[n])
  {
    if n > 0 {
      RunKeepsInv(states, events, n - 1);
      StepKeepsInv(states[n - 1], events[n - 1]);
    }
  }

  /** How often the processor ran on row `id`, and how often the row was replayed, in the first `n` steps. */
  ghost function Handlings(states: seq<State>, events: seq<Event>, id: nat, n: nat): nat
    requires Run(states, events) && n <= |events|
  {
    if n == 0 then 0
    else Handlings(states, events, id, n - 1) +
         if events[n - 1].Handle? && states[n - 1].claims[events[n - 1].claim].job.id == id then 1 else 0
  }

  ghost function Replays(states: seq<State>, events: seq<Event>, id: nat, n: nat): nat
    requires Run(states, events) && n <= |events|
  {
    if n == 0 then 0
    else Replays(states, events, id, n - 1) +
         if events[n - 1] == Replay(id) && states[n - 1].rows[id].status == DeadLetter then 1 else 0
  }

  predicate AwaitsHandling(s: State, id: nat) {
    exists c | c in s.claims :: s.claims[c].job.id == id && s.claims[c].Waiting?
  }

  /** The handlings a row has had against its attempts and replays. */
  predicate WithinBudget(s: State, id: nat, handlings: nat, replays: nat) {
    if id >= |s.rows| then handlings == 0
    else handlings <= s.rows[id].attempts + replays +
                      if s.rows[id].status == Pending || AwaitsHandling(s, id) then 0 else 1
  }

  lemma BudgetStep(s: State, e: Event, id: nat, handlings: nat, replays: nat)
    requires Inv(s) && Enabled(s, e) && WithinBudget(s, id, handlings, replays)
    ensures WithinBudget(Apply(s, e), id,
      handlings + if e.Handle? && s.claims[e.claim].job.id == id then 1 else 0,
      replays + if e == Replay(id) && s.rows[id].status == DeadLetter then 1 else 0)
  {
    var t := Apply(s, e);
    if id < |s.rows| {
      if AwaitsHandling(s, id) {
        var c :| c in s.claims && s.claims[c].job.id == id && s.claims[c].Waiting?;
        assert Holds(s, s.claims[c].job);
        if c in t.claims && t.claims[c] == s.claims[c] {
          assert AwaitsHandling(t, id);
        }
      }
      match e {
        case Handle(c, _) =>
          assert Holds(s, s.claims[c].job);
          if s.claims[c].job.id == id {
            assert AwaitsHandling(s, id);
          }
        case PickCommit(w, hands) =>
          if id in s.picking[w] {
            assert InHand(hands, id);
            var c :| c in hands && hands[c] == id;
            assert t.claims[c].job.id == id;
            assert AwaitsHandling(t, id);
          }
        case Mark(c, _) => assert Holds(s, s.claims[c].job);
        case _ =>
      }
    } else if e.Handle? {
      assert Holds(s, s.claims[e.claim].job);
    }
  }

  /** A row is processed at most max_attempts times plus once for each of its replays. */
  lemma {:induction false} ProcessedAtMost(states: seq<State>, events: seq<Event>, id: nat, n: nat)
    requires Run(states, events) && Init(states[0]) && n <= |events|
    ensures WithinBudget(states[n], id, Handlings(states, events, id, n), Replays(states, events, id, n))
    ensures id < |states[n].rows| ==>
      Handlings(states, events, id, n) <= states[n].rows[id].maxAttempts + Replays(states, events, id, n)
  {
    if n > 0 {
      ProcessedAtMost(states, events, id, n - 1);
      RunKeepsInv(states, events, n - 1);
      BudgetStep(states[n - 1], events[n - 1], id, Handlings(states, events, id, n - 1),
        Replays(states, events, id, n - 1));
    }
    RunKeepsInv(states, events, n);
    if id < |states[n].rows| {
      assert RowOk(states[n].rows[id]);
    }
  }

  lemma DoneStep(s: State, e: Event, id: nat)
    requires Inv(s) && Enabled(s, e) && id < |s.rows| && s.rows[id].status == Done
    ensures id < |Apply(s, e).rows| && Apply(s, e).rows[id] == s.rows[id]
    ensures e.Handle? ==> s.claims[e.claim].job.id != id
  {
    if e.Mark? || e.Handle? {
      assert Holds(s, s.claims[e.claim].job);
    }
  }

  /** A completed row never changes again and is never processed again. */
  lemma {:induction false} CompletedIsFinal(states: seq<State>, events: seq<Event>, id: nat, i: nat, n: nat)
    requires Run(states, events) && Init(states[0]) && i <= n <= |events|
    requires id < |states[i].rows| && states[i].rows[id].status == Done
    ensures id < |states[n].rows| && states[n].rows[id] == states[i].rows[id]
    ensures Handlings(states, events, id, n) == Handlings(states, events, id, i)
    decreases n
  {
    if i < n {
      CompletedIsFinal(states, events, id, i, n - 1);
      RunKeepsInv(states, events, n - 1);
      DoneStep(states[n - 1], events[n - 1], id);
    }
  }

  // ---- a job that always fails ----

  /** Row `id` is never handled well, never loses a mark, and is not replayed. */
  predicate AlwaysFails(states: seq<State>, events: seq<Event>, id: nat)
    requires Run(states, events)
  {
    forall i | 0 <= i < |events| ::
      match events[i]
      case Handle(c, ok) => states[i].claims[c].job.id == id ==> !ok
      case MarkLost(c) => states[i].claims[c].job.id != id
      case Die(c) => states[i].claims[c].job.id != id
      case Replay(r) => r != id
      case _ => true
  }

  ghost function Marks(states: seq<State>, events: seq<Event>, id: nat, n: nat): nat
    requires Run(states, events) && n <= |events|
  {
    if n == 0 then 0
    else Marks(states, events, id, n - 1) +
         if events[n - 1].Mark? && states[n - 1].claims[events[n - 1].claim].job.id == id then 1 else 0
  }

  predicate Failing(s: State, id: nat, marks: nat) {
    && (forall c | c in s.claims && s.claims[c].job.id == id && s.claims[c].Finished? :: !s.claims[c].ok)
    && (if id >= |s.rows| then marks == 0
        else
          && s.rows[id].status != Done
          && marks <= s.rows[id].maxAttempts
          && (s.rows[id].status == DeadLetter <==> marks == s.rows[id].maxAttempts)
          && (s.rows[id].status != DeadLetter ==> s.rows[id].attempts == marks))
  }

  lemma FailingStep(s: State, e: Event, id: nat, marks: nat)
    requires Inv(s) && Enabled(s, e) && Failing(s, id, marks)
    requires e.Handle? && s.claims[e.claim].job.id == id ==> !e.ok
    requires e != Replay(id)
    ensures Failing(Apply(s, e), id, marks + if e.Mark? && s.claims[e.claim].job.id == id then 1 else 0)
  {
    var t := Apply(s, e);
    if e.Mark? {
      assert Holds(s, s.claims[e.claim].job);
      assert RowOk(s.rows[s.claims[e.claim].job.id]);
    }
    if e.Enqueue? && id == |s.rows| && id < |t.rows| {
      forall c | c in s.claims ensures s.claims[c].job.id != id {
        assert Holds(s, s.claims[c].job);
      }
    }
  }

  /**
    When every handling fails and every mark gets through, the marks count the attempts and
    exactly the max_attempts-th one moves the row to the dead letters.
   */
  lemma {:induction false} FailuresEndInDeadLetter(states: seq<State>, events: seq<Event>, id: nat, n: nat)
    requires Run(states, events) && Init(states[0]) && n <= |events| && AlwaysFails(states, events, id)
    ensures Failing(states[n], id, Marks(states, events, id, n))
  {
    if n > 0 {
      FailuresEndInDeadLetter(states, events, id, n - 1);
      RunKeepsInv(states, events, n - 1);
      FailingStep(states[n - 1], events[n - 1], id, Marks(states, events, id, n - 1));
    }
  }

  // ---- how a row is settled ----

  /** Step `i` marks row `id` after its processor returned `ok`. */
  ghost predicate MarkedAt(states: seq<State>, events: seq<Event>, id: nat, ok: bool, i: nat)
    requires Run(states, events) && i < |events|
  {
    && events[i].Mark?
    && states[i].claims[events[i].claim].job.id == id
    && states[i].claims[events[i].claim] == Finished(states[i].claims[events[i].claim].job, ok)
  }

  ghost predicate MarkedWell(states: seq<State>, events: seq<Event>, id: nat, n: nat)
    requires Run(states, events) && n <= |events|
  {
    exists i: nat | i < n :: MarkedAt(states, events, id, true, i)
  }

  /** Every successful handling is one of a kind the worker knows. */
  predicate KnownWhenOk(s: State) {
    forall c | c in s.claims && s.claims[c].Finished? && s.claims[c].ok :: KnownKind(s.claims[c].job.kind)
  }

  lemma {:induction false} RunKeepsKnown(states: seq<State>, events: seq<Event>, n: nat)
    requires Run(states, events) && Init(states[0]) && n <= |events|
    ensures KnownWhenOk(states[n])
  {
    if n > 0 {
      RunKeepsKnown(states, events, n - 1);
    }
  }

  lemma SettlingStep(s: State, e: Event, id: nat)
    requires Inv(s) && Enabled(s, e) && KnownWhenOk(s) && id < |Apply(s, e).rows|
    ensures Apply(s, e).rows[id].status == Done <==>
      || (id < |s.rows| && s.rows[id].status == Done)
      || (e.Mark? && s.claims[e.claim].job.id == id && s.claims[e.claim].ok)
    ensures Apply(s, e).rows[id].status == DeadLetter ==>
      || (id < |s.rows| && s.rows[id].status == DeadLetter)
      || (e.Mark? && s.claims[e.claim].job.id == id && !s.claims[e.claim].ok
          && s.rows[id].attempts + 1 == s.rows[id].maxAttempts)
  {
    if e.Mark? {
      assert Holds(s, s.claims[e.claim].job) && RowOk(s.rows[s.claims[e.claim].job.id]);
    }
    if id < |s.rows| && s.rows[id].status == Done {
      DoneStep(s, e, id);
    }
  }

  lemma MarkedOneMore(states: seq<State>, events: seq<Event>, id: nat, n: nat)
    requires Run(states, events) && n < |events|
    ensures MarkedWell(states, events, id, n + 1) <==>
      MarkedWell(states, events, id, n) || MarkedAt(states, events, id, true, n)
  {
  }

  /** A row is completed exactly when the mark of a successful handling has reached it. */
  lemma {:induction false} DoneIffMarkedWell(states: seq<State>, events: seq<Event>, id: nat, n: nat)
    requires Run(states, events) && Init(states[0]) && n <= |events|
    ensures MarkedWell(states, events, id, n) <==> id < |states[n].rows| && states[n].rows[id].status == Done
  {
    if n > 0 {
      DoneIffMarkedWell(states, events, id, n - 1);
      MarkedOneMore(states, events, id, n - 1);
      RunKeepsInv(states, events, n - 1);
      RunKeepsKnown(states, events, n - 1);
      DoneStepExactly(states[n - 1], events[n - 1], id);
    }
  }

  lemma DoneStepExactly(s: State, e: Event, id: nat)
    requires Inv(s) && Enabled(s, e) && KnownWhenOk(s)
    ensures (id < |Apply(s, e).rows| && Apply(s, e).rows[id].status == Done) <==>
      || (id < |s.rows| && s.rows[id].status == Done)
      || (e.Mark? && s.claims[e.claim].job.id == id && s.claims[e.claim].ok)
  {
    if id < |Apply(s, e).rows| {
      SettlingStep(s, e, id);
    }
  }

  /** A row becomes a dead letter only by the mark of a failed handling that used up its attempts. */
  lemma DeadOnlyAtTheLastAttempt(states: seq<State>, events: seq<Event>, id: nat, i: nat)
    requires Run(states, events) && Init(states[0]) && i < |events| && id < |states[i + 1].rows|
    requires states[i + 1].rows[id].status == DeadLetter
    ensures id < |states[i].rows|
    ensures states[i].rows[id].status == DeadLetter ||
            (MarkedAt(states, events, id, false, i)
             && states[i].rows[id].attempts + 1 == states[i].rows[id].maxAttempts)
  {
    RunKeepsInv(states, events, i);
    RunKeepsKnown(states, events, i);
    SettlingStep(states[i], events[i], id);
  }

  /** The claim of one row alone. */
  lemma ClaimOne(s: State, id: nat, worker: int, claim: int) returns (picked: State, held: State)
    requires Inv(s) && id < |s.rows| && s.rows[id].status == Pending && s.rows[id].nextAt <= s.clock
    requires (forall w | w in s.picking :: id !in s.picking[w]) && worker !in s.picking && claim !in s.claims
    ensures Enabled(s, Event.Pick(worker, {id})) && picked == Apply(s, Event.Pick(worker, {id}))
    ensures Enabled(picked, PickCommit(worker, map[claim := id]))
    ensures held == Apply(picked, PickCommit(worker, map[claim := id]))
    ensures held == s.(rows := s.rows[id := s.rows[id].(status := Processing)],
                       claims := s.claims[claim := Waiting(JobOf(s.rows, id))])
  {
    picked := Apply(s, Event.Pick(worker, {id}));
    assert InHand(map[claim := id], id) by {
      assert claim in map[claim := id];
    }
    held := Apply(picked, PickCommit(worker, map[claim := id]));
    assert held.rows == s.rows[id := s.rows[id].(status := Processing)];
    assert held.picking == s.picking;
    assert held.claims == s.claims[claim := Waiting(JobOf(s.rows, id))];
  }

  /** Handling a held row well and marking it. */
  lemma CompleteOne(s: State, claim: int) returns (handled: State, done: State)
    requires claim in s.claims && s.claims[claim].Waiting? && s.claims[claim].job.id < |s.rows|
    requires s.claims[claim].job.kind == "entity" || s.claims[claim].job.kind == "stock"
    ensures Enabled(s, Handle(claim, true)) && handled == Apply(s, Handle(claim, true))
    ensures Enabled(handled, Mark(claim, s.clock)) && done == Apply(handled, Mark(claim, s.clock))
    ensures var id := s.claims[claim].job.id;
      done.rows == s.rows[id := s.rows[id].(status := Done)] && done.picking == s.picking
    ensures done.claims == s.claims - {claim}
  {
    handled := Apply(s, Handle(claim, true));
    done := Apply(handled, Mark(claim, s.clock));
  }

  /**
    Nothing stands in the way of a due row: whatever state a run has reached, a pending and due row
    that no claim holds can be claimed, handled and completed.
   */
  lemma DueRowCanComplete(s: State, id: nat, worker: int, claim: int) returns (states: seq<State>, events: seq<Event>)
    requires Inv(s) && id < |s.rows| && s.rows[id].status == Pending && s.rows[id].nextAt <= s.clock
    requires (forall w | w in s.picking :: id !in s.picking[w]) && worker !in s.picking && claim !in s.claims
    requires s.rows[id].kind == "entity" || s.rows[id].kind == "stock"
    ensures Run(states, events) && states[0] == s && |events| == 4
    ensures states[4].rows == s.rows[id := s.rows[id].(status := Done)]
    ensures states[4].claims == s.claims && states[4].picking == s.picking
  {
    var picked, held := ClaimOne(s, id, worker, claim);
    var handled, done := CompleteOne(held, claim);
    states := [s, picked, held, handled, done];
    events := [Event.Pick(worker, {id}), PickCommit(worker, map[claim := id]), Handle(claim, true),
               Mark(claim, s.clock)];
    assert done.claims == s.claims;
  }
}
