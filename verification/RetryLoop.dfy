/**
  The retry loop of the MoySklad client over an outbound semaphore and an optional
  breaker. What the network and the breaker answer on each attempt is arbitrary.
 */
module RetryLoop {
  import opened Base

  datatype Response = NetworkError | Status(code: int)

  datatype Action =
    | AskBreaker
    | Acquire
    | Send(attempt: nat)
    | Release
    | Sleep
    | ReportSuccess
    | ReportFailure

  datatype Outcome = CircuitOpen | GaveUp | Responded(attempt: nat)

  /** The surroundings of one logical request: `admits` is the breaker's answer on an attempt. */
  datatype World = World(breaker: bool, admits: nat -> bool, responses: nat -> Response)

  predicate Temporary(r: Response) {
    r.NetworkError? || r.code == 429 || r.code == 503 || r.code == 502 || r.code == 504
  }

  predicate Admitted(w: World, attempt: nat) {
    w.breaker ==> w.admits(attempt)
  }

  function Report(w: World, r: Response): seq<Action> {
    if !w.breaker then []
    else if r.Status? && r.code < 500 then [ReportSuccess]
    else [ReportFailure]
  }

  /** The actions of one attempt that is sent: the slot is given back as soon as the answer is in. */
  function Sent(w: World, attempt: nat): seq<Action> {
    (if w.breaker then [AskBreaker] else []) + [Acquire, Send(attempt), Release]
  }

  /** The attempts from `attempt` on: the outcome and everything the request does. */
  function Attempts(w: World, last: nat, attempt: nat): (Outcome, seq<Action>)
    requires attempt <= last
    decreases last - attempt
  {
    if !Admitted(w, attempt) then (CircuitOpen, [AskBreaker])
    else
      var r := w.responses(attempt);
      if !Temporary(r) then (Responded(attempt), Sent(w, attempt) + Report(w, r))
      else if attempt == last then (GaveUp, Sent(w, attempt) + if w.breaker then [ReportFailure] else [])
      else
        var rest := Attempts(w, last, attempt + 1);
        (rest.0, Sent(w, attempt) + [Sleep] + rest.1)
  }

  function LastAttempt(maxRetries: int): nat {
    if maxRetries < 0 then 0 else maxRetries
  }

  method SendOnce(w: World, attempt: nat) returns (r: Response, done: seq<Action>)
    ensures r == w.responses(attempt) && done == Sent(w, attempt)
  {
    done := if w.breaker then [AskBreaker] else [];
    done := done + [Acquire];
    done := done + [Send(attempt)];
    r := w.responses(attempt);
    done := done + [Release];
  }

  /** The switch at the end of an attempt answered for good. */
  method ReportOutcome(w: World, code: int) returns (done: seq<Action>)
    ensures done == Report(w, Status(code))
  {
    if !w.breaker {
      return [];
    }
    if 200 <= code < 300 {
      return [ReportSuccess];
    } else if code >= 500 {
      return [ReportFailure];
    } else {
      return [ReportSuccess];
    }
  }

  /** The loop as written, with the exit after it shown unreachable. */
  method DoRequestWithRetry(w: World, maxRetries: int) returns (outcome: Outcome, trace: seq<Action>)
    ensures outcome == Attempts(w, LastAttempt(maxRetries), 0).0
    ensures trace == Attempts(w, LastAttempt(maxRetries), 0).1
  {
    var last: nat := if maxRetries < 0 then 0 else maxRetries;
    trace := [];
    var attempt: nat := 0;
    while attempt <= last
      invariant attempt <= last
      invariant Attempts(w, last, 0).0 == Attempts(w, last, attempt).0
      invariant Attempts(w, last, 0).1 == trace + Attempts(w, last, attempt).1
      decreases last - attempt
    {
      if w.breaker && !w.admits(attempt) {
        return CircuitOpen, trace + [AskBreaker];
      }
      var r, done := SendOnce(w, attempt);
      if r.NetworkError? || r.code in {429, 503, 502, 504} {
        if attempt == last {
          if w.breaker {
            done := done + [ReportFailure];
          }
          return GaveUp, trace + done;
        }
        assert trace + Attempts(w, last, attempt).1 == trace + done + [Sleep] + Attempts(w, last, attempt + 1).1;
        trace := trace + done + [Sleep];
        attempt := attempt + 1;
        continue;
      }
      var report := ReportOutcome(w, r.code);
      return Responded(attempt), trace + (done + report);
    }
    assert false;
  }

  // ---- the discipline of a request ----

  function Count(trace: seq<Action>, what: Action -> bool): nat {
    if trace == [] then 0 else Count(trace[..|trace| - 1], what) + if what(trace[|trace| - 1]) then 1 else 0
  }

  lemma {:induction false} CountConcat(xs: seq<Action>, ys: seq<Action>, what: Action -> bool)
    ensures Count(xs + ys, what) == Count(xs, what) + Count(ys, what)
  {
    if ys == [] {
      assert xs + ys == xs;
    } else {
      assert (xs + ys)[..|xs + ys| - 1] == xs + ys[..|ys| - 1];
      CountConcat(xs, ys[..|ys| - 1], what);
    }
  }

  const IS_SEND: Action -> bool := (a: Action) => a.Send?
  const IS_REPORT: Action -> bool := (a: Action) => a.ReportSuccess? || a.ReportFailure?

  /** Semaphore slots held after a trace. */
  function Held(trace: seq<Action>): int {
    if trace == [] then 0
    else Held(trace[..|trace| - 1]) + match trace[|trace| - 1] case Acquire => 1 case Release => -1 case _ => 0
  }

  /** Every send happens on a held slot, and nothing else that can block does. */
  predicate Disciplined(trace: seq<Action>) {
    forall i | 0 <= i < |trace| ::
      match trace[i]
      case Acquire => Held(trace[..i]) == 0
      case Send(_) => Held(trace[..i]) == 1
      case Release => Held(trace[..i]) == 1
      case _ => Held(trace[..i]) == 0
  }

  lemma {:induction false} HeldConcat(xs: seq<Action>, ys: seq<Action>)
    ensures Held(xs + ys) == Held(xs) + Held(ys)
  {
    if ys == [] {
      assert xs + ys == xs;
    } else {
      assert (xs + ys)[..|xs + ys| - 1] == xs + ys[..|ys| - 1];
      HeldConcat(xs, ys[..|ys| - 1]);
    }
  }

  lemma DisciplinedConcat(xs: seq<Action>, ys: seq<Action>)
    requires Disciplined(xs) && Held(xs) == 0 && Disciplined(ys)
    ensures Disciplined(xs + ys)
  {
    forall i | 0 <= i < |xs + ys|
      ensures Held((xs + ys)[..i]) == if i < |xs| then Held(xs[..i]) else Held(ys[..i - |xs|])
    {
      if i < |xs| {
        assert (xs + ys)[..i] == xs[..i];
      } else {
        assert (xs + ys)[..i] == xs + ys[..i - |xs|];
        HeldConcat(xs, ys[..i - |xs|]);
      }
    }
  }

  lemma CoreFacts(attempt: nat)
    ensures var core := [Acquire, Send(attempt), Release];
      Disciplined(core) && Held(core) == 0 && Count(core, IS_SEND) == 1 && Count(core, IS_REPORT) == 0
  {
    var core := [Acquire, Send(attempt), Release];
    assert core[..0] == [] && core[..1] == [Acquire] && core[..2] == [Acquire, Send(attempt)];
    assert core[..2][..1] == [Acquire] && [Acquire][..0] == [];
    assert Held([Acquire]) == 1 && Held(core[..2]) == 1;
    assert Count([Acquire], IS_SEND) == 0 && Count(core[..2], IS_SEND) == 1;
    assert Count([Acquire], IS_REPORT) == 0 && Count(core[..2], IS_REPORT) == 0;
  }

  lemma Joined(xs: seq<Action>, ys: seq<Action>)
    requires Disciplined(xs) && Held(xs) == 0 && Disciplined(ys)
    ensures Disciplined(xs + ys) && Held(xs + ys) == Held(ys)
    ensures Count(xs + ys, IS_SEND) == Count(xs, IS_SEND) + Count(ys, IS_SEND)
    ensures Count(xs + ys, IS_REPORT) == Count(xs, IS_REPORT) + Count(ys, IS_REPORT)
  {
    DisciplinedConcat(xs, ys);
    HeldConcat(xs, ys);
    CountConcat(xs, ys, IS_SEND);
    CountConcat(xs, ys, IS_REPORT);
  }

  lemma SentFacts(w: World, attempt: nat, tail: seq<Action>)
    requires tail == [] || tail == [Sleep] || tail == [ReportSuccess] || tail == [ReportFailure]
    ensures Disciplined(Sent(w, attempt) + tail) && Held(Sent(w, attempt) + tail) == 0
    ensures Count(Sent(w, attempt) + tail, IS_SEND) == 1
    ensures Count(Sent(w, attempt) + tail, IS_REPORT) == if tail == [] || tail == [Sleep] then 0 else 1
  {
    var ask := if w.breaker then [AskBreaker] else [];
    CoreFacts(attempt);
    SmallFacts(ask);
    SmallFacts(tail);
    Joined(ask, [Acquire, Send(attempt), Release]);
    Joined(Sent(w, attempt), tail);
  }

  lemma SmallFacts(xs: seq<Action>)
    requires |xs| <= 1 && forall i | 0 <= i < |xs| :: !xs[i].Acquire? && !xs[i].Send? && !xs[i].Release?
    ensures Disciplined(xs) && Held(xs) == 0 && Count(xs, IS_SEND) == 0
    ensures Count(xs, IS_REPORT) == if |xs| == 1 && IS_REPORT(xs[0]) then 1 else 0
  {
    if |xs| == 1 {
      assert xs[..0] == [];
    }
  }

  /** What the attempts decide, told without their loop: the first attempt that is not a temporary failure. */
  predicate Decides(w: World, last: nat, first: nat, outcome: Outcome) {
    match outcome
    case CircuitOpen => exists k: nat | first <= k <= last :: !Admitted(w, k) && TemporaryUpTo(w, first, k)
    case Responded(k) => first <= k <= last && Admitted(w, k) && !Temporary(w.responses(k)) &&
      TemporaryUpTo(w, first, k)
    case GaveUp => Admitted(w, last) && Temporary(w.responses(last)) && TemporaryUpTo(w, first, last)
  }

  predicate TemporaryUpTo(w: World, first: nat, k: nat) {
    forall i: nat | first <= i < k :: Admitted(w, i) && Temporary(w.responses(i))
  }

  /** Everything claimed of a request that starts at attempt `first`. */
  predicate Proper(w: World, last: nat, first: nat, outcome: Outcome, trace: seq<Action>) {
    && Disciplined(trace) && Held(trace) == 0
    && Count(trace, IS_SEND) <= last + 1 - first
    && Count(trace, IS_REPORT) == (if w.breaker && outcome != CircuitOpen then 1 else 0)
    && Decides(w, last, first, outcome)
  }

  lemma DecidesEarlier(w: World, last: nat, first: nat, outcome: Outcome)
    requires first < last && Decides(w, last, first + 1, outcome)
    requires Admitted(w, first) && Temporary(w.responses(first))
    ensures Decides(w, last, first, outcome)
  {
    if outcome == CircuitOpen {
      var k: nat :| first + 1 <= k <= last && !Admitted(w, k) && TemporaryUpTo(w, first + 1, k);
      assert TemporaryUpTo(w, first, k);
    }
  }

  lemma ProperEarlier(w: World, last: nat, first: nat, outcome: Outcome, rest: seq<Action>)
    requires first < last && Proper(w, last, first + 1, outcome, rest)
    requires Admitted(w, first) && Temporary(w.responses(first))
    ensures Proper(w, last, first, outcome, Sent(w, first) + [Sleep] + rest)
  {
    SentFacts(w, first, [Sleep]);
    Joined(Sent(w, first) + [Sleep], rest);
    DecidesEarlier(w, last, first, outcome);
  }

  lemma {:induction false} AttemptsAreProper(w: World, last: nat, first: nat)
    requires first <= last
    ensures Proper(w, last, first, Attempts(w, last, first).0, Attempts(w, last, first).1)
    decreases last - first
  {
    if !Admitted(w, first) {
      SmallFacts([AskBreaker]);
      assert TemporaryUpTo(w, first, first);
    } else if !Temporary(w.responses(first)) {
      SentFacts(w, first, Report(w, w.responses(first)));
    } else if first == last {
      SentFacts(w, first, if w.breaker then [ReportFailure] else []);
    } else {
      AttemptsAreProper(w, last, first + 1);
      var (outcome, rest) := Attempts(w, last, first + 1);
      ProperEarlier(w, last, first, outcome, rest);
    }
  }

  /**
    For every sequence of responses: at most maxRetries + 1 sends; every acquired slot is
    released before any sleep, report or return; exactly one report per request with a
    breaker unless the circuit was open; and the outcome is that of the first attempt that
    is refused or answered for good, giving up only after the last.
   */
  lemma RetryDiscipline(w: World, maxRetries: int)
    ensures Proper(w, LastAttempt(maxRetries), 0, Attempts(w, LastAttempt(maxRetries), 0).0,
      Attempts(w, LastAttempt(maxRetries), 0).1)
  {
    AttemptsAreProper(w, LastAttempt(maxRetries), 0);
  }

  // ---- which attempts are made and what is reported ----

  /** A failure worth another attempt: no answer, or 429, 502, 503 or 504. */
  predicate WorthRetrying(r: Response) {
    r == NetworkError || r == Status(429) || r == Status(502) || r == Status(503) || r == Status(504)
  }

  /** The sends of a trace, in order. */
  function Sends(trace: seq<Action>): seq<nat> {
    if trace == [] then []
    else Sends(trace[..|trace| - 1]) +
         match trace[|trace| - 1] case Send(k) => [k] case _ => []
  }

  /** `from`, `from` + 1, ..., up to but not including `to`. */
  function UpTo(from: nat, to: nat): seq<nat> {
    if to <= from then [] else UpTo(from, to - 1) + [to - 1]
  }

  lemma {:induction false} SendsConcat(xs: seq<Action>, ys: seq<Action>)
    ensures Sends(xs + ys) == Sends(xs) + Sends(ys)
  {
    if ys == [] {
      assert xs + ys == xs;
    } else {
      assert (xs + ys)[..|xs + ys| - 1] == xs + ys[..|ys| - 1];
      SendsConcat(xs, ys[..|ys| - 1]);
    }
  }

  lemma SendsOne(a: Action)
    ensures Sends([a]) == match a case Send(k) => [k] case _ => []
  {
    assert [a][..0] == [];
  }

  lemma SendsOfSent(w: World, attempt: nat)
    ensures Sends(Sent(w, attempt)) == [attempt]
  {
    var ask := if w.breaker then [AskBreaker] else [];
    SendsOne(AskBreaker);
    SendsOne(Acquire);
    SendsOne(Send(attempt));
    SendsOne(Release);
    SendsConcat([Acquire], [Send(attempt)]);
    SendsConcat([Acquire] + [Send(attempt)], [Release]);
    assert [Acquire] + [Send(attempt)] + [Release] == [Acquire, Send(attempt), Release];
    SendsConcat(ask, [Acquire, Send(attempt), Release]);
  }

  lemma SendsOfAttempt(w: World, attempt: nat, tail: seq<Action>)
    requires |tail| <= 1 && forall i | 0 <= i < |tail| :: !tail[i].Send?
    ensures Sends(Sent(w, attempt) + tail) == [attempt]
  {
    assert Sends(tail) == [] by {
      if |tail| == 1 {
        SendsOne(tail[0]);
        assert tail == [tail[0]];
      }
    }
    SendsOfSent(w, attempt);
    SendsConcat(Sent(w, attempt), tail);
  }

  lemma {:induction false} UpToFront(from: nat, to: nat)
    requires from < to
    ensures UpTo(from, to) == [from] + UpTo(from + 1, to)
  {
    if from + 1 < to {
      UpToFront(from, to - 1);
    }
  }

  /** What ends a request at attempt `k`, and what the breaker is told last. */
  predicate EndsAt(w: World, last: nat, first: nat, k: nat, outcome: Outcome, trace: seq<Action>) {
    && first <= k <= last && trace != []
    && (forall i: nat | first <= i < k :: (w.breaker ==> w.admits(i)) && WorthRetrying(w.responses(i)))
    && match outcome
       case CircuitOpen =>
         w.breaker && !w.admits(k) && Sends(trace) == UpTo(first, k) && trace[|trace| - 1] == AskBreaker
       case Responded(at) =>
         && at == k && (w.breaker ==> w.admits(k)) && !WorthRetrying(w.responses(k))
         && Sends(trace) == UpTo(first, k + 1)
         && w.responses(k).Status?
         && (w.breaker ==>
               trace[|trace| - 1] == if w.responses(k).code < 500 then ReportSuccess else ReportFailure)
       case GaveUp =>
         && k == last && (w.breaker ==> w.admits(k)) && WorthRetrying(w.responses(k))
         && Sends(trace) == UpTo(first, k + 1)
         && (w.breaker ==> trace[|trace| - 1] == ReportFailure)
  }

  lemma {:induction false} AttemptsEnd(w: World, last: nat, first: nat) returns (k: nat)
    requires first <= last
    ensures EndsAt(w, last, first, k, Attempts(w, last, first).0, Attempts(w, last, first).1)
    decreases last - first
  {
    k := first;
    var r := w.responses(first);
    if w.breaker && !w.admits(first) {
      assert [AskBreaker][..0] == [];
    } else if !WorthRetrying(r) {
      SendsOfAttempt(w, first, Report(w, r));
      UpToFront(first, first + 1);
    } else if first == last {
      SendsOfAttempt(w, first, if w.breaker then [ReportFailure] else []);
      UpToFront(first, first + 1);
    } else {
      k := AttemptsEnd(w, last, first + 1);
      SendsOfAttempt(w, first, [Sleep]);
      EndsLater(w, last, first, k, Attempts(w, last, first + 1).0, Sent(w, first) + [Sleep],
                Attempts(w, last, first + 1).1);
    }
  }

  lemma LastOfConcat(a: seq<Action>, b: seq<Action>)
    requires b != []
    ensures (a + b)[|a + b| - 1] == b[|b| - 1]
  {
  }

  lemma SendsFrom(attempt: seq<Action>, rest: seq<Action>, first: nat, to: nat)
    requires Sends(attempt) == [first] && first < to && Sends(rest) == UpTo(first + 1, to)
    ensures Sends(attempt + rest) == UpTo(first, to)
  {
    SendsConcat(attempt, rest);
    UpToFront(first, to);
  }


  lemma EndsLater(w: World, last: nat, first: nat, k: nat, outcome: Outcome, attempt: seq<Action>, rest: seq<Action>)
    requires EndsAt(w, last, first + 1, k, outcome, rest)
    requires (w.breaker ==> w.admits(first)) && WorthRetrying(w.responses(first)) && Sends(attempt) == [first]
    ensures EndsAt(w, last, first, k, outcome, attempt + rest)
  {
    LastOfConcat(attempt, rest);
    SendsFrom(attempt, rest, first, if outcome.CircuitOpen? then k else k + 1);
  }

  /**
    The attempts 0, 1, ... are sent in order, each but the last answered with a failure worth
    retrying. A request that gets its answer tells the breaker so: a failure for a status of 500 and
    above, a success for any other; one that gives up after the last attempt reports a failure; one
    the breaker refuses asks and reports nothing.
   */
  lemma EndsAsTheAnswersSay(w: World, maxRetries: int) returns (k: nat)
    ensures var last: nat := if maxRetries > 0 then maxRetries else 0;
      EndsAt(w, last, 0, k, Attempts(w, LastAttempt(maxRetries), 0).0, Attempts(w, LastAttempt(maxRetries), 0).1)
  {
    k := AttemptsEnd(w, LastAttempt(maxRetries), 0);
  }

  // ---- many requests on one semaphore ----

  datatype Progress = Progress(trace: seq<Action>, done: nat)

  /** `slots` is the number of tokens in the channel. */
  datatype Pool = Pool(capacity: nat, slots: int, requests: map<int, Progress>)

  predicate CanStep(pool: Pool, r: int) {
    && r in pool.requests
    && pool.requests[r].done < |pool.requests[r].trace|
    && match pool.requests[r].trace[pool.requests[r].done]
       case Acquire => pool.slots < pool.capacity
       case Release => pool.slots > 0
       case _ => true
  }

  function Step(pool: Pool, r: int): Pool
    requires CanStep(pool, r)
  {
    var p := pool.requests[r];
    pool.(slots := pool.slots + match p.trace[p.done] case Acquire => 1 case Release => -1 case _ => 0,
          requests := pool.requests[r := p.(done := p.done + 1)])
  }

  predicate Holding(p: Progress) {
    p.done <= |p.trace| && Held(p.trace[..p.done]) == 1
  }

  function Holders(pool: Pool): set<int> {
    set r | r in pool.requests && Holding(pool.requests[r])
  }

  /** Requests whose HTTP exchange is under way. */
  function Sending(pool: Pool): set<int> {
    set r | r in pool.requests && 0 < pool.requests[r].done <= |pool.requests[r].trace|
            && pool.requests[r].trace[pool.requests[r].done - 1].Send?
  }

  predicate PoolOk(pool: Pool) {
    && (forall r | r in pool.requests ::
      pool.requests[r].done <= |pool.requests[r].trace| && Disciplined(pool.requests[r].trace))
    && pool.slots == |Holders(pool)|
    && pool.slots <= pool.capacity
  }

  lemma HeldNext(trace: seq<Action>, i: nat)
    requires i < |trace|
    ensures Held(trace[..i + 1]) == Held(trace[..i]) + match trace[i] case Acquire => 1 case Release => -1 case _ => 0
  {
    assert trace[..i + 1][..i] == trace[..i];
  }

  /** Each step keeps the token count equal to the holders, so a release never blocks and never frees another's slot. */
  lemma PoolStep(pool: Pool, r: int)
    requires PoolOk(pool) && CanStep(pool, r)
    ensures PoolOk(Step(pool, r))
  {
    var next, p := Step(pool, r), pool.requests[r];
    HeldNext(p.trace, p.done);
    var before, after := Holders(pool), Holders(next);
    match p.trace[p.done] {
      case Acquire =>
        assert after == before + {r} && r !in before;
      case Release =>
        assert after == before - {r} && r in before;
      case _ => assert after == before;
    }
  }

  /**
    However disciplined requests interleave, at most `capacity` sends are under way, and a
    release is never blocked.
   */
  lemma SendsWithinCapacity(pool: Pool)
    requires PoolOk(pool)
    ensures |Sending(pool)| <= pool.capacity
    ensures forall r | r in pool.requests && pool.requests[r].done < |pool.requests[r].trace| ::
      pool.requests[r].trace[pool.requests[r].done] == Release ==> CanStep(pool, r)
  {
    forall r | r in Sending(pool) ensures r in Holders(pool) {
      var p := pool.requests[r];
      HeldNext(p.trace, p.done - 1);
    }
    SubsetSize(Sending(pool), Holders(pool));
    forall r | r in pool.requests && pool.requests[r].done < |pool.requests[r].trace| &&
      pool.requests[r].trace[pool.requests[r].done] == Release
      ensures CanStep(pool, r)
    {
      assert r in Holders(pool);
      SubsetSize({r}, Holders(pool));
    }
  }

  predicate PoolRun(pools: seq<Pool>, steps: seq<int>) {
    && |pools| == |steps| + 1
    && forall i | 0 <= i < |steps| :: CanStep(pools[i], steps[i]) && pools[i + 1] == Step(pools[i], steps[i])
  }

  /** A pool of requests that have not started yet, each about to follow its retry loop. */
  predicate Starting(pool: Pool, worlds: map<int, World>, maxRetries: int) {
    && pool.slots == 0 && pool.requests.Keys == worlds.Keys
    && forall r | r in worlds :: pool.requests[r] == Progress(Attempts(worlds[r], LastAttempt(maxRetries), 0).1, 0)
  }

  /** Concurrent sends never exceed the capacity, in any interleaving of any number of requests. */
  lemma {:induction false} ConcurrentSendsBounded(pools: seq<Pool>, steps: seq<int>, worlds: map<int, World>,
                                                  maxRetries: int, n: nat)
    requires PoolRun(pools, steps) && Starting(pools[0], worlds, maxRetries) && n < |pools|
    ensures PoolOk(pools[n]) && pools[n].capacity == pools[0].capacity
    ensures |Sending(pools[n])| <= pools[0].capacity
  {
    if n == 0 {
      forall r | r in pools[0].requests
        ensures Disciplined(pools[0].requests[r].trace) && !Holding(pools[0].requests[r])
      {
        RetryDiscipline(worlds[r], maxRetries);
        assert pools[0].requests[r].trace[..0] == [];
      }
      assert Holders(pools[0]) == {};
    } else {
      ConcurrentSendsBounded(pools, steps, worlds, maxRetries, n - 1);
      PoolStep(pools[n - 1], steps[n - 1]);
    }
    SendsWithinCapacity(pools[n]);
  }

  lemma {:induction false} TracesStay(pools: seq<Pool>, steps: seq<int>, n: nat)
    requires PoolRun(pools, steps) && n < |pools|
    ensures pools[n].requests.Keys == pools[0].requests.Keys
    ensures forall r | r in pools[n].requests :: pools[n].requests[r].trace == pools[0].requests[r].trace
  {
    if n > 0 {
      TracesStay(pools, steps, n - 1);
    }
  }

  lemma SomeoneCanStep(pool: Pool, r: int) returns (q: int)
    requires PoolOk(pool) && pool.capacity > 0 && forall p | p in pool.requests :: Held(pool.requests[p].trace) == 0
    requires r in pool.requests && pool.requests[r].done < |pool.requests[r].trace|
    ensures CanStep(pool, q)
  {
    SendsWithinCapacity(pool);
    if CanStep(pool, r) {
      q := r;
    } else {
      assert Holders(pool) != {} by {
        assert |Holders(pool)| == pool.slots > 0;
      }
      q := SomeMember(Holders(pool));
      var p := pool.requests[q];
      assert p.trace[..|p.trace|] == p.trace;
    }
  }

  /** The semaphore never deadlocks: while some request is unfinished, some request can take its next step. */
  lemma NeverStuck(pools: seq<Pool>, steps: seq<int>, worlds: map<int, World>, maxRetries: int, n: nat, r: int)
    requires PoolRun(pools, steps) && Starting(pools[0], worlds, maxRetries) && n < |pools| && pools[0].capacity > 0
    requires r in pools[n].requests && pools[n].requests[r].done < |pools[n].requests[r].trace|
    ensures exists q :: CanStep(pools[n], q)
  {
    ConcurrentSendsBounded(pools, steps, worlds, maxRetries, n);
    TracesStay(pools, steps, n);
    forall p | p in pools[n].requests
      ensures Held(pools[n].requests[p].trace) == 0
    {
      RetryDiscipline(worlds[p], maxRetries);
    }
    var _ := SomeoneCanStep(pools[n], r);
  }
}
