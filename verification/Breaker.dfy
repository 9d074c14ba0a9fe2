/** The three-state circuit breaker; every method runs under its mutex, so a history is a sequence of calls. */
module Breaker {
  const SECOND: int := 1_000_000_000

  datatype Mode = Closed | Open | HalfOpen

  datatype Config = Config(threshold: int, successHalfOpen: int, openTimeout: int)

  datatype Circuit = Circuit(mode: Mode, failures: int, successes: int, openedAt: int)

  const FRESH := Circuit(Closed, 0, 0, 0)

  predicate ConfigOk(c: Config) {
    c.threshold >= 1 && c.successHalfOpen == 1 && c.openTimeout >= SECOND
  }

  function Asked(c: Config, b: Circuit, now: int): Circuit {
    if b.mode == Open && now - b.openedAt >= c.openTimeout then b.(mode := HalfOpen, successes := 0) else b
  }

  /** What a question at `now` is answered. */
  predicate Answer(c: Config, b: Circuit, now: int) {
    b.mode == Open ==> now - b.openedAt >= c.openTimeout
  }

  function Succeeded(c: Config, b: Circuit): Circuit {
    match b.mode
    case HalfOpen =>
      if b.successes + 1 >= c.successHalfOpen then b.(mode := Closed, failures := 0, successes := b.successes + 1)
      else b.(successes := b.successes + 1)
    case Closed => b.(failures := 0)
    case Open => b
  }

  function Failed(c: Config, b: Circuit, now: int): Circuit {
    match b.mode
    case HalfOpen => b.(mode := Open, openedAt := now, failures := c.threshold)
    case Closed =>
      if b.failures + 1 >= c.threshold then b.(mode := Open, openedAt := now, failures := b.failures + 1)
      else b.(failures := b.failures + 1)
    case Open => b
  }

  datatype CallResult = Rejected | Returned(ok: bool)

  class CircuitBreaker {
    var circuit: Circuit
    const config: Config

    constructor (failThreshold: int, openTimeout: int)
      ensures ConfigOk(config) && circuit == FRESH
      ensures config.threshold == if failThreshold >= 1 then failThreshold else 5
      ensures config.openTimeout == if openTimeout >= SECOND then openTimeout else 45 * SECOND
    {
      config := Config(if failThreshold < 1 then 5 else failThreshold, 1,
                       if openTimeout < SECOND then 45 * SECOND else openTimeout);
      circuit := FRESH;
    }

    method Allow(now: int) returns (ok: bool)
      modifies this
      ensures circuit == Asked(config, old(circuit), now)
      ensures ok == Answer(config, old(circuit), now)
      ensures ok <==> !(old(circuit).mode == Open && now < old(circuit).openedAt + config.openTimeout)
      ensures ok ==> circuit.mode != Open
      ensures !ok ==> circuit == old(circuit)
    {
      match circuit.mode {
        case Closed => return true;
        case Open =>
          if now - circuit.openedAt >= config.openTimeout {
            circuit := circuit.(mode := HalfOpen, successes := 0);
            return true;
          }
          return false;
        case HalfOpen => return true;
      }
    }

    method OnSuccess()
      modifies this
      ensures circuit == Succeeded(config, old(circuit))
      ensures old(circuit).mode == Open ==> circuit == old(circuit)
      ensures old(circuit).mode == Closed ==> circuit == old(circuit).(failures := 0)
      ensures ConfigOk(config) && old(circuit).mode == HalfOpen && old(circuit).successes >= 0 ==>
        circuit.mode == Closed && circuit.failures == 0
    {
      match circuit.mode {
        case HalfOpen =>
          circuit := circuit.(successes := circuit.successes + 1);
          if circuit.successes >= config.successHalfOpen {
            circuit := circuit.(mode := Closed, failures := 0);
          }
        case Closed => circuit := circuit.(failures := 0);
        case Open =>
      }
    }

    method OnFailure(now: int)
      modifies this
      ensures circuit == Failed(config, old(circuit), now)
      ensures old(circuit).mode == Open ==> circuit == old(circuit)
      ensures old(circuit).mode == HalfOpen ==> circuit.mode == Open && circuit.openedAt == now
      ensures old(circuit).mode == Closed ==>
        && circuit.failures == old(circuit).failures + 1
        && (circuit.mode == if circuit.failures < config.threshold then Closed else Open)
        && (circuit.mode == Open ==> circuit.openedAt == now)
    {
      match circuit.mode {
        case HalfOpen => circuit := circuit.(mode := Open, openedAt := now, failures := config.threshold);
        case Closed =>
          circuit := circuit.(failures := circuit.failures + 1);
          if circuit.failures >= config.threshold {
            circuit := circuit.(mode := Open, openedAt := now);
          }
        case Open =>
      }
    }

    /** `ok` is what the protected function returns, `done` when it does. */
    method Call(now: int, ok: bool, done: int) returns (r: CallResult)
      modifies this
      ensures r == if Answer(config, old(circuit), now) then Returned(ok) else Rejected
      ensures var asked := Asked(config, old(circuit), now);
        circuit == if r.Rejected? then asked else if ok then Succeeded(config, asked) else Failed(config, asked, done)
    {
      var admitted := Allow(now);
      if !admitted {
        return Rejected;
      }
      if !ok {
        OnFailure(done);
        return Returned(false);
      }
      OnSuccess();
      return Returned(true);
    }
  }

  // ---- whole histories ----

  datatype What = Ask | Success | Failure

  datatype Event = Event(at: int, what: What)

  function Next(c: Config, b: Circuit, e: Event): Circuit {
    match e.what
    case Ask => Asked(c, b, e.at)
    case Success => Succeeded(c, b)
    case Failure => Failed(c, b, e.at)
  }

  function Play(c: Config, events: seq<Event>): Circuit {
    if events == [] then FRESH else Next(c, Play(c, events[..|events| - 1]), events[|events| - 1])
  }

  predicate Monotone(events: seq<Event>) {
    forall i, j | 0 <= i < j < |events| :: events[i].at <= events[j].at
  }

  /** Failures reported since the last success. */
  function Trailing(events: seq<Event>): nat {
    if events == [] then 0
    else match events[|events| - 1].what
      case Success => 0
      case Failure => Trailing(events[..|events| - 1]) + 1
      case Ask => Trailing(events[..|events| - 1])
  }

  /**
    While closed, the failure counter is the number of failures reported since the last
    success and is below the threshold; while open or half-open it is the threshold.
   */
  lemma {:induction false} CounterMeaning(c: Config, events: seq<Event>)
    requires ConfigOk(c)
    ensures var b := Play(c, events);
      && b.successes >= 0
      && (if b.mode == Closed then b.failures == Trailing(events) < c.threshold else b.failures == c.threshold)
  {
    if events != [] {
      CounterMeaning(c, events[..|events| - 1]);
    }
  }

  /** From closed, the breaker opens at exactly the failure that makes the run of failures reach the threshold. */
  lemma TripsExactlyAtThreshold(c: Config, events: seq<Event>, e: Event)
    requires ConfigOk(c) && Play(c, events).mode == Closed
    ensures Play(c, events + [e]).mode != Closed <==> e.what == Failure && Trailing(events + [e]) == c.threshold
    ensures Play(c, events + [e]).mode != Closed ==>
      Play(c, events + [e]).mode == Open && Play(c, events + [e]).openedAt == e.at
  {
    assert (events + [e])[..|events|] == events;
    CounterMeaning(c, events);
  }

  /** The breaker closes again only on a success that arrives in half-open. */
  lemma Recloses(c: Config, events: seq<Event>, e: Event)
    requires ConfigOk(c) && Play(c, events).mode != Closed
    ensures Play(c, events + [e]).mode == Closed <==> e.what == Success && Play(c, events).mode == HalfOpen
  {
    assert (events + [e])[..|events|] == events;
    CounterMeaning(c, events);
  }

  /** No call is admitted from a trip at t until t + openTimeout, whatever late reports come in. */
  lemma {:induction false} NothingAdmittedWhileOpen(c: Config, events: seq<Event>, i: nat, j: nat)
    requires ConfigOk(c) && Monotone(events) && i < j < |events|
    requires Play(c, events[..i]).mode != Open && Play(c, events[..i + 1]).mode == Open
    requires events[j].at < events[i].at + c.openTimeout
    ensures Play(c, events[..j]).mode == Open && Play(c, events[..j]).openedAt == events[i].at
    ensures !Answer(c, Play(c, events[..j]), events[j].at)
    decreases j
  {
    assert events[..j][..j - 1] == events[..j - 1];
    if j == i + 1 {
      assert events[..j - 1] == events[..i];
    } else {
      NothingAdmittedWhileOpen(c, events, i, j - 1);
    }
  }

  /**
    Once the timeout is over the next question is admitted as a probe, and the probe's report decides:
    a success closes the breaker and clears its failures, a failure opens it again from that moment.
   */
  lemma ProbeDecides(c: Config, events: seq<Event>, ask: Event, report: Event)
    requires ConfigOk(c) && Play(c, events).mode == Open
    requires ask.what == Ask && Play(c, events).openedAt + c.openTimeout <= ask.at
    ensures Answer(c, Play(c, events), ask.at) && Play(c, events + [ask]).mode == HalfOpen
    ensures report.what == Success ==>
      Play(c, events + [ask, report]).mode == Closed && Play(c, events + [ask, report]).failures == 0
    ensures report.what == Failure ==>
      Play(c, events + [ask, report]).mode == Open && Play(c, events + [ask, report]).openedAt == report.at
  {
    assert (events + [ask])[..|events|] == events;
    assert (events + [ask, report])[..|events| + 1] == events + [ask];
    CounterMeaning(c, events);
    CounterMeaning(c, events + [ask]);
  }

  /** Half-open admits any number of probes until one of them reports. */
  lemma {:induction false} HalfOpenAdmitsEveryProbe(c: Config, events: seq<Event>, asks: seq<Event>)
    requires Play(c, events).mode == HalfOpen
    requires forall i | 0 <= i < |asks| :: asks[i].what == Ask
    ensures Play(c, events + asks) == Play(c, events)
    ensures forall t :: Answer(c, Play(c, events + asks), t)
  {
    if asks == [] {
      assert events + asks == events;
    } else {
      var front := asks[..|asks| - 1];
      HalfOpenAdmitsEveryProbe(c, events, front);
      assert (events + asks)[..|events + asks| - 1] == events + front;
    }
  }
}
