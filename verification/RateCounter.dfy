/** The in-memory fixed-window counter of the rate store, with its background cleanup. */
module RateCounter {
  import opened Base

  datatype Rec = Rec(count: int, expires: int)

  type Table = map<string, Rec>

  predicate LiveAt(table: Table, key: string, now: int) {
    key in table && now <= table[key].expires
  }

  function Bumped(table: Table, key: string, ttl: int, now: int): Table {
    table[key := if LiveAt(table, key, now) then table[key].(count := table[key].count + 1) else Rec(1, now + ttl)]
  }

  function Value(table: Table, key: string, now: int): int {
    if LiveAt(table, key, now) then table[key].count else 0
  }

  function Without(table: Table, key: string): Table {
    map k | k in table && k != key :: table[k]
  }

  function Swept(table: Table, now: int): Table {
    map k | k in table && now <= table[k].expires :: table[k]
  }

  class MemCounter {
    var m: Table

    constructor ()
      ensures m == map[]
    {
      m := map[];
    }

    method Incr(key: string, ttl: int, now: int) returns (n: int)
      modifies this
      ensures m == Bumped(old(m), key, ttl, now)
      ensures n == m[key].count == Value(old(m), key, now) + 1
      ensures m.Keys == old(m).Keys + {key} && forall k | k in old(m) && k != key :: m[k] == old(m)[k]
      ensures m[key] == if key in old(m) && now <= old(m)[key].expires
                        then Rec(old(m)[key].count + 1, old(m)[key].expires) else Rec(1, now + ttl)
    {
      if key !in m || now > m[key].expires {
        m := m[key := Rec(0, now + ttl)];
      }
      m := m[key := m[key].(count := m[key].count + 1)];
      return m[key].count;
    }

    method Get(key: string, now: int) returns (n: int)
      ensures n == Value(m, key, now)
      ensures n == if key in m && now <= m[key].expires then m[key].count else 0
    {
      if key !in m || now > m[key].expires {
        return 0;
      }
      return m[key].count;
    }

    method Reset(key: string)
      modifies this
      ensures m == Without(old(m), key)
      ensures m.Keys == old(m).Keys - {key} && forall k | k in m :: m[k] == old(m)[k]
    {
      m := map k | k in m && k != key :: m[k];
    }

    /** One pass of the cleanup goroutine. */
    method Cleanup(now: int)
      modifies this
      ensures m == Swept(old(m), now)
      ensures forall k | k in old(m) :: k in m <==> now <= old(m)[k].expires
      ensures m.Keys <= old(m).Keys && forall k | k in m :: m[k] == old(m)[k]
    {
      var todo := m.Keys;
      while todo != {}
        invariant todo <= m.Keys <= old(m).Keys
        invariant forall k | k in old(m) :: k in m <==> k in todo || now <= old(m)[k].expires
        invariant forall k | k in m :: m[k] == old(m)[k]
        decreases |todo|
      {
        var key := PickKey(todo);
        if now > m[key].expires {
          m := map k | k in m && k != key :: m[k];
        }
        todo := todo - {key};
      }
    }

    method Allow(key: string, limit: int, window: int, now: int) returns (ok: bool)
      modifies this
      ensures m == Bumped(old(m), key, window, now)
      ensures ok <==> Value(old(m), key, now) < limit
      ensures ok <==> m[key].count <= limit
    {
      var n := Incr(key, window, now);
      return n <= limit;
    }
  }

  // ---- histories ----

  datatype Call = Incr(key: string, ttl: int) | Get(key: string) | Reset(key: string) | Cleanup

  /** A call at an instant; a history is a sequence of them under the mutex, on a clock that never goes back. */
  datatype Step = Step(at: int, call: Call)

  predicate Monotone(steps: seq<Step>) {
    forall i, j | 0 <= i < j < |steps| :: steps[i].at <= steps[j].at
  }

  function After(table: Table, step: Step): Table {
    match step.call
    case Incr(key, ttl) => Bumped(table, key, ttl, step.at)
    case Get(_) => table
    case Reset(key) => Without(table, key)
    case Cleanup => Swept(table, step.at)
  }

  function Output(table: Table, step: Step): int {
    match step.call
    case Incr(key, _) => Value(table, key, step.at) + 1
    case Get(key) => Value(table, key, step.at)
    case _ => 0
  }

  function Outputs(table: Table, steps: seq<Step>): seq<int>
    decreases |steps|
  {
    if steps == [] then []
    else if steps[0].call.Cleanup? then Outputs(After(table, steps[0]), steps[1..])
    else [Output(table, steps[0])] + Outputs(After(table, steps[0]), steps[1..])
  }

  function NoCleanups(steps: seq<Step>): seq<Step> {
    if steps == [] then []
    else (if steps[0].call.Cleanup? then [] else [steps[0]]) + NoCleanups(steps[1..])
  }

  /** Two tables no call at `now` or later can tell apart: their live records agree. */
  ghost predicate Similar(a: Table, b: Table, now: int) {
    forall key :: (LiveAt(a, key, now) <==> LiveAt(b, key, now)) && (LiveAt(a, key, now) ==> a[key] == b[key])
  }

  lemma SimilarLater(a: Table, b: Table, now: int, later: int)
    requires Similar(a, b, now) && now <= later
    ensures Similar(a, b, later)
  {
    forall key
      ensures (LiveAt(a, key, later) <==> LiveAt(b, key, later)) && (LiveAt(a, key, later) ==> a[key] == b[key])
    {
      assert LiveAt(a, key, later) ==> LiveAt(a, key, now);
      assert LiveAt(b, key, later) ==> LiveAt(b, key, now);
    }
  }

  /** Similarity is a bisimulation: equal outputs and similar tables after any call, and a cleanup on one side alone. */
  lemma SimilarStep(a: Table, b: Table, step: Step)
    requires Similar(a, b, step.at)
    ensures Output(a, step) == Output(b, step)
    ensures Similar(After(a, step), After(b, step), step.at)
    ensures step.call.Cleanup? ==> Similar(After(a, step), b, step.at)
  {
    match step.call
    case Incr(key, _) => assert LiveAt(a, key, step.at) <==> LiveAt(b, key, step.at);
    case Get(key) => assert LiveAt(a, key, step.at) <==> LiveAt(b, key, step.at);
    case Reset(key) =>
      forall k ensures LiveAt(Without(a, key), k, step.at) <==> LiveAt(a, k, step.at) && k != key {}
      forall k ensures LiveAt(Without(b, key), k, step.at) <==> LiveAt(b, k, step.at) && k != key {}
    case Cleanup =>
      forall k ensures LiveAt(Swept(a, step.at), k, step.at) <==> LiveAt(a, k, step.at) {}
      forall k ensures LiveAt(Swept(b, step.at), k, step.at) <==> LiveAt(b, k, step.at) {}
  }

  lemma {:induction false} SimilarOutputs(a: Table, b: Table, steps: seq<Step>, now: int)
    requires Monotone(steps) && Similar(a, b, now) && (steps != [] ==> now <= steps[0].at)
    ensures Outputs(a, steps) == Outputs(b, NoCleanups(steps))
    decreases |steps|
  {
    if steps != [] {
      var step, rest := steps[0], steps[1..];
      assert Monotone(rest) by {
        assert forall i | 0 <= i < |rest| :: rest[i] == steps[i + 1];
      }
      SimilarLater(a, b, now, step.at);
      SimilarStep(a, b, step);
      if step.call.Cleanup? {
        SimilarOutputs(After(a, step), b, rest, step.at);
        assert NoCleanups(steps) == NoCleanups(rest);
      } else {
        SimilarOutputs(After(a, step), After(b, step), rest, step.at);
        assert NoCleanups(steps)[0] == step && NoCleanups(steps)[1..] == NoCleanups(rest);
      }
    }
  }

  /** Background cleanup is unobservable: every history answers as if it had never run. */
  lemma CleanupIsUnobservable(table: Table, steps: seq<Step>)
    requires Monotone(steps)
    ensures Outputs(table, steps) == Outputs(table, NoCleanups(steps))
  {
    if steps != [] {
      SimilarOutputs(table, table, steps, steps[0].at);
    }
  }

  // ---- the window bounds ----

  function Run(steps: seq<Step>): Table {
    if steps == [] then map[] else After(Run(steps[..|steps| - 1]), steps[|steps| - 1])
  }

  /** After a reset the key starts afresh: no count is left, and the next increment opens a window of its own length. */
  lemma ResetStartsAfresh(table: Table, key: string, other: string, at: int, ttl: int, later: int)
    requires at <= later && other != key
    ensures var reset := After(table, Step(at, Reset(key)));
      && Output(reset, Step(later, Get(key))) == 0
      && Output(reset, Step(later, Incr(key, ttl))) == 1
      && key in After(reset, Step(later, Incr(key, ttl)))
      && After(reset, Step(later, Incr(key, ttl)))[key] == Rec(1, later + ttl)
      && Output(reset, Step(later, Get(other))) == Output(table, Step(later, Get(other)))
  {
  }

  /** The `i`-th call is an Allow on the key that answers true. */
  predicate Allowed(steps: seq<Step>, i: nat, key: string, limit: int)
    requires i < |steps|
  {
    steps[i].call.Incr? && steps[i].call.key == key && Output(Run(steps[..i]), steps[i]) <= limit
  }

  /** Allowed calls within [a, b] among all the calls. */
  function Admitted(steps: seq<Step>, key: string, limit: int, a: int, b: int): nat {
    if steps == [] then 0
    else
      var n := |steps| - 1;
      Admitted(steps[..n], key, limit, a, b) +
      if Allowed(steps, n, key, limit) && a <= steps[n].at <= b then 1 else 0
  }

  predicate Fixed(steps: seq<Step>, key: string, ttl: int) {
    forall i | 0 <= i < |steps| ::
      match steps[i].call
      case Incr(k, t) => k == key ==> t == ttl
      case Reset(k) => k != key
      case _ => true
  }

  function Cap(limit: int): nat {
    if limit < 0 then 0 else limit
  }

  function Least(a: int, b: int): int {
    if a < b then a else b
  }

  /** The window the key last opened, if any: it stays known after its record is swept. */
  function LastWindow(steps: seq<Step>, key: string): Option<Rec> {
    if steps == [] then None
    else
      var n := |steps| - 1;
      var last, call := LastWindow(steps[..n], key), steps[n].call;
      if !(call.Incr? && call.key == key) then last
      else if last.Some? && steps[n].at <= last.value.expires then Some(last.value.(count := last.value.count + 1))
      else Some(Rec(1, steps[n].at + call.ttl))
  }

  /** The table's answers for the key are those of its last window. */
  lemma {:induction false} WindowIsInTable(steps: seq<Step>, key: string, ttl: int, now: int)
    requires Monotone(steps) && Fixed(steps, key, ttl)
    requires steps != [] ==> steps[|steps| - 1].at <= now
    ensures var w := LastWindow(steps, key);
      && (LiveAt(Run(steps), key, now) <==> w.Some? && now <= w.value.expires)
      && (LiveAt(Run(steps), key, now) ==> Run(steps)[key] == w.value)
  {
    if steps != [] {
      var n := |steps| - 1;
      WindowIsInTable(steps[..n], key, ttl, steps[n].at);
      WindowIsInTable(steps[..n], key, ttl, now);
    }
  }

  /** How many calls in [a, a + ttl] can have been allowed, by where the last window started. */
  predicate Bounded(w: Option<Rec>, admitted: int, last: int, limit: int, ttl: int, a: int) {
    && (last < a ==> admitted == 0)
    && (w.None? ==> admitted == 0)
    && (w.Some? ==>
          && w.value.count >= 1
          && w.value.expires - ttl <= last
          && var start := w.value.expires - ttl;
             if start < a then admitted <= Least(w.value.count, Cap(limit))
             else if start <= a + ttl then admitted <= Cap(limit) + Least(w.value.count, Cap(limit))
             else admitted <= 2 * Cap(limit))
  }

  lemma {:induction false} BoundHolds(steps: seq<Step>, key: string, limit: int, ttl: int, a: int)
    requires Monotone(steps) && Fixed(steps, key, ttl) && ttl >= 0 && steps != []
    ensures Bounded(LastWindow(steps, key), Admitted(steps, key, limit, a, a + ttl), steps[|steps| - 1].at,
                    limit, ttl, a)
  {
    var n := |steps| - 1;
    if n > 0 {
      BoundHolds(steps[..n], key, limit, ttl, a);
      assert steps[n - 1].at <= steps[n].at;
    } else {
      assert LastWindow(steps[..n], key) == None;
    }
    WindowIsInTable(steps[..n], key, ttl, steps[n].at);
  }

  /** At most twice the limit is allowed in any interval as long as the window, edges included. */
  lemma TwiceTheLimitPerInterval(steps: seq<Step>, key: string, limit: int, ttl: int, a: int)
    requires Monotone(steps) && Fixed(steps, key, ttl) && ttl >= 0
    ensures Admitted(steps, key, limit, a, a + ttl) <= 2 * Cap(limit)
  {
    if steps != [] {
      BoundHolds(steps, key, limit, ttl, a);
    }
  }

  /** Allowed calls that fell in the window expiring at `expires`. */
  function AdmittedInWindow(steps: seq<Step>, key: string, limit: int, expires: int): nat {
    if steps == [] then 0
    else
      var n := |steps| - 1;
      AdmittedInWindow(steps[..n], key, limit, expires) +
      if Allowed(steps, n, key, limit) && LastWindow(steps, key) != None &&
        LastWindow(steps, key).value.expires == expires then 1 else 0
  }

  lemma {:induction false} WindowBoundHolds(steps: seq<Step>, key: string, limit: int, ttl: int, expires: int)
    requires Monotone(steps) && Fixed(steps, key, ttl) && ttl >= 0
    ensures var w := LastWindow(steps, key);
      var n := AdmittedInWindow(steps, key, limit, expires);
      && (w.Some? ==> w.value.count >= 1 && steps != [] && w.value.expires - ttl <= steps[|steps| - 1].at)
      && (w.None? || w.value.expires < expires ==> n == 0)
      && (w.Some? && w.value.expires == expires ==> n <= Least(w.value.count, Cap(limit)))
      && n <= Cap(limit)
  {
    if steps != [] {
      var n := |steps| - 1;
      WindowBoundHolds(steps[..n], key, limit, ttl, expires);
      WindowIsInTable(steps[..n], key, ttl, steps[n].at);
    }
  }

  /** At most the limit is allowed in each window. */
  lemma LimitPerWindow(steps: seq<Step>, key: string, limit: int, ttl: int, expires: int)
    requires Monotone(steps) && Fixed(steps, key, ttl) && ttl >= 0
    ensures AdmittedInWindow(steps, key, limit, expires) <= Cap(limit)
  {
    WindowBoundHolds(steps, key, limit, ttl, expires);
  }
}
