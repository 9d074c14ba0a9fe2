/** The webhook inbox: a table of jobs, and the workers that claim, handle and mark them. */
module Inbox {
  import opened Base

  datatype Status = Pending | Processing | Done | DeadLetter

  datatype Row = Row(key: string, kind: string, status: Status, attempts: int, maxAttempts: int, nextAt: int)

  /** A row as the worker read it when claiming. */
  datatype Job = Job(id: nat, kind: string, attempts: int, maxAttempts: int)

  predicate Claimable(row: Row, now: int) {
    row.status == Pending && row.nextAt <= now
  }

  // ---- the statements as functions of the table; ids are positions ----

  function Enqueued(rows: seq<Row>, key: string, kind: string, maxAttempts: int, now: int): seq<Row> {
    if exists i | 0 <= i < |rows| :: rows[i].key == key then rows
    else rows + [Row(key, kind, Pending, 0, if maxAttempts < 1 then 15 else maxAttempts, now)]
  }

  function Claimed(rows: seq<Row>, ids: set<nat>): (r: seq<Row>)
    ensures |r| == |rows|
  {
    seq(|rows|, i requires 0 <= i < |rows| => if i in ids then rows[i].(status := Processing) else rows[i])
  }

  function Completed(rows: seq<Row>, id: nat): seq<Row>
    requires id < |rows|
  {
    rows[id := rows[id].(status := Done)]
  }

  function Retried(rows: seq<Row>, id: nat, attempts: int, nextAt: int): seq<Row>
    requires id < |rows|
  {
    rows[id := rows[id].(status := Pending, attempts := attempts, nextAt := nextAt)]
  }

  function Buried(rows: seq<Row>, id: nat): seq<Row>
    requires id < |rows|
  {
    rows[id := rows[id].(status := DeadLetter)]
  }

  function Replayed(rows: seq<Row>, id: nat, now: int): seq<Row>
    requires id < |rows|
  {
    if rows[id].status == DeadLetter then rows[id := rows[id].(status := Pending, nextAt := now)] else rows
  }

  function JobOf(rows: seq<Row>, id: nat): Job
    requires id < |rows|
  {
    Job(id, rows[id].kind, rows[id].attempts, rows[id].maxAttempts)
  }

  function IdsOf(jobs: seq<Job>): set<nat> {
    set i | 0 <= i < |jobs| :: jobs[i].id
  }

  /** Each job is a row as it was read, and no row is read twice. */
  predicate ReadOnce(rows: seq<Row>, jobs: seq<Job>) {
    && (forall i, j | 0 <= i < j < |jobs| :: jobs[i].id != jobs[j].id)
    && forall i | 0 <= i < |jobs| :: jobs[i].id < |rows| && jobs[i] == JobOf(rows, jobs[i].id)
  }

  lemma JobsGrow(rows: seq<Row>, jobs: seq<Job>, id: nat)
    requires ReadOnce(rows, jobs) && id < |rows| && id !in IdsOf(jobs)
    ensures ReadOnce(rows, jobs + [JobOf(rows, id)]) && IdsOf(jobs + [JobOf(rows, id)]) == IdsOf(jobs) + {id}
  {
    var more := jobs + [JobOf(rows, id)];
    assert more[|jobs|].id == id;
    forall i | 0 <= i < |jobs|
      ensures more[i] == jobs[i] && jobs[i].id in IdsOf(jobs) && jobs[i].id in IdsOf(more)
    {
      assert more[i].id == jobs[i].id;
    }
  }

  /** What one claim takes: due rows that no other claim holds, at most `limit`, those with the smallest ids. */
  predicate IsBatch(rows: seq<Row>, locked: set<nat>, now: int, limit: nat, ids: set<nat>) {
    BatchUpTo(rows, locked, now, limit, ids, |rows|)
  }

  /** The same among the first `n` rows. */
  predicate BatchUpTo(rows: seq<Row>, locked: set<nat>, now: int, limit: nat, ids: set<nat>, n: nat)
    requires n <= |rows|
  {
    && |ids| <= limit
    && (forall i | i in ids :: i < n && Claimable(rows[i], now) && i !in locked)
    && (forall o: nat | o < n && Claimable(rows[o], now) && o !in locked && o !in ids ::
          |ids| == limit && forall i | i in ids :: i < o)
  }

  /**
    What a claim means for the table: each job's row was pending, due and free and is in processing
    now; every other row is as it was, and a due and free one is left only behind a full batch of
    smaller ids.
   */
  lemma ClaimMeans(rows: seq<Row>, locked: set<nat>, now: int, limit: nat, jobs: seq<Job>)
    requires IsBatch(rows, locked, now, limit, IdsOf(jobs)) && ReadOnce(rows, jobs)
    ensures forall i | 0 <= i < |jobs| ::
      && rows[jobs[i].id].status == Pending && rows[jobs[i].id].nextAt <= now && jobs[i].id !in locked
      && Claimed(rows, IdsOf(jobs))[jobs[i].id] == rows[jobs[i].id].(status := Processing)
    ensures forall o: nat | o < |rows| && (forall i | 0 <= i < |jobs| :: jobs[i].id != o) ::
      && Claimed(rows, IdsOf(jobs))[o] == rows[o]
      && (rows[o].status == Pending && rows[o].nextAt <= now && o !in locked ==>
            |jobs| == limit && forall i | 0 <= i < |jobs| :: jobs[i].id < o)
  {
    JobsAreCounted(rows, jobs);
    forall i | 0 <= i < |jobs|
      ensures jobs[i].id in IdsOf(jobs)
    {
    }
  }

  lemma {:induction false} JobsAreCounted(rows: seq<Row>, jobs: seq<Job>)
    requires ReadOnce(rows, jobs)
    ensures |IdsOf(jobs)| == |jobs|
  {
    if jobs != [] {
      var front, job := jobs[..|jobs| - 1], jobs[|jobs| - 1];
      JobsAreCounted(rows, front);
      JobsGrow(rows, front, job.id);
      assert front + [JobOf(rows, job.id)] == jobs;
    }
  }

  class WebhookInboxRepo {
    var rows: seq<Row>

    method Enqueue(kind: string, key: string, maxAttempts: int, now: int) returns (inserted: bool)
      modifies this
      ensures rows == Enqueued(old(rows), key, kind, maxAttempts, now)
      ensures inserted <==> forall i | 0 <= i < |old(rows)| :: old(rows)[i].key != key
      ensures rows == if !inserted then old(rows)
                      else old(rows) + [Row(key, kind, Pending, 0, if maxAttempts >= 1 then maxAttempts else 15, now)]
    {
      inserted := !(exists i | 0 <= i < |rows| :: rows[i].key == key);
      if inserted {
        rows := rows + [Row(key, kind, Pending, 0, if maxAttempts < 1 then 15 else maxAttempts, now)];
      }
    }

    /**
      `locked` are the rows another claim's open transaction holds, which SKIP LOCKED passes over.
      The update hands its rows back in no particular order.
     */
    method ClaimBatch(limit: int, locked: set<nat>, now: int) returns (jobs: seq<Job>)
      modifies this
      ensures IsBatch(old(rows), locked, now, if limit < 1 then 10 else limit, IdsOf(jobs))
      ensures ReadOnce(old(rows), jobs)
      ensures rows == Claimed(old(rows), IdsOf(jobs))
    {
      var cap: nat := if limit < 1 then 10 else limit;
      var picked: set<nat> := {};
      for n := 0 to |rows|
        invariant rows == old(rows) && BatchUpTo(rows, locked, now, cap, picked, n)
      {
        if |picked| < cap && Claimable(rows[n], now) && n !in locked {
          picked := picked + {n};
        }
      }
      jobs := ReturnedRows(picked);
      rows := Claimed(rows, picked);
    }

    method ReturnedRows(picked: set<nat>) returns (jobs: seq<Job>)
      requires forall i | i in picked :: i < |rows|
      ensures IdsOf(jobs) == picked && ReadOnce(rows, jobs)
    {
      jobs := [];
      var todo := picked;
      while todo != {}
        invariant todo <= picked && IdsOf(jobs) == picked - todo && ReadOnce(rows, jobs)
        decreases |todo|
      {
        var id := PickKey(todo);
        JobsGrow(rows, jobs, id);
        jobs := jobs + [JobOf(rows, id)];
        todo := todo - {id};
      }
    }

    method MarkCompleted(id: nat)
      requires id < |rows|
      modifies this
      ensures rows == Completed(old(rows), id)
    {
      rows := rows[id := rows[id].(status := Done)];
    }

    method MarkRetry(id: nat, attempts: int, nextAt: int)
      requires id < |rows|
      modifies this
      ensures rows == Retried(old(rows), id, attempts, nextAt)
    {
      rows := rows[id := rows[id].(status := Pending, attempts := attempts, nextAt := nextAt)];
    }

    method MarkDeadLetter(id: nat)
      requires id < |rows|
      modifies this
      ensures rows == Buried(old(rows), id)
    {
      rows := rows[id := rows[id].(status := DeadLetter)];
    }

    method Replay(id: nat, now: int) returns (ok: bool)
      modifies this
      ensures ok <==> id < |old(rows)| && old(rows)[id].status == DeadLetter
      ensures rows == if ok then Replayed(old(rows), id, now) else old(rows)
      ensures ok ==> rows == old(rows)[id := old(rows)[id].(status := Pending, nextAt := now)]
    {
      ok := id < |rows| && rows[id].status == DeadLetter;
      if ok {
        rows := rows[id := rows[id].(status := Pending, nextAt := now)];
      }
    }
  }

  predicate KnownKind(kind: string) {
    kind == "entity" || kind == "stock"
  }

  /** What handling a job does to its row: done, one more attempt, or the dead-letter status. */
  function Settled(rows: seq<Row>, job: Job, handled: bool, nextAt: int): seq<Row>
    requires job.id < |rows|
  {
    if handled && KnownKind(job.kind) then Completed(rows, job.id)
    else if job.attempts + 1 >= job.maxAttempts then Buried(rows, job.id)
    else Retried(rows, job.id, job.attempts + 1, nextAt)
  }

  class WebhookInboxWorker {
    const inbox: WebhookInboxRepo

    constructor (inbox: WebhookInboxRepo)
      ensures this.inbox == inbox
    {
      this.inbox := inbox;
    }

    /** `handled` is the processor's verdict, `marked` whether the marking statement reached the database. */
    method HandleOne(job: Job, handled: bool, marked: bool, nextAt: int)
      requires job.id < |inbox.rows|
      modifies inbox
      ensures inbox.rows == if marked then Settled(old(inbox.rows), job, handled, nextAt) else old(inbox.rows)
      ensures !marked ==> inbox.rows == old(inbox.rows)
      ensures marked ==>
        var ok := handled && (job.kind == "entity" || job.kind == "stock");
        inbox.rows == old(inbox.rows)[job.id :=
          if ok then old(inbox.rows)[job.id].(status := Done)
          else if job.attempts + 1 >= job.maxAttempts then old(inbox.rows)[job.id].(status := DeadLetter)
          else old(inbox.rows)[job.id].(status := Pending, attempts := job.attempts + 1, nextAt := nextAt)]
    {
      var ok := if job.kind == "entity" || job.kind == "stock" then handled else false;
      var nextAttempts := job.attempts + 1;
      if ok {
        if marked {
          inbox.MarkCompleted(job.id);
        }
        return;
      }
      if nextAttempts >= job.maxAttempts {
        if marked {
          inbox.MarkDeadLetter(job.id);
        }
        return;
      }
      if marked {
        inbox.MarkRetry(job.id, nextAttempts, nextAt);
      }
    }
  }
}
