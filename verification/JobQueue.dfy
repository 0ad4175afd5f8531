/** The durable job queue: rows, event log and the operations of queue.py, each written as
    a function on the database value.  `complete` and `fail` read the row without a lock
    and then write under the fence, so each is two steps here.  The class Queue carries the
    same operations out in place and is proved against these functions. */
module JobQueue {
  import opened Basics

  type JobId = nat
  type RunId = nat
  type Time = int
  type Dict = map<string, string>

  datatype Status = Queued | Leased | Succeeded | Failed | Cancelled {
    predicate Terminal() { this in {Succeeded, Failed, Cancelled} }
  }

  datatype Row = Row(
    jobType: string, payload: Dict, key: string, priority: int, maxAttempts: int, createdAt: Time,
    status: Status, attempts: int, availableAt: Time,
    leaseOwner: Option<string>, leaseExpiresAt: Option<Time>, heartbeatAt: Option<Time>,
    runId: Option<RunId>, stage: Option<string>, checkpoint: Dict, progress: Dict,
    cancelRequested: bool, errorType: Option<string>, errorMessage: Option<string>,
    startedAt: Option<Time>, finishedAt: Option<Time>)

  datatype Happening =
    | Enqueued(jobType: string)
    | LeaseExpiredReclaimed(previousRun: Option<RunId>, attempt: int)
    | Claimed(attempt: int, handed: Dict)
    | CheckpointSaved(stage: string, saved: Dict)
    | JobSucceeded(result: Dict)
    | RetryScheduled(errorType: string, message: string)
    | JobFailed(errorType: string, message: string)
    | JobCancelled(actor: Option<string>)
    | CancelAsked(actor: Option<string>)

  datatype Event = Event(job: JobId, run: Option<RunId>, worker: Option<string>, what: Happening)

  datatype Db = Db(rows: map<JobId, Row>, log: seq<Event>)

  const RETRIES_EXHAUSTED := "retries_exhausted"
  const EXHAUSTED_MESSAGE := "attempt exceeds max_attempts"

  function Prefix(s: string, n: nat): string { if |s| <= n then s else s[..n] }

  // ------------------------------------------------------------------ enqueue

  function NewRow(jobType: string, payload: Dict, key: string, priority: int, maxAttempts: int, now: Time): Row {
    Row(jobType, payload, key, priority, maxAttempts, now, Queued, 0, now, None, None, None, None, None,
        map[], map[], false, None, None, None, None)
  }

  predicate HasKey(db: Db, key: string) { exists j :: j in db.rows && db.rows[j].key == key }

  /** Enqueue under the fresh id `id`: a second job with the same idempotency key is not created. */
  function EnqueueStep(db: Db, id: JobId, jobType: string, payload: Dict, key: string, priority: int,
                       maxAttempts: int, now: Time): Db
  {
    if HasKey(db, key) then db
    else Db(db.rows[id := NewRow(jobType, payload, key, priority, maxAttempts, now)],
            db.log + [Event(id, None, None, Enqueued(jobType))])
  }

  // ------------------------------------------------------------------ claim

  predicate Expired(row: Row, now: Time) {
    row.status == Leased && row.leaseExpiresAt.Some? && row.leaseExpiresAt.value < now
  }

  predicate Claimable(row: Row, now: Time) {
    (row.status == Queued && row.availableAt <= now) || Expired(row, now)
  }

  /** The claim order: higher priority first, then the older job. */
  predicate Before(a: Row, b: Row) {
    a.priority > b.priority || (a.priority == b.priority && a.createdAt <= b.createdAt)
  }

  /** `choice` is a row the claim query may return while the rows in `locked` are held by
      other transactions (SKIP LOCKED). */
  predicate IsChoice(db: Db, now: Time, locked: set<JobId>, choice: Option<JobId>) {
    match choice
    case None => forall j :: j in db.rows && j !in locked ==> !Claimable(db.rows[j], now)
    case Some(c) =>
      && c in db.rows && c !in locked && Claimable(db.rows[c], now)
      && (forall j :: j in db.rows && j !in locked && Claimable(db.rows[j], now) ==> Before(db.rows[c], db.rows[j]))
  }

  function TakeLease(row: Row, run: RunId, worker: string, leaseSeconds: int, now: Time): Row {
    row.(status := Leased, leaseOwner := Some(worker), leaseExpiresAt := Some(now + leaseSeconds),
         heartbeatAt := Some(now), attempts := row.attempts + 1, runId := Some(run),
         startedAt := if row.startedAt.Some? then row.startedAt else Some(now))
  }

  function ReclaimEvents(row: Row, job: JobId, run: RunId, worker: string): seq<Event> {
    if row.status == Leased
    then [Event(job, Some(run), Some(worker), LeaseExpiredReclaimed(row.runId, row.attempts + 1))]
    else []
  }

  /** What one claim does to the chosen row: a lease, or a typed failure once the attempts are used up. */
  function ClaimStep(db: Db, job: JobId, run: RunId, worker: string, leaseSeconds: int, now: Time): Db
    requires job in db.rows
  {
    var row := db.rows[job];
    var leased := TakeLease(row, run, worker, leaseSeconds, now);
    if leased.attempts > leased.maxAttempts then
      Db(db.rows[job := leased.(status := Failed, errorType := Some(RETRIES_EXHAUSTED),
                                errorMessage := Some(EXHAUSTED_MESSAGE), finishedAt := Some(now),
                                leaseOwner := None, leaseExpiresAt := None)],
         db.log + ReclaimEvents(row, job, run, worker)
         + [Event(job, Some(run), Some(worker), JobFailed(RETRIES_EXHAUSTED, EXHAUSTED_MESSAGE))])
    else
      Db(db.rows[job := leased],
         db.log + ReclaimEvents(row, job, run, worker)
         + [Event(job, Some(run), Some(worker), Claimed(leased.attempts, row.checkpoint))])
  }

  predicate HandsOut(db: Db, job: JobId) {
    job in db.rows && db.rows[job].attempts + 1 <= db.rows[job].maxAttempts
  }

  // ------------------------------------------------------------------ fenced writes

  /** The fence: the row is leased and this run holds it.  The expiry time is not looked at. */
  predicate Fence(db: Db, job: JobId, run: RunId) {
    job in db.rows && db.rows[job].runId == Some(run) && db.rows[job].status == Leased
  }

  /** A fenced update with the events that follow it; a lost fence changes nothing. */
  function Fenced(db: Db, job: JobId, run: RunId, updated: Row, events: seq<Event>): Db {
    if Fence(db, job, run) then Db(db.rows[job := updated], db.log + events) else db
  }

  function HeartbeatRow(row: Row, leaseSeconds: int, now: Time): Row {
    row.(heartbeatAt := Some(now), leaseExpiresAt := Some(now + leaseSeconds))
  }

  function CheckpointRow(row: Row, stage: string, checkpoint: Dict, progress: Dict, now: Time): Row {
    row.(stage := Some(stage), checkpoint := checkpoint, progress := progress, heartbeatAt := Some(now))
  }

  function Finished(row: Row, status: Status, now: Time): Row {
    row.(status := status, finishedAt := Some(now), leaseOwner := None, leaseExpiresAt := None)
  }

  function CompletedRow(row: Row, result: Dict, readProgress: Dict, now: Time): Row {
    Finished(row, Succeeded, now).(progress := readProgress + result)
  }

  predicate Requeues(retry: bool, readAttempts: int, readMax: int) { retry && !(readAttempts >= readMax) }

  function FailedRow(row: Row, errorType: string, message: string, retry: bool, delay: int,
                     readAttempts: int, readMax: int, now: Time): Row
  {
    if Requeues(retry, readAttempts, readMax) then
      row.(status := Queued, leaseOwner := None, leaseExpiresAt := None, availableAt := now + delay,
           errorType := Some(errorType), errorMessage := Some(Prefix(message, 4000)))
    else
      Finished(row, Failed, now).(
        errorType := Some(if retry && readAttempts >= readMax then RETRIES_EXHAUSTED else errorType),
        errorMessage := Some(Prefix(message, 4000)))
  }

  function FailedEvent(errorType: string, message: string, retry: bool, readAttempts: int, readMax: int): Happening {
    if Requeues(retry, readAttempts, readMax) then RetryScheduled(errorType, Prefix(message, 500))
    else JobFailed(errorType, Prefix(message, 500))
  }

  function HeartbeatStep(db: Db, job: JobId, run: RunId, leaseSeconds: int, now: Time): Db {
    if !Fence(db, job, run) then db else Fenced(db, job, run, HeartbeatRow(db.rows[job], leaseSeconds, now), [])
  }

  function CheckpointStep(db: Db, job: JobId, run: RunId, worker: string, stage: string, checkpoint: Dict,
                          progress: Dict, now: Time): Db
  {
    if !Fence(db, job, run) then db
    else Fenced(db, job, run, CheckpointRow(db.rows[job], stage, checkpoint, progress, now),
           [Event(job, Some(run), Some(worker), CheckpointSaved(stage, checkpoint))])
  }

  /** The fenced half of `complete`, with the progress that its unlocked half read. */
  function CompleteWrite(db: Db, job: JobId, run: RunId, worker: string, result: Dict, readProgress: Dict,
        now: Time): Db
    requires job in db.rows
  {
    Fenced(db, job, run, CompletedRow(db.rows[job], result, readProgress, now),
           [Event(job, Some(run), Some(worker), JobSucceeded(result))])
  }

  /** The fenced half of `fail`, with the two counters that its unlocked half read. */
  function FailWrite(db: Db, job: JobId, run: RunId, worker: string, errorType: string, message: string, retry: bool,
                     delay: int, readAttempts: int, readMax: int, now: Time): Db
    requires job in db.rows
  {
    Fenced(db, job, run, FailedRow(db.rows[job], errorType, message, retry, delay, readAttempts, readMax, now),
           [Event(job, Some(run), Some(worker), FailedEvent(errorType, message, retry, readAttempts, readMax))])
  }

  function WorkerCancelStep(db: Db, job: JobId, run: RunId, worker: string, now: Time): Db {
    if !Fence(db, job, run) then db
    else Fenced(db, job, run, Finished(db.rows[job], Cancelled, now),
           [Event(job, Some(run), Some(worker), JobCancelled(None))])
  }

  // ------------------------------------------------------------------ request_cancel (no fence, one step)

  function RequestCancelStep(db: Db, job: JobId, actor: string, now: Time): Db
    requires job in db.rows
  {
    var row := db.rows[job];
    match row.status
    case Queued =>
      Db(db.rows[job := row.(status := Cancelled, finishedAt := Some(now))],
         db.log + [Event(job, None, None, JobCancelled(Some(actor)))])
    case Leased =>
      Db(db.rows[job := row.(cancelRequested := true)],
         db.log + [Event(job, row.runId, None, CancelAsked(Some(actor)))])
    case _ => db
  }

  datatype CancelAnswer = CancelledNow | WillCancel | NotCancellable

  // ------------------------------------------------------------------ the queue, updated in place

  datatype Outcome<T> = Done(value: T) | LeaseLost

  class Queue {
    var rows: map<JobId, Row>
    var log: seq<Event>

    function View(): Db reads this { Db(rows, log) }

    constructor ()
      ensures View() == Db(map[], [])
    {
      rows, log := map[], [];
    }

    method Enqueue(id: JobId, jobType: string, payload: Dict, key: string, priority: int, maxAttempts: int, now: Time)
      returns (job: JobId, created: bool)
      requires id !in rows
      modifies this
      ensures View() == EnqueueStep(old(View()), id, jobType, payload, key, priority, maxAttempts, now)
      ensures created <==> !HasKey(old(View()), key)
      ensures job in rows && rows[job].key == key
      ensures created ==> job == id
      ensures !created ==> job in old(rows)
    {
      if j :| j in rows && rows[j].key == key {
        return j, false;
      }
      rows := rows[id := NewRow(jobType, payload, key, priority, maxAttempts, now)];
      log := log + [Event(id, None, None, Enqueued(jobType))];
      return id, true;
    }

    /** ORDER BY priority DESC, created_at ASC LIMIT 1 over the claimable rows nobody holds. */
    method Choose(now: Time, locked: set<JobId>) returns (choice: Option<JobId>)
      ensures IsChoice(View(), now, locked, choice)
    {
      choice := None;
      var todo := rows.Keys - locked;
      while todo != {}
        invariant todo <= rows.Keys - locked
        invariant choice.None? ==> forall j :: j in rows && j !in locked && j !in todo ==> !Claimable(rows[j], now)
        invariant choice.Some? ==>
          && choice.value in rows && choice.value !in locked && Claimable(rows[choice.value], now)
          && (forall j :: j in rows && j !in locked && j !in todo && Claimable(rows[j], now)
                          ==> Before(rows[choice.value], rows[j]))
        decreases todo
      {
        var j :| j in todo;
        todo := todo - {j};
        if Claimable(rows[j], now) && (choice.None? || Before(rows[j], rows[choice.value])) {
          choice := Some(j);
        }
      }
    }

    method Claim(run: RunId, worker: string, leaseSeconds: int, now: Time, locked: set<JobId>)
      returns (handed: Option<Row>, ghost choice: Option<JobId>)
      modifies this
      ensures IsChoice(old(View()), now, locked, choice)
      ensures choice.None? ==> View() == old(View()) && handed.None?
      ensures choice.Some? ==>
        && View() == ClaimStep(old(View()), choice.value, run, worker, leaseSeconds, now)
        && (handed.Some? <==> HandsOut(old(View()), choice.value))
        && (handed.Some? ==> choice.value in rows && handed.value == rows[choice.value])
    {
      handed := None;
      var c := Choose(now, locked);
      choice := c;
      if c.None? { return; }
      var before := rows[c.value];
      var row := TakeLease(before, run, worker, leaseSeconds, now);
      if before.status == Leased {
        log := log + [Event(c.value, Some(run), Some(worker), LeaseExpiredReclaimed(before.runId, row.attempts))];
      }
      if row.attempts > row.maxAttempts {
        row := row.(status := Failed, errorType := Some(RETRIES_EXHAUSTED));
        row := row.(errorMessage := Some(EXHAUSTED_MESSAGE), finishedAt := Some(now));
        row := row.(leaseOwner := None, leaseExpiresAt := None);
        log := log + [Event(c.value, Some(run), Some(worker), JobFailed(RETRIES_EXHAUSTED, EXHAUSTED_MESSAGE))];
      } else {
        log := log + [Event(c.value, Some(run), Some(worker), Claimed(row.attempts, row.checkpoint))];
        handed := Some(row);
      }
      rows := rows[c.value := row];
    }

    method Heartbeat(job: JobId, run: RunId, leaseSeconds: int, now: Time) returns (cancel: Outcome<bool>)
      modifies this
      ensures View() == HeartbeatStep(old(View()), job, run, leaseSeconds, now)
      ensures cancel == if Fence(old(View()), job, run) then Done(old(rows)[job].cancelRequested) else LeaseLost
    {
      if !Fence(View(), job, run) { return LeaseLost; }
      rows := rows[job := rows[job].(heartbeatAt := Some(now), leaseExpiresAt := Some(now + leaseSeconds))];
      return Done(rows[job].cancelRequested);
    }

    method Checkpoint(job: JobId, run: RunId, worker: string, stage: string, checkpoint: Dict, progress: Dict,
          now: Time)
      returns (ok: Outcome<()>)
      modifies this
      ensures View() == CheckpointStep(old(View()), job, run, worker, stage, checkpoint, progress, now)
      ensures ok.Done? <==> Fence(old(View()), job, run)
    {
      if !Fence(View(), job, run) { return LeaseLost; }
      rows := rows[job := rows[job].(stage := Some(stage), checkpoint := checkpoint, progress := progress,
                                     heartbeatAt := Some(now))];
      log := log + [Event(job, Some(run), Some(worker), CheckpointSaved(stage, checkpoint))];
      return Done(());
    }

    method ReadProgress(job: JobId) returns (progress: Dict)
      requires job in rows
      ensures progress == rows[job].progress
    {
      return rows[job].progress;
    }

    method FinishComplete(job: JobId, run: RunId, worker: string, result: Dict, progress: Dict, now: Time)
      returns (ok: Outcome<()>)
      requires job in rows
      modifies this
      ensures View() == CompleteWrite(old(View()), job, run, worker, result, progress, now)
      ensures ok.Done? <==> Fence(old(View()), job, run)
    {
      if !Fence(View(), job, run) { return LeaseLost; }
      rows := rows[job := rows[job].(status := Succeeded, finishedAt := Some(now), leaseOwner := None,
                                     leaseExpiresAt := None, progress := progress + result)];
      log := log + [Event(job, Some(run), Some(worker), JobSucceeded(result))];
      return Done(());
    }

    method ReadAttempts(job: JobId) returns (attempts: int, maxAttempts: int)
      requires job in rows
      ensures attempts == rows[job].attempts && maxAttempts == rows[job].maxAttempts
    {
      return rows[job].attempts, rows[job].maxAttempts;
    }

    method FinishFail(job: JobId, run: RunId, worker: string, errorType: string, message: string, retry: bool,
                      delay: int, attempts: int, maxAttempts: int, now: Time) returns (ok: Outcome<()>)
      requires job in rows
      modifies this
      ensures View() == FailWrite(old(View()), job, run, worker, errorType, message, retry, delay, attempts,
        maxAttempts, now)
      ensures ok.Done? <==> Fence(old(View()), job, run)
    {
      if !Fence(View(), job, run) { return LeaseLost; }
      var exhausted := attempts >= maxAttempts;
      var row := rows[job].(leaseOwner := None, leaseExpiresAt := None, errorMessage := Some(Prefix(message, 4000)));
      var what: Happening;
      if retry && !exhausted {
        row := row.(status := Queued, availableAt := now + delay, errorType := Some(errorType));
        what := RetryScheduled(errorType, Prefix(message, 500));
      } else {
        row := row.(status := Failed, finishedAt := Some(now),
                    errorType := Some(if retry && exhausted then RETRIES_EXHAUSTED else errorType));
        what := JobFailed(errorType, Prefix(message, 500));
      }
      rows := rows[job := row];
      log := log + [Event(job, Some(run), Some(worker), what)];
      return Done(());
    }

    method CancelFromWorker(job: JobId, run: RunId, worker: string, now: Time) returns (ok: Outcome<()>)
      modifies this
      ensures View() == WorkerCancelStep(old(View()), job, run, worker, now)
      ensures ok.Done? <==> Fence(old(View()), job, run)
    {
      if !Fence(View(), job, run) { return LeaseLost; }
      rows := rows[job := rows[job].(status := Cancelled, finishedAt := Some(now), leaseOwner := None,
                                     leaseExpiresAt := None)];
      log := log + [Event(job, Some(run), Some(worker), JobCancelled(None))];
      return Done(());
    }

    method RequestCancel(job: JobId, actor: string, now: Time) returns (answer: CancelAnswer)
      requires job in rows
      modifies this
      ensures View() == RequestCancelStep(old(View()), job, actor, now)
      ensures answer == match old(rows[job].status)
                        case Queued => CancelledNow
                        case Leased => WillCancel
                        case _ => NotCancellable
    {
      var row := rows[job];
      if row.status == Queued {
        rows := rows[job := row.(status := Cancelled, finishedAt := Some(now))];
        log := log + [Event(job, None, None, JobCancelled(Some(actor)))];
        return CancelledNow;
      }
      if row.status == Leased {
        rows := rows[job := row.(cancelRequested := true)];
        log := log + [Event(job, row.runId, None, CancelAsked(Some(actor)))];
        return WillCancel;
      }
      return NotCancellable;
    }
  }
}
