/** Every interleaving of the queue operations: a transition system over the database, the
    clock and what each run remembers, and what all of its executions keep.

    Assumptions: run ids are fresh, there is one clock, max_attempts is at least 1, and one
    run does not write a checkpoint between the two halves of its own `complete` or `fail`
    (its heartbeats may fall anywhere). */
module JobQueueRuns {
  import opened Basics
  import opened JobQueue

  /** What a run has read without a lock and not yet used. */
  datatype Reading =
    | NoRead
    | ProgressRead(job: JobId, progress: Dict)
    | AttemptsRead(job: JobId, attempts: int, maxAttempts: int)

  /** A run's own memory: its job, the checkpoint it was handed or last wrote, its pending read. */
  datatype Memory = Memory(job: JobId, known: Dict, reading: Reading)

  datatype System = System(now: Time, db: Db, used: set<RunId>, runs: map<RunId, Memory>)

  datatype Action =
    | Tick(seconds: nat)
    | DoEnqueue(id: JobId, jobType: string, payload: Dict, key: string, priority: int, maxAttempts: int)
    | DoClaim(locked: set<JobId>, job: JobId, run: RunId, worker: string, leaseSeconds: int)
    | DoHeartbeat(job: JobId, run: RunId, leaseSeconds: int)
    | DoCheckpoint(job: JobId, run: RunId, worker: string, stage: string, checkpoint: Dict, progress: Dict)
    | StartComplete(job: JobId, run: RunId)
    | EndComplete(job: JobId, run: RunId, worker: string, result: Dict)
    | StartFail(job: JobId, run: RunId)
    | EndFail(job: JobId, run: RunId, worker: string, errorType: string, message: string, retry: bool, delay: int)
    | DoWorkerCancel(job: JobId, run: RunId, worker: string)
    | DoRequestCancel(job: JobId, actor: string)

  const INIT := System(0, Db(map[], []), {}, map[])

  /** The actions that carry a run id and write the row under the fence. */
  predicate FencedWrite(a: Action) {
    a.DoHeartbeat? || a.DoCheckpoint? || a.EndComplete? || a.EndFail? || a.DoWorkerCancel?
  }

  predicate ByRun(a: Action) { FencedWrite(a) || a.StartComplete? || a.StartFail? }

  ghost predicate Enabled(s: System, a: Action) {
    && (a.DoEnqueue? ==> a.id !in s.db.rows && a.maxAttempts >= 1)
    && (a.DoClaim? ==> IsChoice(s.db, s.now, a.locked, Some(a.job)) && a.run !in s.used)
    && (ByRun(a) ==> a.run in s.runs && a.job in s.db.rows)
    && (a.DoCheckpoint? || a.StartComplete? || a.StartFail? || a.DoWorkerCancel? ==> s.runs[a.run].reading == NoRead)
    && (a.EndComplete? ==> s.runs[a.run].reading.ProgressRead? && s.runs[a.run].reading.job == a.job)
    && (a.EndFail? ==> s.runs[a.run].reading.AttemptsRead? && s.runs[a.run].reading.job == a.job)
    && (a.DoRequestCancel? ==> a.job in s.db.rows)
  }

  ghost function NextDb(s: System, a: Action): Db
    requires Enabled(s, a)
  {
    match a
    case Tick(_) => s.db
    case DoEnqueue(id, jobType, payload, key, priority, max) =>
      EnqueueStep(s.db, id, jobType, payload, key, priority, max, s.now)
    case DoClaim(_, job, run, worker, lease) => ClaimStep(s.db, job, run, worker, lease, s.now)
    case DoHeartbeat(job, run, lease) => HeartbeatStep(s.db, job, run, lease, s.now)
    case DoCheckpoint(job, run, worker, stage, cp, progress) =>
      CheckpointStep(s.db, job, run, worker, stage, cp, progress, s.now)
    case StartComplete(_, _) => s.db
    case EndComplete(job, run, worker, result) =>
      CompleteWrite(s.db, job, run, worker, result, s.runs[run].reading.progress, s.now)
    case StartFail(_, _) => s.db
    case EndFail(job, run, worker, errorType, message, retry, delay) =>
      var r := s.runs[run].reading;
      FailWrite(s.db, job, run, worker, errorType, message, retry, delay, r.attempts, r.maxAttempts, s.now)
    case DoWorkerCancel(job, run, worker) => WorkerCancelStep(s.db, job, run, worker, s.now)
    case DoRequestCancel(job, actor) => RequestCancelStep(s.db, job, actor, s.now)
  }

  ghost function NextRuns(s: System, a: Action): map<RunId, Memory>
    requires Enabled(s, a)
  {
    match a
    case DoClaim(_, job, run, _, _) =>
      if HandsOut(s.db, job) then s.runs[run := Memory(job, s.db.rows[job].checkpoint, NoRead)] else s.runs
    case DoCheckpoint(job, run, _, _, cp, _) =>
      if Fence(s.db, job, run) then s.runs[run := s.runs[run].(known := cp)] else s.runs
    case StartComplete(job, run) =>
      s.runs[run := s.runs[run].(reading := ProgressRead(job, s.db.rows[job].progress))]
    case StartFail(job, run) =>
      s.runs[run := s.runs[run].(reading := AttemptsRead(job, s.db.rows[job].attempts, s.db.rows[job].maxAttempts))]
    case EndComplete(_, run, _, _) => s.runs[run := s.runs[run].(reading := NoRead)]
    case EndFail(_, run, _, _, _, _, _) => s.runs[run := s.runs[run].(reading := NoRead)]
    case _ => s.runs
  }

  ghost function Next(s: System, a: Action): System
    requires Enabled(s, a)
  {
    System(s.now + (if a.Tick? then a.seconds else 0), NextDb(s, a),
           s.used + (if a.DoClaim? then {a.run} else {}), NextRuns(s, a))
  }

  /** An execution: every action is enabled where it happens. */
  ghost predicate Execution(s: System, actions: seq<Action>)
    decreases |actions|
  {
    actions == [] || (Enabled(s, actions[0]) && Execution(Next(s, actions[0]), actions[1..]))
  }

  ghost function After(s: System, actions: seq<Action>): System
    requires Execution(s, actions)
    decreases |actions|
  {
    if actions == [] then s else After(Next(s, actions[0]), actions[1..])
  }

  // ------------------------------------------------------------------ reading the event log back

  ghost function History(log: seq<Event>, job: JobId): seq<Event> {
    if log == [] then []
    else
      var front := History(log[..|log| - 1], job);
      if log[|log| - 1].job == job then front + [log[|log| - 1]] else front
  }

  /** The status a log ends in. */
  ghost function Replay(h: seq<Event>): Option<Status> {
    if h == [] then None
    else match h[|h| - 1].what
      case Enqueued(_) => Some(Queued)
      case Claimed(_, _) => Some(Leased)
      case RetryScheduled(_, _) => Some(Queued)
      case JobSucceeded(_) => Some(Succeeded)
      case JobFailed(_, _) => Some(Failed)
      case JobCancelled(_) => Some(Cancelled)
      case _ => Replay(h[..|h| - 1])
  }

  ghost function RunsIn(h: seq<Event>): set<RunId> {
    if h == [] then {}
    else RunsIn(h[..|h| - 1]) + (if h[|h| - 1].run.Some? then {h[|h| - 1].run.value} else {})
  }

  /** The run of the last claim or reclaim. */
  ghost function LatestClaim(h: seq<Event>): Option<RunId> {
    if h == [] then None
    else if h[|h| - 1].what.Claimed? || h[|h| - 1].what.LeaseExpiredReclaimed? then h[|h| - 1].run
    else LatestClaim(h[..|h| - 1])
  }

  ghost function LastSaved(h: seq<Event>): Dict {
    if h == [] then map[]
    else if h[|h| - 1].what.CheckpointSaved? then h[|h| - 1].what.saved
    else LastSaved(h[..|h| - 1])
  }

  ghost function RunsHandedOut(h: seq<Event>): nat {
    if h == [] then 0 else RunsHandedOut(h[..|h| - 1]) + (if h[|h| - 1].what.Claimed? then 1 else 0)
  }

  /** Every claim event carries the checkpoint saved last before it and the number of runs so far. */
  ghost predicate ClaimsTrue(h: seq<Event>) {
    h == [] ||
    (var e := h[|h| - 1]; var front := h[..|h| - 1];
     && ClaimsTrue(front)
     && (e.what.Claimed? ==> e.what.handed == LastSaved(front) && e.what.attempt == |RunsIn(h)|))
  }

  lemma HistoryAppend(log: seq<Event>, e: Event, job: JobId)
    ensures History(log + [e], job) == if e.job == job then History(log, job) + [e] else History(log, job)
  {
    assert (log + [e])[..|log|] == log;
  }

  lemma Appended(h: seq<Event>, e: Event)
    ensures Replay(h + [e]) == (match e.what
              case Enqueued(_) => Some(Queued)
              case Claimed(_, _) => Some(Leased)
              case RetryScheduled(_, _) => Some(Queued)
              case JobSucceeded(_) => Some(Succeeded)
              case JobFailed(_, _) => Some(Failed)
              case JobCancelled(_) => Some(Cancelled)
              case _ => Replay(h))
    ensures RunsIn(h + [e]) == RunsIn(h) + (if e.run.Some? then {e.run.value} else {})
    ensures LatestClaim(h + [e]) == if e.what.Claimed? || e.what.LeaseExpiredReclaimed? then e.run else LatestClaim(h)
    ensures LastSaved(h + [e]) == if e.what.CheckpointSaved? then e.what.saved else LastSaved(h)
    ensures RunsHandedOut(h + [e]) == RunsHandedOut(h) + (if e.what.Claimed? then 1 else 0)
    ensures ClaimsTrue(h + [e]) <==>
      ClaimsTrue(h) && (e.what.Claimed? ==> e.what.handed == LastSaved(h) && e.what.attempt == |RunsIn(h + [e])|)
  {
    assert (h + [e])[..|h|] == h;
  }

  // ------------------------------------------------------------------ the invariant

  ghost predicate RowInv(row: Row, h: seq<Event>, used: set<RunId>) {
    && row.maxAttempts >= 1
    && Replay(h) == Some(row.status)
    && RunsIn(h) <= used && row.attempts == |RunsIn(h)|
    && LatestClaim(h) == row.runId && (row.runId.Some? ==> row.runId.value in RunsIn(h))
    && LastSaved(h) == row.checkpoint && ClaimsTrue(h)
    && (row.leaseOwner.Some? <==> row.status == Leased) && (row.leaseExpiresAt.Some? <==> row.status == Leased)
    && (row.finishedAt.Some? <==> row.status.Terminal())
    && (row.startedAt.Some? <==> row.attempts > 0) && (row.runId.Some? <==> row.attempts > 0)
    && (row.status == Queued ==> row.attempts < row.maxAttempts)
    && (row.status == Leased ==> 1 <= row.attempts <= row.maxAttempts)
    && RunsHandedOut(h) == (if row.attempts <= row.maxAttempts then row.attempts else row.maxAttempts)
    && (row.attempts > row.maxAttempts ==>
          row.attempts == row.maxAttempts + 1 && row.status == Failed && row.errorType == Some(RETRIES_EXHAUSTED))
  }

  ghost predicate KeysUnique(rows: map<JobId, Row>) {
    forall i, j :: i in rows && j in rows && rows[i].key == rows[j].key ==> i == j
  }

  ghost predicate RowsInv(db: Db, used: set<RunId>) {
    && (forall j {:trigger db.rows[j]} :: j in db.rows ==> RowInv(db.rows[j], History(db.log, j), used))
    && (forall j {:trigger History(db.log, j)} :: j !in db.rows ==> History(db.log, j) == [])
  }

  ghost predicate DbInv(db: Db, used: set<RunId>) { RowsInv(db, used) && KeysUnique(db.rows) }

  /** What a run remembers is true of the row for as long as the run holds it. */
  ghost predicate MemoryInv(db: Db, run: RunId, m: Memory) {
    && (forall j :: j in db.rows && db.rows[j].runId == Some(run) ==> j == m.job && m.known == db.rows[j].checkpoint)
    && (m.reading.ProgressRead? && Fence(db, m.reading.job, run) ==>
          m.reading.progress == db.rows[m.reading.job].progress)
    && (m.reading.AttemptsRead? && Fence(db, m.reading.job, run) ==>
          m.reading.attempts == db.rows[m.reading.job].attempts
          && m.reading.maxAttempts == db.rows[m.reading.job].maxAttempts)
  }

  ghost predicate Inv(s: System) {
    && DbInv(s.db, s.used)
    && s.runs.Keys <= s.used
    && (forall r :: r in s.runs ==> MemoryInv(s.db, r, s.runs[r]))
  }

  // ------------------------------------------------------------------ one step on one row

  /** An event that is neither a claim nor a reclaim and names no new run. */
  lemma RowInvQuiet(row: Row, row': Row, h: seq<Event>, used: set<RunId>, e: Event)
    requires RowInv(row, h, used)
    requires e.run.Some? ==> e.run == row.runId
    requires !e.what.Claimed? && !e.what.LeaseExpiredReclaimed?
    requires row'.attempts == row.attempts && row'.runId == row.runId && row'.maxAttempts == row.maxAttempts
    requires row'.startedAt == row.startedAt
    requires row.attempts <= row.maxAttempts
    requires row'.checkpoint == if e.what.CheckpointSaved? then e.what.saved else row.checkpoint
    requires Some(row'.status) == Replay(h + [e])
    requires row'.status == Leased ==> row.status == Leased
    requires row'.status == Queued ==> row.attempts < row.maxAttempts
    requires (row'.leaseOwner.Some? <==> row'.status == Leased)
      && (row'.leaseExpiresAt.Some? <==> row'.status == Leased)
    requires row'.finishedAt.Some? <==> row'.status.Terminal()
    ensures RowInv(row', h + [e], used)
  {
    Appended(h, e);
    assert RunsIn(h + [e]) == RunsIn(h);
  }

  /** The row a claim writes. */
  function ClaimedRow(row: Row, run: RunId, worker: string, lease: int, now: Time): Row {
    var leased := TakeLease(row, run, worker, lease, now);
    if leased.attempts > leased.maxAttempts
    then Finished(leased, Failed, now).(errorType := Some(RETRIES_EXHAUSTED), errorMessage := Some(EXHAUSTED_MESSAGE))
    else leased
  }

  function ClaimEvent(row: Row, job: JobId, run: RunId, worker: string): Event {
    Event(job, Some(run), Some(worker),
          if row.attempts + 1 > row.maxAttempts then JobFailed(RETRIES_EXHAUSTED, EXHAUSTED_MESSAGE)
          else Claimed(row.attempts + 1, row.checkpoint))
  }

  lemma ClaimShape(db: Db, job: JobId, run: RunId, worker: string, lease: int, now: Time)
    requires job in db.rows
    ensures var row := db.rows[job];
            ClaimStep(db, job, run, worker, lease, now) ==
            Db(db.rows[job := ClaimedRow(row, run, worker, lease, now)],
               db.log + ReclaimEvents(row, job, run, worker) + [ClaimEvent(row, job, run, worker)])
  {
  }

  /** The claim event after a history that already names the run, or does not yet. */
  lemma RowInvClaimed(row: Row, h: seq<Event>, used: set<RunId>, h1: seq<Event>, job: JobId, run: RunId, worker: string,
                      lease: int, now: Time)
    requires RowInv(row, h, used) && run !in used
    requires (row.status == Queued && h1 == h)
          || (row.status == Leased && LatestClaim(h1) == Some(run) && RunsIn(h1) == RunsIn(h) + {run}
              && LastSaved(h1) == LastSaved(h) && ClaimsTrue(h1) && RunsHandedOut(h1) == RunsHandedOut(h))
    ensures RowInv(ClaimedRow(row, run, worker, lease, now), h1 + [ClaimEvent(row, job, run, worker)], used + {run})
  {
    Appended(h1, ClaimEvent(row, job, run, worker));
    assert RunsIn(h1 + [ClaimEvent(row, job, run, worker)]) == RunsIn(h) + {run};
  }

  lemma RowInvClaim(row: Row, h: seq<Event>, used: set<RunId>, job: JobId, run: RunId, worker: string, lease: int,
        now: Time)
    requires RowInv(row, h, used) && run !in used && (row.status == Queued || row.status == Leased)
    ensures RowInv(ClaimedRow(row, run, worker, lease, now),
                   h + ReclaimEvents(row, job, run, worker) + [ClaimEvent(row, job, run, worker)], used + {run})
  {
    if row.status == Leased {
      Appended(h, ReclaimEvents(row, job, run, worker)[0]);
    } else {
      assert h + [] == h;
    }
    RowInvClaimed(row, h, used, h + ReclaimEvents(row, job, run, worker), job, run, worker, lease, now);
  }

  // ------------------------------------------------------------------ one step on the whole database

  lemma KeysUniqueUpdate(rows: map<JobId, Row>, job: JobId, row': Row)
    requires KeysUnique(rows) && job in rows && row'.key == rows[job].key
    ensures KeysUnique(rows[job := row'])
  {
    var rows' := rows[job := row'];
    forall i, j | i in rows' && j in rows' && rows'[i].key == rows'[j].key ensures i == j {
      assert rows'[i].key == rows[i].key && rows'[j].key == rows[j].key;
    }
  }

  /** A step that touches one job, whose history grows by `es`. */
  lemma RowsInvWrite(db: Db, db': Db, job: JobId, row': Row, used: set<RunId>, used': set<RunId>)
    requires RowsInv(db, used) && used <= used' && job in db.rows && db'.rows == db.rows[job := row']
    requires RowInv(row', History(db'.log, job), used')
    requires forall j :: j != job ==> History(db'.log, j) == History(db.log, j)
    ensures RowsInv(db', used')
  {
    forall j | j in db'.rows ensures RowInv(db'.rows[j], History(db'.log, j), used') {
      if j != job { assert RowInv(db.rows[j], History(db.log, j), used); }
    }
  }

  lemma DbInvWrite(db: Db, used: set<RunId>, job: JobId, row': Row, es: seq<Event>)
    requires DbInv(db, used) && job in db.rows && |es| <= 1 && forall e :: e in es ==> e.job == job
    requires row'.key == db.rows[job].key
    requires RowInv(row', History(db.log, job) + es, used)
    ensures DbInv(Db(db.rows[job := row'], db.log + es), used)
  {
    KeysUniqueUpdate(db.rows, job, row');
    var db' := Db(db.rows[job := row'], db.log + es);
    if es == [] {
      assert db'.log == db.log && History(db.log, job) + es == History(db.log, job);
    } else {
      assert es == [es[0]];
      forall j ensures History(db'.log, j) == if j == job then History(db.log, j) + es else History(db.log, j) {
        HistoryAppend(db.log, es[0], j);
      }
    }
    RowsInvWrite(db, db', job, row', used, used);
  }

  lemma NewRowInv(id: JobId, jobType: string, payload: Dict, key: string, priority: int, maxAttempts: int, now: Time,
                  used: set<RunId>)
    requires maxAttempts >= 1
    ensures RowInv(NewRow(jobType, payload, key, priority, maxAttempts, now),
                   [Event(id, None, None, Enqueued(jobType))], used)
  {
    var e := Event(id, None, None, Enqueued(jobType));
    Appended([], e);
    assert [] + [e] == [e];
  }

  lemma KeysUniqueInsert(rows: map<JobId, Row>, id: JobId, row: Row)
    requires KeysUnique(rows) && id !in rows && forall j :: j in rows ==> rows[j].key != row.key
    ensures KeysUnique(rows[id := row])
  {
  }

  lemma DbInvEnqueue(db: Db, used: set<RunId>, id: JobId, row: Row, e: Event)
    requires DbInv(db, used) && id !in db.rows && e.job == id && !HasKey(db, row.key)
    requires RowInv(row, [e], used)
    ensures DbInv(Db(db.rows[id := row], db.log + [e]), used)
  {
    KeysUniqueInsert(db.rows, id, row);
    RowsInvEnqueue(db, used, id, row, e);
  }

  lemma RowsInvEnqueue(db: Db, used: set<RunId>, id: JobId, row: Row, e: Event)
    requires RowsInv(db, used) && id !in db.rows && e.job == id && RowInv(row, [e], used)
    ensures RowsInv(Db(db.rows[id := row], db.log + [e]), used)
  {
    var db' := Db(db.rows[id := row], db.log + [e]);
    assert History(db.log, id) == [];
    forall j ensures History(db'.log, j) == if j == id then [e] else History(db.log, j) {
      HistoryAppend(db.log, e, j);
    }
    forall j | j in db'.rows ensures RowInv(db'.rows[j], History(db'.log, j), used) {
      if j != id { assert RowInv(db.rows[j], History(db.log, j), used); }
    }
  }

  lemma ClaimHistories(db: Db, job: JobId, run: RunId, worker: string, lease: int, now: Time, j: JobId)
    requires job in db.rows
    ensures var row := db.rows[job];
            History(ClaimStep(db, job, run, worker, lease, now).log, j) ==
            if j == job then History(db.log, j) + ReclaimEvents(row, job, run, worker)
              + [ClaimEvent(row, job, run, worker)]
            else History(db.log, j)
  {
    var row := db.rows[job];
    var re, last := ReclaimEvents(row, job, run, worker), ClaimEvent(row, job, run, worker);
    ClaimShape(db, job, run, worker, lease, now);
    HistoryAppend(db.log + re, last, j);
    if re == [] {
      assert db.log + re == db.log && History(db.log, j) + re == History(db.log, j);
    } else {
      assert re == [re[0]];
      HistoryAppend(db.log, re[0], j);
    }
  }

  lemma DbInvClaim(db: Db, used: set<RunId>, job: JobId, run: RunId, worker: string, lease: int, now: Time)
    requires DbInv(db, used) && job in db.rows && Claimable(db.rows[job], now) && run !in used
    ensures DbInv(ClaimStep(db, job, run, worker, lease, now), used + {run})
  {
    var db' := ClaimStep(db, job, run, worker, lease, now);
    ClaimShape(db, job, run, worker, lease, now);
    forall j ensures j != job ==> History(db'.log, j) == History(db.log, j) {
      ClaimHistories(db, job, run, worker, lease, now, j);
    }
    assert RowInv(db.rows[job], History(db.log, job), used);
    ClaimHistories(db, job, run, worker, lease, now, job);
    RowInvClaim(db.rows[job], History(db.log, job), used, job, run, worker, lease, now);
    KeysUniqueUpdate(db.rows, job, db'.rows[job]);
    RowsInvWrite(db, db', job, db'.rows[job], used, used + {run});
  }

  /** The row and the events of a fenced write that gets through. */
  ghost function WrittenRow(s: System, a: Action): Row
    requires FencedWrite(a) && Enabled(s, a)
  {
    var row := s.db.rows[a.job];
    match a
    case DoHeartbeat(_, _, lease) => HeartbeatRow(row, lease, s.now)
    case DoCheckpoint(_, _, _, stage, cp, progress) => CheckpointRow(row, stage, cp, progress, s.now)
    case EndComplete(_, run, _, result) => CompletedRow(row, result, s.runs[run].reading.progress, s.now)
    case EndFail(_, run, _, errorType, message, retry, delay) =>
      var r := s.runs[run].reading;
      FailedRow(row, errorType, message, retry, delay, r.attempts, r.maxAttempts, s.now)
    case DoWorkerCancel(_, _, _) => Finished(row, Cancelled, s.now)
  }

  ghost function WrittenEvents(s: System, a: Action): seq<Event>
    requires FencedWrite(a) && Enabled(s, a)
  {
    match a
    case DoHeartbeat(_, _, _) => []
    case DoCheckpoint(job, run, worker, stage, cp, _) =>
      [Event(job, Some(run), Some(worker), CheckpointSaved(stage, cp))]
    case EndComplete(job, run, worker, result) => [Event(job, Some(run), Some(worker), JobSucceeded(result))]
    case EndFail(job, run, worker, errorType, message, retry, _) =>
      var r := s.runs[run].reading;
      [Event(job, Some(run), Some(worker), FailedEvent(errorType, message, retry, r.attempts, r.maxAttempts))]
    case DoWorkerCancel(job, run, worker) => [Event(job, Some(run), Some(worker), JobCancelled(None))]
  }

  lemma FencedShape(s: System, a: Action)
    requires FencedWrite(a) && Enabled(s, a)
    ensures NextDb(s, a) == Fenced(s.db, a.job, a.run, WrittenRow(s, a), WrittenEvents(s, a))
    ensures |WrittenEvents(s, a)| <= 1 && forall e :: e in WrittenEvents(s, a) ==> e.job == a.job
  {
  }

  /** Every fenced write that gets through keeps the invariant of the row it wrote. */
  lemma RowInvFenced(s: System, a: Action, h: seq<Event>)
    requires FencedWrite(a) && Enabled(s, a) && Fence(s.db, a.job, a.run)
    requires MemoryInv(s.db, a.run, s.runs[a.run])
    requires RowInv(s.db.rows[a.job], h, s.used)
    ensures RowInv(WrittenRow(s, a), h + WrittenEvents(s, a), s.used)
  {
    if a.DoHeartbeat? {
      assert h + [] == h;
    } else {
      var e := WrittenEvents(s, a)[0];
      Appended(h, e);
      if a.EndFail? {
        var r := s.runs[a.run].reading;
        assert r.attempts == s.db.rows[a.job].attempts && r.maxAttempts == s.db.rows[a.job].maxAttempts;
        FailedRowInv(s.db.rows[a.job], h, s.used, e, a.errorType, a.message, a.retry, a.delay, s.now);
      } else {
        RowInvQuiet(s.db.rows[a.job], WrittenRow(s, a), h, s.used, e);
      }
    }
  }

  lemma FailedRowInv(row: Row, h: seq<Event>, used: set<RunId>, e: Event, errorType: string, message: string,
                     retry: bool, delay: int, now: Time)
    requires RowInv(row, h, used) && row.status == Leased && e.run == row.runId
    requires e.what == FailedEvent(errorType, message, retry, row.attempts, row.maxAttempts)
    ensures RowInv(FailedRow(row, errorType, message, retry, delay, row.attempts, row.maxAttempts, now), h + [e], used)
  {
    Appended(h, e);
    RowInvQuiet(row, FailedRow(row, errorType, message, retry, delay, row.attempts, row.maxAttempts, now), h, used, e);
  }

  lemma DbInvFenced(s: System, a: Action)
    requires DbInv(s.db, s.used) && FencedWrite(a) && Enabled(s, a)
    requires MemoryInv(s.db, a.run, s.runs[a.run])
    ensures DbInv(NextDb(s, a), s.used)
  {
    FencedShape(s, a);
    if Fence(s.db, a.job, a.run) {
      var row', es := WrittenRow(s, a), WrittenEvents(s, a);
      assert RowInv(s.db.rows[a.job], History(s.db.log, a.job), s.used);
      RowInvFenced(s, a, History(s.db.log, a.job));
      WrittenRowKeeps(s, a);
      DbInvWrite(s.db, s.used, a.job, row', es);
    }
  }

  /** What a fenced write can change: never the key, the run or the attempts, the checkpoint
      only by a checkpoint, and it never leases a row. */
  lemma WrittenRowKeeps(s: System, a: Action)
    requires FencedWrite(a) && Enabled(s, a)
    ensures var row, row' := s.db.rows[a.job], WrittenRow(s, a);
      && row'.key == row.key && row'.runId == row.runId
      && row'.attempts == row.attempts && row'.maxAttempts == row.maxAttempts
      && (row'.status == Leased ==> row.status == Leased)
      && (!a.DoCheckpoint? ==> row'.checkpoint == row.checkpoint)
      && (!a.DoCheckpoint? && !a.EndComplete? ==> row'.progress == row.progress)
      && (a.EndComplete? ==> row'.status == Succeeded)
  {
    match a
    case DoHeartbeat(_, _, _) =>
    case DoCheckpoint(_, _, _, _, _, _) =>
    case EndComplete(_, _, _, _) =>
    case EndFail(_, _, _, _, _, _, _) =>
    case DoWorkerCancel(_, _, _) =>
  }

  lemma DbInvRequestCancel(s: System, a: Action)
    requires DbInv(s.db, s.used) && a.DoRequestCancel? && Enabled(s, a)
    ensures DbInv(NextDb(s, a), s.used)
  {
    var db, db' := s.db, NextDb(s, a);
    var row, h := db.rows[a.job], History(db.log, a.job);
    if row.status == Queued || row.status == Leased {
      assert RowInv(row, h, s.used);
      var e := db'.log[|db.log|];
      Appended(h, e);
      RowInvQuiet(row, db'.rows[a.job], h, s.used, e);
      DbInvWrite(db, s.used, a.job, db'.rows[a.job], [e]);
    }
  }

  lemma DbInvNext(s: System, a: Action)
    requires Inv(s) && Enabled(s, a)
    ensures DbInv(NextDb(s, a), Next(s, a).used)
  {
    assert !a.DoClaim? ==> Next(s, a).used == s.used;
    if a.DoEnqueue? {
      NewRowInv(a.id, a.jobType, a.payload, a.key, a.priority, a.maxAttempts, s.now, s.used);
      if !HasKey(s.db, a.key) {
        DbInvEnqueue(s.db, s.used, a.id, NewRow(a.jobType, a.payload, a.key, a.priority, a.maxAttempts, s.now),
                     Event(a.id, None, None, Enqueued(a.jobType)));
      }
    } else if a.DoClaim? {
      DbInvClaim(s.db, s.used, a.job, a.run, a.worker, a.leaseSeconds, s.now);
    } else if FencedWrite(a) {
      DbInvFenced(s, a);
    } else if a.DoRequestCancel? {
      DbInvRequestCancel(s, a);
    }
  }

  lemma RowRunIsUsed(s: System, j: JobId)
    requires Inv(s) && j in s.db.rows && s.db.rows[j].runId.Some?
    ensures s.db.rows[j].runId.value in s.used
  {
    assert RowInv(s.db.rows[j], History(s.db.log, j), s.used);
  }

  /** A write by a run that does not hold the row, or of columns nobody remembers, keeps every memory true. */
  lemma MemoryInvWrite(db: Db, db': Db, job: JobId, r: RunId, m: Memory)
    requires MemoryInv(db, r, m)
    requires forall j :: j in db'.rows && j != job && j in db.rows ==> db'.rows[j] == db.rows[j]
    requires db'.rows.Keys >= db.rows.Keys
    requires forall j :: j in db'.rows && j !in db.rows ==> db'.rows[j].runId == None
    requires job in db.rows && db'.rows[job].runId == Some(r) ==>
      && db.rows[job].runId == Some(r) && db'.rows[job].checkpoint == db.rows[job].checkpoint
      && db'.rows[job].attempts == db.rows[job].attempts && db'.rows[job].maxAttempts == db.rows[job].maxAttempts
      && (db'.rows[job].status == Leased ==>
        db.rows[job].status == Leased && db'.rows[job].progress == db.rows[job].progress)
    ensures MemoryInv(db', r, m)
  {
  }

  lemma MemoryInvClaim(s: System, a: Action, r: RunId)
    requires Enabled(s, a) && a.DoClaim? && r in Next(s, a).runs && s.runs.Keys <= s.used
    requires r != a.run ==> r in s.runs && MemoryInv(s.db, r, s.runs[r])
    requires forall j :: j in s.db.rows && s.db.rows[j].runId.Some? ==> s.db.rows[j].runId.value in s.used
    ensures MemoryInv(NextDb(s, a), r, Next(s, a).runs[r])
  {
    ClaimShape(s.db, a.job, a.run, a.worker, a.leaseSeconds, s.now);
    if r != a.run { MemoryInvWrite(s.db, NextDb(s, a), a.job, r, s.runs[r]); }
  }

  /** What a fenced write or a cancel request can change in the whole table. */
  lemma WriteKeeps(s: System, a: Action)
    requires Enabled(s, a) && (FencedWrite(a) || a.DoRequestCancel?)
    ensures var db, db' := s.db, NextDb(s, a);
      && db'.rows.Keys == db.rows.Keys
      && (forall j :: j in db.rows && j != a.job ==> db'.rows[j] == db.rows[j])
      && db'.rows[a.job].runId == db.rows[a.job].runId
      && db'.rows[a.job].attempts == db.rows[a.job].attempts
      && db'.rows[a.job].maxAttempts == db.rows[a.job].maxAttempts
      && (db'.rows[a.job].status == Leased ==> db.rows[a.job].status == Leased)
      && (!(a.DoCheckpoint? && Fence(db, a.job, a.run)) ==>
            && db'.rows[a.job].checkpoint == db.rows[a.job].checkpoint
            && (db'.rows[a.job].status != Succeeded ==> db'.rows[a.job].progress == db.rows[a.job].progress))
      && (FencedWrite(a) && !Fence(db, a.job, a.run) ==> db' == db)
  {
    if FencedWrite(a) {
      FencedShape(s, a);
      WrittenRowKeeps(s, a);
    }
  }

  lemma MemoryInvFenced(s: System, a: Action, r: RunId, m: Memory)
    requires Enabled(s, a) && (FencedWrite(a) || a.DoRequestCancel?) && MemoryInv(s.db, r, m)
    requires !(a.DoCheckpoint? && r == a.run)
    ensures MemoryInv(NextDb(s, a), r, m)
  {
    WriteKeeps(s, a);
    MemoryInvWrite(s.db, NextDb(s, a), a.job, r, m);
  }

  lemma MemoryInvNext(s: System, a: Action, r: RunId)
    requires Inv(s) && Enabled(s, a) && r in Next(s, a).runs
    ensures MemoryInv(NextDb(s, a), r, Next(s, a).runs[r])
  {
    if a.DoClaim? {
      forall j | j in s.db.rows && s.db.rows[j].runId.Some? ensures s.db.rows[j].runId.value in s.used {
        RowRunIsUsed(s, j);
      }
      MemoryInvClaim(s, a, r);
    } else {
      var m := s.runs[r];
      assert MemoryInv(s.db, r, m);
      MemoryInvStep(s, a, r, m);
    }
  }

  lemma MemoryInvStep(s: System, a: Action, r: RunId, m: Memory)
    requires !a.DoClaim? && Enabled(s, a) && r in s.runs && m == s.runs[r] && MemoryInv(s.db, r, m)
    ensures r in Next(s, a).runs && MemoryInv(NextDb(s, a), r, Next(s, a).runs[r])
  {
    if a.DoEnqueue? {
      MemoryInvWrite(s.db, NextDb(s, a), a.id, r, m);
    } else if a.DoCheckpoint? && r == a.run {
      MemoryInvOwnCheckpoint(s, a);
    } else if FencedWrite(a) || a.DoRequestCancel? {
      MemoryInvFenced(s, a, r, m);
    }
  }

  lemma MemoryInvOwnCheckpoint(s: System, a: Action)
    requires a.DoCheckpoint? && Enabled(s, a) && MemoryInv(s.db, a.run, s.runs[a.run])
    ensures MemoryInv(NextDb(s, a), a.run, Next(s, a).runs[a.run])
  {
  }

  /** Every step keeps the invariant. */
  lemma InvNext(s: System, a: Action)
    requires Inv(s) && Enabled(s, a)
    ensures Inv(Next(s, a))
  {
    DbInvNext(s, a);
    forall r | r in Next(s, a).runs ensures MemoryInv(NextDb(s, a), r, Next(s, a).runs[r]) {
      MemoryInvNext(s, a, r);
    }
  }

  lemma {:induction false} InvAfter(s: System, actions: seq<Action>)
    requires Inv(s) && Execution(s, actions)
    ensures Inv(After(s, actions))
    decreases |actions|
  {
    if actions != [] {
      InvNext(s, actions[0]);
      InvAfter(Next(s, actions[0]), actions[1..]);
    }
  }
}
