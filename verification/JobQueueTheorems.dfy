/** What holds of the queue over whole executions: fencing, one-step behaviour of the
    two-step operations, replay of the log, bounded runs and monotone checkpoints. */
module JobQueueTheorems {
  import opened Basics
  import opened JobQueue
  import opened JobQueueRuns

  lemma InitInv()
    ensures Inv(INIT)
  {
  }

  /** Some interleaving of the operations, from the empty queue, leads here. */
  ghost predicate Reachable(s: System) { exists actions :: Execution(INIT, actions) && After(INIT, actions) == s }

  lemma ReachableInv(s: System)
    requires Reachable(s)
    ensures Inv(s)
  {
    var actions :| Execution(INIT, actions) && After(INIT, actions) == s;
    InitInv();
    InvAfter(INIT, actions);
  }

  // ------------------------------------------------------------------ fencing

  /** The fence can be read off the event log: it passes for exactly the run of the latest
      claim, and only while the log's last word on the job is "leased". */
  lemma FenceIsLatestClaim(s: System, job: JobId, run: RunId)
    requires Reachable(s) && job in s.db.rows
    ensures var h := History(s.db.log, job);
            Fence(s.db, job, run) <==> LatestClaim(h) == Some(run) && Replay(h) == Some(Leased)
  {
    ReachableInv(s);
    assert RowInv(s.db.rows[job], History(s.db.log, job), s.used);
  }

  /** A run that was used and does not hold the job now. */
  ghost predicate Superseded(s: System, job: JobId, run: RunId) {
    job in s.db.rows && run in s.used && !Fence(s.db, job, run)
  }

  lemma SupersededStep(s: System, a: Action, job: JobId, run: RunId)
    requires Enabled(s, a) && Superseded(s, job, run)
    ensures Superseded(Next(s, a), job, run)
  {
    StepKeeps(s, a, job);
  }

  /** What one step can do to a row: nothing, a claim by a fresh run, or a write that leaves run,
      attempts and budget alone, never leases it, and changes progress or checkpoint only on a checkpoint. */
  lemma StepKeeps(s: System, a: Action, job: JobId)
    requires Enabled(s, a) && job in s.db.rows
    ensures job in NextDb(s, a).rows
    ensures var row, row' := s.db.rows[job], NextDb(s, a).rows[job];
      if a.DoClaim? && a.job == job then row' == ClaimedRow(row, a.run, a.worker, a.leaseSeconds, s.now)
      else if (FencedWrite(a) && a.job == job && Fence(s.db, job, a.run)) || (a.DoRequestCancel? && a.job == job) then
        && row'.runId == row.runId && row'.attempts == row.attempts && row'.maxAttempts == row.maxAttempts
        && (row'.status == Leased ==> row.status == Leased)
        && (!a.DoCheckpoint? ==> row'.checkpoint == row.checkpoint
                                 && (row'.status != Succeeded ==> row'.progress == row.progress))
      else row' == row
  {
    if a.DoClaim? { ClaimShape(s.db, a.job, a.run, a.worker, a.leaseSeconds, s.now); }
    else if FencedWrite(a) || a.DoRequestCancel? { WriteKeeps(s, a); }
  }

  /** Nothing this run tries on the job, now or later in the execution, changes the database. */
  ghost predicate NeverWrites(s: System, actions: seq<Action>, job: JobId, run: RunId)
    requires Execution(s, actions)
    decreases |actions|
  {
    actions == [] ||
    (&& (FencedWrite(actions[0]) && actions[0].job == job && actions[0].run == run ==> NextDb(s, actions[0]) == s.db)
     && NeverWrites(Next(s, actions[0]), actions[1..], job, run))
  }

  /** Once a run has lost a job, to a takeover, a retry or a terminal status, no later
      interleaving gives it back and none of its writes lands. */
  lemma {:induction false} SupersededForever(s: System, actions: seq<Action>, job: JobId, run: RunId)
    requires Execution(s, actions) && Superseded(s, job, run)
    ensures Superseded(After(s, actions), job, run) && NeverWrites(s, actions, job, run)
    decreases |actions|
  {
    if actions != [] {
      var a := actions[0];
      SupersededStep(s, a, job, run);
      if FencedWrite(a) { WriteKeeps(s, a); }
      SupersededForever(Next(s, a), actions[1..], job, run);
    }
  }

  /** A claim takes the job from whoever held it: whatever happens later, no earlier run gets it back
      or writes to it. */
  lemma TakeoverSupersedes(s: System, a: Action, run: RunId, later: seq<Action>)
    requires Enabled(s, a) && a.DoClaim? && run in s.used && Execution(Next(s, a), later)
    ensures Superseded(After(Next(s, a), later), a.job, run) && NeverWrites(Next(s, a), later, a.job, run)
  {
    StepKeeps(s, a, a.job);
    SupersededForever(Next(s, a), later, a.job, run);
  }

  lemma TerminalRowStays(s: System, a: Action, job: JobId)
    requires Enabled(s, a) && job in s.db.rows && s.db.rows[job].status.Terminal()
    ensures job in NextDb(s, a).rows && NextDb(s, a).rows[job] == s.db.rows[job]
  {
    if FencedWrite(a) { WriteKeeps(s, a); }
  }

  lemma TerminalGetsNoEvent(s: System, a: Action, job: JobId)
    requires Enabled(s, a) && job in s.db.rows && s.db.rows[job].status.Terminal()
    ensures History(NextDb(s, a).log, job) == History(s.db.log, job)
  {
    if a.DoClaim? {
      ClaimHistories(s.db, a.job, a.run, a.worker, a.leaseSeconds, s.now, job);
    } else if NextDb(s, a).log != s.db.log {
      OneEventAtMost(s, a);
      HistoryAppend(s.db.log, NextDb(s, a).log[|s.db.log|], job);
    }
  }

  /** Every action but a claim appends one event at most, and a fenced write none without the fence. */
  lemma OneEventAtMost(s: System, a: Action)
    requires Enabled(s, a) && !a.DoClaim? && NextDb(s, a).log != s.db.log
    ensures var log := NextDb(s, a).log; |log| == |s.db.log| + 1 && log == s.db.log + [log[|s.db.log|]]
    ensures var e := NextDb(s, a).log[|s.db.log|];
            if a.DoEnqueue? then e.job == a.id
            else (FencedWrite(a) || a.DoRequestCancel?) && e.job == a.job && !s.db.rows[a.job].status.Terminal()
  {
  }

  /** Terminal statuses are absorbing: the row never changes again and the job gets no further event. */
  lemma {:induction false} TerminalForever(s: System, actions: seq<Action>, job: JobId)
    requires Execution(s, actions) && job in s.db.rows && s.db.rows[job].status.Terminal()
    ensures var db := After(s, actions).db;
            job in db.rows && db.rows[job] == s.db.rows[job] && History(db.log, job) == History(s.db.log, job)
    decreases |actions|
  {
    if actions != [] {
      TerminalRowStays(s, actions[0], job);
      TerminalGetsNoEvent(s, actions[0], job);
      TerminalForever(Next(s, actions[0]), actions[1..], job);
    }
  }

  // ------------------------------------------------------------------ the two-step operations act as one step

  /** `complete` with the read and the write at one instant. */
  function AtomicComplete(db: Db, job: JobId, run: RunId, worker: string, result: Dict, now: Time): Db
    requires job in db.rows
  {
    CompleteWrite(db, job, run, worker, result, db.rows[job].progress, now)
  }

  /** `fail` with the read and the write at one instant. */
  function AtomicFail(db: Db, job: JobId, run: RunId, worker: string, errorType: string, message: string,
                      retry: bool, delay: int, now: Time): Db
    requires job in db.rows
  {
    FailWrite(db, job, run, worker, errorType, message, retry, delay,
              db.rows[job].attempts, db.rows[job].maxAttempts, now)
  }

  /** However much happens between the read and the write of a completion, it acts as one step. */
  lemma CompleteIsAtomic(s: System, a: Action)
    requires Reachable(s) && Enabled(s, a) && a.EndComplete?
    ensures NextDb(s, a) == AtomicComplete(s.db, a.job, a.run, a.worker, a.result, s.now)
  {
    ReachableInv(s);
    assert MemoryInv(s.db, a.run, s.runs[a.run]);
  }

  /** So does a failure. */
  lemma FailIsAtomic(s: System, a: Action)
    requires Reachable(s) && Enabled(s, a) && a.EndFail?
    ensures NextDb(s, a)
         == AtomicFail(s.db, a.job, a.run, a.worker, a.errorType, a.message, a.retry, a.delay, s.now)
  {
    ReachableInv(s);
    assert MemoryInv(s.db, a.run, s.runs[a.run]);
  }

  /** A failure that passes the fence re-queues the job exactly when a retry was asked for and
      attempts remain; a retry refused for want of attempts is recorded as such. */
  lemma FailDecision(s: System, a: Action)
    requires Reachable(s) && Enabled(s, a) && a.EndFail? && Fence(s.db, a.job, a.run)
    ensures var row, row' := s.db.rows[a.job], NextDb(s, a).rows[a.job];
      && (row'.status == Queued <==> a.retry && row.attempts < row.maxAttempts)
      && (row'.status == Failed <==> !(a.retry && row.attempts < row.maxAttempts))
      && (row'.status == Queued ==> row'.availableAt == s.now + a.delay && row'.errorType == Some(a.errorType))
      && (row'.status == Failed && a.retry ==>
        row'.errorType == Some(RETRIES_EXHAUSTED) && row.attempts == row.maxAttempts)
      && (row'.status == Failed && !a.retry ==> row'.errorType == Some(a.errorType))
  {
    FailIsAtomic(s, a);
    ReachableInv(s);
    assert RowInv(s.db.rows[a.job], History(s.db.log, a.job), s.used);
  }

  /** The progress of the last checkpoint in the execution that got through for this job. */
  ghost function LastProgress(s: System, actions: seq<Action>, job: JobId): Option<Dict>
    requires Execution(s, actions)
    decreases |actions|
  {
    if actions == [] then None
    else
      var a := actions[0];
      var later := LastProgress(Next(s, a), actions[1..], job);
      if later.Some? then later
      else if a.DoCheckpoint? && a.job == job && Fence(s.db, job, a.run) then Some(a.progress)
      else None
  }

  function ProgressOf(db: Db, job: JobId): Dict { if job in db.rows then db.rows[job].progress else map[] }

  lemma ProgressStep(s: System, a: Action, job: JobId)
    requires Enabled(s, a)
    requires job in NextDb(s, a).rows ==> NextDb(s, a).rows[job].status != Succeeded
    ensures job in s.db.rows ==> s.db.rows[job].status != Succeeded
    ensures ProgressOf(NextDb(s, a), job)
         == if a.DoCheckpoint? && a.job == job && Fence(s.db, job, a.run) then a.progress else ProgressOf(s.db, job)
  {
    if job in s.db.rows {
      StepKeeps(s, a, job);
      if s.db.rows[job].status == Succeeded { TerminalRowStays(s, a, job); }
    }
  }

  lemma {:induction false} ProgressIsLastCheckpoint(s: System, actions: seq<Action>, job: JobId)
    requires Execution(s, actions)
    requires var db := After(s, actions).db; job in db.rows ==> db.rows[job].status != Succeeded
    ensures ProgressOf(After(s, actions).db, job)
         == (var p := LastProgress(s, actions, job); if p.Some? then p.value else ProgressOf(s.db, job))
    ensures job in s.db.rows ==> s.db.rows[job].status != Succeeded
    decreases |actions|
  {
    if actions != [] {
      var s' := Next(s, actions[0]);
      ProgressIsLastCheckpoint(s', actions[1..], job);
      ProgressStep(s, actions[0], job);
    }
  }

  /** A completion that gets through leaves exactly the last checkpoint's progress overridden by the result. */
  lemma CompletedProgress(actions: seq<Action>, a: Action)
    requires Execution(INIT, actions)
    requires var s := After(INIT, actions); Enabled(s, a) && a.EndComplete? && Fence(s.db, a.job, a.run)
    ensures var p := LastProgress(INIT, actions, a.job);
            var row := NextDb(After(INIT, actions), a).rows[a.job];
            row.status == Succeeded && row.progress == (if p.Some? then p.value else map[]) + a.result
  {
    CompleteIsAtomic(After(INIT, actions), a);
    ProgressIsLastCheckpoint(INIT, actions, a.job);
  }

  // ------------------------------------------------------------------ the log determines the row

  /** In every reachable state the row agrees with the replay of its own events, and every
      claim in the log was handed the checkpoint saved last before it. */
  lemma LogReplays(actions: seq<Action>, job: JobId)
    requires Execution(INIT, actions) && job in After(INIT, actions).db.rows
    ensures var db := After(INIT, actions).db; var row := db.rows[job]; var h := History(db.log, job);
      && Replay(h) == Some(row.status)
      && row.attempts == |RunsIn(h)|
      && row.runId == LatestClaim(h)
      && row.checkpoint == LastSaved(h)
      && ClaimsTrue(h)
      && (row.status == Leased <==> row.leaseOwner.Some?) && (row.status == Leased <==> row.leaseExpiresAt.Some?)
      && (row.status.Terminal() <==> row.finishedAt.Some?)
  {
    InitInv();
    InvAfter(INIT, actions);
    assert RowInv(After(INIT, actions).db.rows[job], History(After(INIT, actions).db.log, job),
      After(INIT, actions).used);
  }

  /** However enqueues interleave with the rest, no two jobs share an idempotency key. */
  lemma OneJobPerKey(actions: seq<Action>, i: JobId, j: JobId)
    requires Execution(INIT, actions)
    requires var rows := After(INIT, actions).db.rows; i in rows && j in rows && rows[i].key == rows[j].key
    ensures i == j
  {
    InitInv();
    InvAfter(INIT, actions);
  }

  // ------------------------------------------------------------------ bounded runs

  /** At most max_attempts runs are ever handed out for a job. */
  lemma RunsAreBounded(actions: seq<Action>, job: JobId)
    requires Execution(INIT, actions) && job in After(INIT, actions).db.rows
    ensures var db := After(INIT, actions).db;
            RunsHandedOut(History(db.log, job)) <= db.rows[job].maxAttempts
  {
    InitInv();
    InvAfter(INIT, actions);
    assert RowInv(After(INIT, actions).db.rows[job], History(After(INIT, actions).db.log, job),
      After(INIT, actions).used);
  }

  /** A claim refuses a job for want of attempts only when it reclaims an expired lease of the last attempt. */
  lemma ExhaustedOnlyOnReclaim(s: System, a: Action)
    requires Reachable(s) && Enabled(s, a) && a.DoClaim? && !HandsOut(s.db, a.job)
    ensures Expired(s.db.rows[a.job], s.now) && s.db.rows[a.job].attempts == s.db.rows[a.job].maxAttempts
    ensures NextDb(s, a).rows[a.job].status == Failed
  {
    ReachableInv(s);
    assert RowInv(s.db.rows[a.job], History(s.db.log, a.job), s.used);
  }

  function Rank(status: Status): int { match status case Leased => 2 case Queued => 1 case _ => 0 }

  function Measure(row: Row): int { 3 * (row.maxAttempts + 1 - row.attempts) + Rank(row.status) }

  ghost predicate Moves(s: System, a: Action, job: JobId)
    requires Enabled(s, a)
  {
    job in s.db.rows && job in NextDb(s, a).rows
    && (s.db.rows[job].status != NextDb(s, a).rows[job].status
      || s.db.rows[job].attempts != NextDb(s, a).rows[job].attempts)
  }

  lemma MeasureStep(s: System, a: Action, job: JobId)
    requires Enabled(s, a) && job in s.db.rows && RowInv(s.db.rows[job], History(s.db.log, job), s.used)
    ensures job in NextDb(s, a).rows
    ensures var m, m' := Measure(s.db.rows[job]), Measure(NextDb(s, a).rows[job]);
            0 <= m && (if Moves(s, a, job) then m' < m else m' == m)
    ensures a.DoClaim? && a.job == job ==> Moves(s, a, job)
  {
    StepKeeps(s, a, job);
  }

  lemma MeasureUnder(s: System, a: Action, job: JobId)
    requires Inv(s) && Enabled(s, a) && job in s.db.rows
    ensures job in NextDb(s, a).rows
    ensures var m, m' := Measure(s.db.rows[job]), Measure(NextDb(s, a).rows[job]);
            0 <= m && (if Moves(s, a, job) then m' < m else m' == m)
    ensures a.DoClaim? && a.job == job ==> Moves(s, a, job)
  {
    assert RowInv(s.db.rows[job], History(s.db.log, job), s.used);
    MeasureStep(s, a, job);
  }

  /** Every claim and every change of status makes the measure strictly smaller; nothing else changes it. */
  lemma MeasureFalls(s: System, a: Action, job: JobId)
    requires Reachable(s) && Enabled(s, a) && job in s.db.rows
    ensures job in NextDb(s, a).rows
    ensures var m, m' := Measure(s.db.rows[job]), Measure(NextDb(s, a).rows[job]);
            0 <= m && (if Moves(s, a, job) then m' < m else m' == m)
    ensures a.DoClaim? && a.job == job ==> Moves(s, a, job)
  {
    ReachableInv(s);
    MeasureUnder(s, a, job);
  }

  ghost function MoveCount(s: System, actions: seq<Action>, job: JobId): nat
    requires Execution(s, actions)
    decreases |actions|
  {
    if actions == [] then 0
    else (if Moves(s, actions[0], job) then 1 else 0) + MoveCount(Next(s, actions[0]), actions[1..], job)
  }

  lemma {:induction false} MovesUnder(s: System, actions: seq<Action>, job: JobId)
    requires Inv(s) && Execution(s, actions) && job in s.db.rows
    ensures job in After(s, actions).db.rows
    ensures MoveCount(s, actions, job) + Measure(After(s, actions).db.rows[job]) <= Measure(s.db.rows[job])
    ensures MoveCount(s, actions, job) <= Measure(s.db.rows[job])
    decreases |actions|
  {
    MeasureUnder(s, Tick(0), job);
    if actions != [] {
      MeasureUnder(s, actions[0], job);
      InvNext(s, actions[0]);
      MovesUnder(Next(s, actions[0]), actions[1..], job);
      MeasureUnder(Next(s, actions[0]), Tick(0), job);
    }
  }

  /** So no interleaving, however long, can move a job more often than its measure allows. */
  lemma MovesAreBounded(s: System, actions: seq<Action>, job: JobId)
    requires Reachable(s) && Execution(s, actions) && job in s.db.rows
    ensures MoveCount(s, actions, job) <= Measure(s.db.rows[job])
  {
    ReachableInv(s);
    MovesUnder(s, actions, job);
  }

  // ------------------------------------------------------------------ checkpoints never go backwards

  ghost predicate Preorder(leq: (Dict, Dict) -> bool) {
    (forall x :: leq(x, x)) && (forall x, y, z :: leq(x, y) && leq(y, z) ==> leq(x, z))
  }

  /** Each run only writes checkpoints at or beyond what it was handed and has itself written. */
  ghost predicate Disciplined(s: System, actions: seq<Action>, leq: (Dict, Dict) -> bool)
    requires Execution(s, actions)
    decreases |actions|
  {
    actions == [] ||
    (&& (actions[0].DoCheckpoint? ==> leq(s.runs[actions[0].run].known, actions[0].checkpoint))
     && Disciplined(Next(s, actions[0]), actions[1..], leq))
  }

  lemma CheckpointStepForward(s: System, a: Action, job: JobId, leq: (Dict, Dict) -> bool)
    requires Inv(s) && Enabled(s, a) && job in s.db.rows && Preorder(leq)
    requires a.DoCheckpoint? ==> leq(s.runs[a.run].known, a.checkpoint)
    ensures job in NextDb(s, a).rows && leq(s.db.rows[job].checkpoint, NextDb(s, a).rows[job].checkpoint)
  {
    StepKeeps(s, a, job);
    if a.DoCheckpoint? && a.job == job && Fence(s.db, job, a.run) {
      assert MemoryInv(s.db, a.run, s.runs[a.run]);
    }
  }

  lemma {:induction false} CheckpointsForward(s: System, actions: seq<Action>, job: JobId, leq: (Dict, Dict) -> bool)
    requires Inv(s) && Execution(s, actions) && job in s.db.rows && Preorder(leq) && Disciplined(s, actions, leq)
    ensures job in After(s, actions).db.rows
    ensures leq(s.db.rows[job].checkpoint, After(s, actions).db.rows[job].checkpoint)
    decreases |actions|
  {
    if actions != [] {
      var s' := Next(s, actions[0]);
      CheckpointStepForward(s, actions[0], job, leq);
      InvNext(s, actions[0]);
      CheckpointsForward(s', actions[1..], job, leq);
      assert leq(s.db.rows[job].checkpoint, s'.db.rows[job].checkpoint);
    }
  }

  /** Then the stored checkpoint is monotone over any history of crashes, expiries and takeovers. */
  lemma CheckpointsMonotone(s: System, actions: seq<Action>, job: JobId, leq: (Dict, Dict) -> bool)
    requires Reachable(s) && Execution(s, actions) && job in s.db.rows && Preorder(leq) && Disciplined(s, actions, leq)
    ensures job in After(s, actions).db.rows
      && leq(s.db.rows[job].checkpoint, After(s, actions).db.rows[job].checkpoint)
  {
    ReachableInv(s);
    CheckpointsForward(s, actions, job, leq);
  }
}
