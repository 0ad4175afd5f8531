/** Where each field of a job row comes from: over every execution it is what the last action of a
    certain kind gave it.  Hence how long a lease shuts others out, and who is claimed first. */
module JobQueueFields {
  import opened Basics
  import opened JobQueue
  import opened JobQueueRuns
  import opened JobQueueTheorems

  // ------------------------------------------------------------------ the last action that gives something

  function OrElse<T>(a: Option<T>, b: Option<T>): Option<T> { if a.Some? then a else b }

  /** What the last action of the execution gave that gave anything. */
  ghost function LastOf<T>(s: System, actions: seq<Action>, gives: (System, Action) -> Option<T>): Option<T>
    requires Execution(s, actions)
    decreases |actions|
  {
    if actions == [] then None
    else OrElse(LastOf(Next(s, actions[0]), actions[1..], gives), gives(s, actions[0]))
  }

  /** Each step makes the field what the step gives, or leaves it what it was. */
  ghost predicate Follows<T(!new)>(field: Db -> Option<T>, gives: (System, Action) -> Option<T>) {
    forall s, a {:trigger Next(s, a)} :: Inv(s) && Enabled(s, a) ==>
      field(NextDb(s, a)) == OrElse(gives(s, a), field(s.db))
  }

  /** So it does as long as the field is there; a step may also drop it. */
  ghost predicate FollowsOrDrops<T(!new)>(field: Db -> Option<T>, gives: (System, Action) -> Option<T>) {
    forall s, a {:trigger Next(s, a)} :: Inv(s) && Enabled(s, a) ==>
      field(NextDb(s, a)).None? || field(NextDb(s, a)) == OrElse(gives(s, a), field(s.db))
  }

  lemma {:induction false} LastIs<T(!new)>(s: System, actions: seq<Action>, field: Db -> Option<T>,
        gives: (System, Action) -> Option<T>)
    requires Inv(s) && Execution(s, actions) && Follows(field, gives)
    ensures field(After(s, actions).db) == OrElse(LastOf(s, actions, gives), field(s.db))
    decreases |actions|
  {
    if actions != [] {
      InvNext(s, actions[0]);
      LastIs(Next(s, actions[0]), actions[1..], field, gives);
    }
  }

  lemma {:induction false} LastIsOrDropped<T(!new)>(s: System, actions: seq<Action>, field: Db -> Option<T>,
        gives: (System, Action) -> Option<T>)
    requires Inv(s) && Execution(s, actions) && FollowsOrDrops(field, gives)
    ensures var after := field(After(s, actions).db);
      after.None? || after == OrElse(LastOf(s, actions, gives), field(s.db))
    decreases |actions|
  {
    if actions != [] {
      InvNext(s, actions[0]);
      LastIsOrDropped(Next(s, actions[0]), actions[1..], field, gives);
    }
  }

  /** From the empty queue, the field is what the last action gave. */
  lemma FromStart<T(!new)>(actions: seq<Action>, field: Db -> Option<T>, gives: (System, Action) -> Option<T>)
    requires Execution(INIT, actions) && field(Db(map[], [])) == None
    requires Follows(field, gives) || (FollowsOrDrops(field, gives) && field(After(INIT, actions).db).Some?)
    ensures field(After(INIT, actions).db) == LastOf(INIT, actions, gives)
  {
    InitInv();
    if Follows(field, gives) { LastIs(INIT, actions, field, gives); }
      else { LastIsOrDropped(INIT, actions, field, gives); }
  }

  // ------------------------------------------------------------------ what actions give a job

  /** The action gets through the fence of the job. */
  predicate Passes(s: System, a: Action, job: JobId) { FencedWrite(a) && a.job == job && Fence(s.db, job, a.run) }

  predicate Claims(a: Action, job: JobId) { a.DoClaim? && a.job == job }

  /** The action creates the job. */
  predicate Creates(s: System, a: Action, job: JobId) { a.DoEnqueue? && a.id == job && !HasKey(s.db, a.key) }

  /** The action fails the job and gives it back to the queue. */
  predicate GivesBack(s: System, a: Action, job: JobId) {
    Passes(s, a, job) && a.EndFail? && a.retry && s.db.rows[job].attempts < s.db.rows[job].maxAttempts
  }

  /** A claim or a heartbeat gives a lease from now on. */
  function LeaseGiven(job: JobId): (System, Action) -> Option<Time> {
    (s: System, a: Action) =>
      if Claims(a, job) then Some(s.now + a.leaseSeconds)
      else if Passes(s, a, job) && a.DoHeartbeat? then Some(s.now + a.leaseSeconds)
      else None
  }

  function OwnerGiven(job: JobId): (System, Action) -> Option<string> {
    (s: System, a: Action) => if Claims(a, job) then Some(a.worker) else None
  }

  /** A job is available from its creation, and again after the delay of a retry. */
  function AvailableGiven(job: JobId): (System, Action) -> Option<Time> {
    (s: System, a: Action) => if Creates(s, a, job) then Some(s.now)
      else if GivesBack(s, a, job) then Some(s.now + a.delay) else None
  }

  /** Claims, heartbeats and checkpoints are signs of life. */
  function LifeGiven(job: JobId): (System, Action) -> Option<Time> {
    (s: System, a: Action) =>
      if Claims(a, job) || (Passes(s, a, job) && (a.DoHeartbeat? || a.DoCheckpoint?)) then Some(s.now) else None
  }

  function StageGiven(job: JobId): (System, Action) -> Option<string> {
    (s: System, a: Action) => if Passes(s, a, job) && a.DoCheckpoint? then Some(a.stage) else None
  }

  /** The first claim starts the job. */
  function StartGiven(job: JobId): (System, Action) -> Option<Time> {
    (s: System, a: Action) => if Claims(a, job) && job in s.db.rows && s.db.rows[job].attempts == 0 then Some(s.now)
      else None
  }

  /** What a job was enqueued with, and when. */
  datatype Order = Order(jobType: string, payload: Dict, key: string, priority: int, maxAttempts: int, at: Time)

  function OrderGiven(job: JobId): (System, Action) -> Option<Order> {
    (s: System, a: Action) =>
      if Creates(s, a, job) then Some(Order(a.jobType, a.payload, a.key, a.priority, a.maxAttempts, s.now)) else None
  }

  /** A request finds the job leased. */
  function CancelGiven(job: JobId): (System, Action) -> Option<bool> {
    (s: System, a: Action) =>
      if Creates(s, a, job) then Some(false)
      else if a.DoRequestCancel? && a.job == job && job in s.db.rows && s.db.rows[job].status == Leased then Some(true)
      else None
  }

  /** The job comes to its end. */
  function EndGiven(job: JobId): (System, Action) -> Option<Time> {
    (s: System, a: Action) =>
      if Passes(s, a, job) && (a.EndComplete? || a.DoWorkerCancel? || (a.EndFail? && !GivesBack(s, a, job)))
      then Some(s.now)
      else if Claims(a, job) && !HandsOut(s.db, job) then Some(s.now)
      else if a.DoRequestCancel? && a.job == job && job in s.db.rows && s.db.rows[job].status == Queued
      then Some(s.now)
      else None
  }

  /** A failure is recorded with its type and message; running out of attempts is a type of its own. */
  function ErrorGiven(job: JobId): (System, Action) -> Option<(string, string)> {
    (s: System, a: Action) =>
      if Passes(s, a, job) && a.EndFail? then
        Some((if a.retry && !GivesBack(s, a, job) then RETRIES_EXHAUSTED else a.errorType, Prefix(a.message, 4000)))
      else if Claims(a, job) && !HandsOut(s.db, job) then Some((RETRIES_EXHAUSTED, EXHAUSTED_MESSAGE))
      else None
  }

  // ------------------------------------------------------------------ the fields

  function LeaseField(job: JobId): Db -> Option<Time> {
    (db: Db) => if job in db.rows && db.rows[job].status == Leased then db.rows[job].leaseExpiresAt else None
  }

  function OwnerField(job: JobId): Db -> Option<string> {
    (db: Db) => if job in db.rows && db.rows[job].status == Leased then db.rows[job].leaseOwner else None
  }

  function AvailableField(job: JobId): Db -> Option<Time> {
    (db: Db) => if job in db.rows then Some(db.rows[job].availableAt) else None
  }

  function LifeField(job: JobId): Db -> Option<Time>
  {
    (db: Db) => if job in db.rows then db.rows[job].heartbeatAt else None
  }

  function StageField(job: JobId): Db -> Option<string>
  {
    (db: Db) => if job in db.rows then db.rows[job].stage else None
  }

  function StartField(job: JobId): Db -> Option<Time>
  {
    (db: Db) => if job in db.rows then db.rows[job].startedAt else None
  }

  function OrderField(job: JobId): Db -> Option<Order> {
    (db: Db) =>
      if job in db.rows then
        var r := db.rows[job];
        Some(Order(r.jobType, r.payload, r.key, r.priority, r.maxAttempts, r.createdAt))
      else None
  }

  function CancelField(job: JobId): Db -> Option<bool> {
    (db: Db) => if job in db.rows then Some(db.rows[job].cancelRequested) else None
  }

  function EndField(job: JobId): Db -> Option<Time>
  {
    (db: Db) => if job in db.rows then db.rows[job].finishedAt else None
  }

  function ErrorField(job: JobId): Db -> Option<(string, string)> {
    (db: Db) =>
      if job in db.rows && db.rows[job].errorType.Some? && db.rows[job].errorMessage.Some?
      then Some((db.rows[job].errorType.value, db.rows[job].errorMessage.value)) else None
  }

  /** What an action makes of the row of a job, where it makes anything of it. */
  ghost predicate Becomes(s: System, a: Action, job: JobId, db: Db)
    requires Enabled(s, a)
  {
    if Passes(s, a, job) then db.rows == s.db.rows[job := WrittenRow(s, a)]
    else if Claims(a, job) then
      db.rows == s.db.rows[job := ClaimedRow(s.db.rows[job], a.run, a.worker, a.leaseSeconds, s.now)]
    else if Creates(s, a, job) then
      db.rows == s.db.rows[job := NewRow(a.jobType, a.payload, a.key, a.priority, a.maxAttempts, s.now)]
    else if a.DoRequestCancel? && a.job == job then db == RequestCancelStep(s.db, job, a.actor, s.now)
    else (job in db.rows <==> job in s.db.rows) && (job in s.db.rows ==> db.rows[job] == s.db.rows[job])
  }

  lemma Become(s: System, a: Action, job: JobId)
    requires Enabled(s, a)
    ensures Becomes(s, a, job, NextDb(s, a))
  {
    if a.DoClaim? { ClaimShape(s.db, a.job, a.run, a.worker, a.leaseSeconds, s.now); }
    if FencedWrite(a) { FencedShape(s, a); }
  }

  /** The counters that a failure read are still those of the row. */
  lemma ReadIsTrue(s: System, a: Action, job: JobId)
    requires Inv(s) && Enabled(s, a) && Passes(s, a, job) && a.EndFail?
    ensures var r := s.runs[a.run].reading; Requeues(a.retry, r.attempts, r.maxAttempts) <==> GivesBack(s, a, job)
    ensures s.runs[a.run].reading.attempts == s.db.rows[job].attempts
  {
    assert MemoryInv(s.db, a.run, s.runs[a.run]);
  }

  lemma LeaseWritten(s: System, a: Action)
    requires FencedWrite(a) && Enabled(s, a)
    ensures var row := WrittenRow(s, a);
      if a.DoHeartbeat? then row.leaseExpiresAt == Some(s.now + a.leaseSeconds)
      else if a.DoCheckpoint? then row.leaseExpiresAt == s.db.rows[a.job].leaseExpiresAt
      else row.status != Leased
  {
  }

  lemma LeaseClaimed(row: Row, run: RunId, worker: string, lease: int, now: Time)
    ensures var r := ClaimedRow(row, run, worker, lease, now);
      r.status != Leased || r.leaseExpiresAt == Some(now + lease)
  {
  }

  lemma AvailableWritten(s: System, a: Action)
    requires FencedWrite(a) && Enabled(s, a)
    ensures WrittenRow(s, a).availableAt ==
      if a.EndFail? && Requeues(a.retry, s.runs[a.run].reading.attempts, s.runs[a.run].reading.maxAttempts)
      then s.now + a.delay else s.db.rows[a.job].availableAt
  {
  }

  lemma LeaseByWrite(s: System, a: Action, job: JobId, db: Db)
    requires Inv(s) && Enabled(s, a) && Passes(s, a, job) && db.rows == s.db.rows[job := WrittenRow(s, a)]
    ensures LeaseField(job)(db).None?
      || LeaseField(job)(db) == OrElse(LeaseGiven(job)(s, a), LeaseField(job)(s.db))
  {
    LeaseWritten(s, a);
  }

  lemma LeaseByClaim(s: System, a: Action, job: JobId, db: Db, row: Row)
    requires Claims(a, job) && db.rows == s.db.rows[job := row]
    requires row.status != Leased || row.leaseExpiresAt == Some(s.now + a.leaseSeconds)
    ensures LeaseField(job)(db).None?
      || LeaseField(job)(db) == OrElse(LeaseGiven(job)(s, a), LeaseField(job)(s.db))
  {
  }

  lemma LeaseStep(s: System, a: Action, job: JobId, db: Db)
    requires Inv(s) && Enabled(s, a) && Becomes(s, a, job, db)
    ensures LeaseField(job)(db).None?
      || LeaseField(job)(db) == OrElse(LeaseGiven(job)(s, a), LeaseField(job)(s.db))
  {
    if Passes(s, a, job) {
      LeaseByWrite(s, a, job, db);
    } else if Claims(a, job) {
      LeaseClaimed(s.db.rows[job], a.run, a.worker, a.leaseSeconds, s.now);
      LeaseByClaim(s, a, job, db, ClaimedRow(s.db.rows[job], a.run, a.worker, a.leaseSeconds, s.now));
    }
  }

  lemma LeaseFollows(job: JobId)
    ensures FollowsOrDrops(LeaseField(job), LeaseGiven(job))
  {
    var field, gives := LeaseField(job), LeaseGiven(job);
    forall s, a | Inv(s) && Enabled(s, a)
      ensures field(NextDb(s, a)).None? || field(NextDb(s, a)) == OrElse(gives(s, a), field(s.db))
    {
      Become(s, a, job);
      LeaseStep(s, a, job, NextDb(s, a));
    }
  }

  lemma OwnerStep(s: System, a: Action, job: JobId, db: Db)
    requires Inv(s) && Enabled(s, a) && Becomes(s, a, job, db)
    ensures OwnerField(job)(db).None? || OwnerField(job)(db) == OrElse(OwnerGiven(job)(s, a), OwnerField(job)(s.db))
  {
  }

  lemma OwnerFollows(job: JobId)
    ensures FollowsOrDrops(OwnerField(job), OwnerGiven(job))
  {
    var field, gives := OwnerField(job), OwnerGiven(job);
    forall s, a | Inv(s) && Enabled(s, a)
      ensures field(NextDb(s, a)).None? || field(NextDb(s, a)) == OrElse(gives(s, a), field(s.db))
    {
      Become(s, a, job);
      OwnerStep(s, a, job, NextDb(s, a));
    }
  }

  lemma AvailableByWrite(s: System, a: Action, job: JobId, db: Db)
    requires Inv(s) && Enabled(s, a) && Passes(s, a, job) && db.rows == s.db.rows[job := WrittenRow(s, a)]
    ensures AvailableField(job)(db) == OrElse(AvailableGiven(job)(s, a), AvailableField(job)(s.db))
  {
    if a.EndFail? { ReadIsTrue(s, a, job); }
    AvailableWritten(s, a);
  }

  lemma AvailableStep(s: System, a: Action, job: JobId, db: Db)
    requires Inv(s) && Enabled(s, a) && Becomes(s, a, job, db)
    ensures AvailableField(job)(db) == OrElse(AvailableGiven(job)(s, a), AvailableField(job)(s.db))
  {
    if Passes(s, a, job) { AvailableByWrite(s, a, job, db); }
  }

  lemma AvailableFollows(job: JobId)
    ensures Follows(AvailableField(job), AvailableGiven(job))
  {
    var field, gives := AvailableField(job), AvailableGiven(job);
    forall s, a | Inv(s) && Enabled(s, a)
      ensures field(NextDb(s, a)) == OrElse(gives(s, a), field(s.db))
    {
      Become(s, a, job);
      AvailableStep(s, a, job, NextDb(s, a));
    }
  }

  lemma LifeStep(s: System, a: Action, job: JobId, db: Db)
    requires Inv(s) && Enabled(s, a) && Becomes(s, a, job, db)
    ensures LifeField(job)(db) == OrElse(LifeGiven(job)(s, a), LifeField(job)(s.db))
  {
  }

  lemma LifeFollows(job: JobId)
    ensures Follows(LifeField(job), LifeGiven(job))
  {
    var field, gives := LifeField(job), LifeGiven(job);
    forall s, a | Inv(s) && Enabled(s, a)
      ensures field(NextDb(s, a)) == OrElse(gives(s, a), field(s.db))
    {
      Become(s, a, job);
      LifeStep(s, a, job, NextDb(s, a));
    }
  }

  lemma StageStep(s: System, a: Action, job: JobId, db: Db)
    requires Enabled(s, a) && Becomes(s, a, job, db)
    ensures StageField(job)(db) == OrElse(StageGiven(job)(s, a), StageField(job)(s.db))
  {
  }

  lemma StageFollows(job: JobId)
    ensures Follows(StageField(job), StageGiven(job))
  {
    var field, gives := StageField(job), StageGiven(job);
    forall s, a | Inv(s) && Enabled(s, a)
      ensures field(NextDb(s, a)) == OrElse(gives(s, a), field(s.db))
    {
      Become(s, a, job);
      StageStep(s, a, job, NextDb(s, a));
    }
  }

  lemma StartStep(s: System, a: Action, job: JobId, db: Db)
    requires Inv(s) && Enabled(s, a) && Becomes(s, a, job, db)
    ensures StartField(job)(db) == OrElse(StartGiven(job)(s, a), StartField(job)(s.db))
  {
    if job in s.db.rows { assert RowInv(s.db.rows[job], History(s.db.log, job), s.used); }
  }

  lemma StartFollows(job: JobId)
    ensures Follows(StartField(job), StartGiven(job))
  {
    var field, gives := StartField(job), StartGiven(job);
    forall s, a | Inv(s) && Enabled(s, a)
      ensures field(NextDb(s, a)) == OrElse(gives(s, a), field(s.db))
    {
      Become(s, a, job);
      StartStep(s, a, job, NextDb(s, a));
    }
  }

  lemma OrderStep(s: System, a: Action, job: JobId, db: Db)
    requires Inv(s) && Enabled(s, a) && Becomes(s, a, job, db)
    ensures OrderField(job)(db) == OrElse(OrderGiven(job)(s, a), OrderField(job)(s.db))
  {
  }

  lemma OrderFollows(job: JobId)
    ensures Follows(OrderField(job), OrderGiven(job))
  {
    var field, gives := OrderField(job), OrderGiven(job);
    forall s, a | Inv(s) && Enabled(s, a)
      ensures field(NextDb(s, a)) == OrElse(gives(s, a), field(s.db))
    {
      Become(s, a, job);
      OrderStep(s, a, job, NextDb(s, a));
    }
  }

  lemma CancelStep(s: System, a: Action, job: JobId, db: Db)
    requires Enabled(s, a) && Becomes(s, a, job, db)
    ensures CancelField(job)(db) == OrElse(CancelGiven(job)(s, a), CancelField(job)(s.db))
  {
  }

  lemma CancelFollows(job: JobId)
    ensures Follows(CancelField(job), CancelGiven(job))
  {
    var field, gives := CancelField(job), CancelGiven(job);
    forall s, a | Inv(s) && Enabled(s, a)
      ensures field(NextDb(s, a)) == OrElse(gives(s, a), field(s.db))
    {
      Become(s, a, job);
      CancelStep(s, a, job, NextDb(s, a));
    }
  }

  lemma EndStep(s: System, a: Action, job: JobId, db: Db)
    requires Inv(s) && Enabled(s, a) && Becomes(s, a, job, db)
    ensures EndField(job)(db) == OrElse(EndGiven(job)(s, a), EndField(job)(s.db))
  {
    if Passes(s, a, job) && a.EndFail? { ReadIsTrue(s, a, job); }
  }

  lemma EndFollows(job: JobId)
    ensures Follows(EndField(job), EndGiven(job))
  {
    var field, gives := EndField(job), EndGiven(job);
    forall s, a | Inv(s) && Enabled(s, a)
      ensures field(NextDb(s, a)) == OrElse(gives(s, a), field(s.db))
    {
      Become(s, a, job);
      EndStep(s, a, job, NextDb(s, a));
    }
  }

  lemma ErrorStep(s: System, a: Action, job: JobId, db: Db)
    requires Inv(s) && Enabled(s, a) && Becomes(s, a, job, db)
    ensures ErrorField(job)(db) == OrElse(ErrorGiven(job)(s, a), ErrorField(job)(s.db))
  {
    if Passes(s, a, job) && a.EndFail? { ReadIsTrue(s, a, job); }
  }

  lemma ErrorFollows(job: JobId)
    ensures Follows(ErrorField(job), ErrorGiven(job))
  {
    var field, gives := ErrorField(job), ErrorGiven(job);
    forall s, a | Inv(s) && Enabled(s, a)
      ensures field(NextDb(s, a)) == OrElse(gives(s, a), field(s.db))
    {
      Become(s, a, job);
      ErrorStep(s, a, job, NextDb(s, a));
    }
  }

  // ------------------------------------------------------------------ a whole row from the actions

  /** In every execution a row is what the actions on it gave it last: its order when it was created, its
      lease and owner by the last claim or heartbeat that got through, and so on for each field. */
  lemma RowIsWhatActionsGave(actions: seq<Action>, job: JobId)
    requires Execution(INIT, actions) && job in After(INIT, actions).db.rows
    ensures var r := After(INIT, actions).db.rows[job];
      && LastOf(INIT, actions, OrderGiven(job))
         == Some(Order(r.jobType, r.payload, r.key, r.priority, r.maxAttempts, r.createdAt))
      && LastOf(INIT, actions, AvailableGiven(job)) == Some(r.availableAt)
      && LastOf(INIT, actions, CancelGiven(job)) == Some(r.cancelRequested)
      && LastOf(INIT, actions, LifeGiven(job)) == r.heartbeatAt
      && LastOf(INIT, actions, StageGiven(job)) == r.stage
      && LastOf(INIT, actions, StartGiven(job)) == r.startedAt
      && LastOf(INIT, actions, EndGiven(job)) == r.finishedAt
  {
    OrderFollows(job);
    FromStart(actions, OrderField(job), OrderGiven(job));
    AvailableFollows(job);
    FromStart(actions, AvailableField(job), AvailableGiven(job));
    CancelFollows(job);
    FromStart(actions, CancelField(job), CancelGiven(job));
    LifeFollows(job);
    FromStart(actions, LifeField(job), LifeGiven(job));
    StageFollows(job);
    FromStart(actions, StageField(job), StageGiven(job));
    StartFollows(job);
    FromStart(actions, StartField(job), StartGiven(job));
    EndFollows(job);
    FromStart(actions, EndField(job), EndGiven(job));
  }

  /** A leased row has the owner and the end of lease that were given last, and a row's error is the last one given. */
  lemma LeaseIsWhatActionsGave(actions: seq<Action>, job: JobId)
    requires Execution(INIT, actions) && job in After(INIT, actions).db.rows
    ensures var r := After(INIT, actions).db.rows[job];
      && (r.status == Leased ==> r.leaseExpiresAt.Some? && r.leaseOwner.Some?)
      && (r.status == Leased ==> LastOf(INIT, actions, LeaseGiven(job)) == r.leaseExpiresAt)
      && (r.status == Leased ==> LastOf(INIT, actions, OwnerGiven(job)) == r.leaseOwner)
      && (r.status != Leased ==> r.leaseExpiresAt == None && r.leaseOwner == None)
  {
    LogReplays(actions, job);
    if After(INIT, actions).db.rows[job].status == Leased {
      LeaseFollows(job);
      FromStart(actions, LeaseField(job), LeaseGiven(job));
      OwnerFollows(job);
      FromStart(actions, OwnerField(job), OwnerGiven(job));
    }
  }

  /** The error of a row is that of the last failure, if any. */
  lemma ErrorIsLastFailure(actions: seq<Action>, job: JobId)
    requires Execution(INIT, actions) && job in After(INIT, actions).db.rows
    ensures LastOf(INIT, actions, ErrorGiven(job)) == ErrorField(job)(After(INIT, actions).db)
  {
    ErrorFollows(job);
    FromStart(actions, ErrorField(job), ErrorGiven(job));
  }

  // ------------------------------------------------------------------ who may claim, and when

  /** The state of the queue after a while in which nothing was done. */
  ghost function Later(actions: seq<Action>, seconds: nat): System
    requires Execution(INIT, actions)
  {
    Next(After(INIT, actions), Tick(seconds))
  }

  /** With every other row locked, a fresh run may claim the job. */
  ghost predicate Offered(s: System, job: JobId) {
    forall run, worker, lease :: run !in s.used ==> Enabled(s, DoClaim(s.db.rows.Keys - {job}, job, run, worker, lease))
  }

  /** Whatever is locked, nobody may claim the job. */
  ghost predicate ShutOut(s: System, job: JobId) { forall a :: Enabled(s, a) ==> !Claims(a, job) }

  /** A lease given for L seconds, by a claim or a heartbeat that got through, shuts everybody out until L seconds
      after, and nobody from then on. */
  lemma LeaseShutsOut(actions: seq<Action>, job: JobId, seconds: nat)
    requires Execution(INIT, actions) && job in After(INIT, actions).db.rows
    requires After(INIT, actions).db.rows[job].status == Leased
    ensures var end, s := LastOf(INIT, actions, LeaseGiven(job)), Later(actions, seconds);
      end.Some? && if s.now <= end.value then ShutOut(s, job) else Offered(s, job)
  {
    LeaseIsWhatActionsGave(actions, job);
  }

  /** A queued job waits until the time it was enqueued at, or was given back for, and no longer. */
  lemma WaitingShutsOut(actions: seq<Action>, job: JobId, seconds: nat)
    requires Execution(INIT, actions) && job in After(INIT, actions).db.rows
    requires After(INIT, actions).db.rows[job].status == Queued
    ensures var from, s := LastOf(INIT, actions, AvailableGiven(job)), Later(actions, seconds);
      from.Some? && if s.now < from.value then ShutOut(s, job) else Offered(s, job)
  {
    RowIsWhatActionsGave(actions, job);
  }

  /** A finished job is never claimed. */
  lemma EndShutsOut(actions: seq<Action>, job: JobId, seconds: nat)
    requires Execution(INIT, actions) && job in After(INIT, actions).db.rows
    requires After(INIT, actions).db.rows[job].status.Terminal()
    ensures ShutOut(Later(actions, seconds), job)
  {
  }

  lemma {:induction false} FreshRun(used: set<RunId>) returns (run: RunId)
    ensures forall r :: r in used ==> r < run
    decreases |used|
  {
    if used == {} {
      run := 0;
    } else {
      var r :| r in used;
      var rest := FreshRun(used - {r});
      assert forall q :: q in used ==> q == r || q in used - {r};
      run := if r < rest then rest else r + 1;
    }
  }

  /** A claim passes over no job that it could have had, is not locked, and has a higher priority, or the same
      priority and an earlier creation. */
  lemma ClaimsInOrder(actions: seq<Action>, a: Action, other: JobId)
    requires Execution(INIT, actions)
    requires var s := After(INIT, actions);
      Enabled(s, a) && a.DoClaim? && other in s.db.rows && other !in a.locked && Offered(s, other)
    ensures var mine, its := LastOf(INIT, actions, OrderGiven(a.job)), LastOf(INIT, actions, OrderGiven(other));
      && mine.Some? && its.Some? && mine.value.priority >= its.value.priority
      && (mine.value.priority == its.value.priority ==> mine.value.at <= its.value.at)
  {
    var s := After(INIT, actions);
    var run := FreshRun(s.used);
    assert Enabled(s, DoClaim(s.db.rows.Keys - {other}, other, run, "", 0));
    RowIsWhatActionsGave(actions, a.job);
    RowIsWhatActionsGave(actions, other);
  }

  // ------------------------------------------------------------------ what the log tells

  /** The events of a step: one for each change, with who made it, a second one for an expired lease, and
      none for a heartbeat or for anything that is refused. */
  ghost predicate Tells(s: System, a: Action, es: seq<Event>)
    requires Enabled(s, a)
  {
    match a
    case DoEnqueue(id, jobType, _, key, _, _) =>
      es == if HasKey(s.db, key) then [] else [Event(id, None, None, Enqueued(jobType))]
    case DoClaim(_, job, run, worker, _) =>
      var row := s.db.rows[job];
      es == (if row.status == Leased
             then [Event(job, Some(run), Some(worker), LeaseExpiredReclaimed(row.runId, row.attempts + 1))] else [])
            + [Event(job, Some(run), Some(worker),
                 if row.attempts < row.maxAttempts then Claimed(row.attempts + 1, row.checkpoint)
                 else JobFailed(RETRIES_EXHAUSTED, EXHAUSTED_MESSAGE))]
    case DoRequestCancel(job, actor) =>
      var row := s.db.rows[job];
      es == if row.status == Queued then [Event(job, None, None, JobCancelled(Some(actor)))]
            else if row.status == Leased then [Event(job, row.runId, None, CancelAsked(Some(actor)))]
            else []
    case Tick(_) => es == []
    case DoHeartbeat(_, _, _) => es == []
    case StartComplete(_, _) => es == []
    case StartFail(_, _) => es == []
    case _ => es == if Fence(s.db, a.job, a.run) then [Event(a.job, Some(a.run), Some(a.worker), Report(s, a))] else []
  }

  /** What a run reports when it gets through. */
  ghost function Report(s: System, a: Action): Happening
    requires Enabled(s, a) && (a.DoCheckpoint? || a.EndComplete? || a.EndFail? || a.DoWorkerCancel?)
  {
    match a
    case DoCheckpoint(_, _, _, stage, saved, _) => CheckpointSaved(stage, saved)
    case EndComplete(_, _, _, result) => JobSucceeded(result)
    case EndFail(job, _, _, errorType, message, _, _) =>
      if GivesBack(s, a, job) then RetryScheduled(errorType, Prefix(message, 500))
      else JobFailed(errorType, Prefix(message, 500))
    case _ => JobCancelled(None)
  }

  lemma FencedTells(s: System, a: Action)
    requires Inv(s) && Enabled(s, a) && FencedWrite(a)
    ensures Tells(s, a, if Fence(s.db, a.job, a.run) then WrittenEvents(s, a) else [])
  {
    if a.EndFail? && Fence(s.db, a.job, a.run) { ReadIsTrue(s, a, a.job); }
  }

  /** The log only grows, by the events that say who did what to which job. */
  lemma EventsTell(s: System, a: Action) returns (es: seq<Event>)
    requires Reachable(s) && Enabled(s, a)
    ensures NextDb(s, a).log == s.db.log + es && Tells(s, a, es)
  {
    ReachableInv(s);
    if FencedWrite(a) {
      FencedShape(s, a);
      FencedTells(s, a);
      es := if Fence(s.db, a.job, a.run) then WrittenEvents(s, a) else [];
    } else if a.DoClaim? {
      ClaimShape(s.db, a.job, a.run, a.worker, a.leaseSeconds, s.now);
      var row := s.db.rows[a.job];
      es := ReclaimEvents(row, a.job, a.run, a.worker) + [ClaimEvent(row, a.job, a.run, a.worker)];
    } else {
      es := NextDb(s, a).log[|s.db.log|..];
    }
  }
}
