/**
 The jobs table: one row per job id, changed only by whole-row puts, deletes and
 guarded updates. Each write is first a function on one row; the class below
 performs it on the table.
 */
module Jobs {

  import opened Clock
  import opened Wrappers

  type JobId = int
  type InstanceId = string

  const CLAIM_STALE_THRESHOLD: nat := 100 * SECOND
  const CLAIM_MAX_ATTEMPTS: nat := 3

  datatype Status =
    | Launched | Running | Claiming | Terminating | Requeued
    | Completed | Success | Failed | Error | Orphaned | Cancelled
    | AgentFailure | AgentTimeout | AgentInterrupted

  /** Every status but the live ones, and but failed and orphaned, which a lookup error may stamp. */
  predicate IsTerminal(s: Status): (r: bool)
    ensures r <==> s !in {Launched, Running, Claiming, Terminating, Requeued, Failed, Orphaned}
  {
    match s
    case Completed | Success | Error | Cancelled | AgentFailure | AgentTimeout | AgentInterrupted => true
    case _ => false
  }

  /** A created_at text: empty, unreadable, or a second. */
  datatype Stamp = Missing | Corrupt(text: string) | At(seconds: nat)

  datatype JobRecord = JobRecord(
    instance: Option<InstanceId>,
    runId: int,
    repo: string,
    pool: string,
    spot: bool,
    retryCount: int,
    status: Status,
    createdAt: Stamp,
    completedAt: Option<nat>)

  /** What a processor asks SaveJob to store. */
  datatype Launch = Launch(
    jobId: JobId, runId: int, repo: string, instance: InstanceId,
    pool: string, spot: bool, retryCount: int)

  // ----- the row written by a claim and by a launch

  function ClaimStub(runId: int, repo: string, attempts: int, now: Instant): JobRecord {
    JobRecord(None, runId, repo, "", false, attempts, Claiming, At(Seconds(now)), None)
  }

  function LaunchedRow(l: Launch, now: Instant): JobRecord {
    JobRecord(Some(l.instance), l.runId, l.repo, l.pool, l.spot, l.retryCount,
              Launched, At(Seconds(now)), None)
  }

  // ----- claiming: read, decide, compare-and-swap

  /** An unreadable stamp counts as stale. */
  predicate IsStale(stamp: Stamp, now: Instant) {
    stamp.At? ==> now - stamp.seconds * SECOND >= CLAIM_STALE_THRESHOLD
  }

  /** `observed` is the stamp the write is pinned to; `Missing` pins the absence of a row. */
  datatype Decision =
    | Proceed(attempts: int, observed: Stamp)
    | Refused
    | Exhausted

  function EvaluateClaim(existing: Option<JobRecord>, now: Instant): Decision {
    match existing
    case None => Proceed(1, Missing)
    case Some(r) =>
      match r.status
      case Requeued => Proceed(r.retryCount, r.createdAt)
      case Terminating => Proceed(r.retryCount, r.createdAt)
      case Claiming =>
        if !IsStale(r.createdAt, now) then Refused
        else if r.retryCount >= CLAIM_MAX_ATTEMPTS then Exhausted
        else Proceed(r.retryCount + 1, r.createdAt)
      case _ => Refused
  }

  /** The condition of the claim's put. */
  predicate ClaimAccepted(row: Option<JobRecord>, observed: Stamp) {
    row.None? || (observed != Missing && row.value.createdAt == observed)
  }

  function RowAfterClaim(row: Option<JobRecord>, observed: Stamp, stub: JobRecord): Option<JobRecord> {
    if ClaimAccepted(row, observed) then Some(stub) else row
  }

  // ----- guarded updates

  predicate HasStatus(row: Option<JobRecord>, allowed: set<Status>) {
    row.Some? && row.value.status in allowed
  }

  predicate BoundTo(row: Option<JobRecord>, instance: InstanceId) {
    row.Some? && row.value.instance == Some(instance)
  }

  function RowAfterFailClaim(row: Option<JobRecord>, now: Instant): Option<JobRecord> {
    if HasStatus(row, {Claiming})
    then Some(row.value.(status := Error, completedAt := Some(Seconds(now)))) else row
  }

  function RowAfterStarted(row: Option<JobRecord>): Option<JobRecord> {
    if HasStatus(row, {Launched}) then Some(row.value.(status := Running)) else row
  }

  function RowAfterComplete(row: Option<JobRecord>, instance: InstanceId, status: Status, now: Instant): Option<JobRecord> {
    if BoundTo(row, instance)
    then Some(row.value.(status := status, completedAt := Some(Seconds(now)))) else row
  }

  function RowAfterCancel(row: Option<JobRecord>, now: Instant): Option<JobRecord> {
    if HasStatus(row, {Launched})
    then Some(row.value.(status := Cancelled, completedAt := Some(Seconds(now)))) else row
  }

  function RowAfterRequeue(row: Option<JobRecord>): Option<JobRecord> {
    if HasStatus(row, {Running, Launched}) then Some(row.value.(status := Requeued)) else row
  }

  /** Read by instance, then write, taken as one step. */
  function RowAfterTerminating(row: Option<JobRecord>, instance: InstanceId): Option<JobRecord> {
    if BoundTo(row, instance) && HasStatus(row, {Running, Launched})
    then Some(row.value.(status := Terminating)) else row
  }

  // ----- writes of the housekeeping sweeps and of an operator, guarded on the status alone

  /** Back to requeued from the status it was observed in; the operator's form also clears the instance. */
  function RowAfterFlip(row: Option<JobRecord>, from: Status, clearInstance: bool): Option<JobRecord> {
    if HasStatus(row, {from})
    then Some(row.value.(status := Requeued, instance := if clearInstance then None else row.value.instance)) else row
  }

  /** A requeue whose message could not be sent is put back. */
  function RowAfterRollback(row: Option<JobRecord>, to: Status): Option<JobRecord> {
    if HasStatus(row, {Requeued}) then Some(row.value.(status := to)) else row
  }

  function RowAfterOrphan(row: Option<JobRecord>, observed: Status, now: Instant): Option<JobRecord> {
    if HasStatus(row, {observed})
    then Some(row.value.(status := Orphaned, completedAt := Some(Seconds(now)), pool := "")) else row
  }

  /** Settled from GitHub's conclusion. */
  function RowAfterSettle(row: Option<JobRecord>, now: Instant): Option<JobRecord> {
    if HasStatus(row, {Running, Claiming})
    then Some(row.value.(status := Completed, completedAt := Some(Seconds(now)))) else row
  }

  function RowAfterFailLaunched(row: Option<JobRecord>, now: Instant): Option<JobRecord> {
    if HasStatus(row, {Launched})
    then Some(row.value.(status := Error, completedAt := Some(Seconds(now)))) else row
  }

  /** The agent's own times, written without a guard. */
  function RowAfterReport(row: Option<JobRecord>, completed: nat): Option<JobRecord> {
    if row.Some? then Some(row.value.(completedAt := Some(completed))) else row
  }

  // ----- what a sequential claim comes to

  /**
   A stale lease below the attempt cap can be taken over exactly when its created_at
   is not the empty text: the empty text is judged stale like any unreadable stamp,
   but it is also the write's "no row was seen" marker, so the write then demands
   that no row exists.
   */
  lemma StaleLeaseRecoverable(r: JobRecord, readAt: Instant)
    requires r.status == Claiming && IsStale(r.createdAt, readAt) && r.retryCount < CLAIM_MAX_ATTEMPTS
    ensures var d := EvaluateClaim(Some(r), readAt);
            d.Proceed? && (ClaimAccepted(Some(r), d.observed) <==> r.createdAt != Missing)
  {
  }

  /** One orchestrator's handle on the jobs table. `reached` says whether a call got an answer. */
  class JobsTable {
    const configured: bool
    var rows: map<JobId, JobRecord>

    constructor (configured: bool)
      ensures rows == map[] && this.configured == configured
    {
      this.configured := configured;
      rows := map[];
    }

    /** The row of a job, if there is one. */
    function RowOf(jobId: JobId): Option<JobRecord>
      reads this
    {
      Lookup(rows, jobId)
    }

    method WriteClaim(jobId: JobId, stub: JobRecord, observed: Stamp, reached: bool) returns (r: ClaimResult)
      modifies this`rows
      ensures rows == if reached then Store(old(rows), jobId, RowAfterClaim(old(RowOf(jobId)), observed, stub)) else old(rows)
      ensures r == CallFailed <==> !reached
      ensures r == Claimed <==> reached && (jobId !in old(rows) || (observed != Missing && old(rows)[jobId].createdAt == observed))
      ensures r == Claimed || r == AlreadyClaimed || r == CallFailed
      ensures rows == if r == Claimed then old(rows)[jobId := stub] else old(rows)
    {
      if !reached { return CallFailed; }
      if jobId in rows && (observed == Missing || rows[jobId].createdAt != observed) {
        return AlreadyClaimed;
      }
      rows := rows[jobId := stub];
      return Claimed;
    }

    /**
     Absent, requeued, terminating or stale below the cap: claimed. Stale at the cap: exhausted.
     Anything else is somebody's, a row without a created_at included.
     */
    method ClaimJob(jobId: JobId, runId: int, repo: string,
                    readAt: Instant, writeAt: Instant, readReached: bool, writeReached: bool)
      returns (r: ClaimResult)
      modifies this`rows
      ensures r == Rejected <==> jobId == 0 || !configured
      ensures r == ClaimExhausted <==>
                && jobId != 0 && configured && readReached && jobId in old(rows)
                && var row := old(rows)[jobId];
                   && row.status == Claiming && (row.createdAt.At? ==> (row.createdAt.seconds + 100) * SECOND <= readAt)
                   && row.retryCount >= 3
      ensures r == Claimed || (r == CallFailed && readReached) ==>
                jobId in old(rows) ==>
                  var row := old(rows)[jobId];
                  || row.status == Requeued || row.status == Terminating
                  || (&& row.status == Claiming && (row.createdAt.At? ==> (row.createdAt.seconds + 100) * SECOND <= readAt)
                      && row.retryCount < 3)
      ensures r == AlreadyClaimed ==>
                && jobId != 0 && configured && readReached && jobId in old(rows)
                && var row := old(rows)[jobId];
                   || row.status !in {Requeued, Terminating, Claiming}
                   || (row.status == Claiming && row.createdAt.At? && readAt < (row.createdAt.seconds + 100) * SECOND)
                   || (row.createdAt == Missing && writeReached && (row.status == Claiming ==> row.retryCount < 3))
      ensures r == Claimed ==> writeReached && (jobId in old(rows) ==> old(rows)[jobId].createdAt != Missing)
      ensures r == CallFailed ==> !readReached || !writeReached
      ensures jobId != 0 && configured && !readReached ==> r == CallFailed
      ensures r == Claimed ==>
                && jobId in rows && rows == old(rows)[jobId := rows[jobId]]
                && rows[jobId] == JobRecord(None, runId, repo, "", false, rows[jobId].retryCount, Claiming, At(writeAt / SECOND), None)
                && rows[jobId].retryCount == (if jobId !in old(rows) then 1
                                              else if old(rows)[jobId].status == Claiming
                                              then old(rows)[jobId].retryCount + 1
                                              else old(rows)[jobId].retryCount)
      ensures r != Claimed ==> rows == old(rows)
    {
      if jobId == 0 || !configured { return Rejected; }
      if !readReached { return CallFailed; }
      match EvaluateClaim(RowOf(jobId), readAt) {
        case Refused => return AlreadyClaimed;
        case Exhausted => return ClaimExhausted;
        case Proceed(attempts, observed) =>
          r := WriteClaim(jobId, ClaimStub(runId, repo, attempts, writeAt), observed, writeReached);
      }
    }

    method SaveJob(l: Launch, now: Instant, reached: bool) returns (ok: bool)
      modifies this`rows
      ensures ok <==> l.jobId != 0 && l.instance != "" && configured && reached
      ensures ok ==> rows == old(rows)[l.jobId := LaunchedRow(l, now)]
      ensures ok ==> rows[l.jobId] == JobRecord(Some(l.instance), l.runId, l.repo, l.pool, l.spot, l.retryCount,
                                                Launched, At(now / SECOND), None)
      ensures !ok ==> rows == old(rows)
    {
      if l.jobId == 0 || l.instance == "" || !configured || !reached { return false; }
      rows := rows[l.jobId := LaunchedRow(l, now)];
      return true;
    }

    method DeleteJobClaim(jobId: JobId, reached: bool) returns (ok: bool)
      modifies this`rows
      ensures ok <==> jobId != 0 && configured && reached
      ensures rows == if ok then old(rows) - {jobId} else old(rows)
    {
      if jobId == 0 || !configured || !reached { return false; }
      rows := rows - {jobId};
      return true;
    }

    /** Succeeds without a write when the job has moved on. */
    method FailExhaustedClaim(jobId: JobId, now: Instant, reached: bool) returns (ok: bool)
      modifies this`rows
      ensures ok <==> jobId != 0 && configured && reached
      ensures rows == if ok then Store(old(rows), jobId, RowAfterFailClaim(old(RowOf(jobId)), now)) else old(rows)
      ensures rows == if ok && jobId in old(rows) && old(rows)[jobId].status == Claiming
                      then old(rows)[jobId := old(rows)[jobId].(status := Error, completedAt := Some(now / SECOND))]
                      else old(rows)
    {
      if jobId == 0 || !configured || !reached { return false; }
      if jobId in rows && rows[jobId].status == Claiming {
        rows := rows[jobId := rows[jobId].(status := Error, completedAt := Some(Seconds(now)))];
      }
      return true;
    }

    /** `updated` is the row echoed back; none when the condition failed. */
    method MarkJobStarted(jobId: JobId, reached: bool) returns (ok: bool, updated: Option<JobRecord>)
      modifies this`rows
      ensures ok <==> jobId != 0 && configured && reached
      ensures rows == if ok then Store(old(rows), jobId, RowAfterStarted(old(RowOf(jobId)))) else old(rows)
      ensures updated.Some? <==> ok && jobId in old(rows) && old(rows)[jobId].status == Launched
      ensures updated.Some? ==> updated == Some(old(rows)[jobId].(status := Running)) && rows == old(rows)[jobId := updated.value]
      ensures updated.None? ==> rows == old(rows)
    {
      if jobId == 0 || !configured || !reached { return false, None; }
      if jobId in rows && rows[jobId].status == Launched {
        rows := rows[jobId := rows[jobId].(status := Running)];
        return true, Some(rows[jobId]);
      }
      return true, None;
    }

    method MarkJobComplete(jobId: JobId, instance: InstanceId, status: Option<Status>, now: Instant, reached: bool)
      returns (ok: bool, updated: Option<JobRecord>)
      modifies this`rows
      ensures ok <==> jobId != 0 && instance != "" && status.Some? && reached
      ensures rows == if ok then Store(old(rows), jobId, RowAfterComplete(old(RowOf(jobId)), instance, status.value, now))
                      else old(rows)
      ensures updated.Some? <==> ok && jobId in old(rows) && old(rows)[jobId].instance == Some(instance)
      ensures updated.Some? ==>
                && updated == Some(old(rows)[jobId].(status := status.value, completedAt := Some(now / SECOND)))
                && rows == old(rows)[jobId := updated.value]
      ensures updated.None? ==> rows == old(rows)
    {
      if jobId == 0 || instance == "" || status.None? || !reached { return false, None; }
      if jobId in rows && rows[jobId].instance == Some(instance) {
        rows := rows[jobId := rows[jobId].(status := status.value, completedAt := Some(Seconds(now)))];
        return true, Some(rows[jobId]);
      }
      return true, None;
    }

    method MarkJobCancelled(jobId: JobId, now: Instant, reached: bool) returns (ok: bool, marked: bool)
      modifies this`rows
      ensures ok <==> jobId != 0 && configured && reached
      ensures marked <==> ok && jobId in old(rows) && old(rows)[jobId].status == Launched
      ensures rows == if ok then Store(old(rows), jobId, RowAfterCancel(old(RowOf(jobId)), now)) else old(rows)
      ensures rows == if marked then old(rows)[jobId := old(rows)[jobId].(status := Cancelled, completedAt := Some(now / SECOND))]
                      else old(rows)
    {
      if jobId == 0 || !configured || !reached { return false, false; }
      if jobId in rows && rows[jobId].status == Launched {
        rows := rows[jobId := rows[jobId].(status := Cancelled, completedAt := Some(Seconds(now)))];
        return true, true;
      }
      return true, false;
    }

    method MarkJobRequeued(jobId: JobId, reached: bool) returns (ok: bool, marked: bool)
      modifies this`rows
      ensures ok <==> jobId != 0 && configured && reached
      ensures marked <==> ok && jobId in old(rows) && (old(rows)[jobId].status == Running || old(rows)[jobId].status == Launched)
      ensures rows == if ok then Store(old(rows), jobId, RowAfterRequeue(old(RowOf(jobId)))) else old(rows)
      ensures rows == if marked then old(rows)[jobId := old(rows)[jobId].(status := Requeued)] else old(rows)
    {
      if jobId == 0 || !configured || !reached { return false, false; }
      if jobId in rows && (rows[jobId].status == Running || rows[jobId].status == Launched) {
        rows := rows[jobId := rows[jobId].(status := Requeued)];
        return true, true;
      }
      return true, false;
    }

    /** The job read as the instance's, then written; taken as one step. */
    method MarkInstanceTerminating(jobId: JobId, instance: InstanceId, reached: bool) returns (ok: bool)
      modifies this`rows
      ensures ok <==> instance != "" && configured && reached
      ensures rows == if ok then Store(old(rows), jobId, RowAfterTerminating(old(RowOf(jobId)), instance)) else old(rows)
      ensures rows == if && ok && jobId in old(rows) && old(rows)[jobId].instance == Some(instance)
                         && (old(rows)[jobId].status == Running || old(rows)[jobId].status == Launched)
                      then old(rows)[jobId := old(rows)[jobId].(status := Terminating)] else old(rows)
    {
      if instance == "" || !configured || !reached { return false; }
      if jobId in rows && rows[jobId].instance == Some(instance)
         && (rows[jobId].status == Running || rows[jobId].status == Launched) {
        rows := rows[jobId := rows[jobId].(status := Terminating)];
      }
      return true;
    }

    // ----- writes of the housekeeping sweeps and of an operator

    /** The operator's and the stale sweep's flip clears the instance, the watchdog's does not. */
    method MarkRequeued(jobId: JobId, from: Status, clearInstance: bool, reached: bool) returns (ok: bool, flipped: bool)
      modifies this`rows
      ensures ok == reached
      ensures flipped <==> reached && jobId in old(rows) && old(rows)[jobId].status == from
      ensures rows == if ok then Store(old(rows), jobId, RowAfterFlip(old(RowOf(jobId)), from, clearInstance)) else old(rows)
      ensures rows == if !flipped then old(rows)
                      else if clearInstance then old(rows)[jobId := old(rows)[jobId].(status := Requeued, instance := None)]
                      else old(rows)[jobId := old(rows)[jobId].(status := Requeued)]
    {
      if !reached { return false, false; }
      if jobId in rows && rows[jobId].status == from {
        rows := rows[jobId := rows[jobId].(status := Requeued)];
        if clearInstance { rows := rows[jobId := rows[jobId].(instance := None)]; }
        return true, true;
      }
      return true, false;
    }

    method RollbackRequeueFlip(jobId: JobId, to: Status, reached: bool)
      modifies this`rows
      ensures rows == if reached then Store(old(rows), jobId, RowAfterRollback(old(RowOf(jobId)), to)) else old(rows)
      ensures rows == if reached && jobId in old(rows) && old(rows)[jobId].status == Requeued
                      then old(rows)[jobId := old(rows)[jobId].(status := to)] else old(rows)
    {
      if reached && jobId in rows && rows[jobId].status == Requeued {
        rows := rows[jobId := rows[jobId].(status := to)];
      }
    }

    /** A settled status is refused outright. */
    method MarkJobOrphaned(jobId: JobId, observed: Status, now: Instant, reached: bool) returns (ok: bool, marked: bool)
      modifies this`rows
      ensures ok <==> observed in {Running, Claiming, Launched, Requeued} && reached
      ensures marked <==> ok && jobId in old(rows) && old(rows)[jobId].status == observed
      ensures rows == if ok then Store(old(rows), jobId, RowAfterOrphan(old(RowOf(jobId)), observed, now)) else old(rows)
      ensures rows == if marked
                      then old(rows)[jobId := old(rows)[jobId].(status := Orphaned, completedAt := Some(now / SECOND), pool := "")]
                      else old(rows)
    {
      if observed !in {Running, Claiming, Launched, Requeued} || !reached { return false, false; }
      if jobId in rows && rows[jobId].status == observed {
        rows := rows[jobId := rows[jobId].(status := Orphaned, completedAt := Some(Seconds(now)), pool := "")];
        return true, true;
      }
      return true, false;
    }

    /** Finalized from GitHub's conclusion. */
    method MarkJobCompleted(jobId: JobId, now: Instant, reached: bool) returns (ok: bool)
      modifies this`rows
      ensures ok == reached
      ensures rows == if ok then Store(old(rows), jobId, RowAfterSettle(old(RowOf(jobId)), now)) else old(rows)
      ensures rows == if ok && jobId in old(rows) && (old(rows)[jobId].status == Running || old(rows)[jobId].status == Claiming)
                      then old(rows)[jobId := old(rows)[jobId].(status := Completed, completedAt := Some(now / SECOND))]
                      else old(rows)
    {
      if !reached { return false; }
      if jobId in rows && (rows[jobId].status == Running || rows[jobId].status == Claiming) {
        rows := rows[jobId := rows[jobId].(status := Completed, completedAt := Some(Seconds(now)))];
      }
      return true;
    }

    /** An unconfirmed job out of retries. */
    method MarkLaunchedJobError(jobId: JobId, now: Instant, reached: bool) returns (ok: bool)
      modifies this`rows
      ensures ok == reached
      ensures rows == if ok then Store(old(rows), jobId, RowAfterFailLaunched(old(RowOf(jobId)), now)) else old(rows)
      ensures rows == if ok && jobId in old(rows) && old(rows)[jobId].status == Launched
                      then old(rows)[jobId := old(rows)[jobId].(status := Error, completedAt := Some(now / SECOND))]
                      else old(rows)
    {
      if !reached { return false; }
      if jobId in rows && rows[jobId].status == Launched {
        rows := rows[jobId := rows[jobId].(status := Error, completedAt := Some(Seconds(now)))];
      }
      return true;
    }

    method UpdateJobMetrics(jobId: JobId, completed: nat, reached: bool) returns (ok: bool)
      modifies this`rows
      ensures ok <==> jobId != 0 && reached
      ensures rows == if ok then Store(old(rows), jobId, RowAfterReport(old(RowOf(jobId)), completed)) else old(rows)
      ensures rows == if ok && jobId in old(rows) then old(rows)[jobId := old(rows)[jobId].(completedAt := Some(completed))]
                      else old(rows)
    {
      if jobId == 0 || !reached { return false; }
      if jobId in rows {
        rows := rows[jobId := rows[jobId].(completedAt := Some(completed))];
      }
      return true;
    }
  }

  datatype ClaimResult = Claimed | AlreadyClaimed | ClaimExhausted | Rejected | CallFailed
}
