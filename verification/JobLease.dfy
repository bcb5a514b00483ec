/**
 The job lease as a state machine: any number of processors, each claiming with a
 read and a later compare-and-swap, interleaved with the other writers of the row:
 webhooks, agents, spot interruptions, the housekeeping sweeps and an operator.

 `Enabled` is what the code can do. `Disciplined` adds what it relies on: a holder
 writes within its processing budget, a takeover of a requeued or terminating row is
 stamped in a later second than the row it read, completions carry a terminal status,
 and a write guarded on the status alone, or a delete guarded on nothing, does not
 land on a lease that may still be held.
 */
module JobLease {

  import opened Clock
  import opened Wrappers
  import opened Jobs

  const PROCESS_BUDGET: nat := 90 * SECOND

  type Worker(==, !new) = nat

  datatype Phase =
    | Idle
    /** Read done and allowed to proceed; the conditional put is still to come. */
    | Deciding(job: JobId, runId: int, repo: string, seen: Option<JobRecord>, readAt: Instant)
    /** Read answered exhausted; the terminal write is still to come. */
    | GivingUp(job: JobId, stuck: JobRecord, readAt: Instant)
    | Holding(job: JobId, stub: JobRecord, since: Instant)
    /** Row saved; runner configuration is being written. */
    | Preparing(job: JobId)

  /** `swept` remembers the jobs that a sweep or a late release has touched. */
  datatype State = State(now: Instant, table: map<JobId, JobRecord>, workers: map<Worker, Phase>, swept: set<JobId>)

  /** The writes that look at the status alone, or at nothing. */
  datatype SweepWrite =
    | Flip(from: Status, clearInstance: bool)
    | Rollback(to: Status)
    | Orphan(observed: Status)
    | Settle
    | FailLaunched
    | Report(completed: nat)
    /** Old rows are scanned for and then deleted outright. */
    | Purge

  datatype Step =
    | Tick(to: Instant)
    | ClaimRead(w: Worker, job: JobId, runId: int, repo: string)
    | ClaimWrite(w: Worker)
    | Save(w: Worker, launch: Launch)
    | Release(w: Worker)
    | FailClaim(w: Worker)
    | LateRelease(w: Worker)
    | Stop(w: Worker)
    | Started(job: JobId)
    | Complete(job: JobId, instance: InstanceId, status: Status)
    | Cancel(job: JobId)
    | Requeue(job: JobId)
    | Terminate(job: JobId, instance: InstanceId)
    | Sweep(job: JobId, write: SweepWrite)

  function PhaseOf(s: State, w: Worker): Phase {
    if w in s.workers then s.workers[w] else Idle
  }

  function Row(s: State, j: JobId): Option<JobRecord> {
    Lookup(s.table, j)
  }

  /** A holder inside its processing budget. */
  predicate Live(s: State, w: Worker, j: JobId) {
    var p := PhaseOf(s, w);
    p.Holding? && p.job == j && s.now < p.since + PROCESS_BUDGET
  }

  function WithPhase(s: State, w: Worker, p: Phase): State {
    s.(workers := s.workers[w := p])
  }

  function WithRow(s: State, j: JobId, r: Option<JobRecord>): State {
    s.(table := Store(s.table, j, r))
  }

  function MarkSwept(s: State, j: JobId): State {
    s.(swept := s.swept + {j})
  }

  /** The latest instant, up to now, that is written down as this second. */
  function LatestIn(second: nat, now: Instant): Instant {
    if now < (second + 1) * SECOND then now else (second + 1) * SECOND - 1
  }

  /** A claiming stub young enough for its writer to be inside its processing budget. */
  predicate MightBeHeld(row: Option<JobRecord>, now: Instant) {
    row.Some? && row.value.createdAt.At?
    && var latest := LatestIn(row.value.createdAt.seconds, now);
       row.value == ClaimStub(row.value.runId, row.value.repo, row.value.retryCount, latest) && now < latest + PROCESS_BUDGET
  }

  // ----- steps

  function RowAfterSweep(row: Option<JobRecord>, write: SweepWrite, now: Instant): Option<JobRecord> {
    match write
    case Flip(from, clear) => RowAfterFlip(row, from, clear)
    case Rollback(to) => RowAfterRollback(row, to)
    case Orphan(observed) => RowAfterOrphan(row, observed, now)
    case Settle => RowAfterSettle(row, now)
    case FailLaunched => RowAfterFailLaunched(row, now)
    case Report(completed) => RowAfterReport(row, completed)
    case Purge => None
  }

  function Pinned(p: Phase): Stamp
    requires p.Deciding?
  {
    if p.seen.Some? then p.seen.value.createdAt else Missing
  }

  function Attempts(p: Phase): int
    requires p.Deciding?
  {
    var d := EvaluateClaim(p.seen, p.readAt);
    if d.Proceed? then d.attempts else 0
  }

  predicate Wins(s: State, w: Worker) {
    var p := PhaseOf(s, w);
    p.Deciding? && ClaimAccepted(Row(s, p.job), Pinned(p))
  }

  predicate Enabled(s: State, step: Step) {
    match step
    case Tick(to) => s.now <= to
    case ClaimRead(w, _, _, _) => PhaseOf(s, w).Idle?
    case ClaimWrite(w) => PhaseOf(s, w).Deciding?
    case Save(w, l) => PhaseOf(s, w).Holding? && l.jobId == PhaseOf(s, w).job
    case Release(w) => PhaseOf(s, w).Holding?
    case FailClaim(w) => PhaseOf(s, w).GivingUp? || PhaseOf(s, w).Holding?
    case LateRelease(w) => PhaseOf(s, w).Preparing?
    case Sweep(_, Flip(from, _)) => from in {Launched, Running, Claiming}
    case Sweep(_, Rollback(to)) => to in {Launched, Running, Claiming}
    case Sweep(_, Orphan(observed)) => observed in {Launched, Running, Claiming, Requeued}
    case _ => true
  }

  function AfterRead(s: State, w: Worker, j: JobId, runId: int, repo: string): State {
    match EvaluateClaim(Row(s, j), s.now)
    case Proceed(_, _) => WithPhase(s, w, Deciding(j, runId, repo, Row(s, j), s.now))
    case Exhausted => WithPhase(s, w, GivingUp(j, Row(s, j).value, s.now))
    case Refused => s
  }

  function AfterClaimWrite(s: State, w: Worker): State
    requires PhaseOf(s, w).Deciding?
  {
    var p := PhaseOf(s, w);
    var stub := ClaimStub(p.runId, p.repo, Attempts(p), s.now);
    var s1 := WithRow(s, p.job, RowAfterClaim(Row(s, p.job), Pinned(p), stub));
    WithPhase(s1, w, if Wins(s, w) then Holding(p.job, stub, s.now) else Idle)
  }

  function Apply(s: State, step: Step): State
    requires Enabled(s, step)
  {
    match step
    case Tick(to) => s.(now := to)
    case ClaimRead(w, j, runId, repo) => AfterRead(s, w, j, runId, repo)
    case ClaimWrite(w) => AfterClaimWrite(s, w)
    case Save(w, l) => WithPhase(WithRow(s, l.jobId, Some(LaunchedRow(l, s.now))), w, Preparing(l.jobId))
    case Release(w) => WithPhase(WithRow(s, PhaseOf(s, w).job, None), w, Idle)
    case FailClaim(w) =>
      var j := PhaseOf(s, w).job;
      WithPhase(WithRow(s, j, RowAfterFailClaim(Row(s, j), s.now)), w, Idle)
    case LateRelease(w) => WithPhase(WithRow(MarkSwept(s, PhaseOf(s, w).job), PhaseOf(s, w).job, None), w, Idle)
    case Stop(w) => WithPhase(s, w, Idle)
    case Started(j) => WithRow(s, j, RowAfterStarted(Row(s, j)))
    case Complete(j, i, st) => WithRow(s, j, RowAfterComplete(Row(s, j), i, st, s.now))
    case Cancel(j) => WithRow(s, j, RowAfterCancel(Row(s, j), s.now))
    case Requeue(j) => WithRow(s, j, RowAfterRequeue(Row(s, j)))
    case Terminate(j, i) => WithRow(s, j, RowAfterTerminating(Row(s, j), i))
    case Sweep(j, write) => WithRow(MarkSwept(s, j), j, RowAfterSweep(Row(s, j), write, s.now))
  }

  /** The put, if it lands on a row, is stamped in a later second than the row it read. */
  predicate StampedLater(s: State, p: Phase)
    requires p.Deciding?
  {
    p.seen.Some? && p.seen.value.status in {Requeued, Terminating} && Row(s, p.job).Some? ==>
      p.seen.value.createdAt.At? && p.seen.value.createdAt.seconds < Seconds(s.now)
  }

  /** A row may be changed, keeping its stamp, or deleted, when no claim can be live on it before or after. */
  predicate Benign(before: Option<JobRecord>, after: Option<JobRecord>, now: Instant) {
    before != after ==>
      && before.Some? && !MightBeHeld(before, now) && !MightBeHeld(after, now)
      && (after.None? ==> before.value.createdAt.At? && before.value.createdAt.seconds < Seconds(now))
  }

  predicate Disciplined(s: State, step: Step)
    requires Enabled(s, step)
  {
    match step
    case ClaimWrite(w) => Wins(s, w) ==> StampedLater(s, PhaseOf(s, w))
    case Save(w, l) => Live(s, w, l.jobId)
    case Release(w) => Live(s, w, PhaseOf(s, w).job)
    case FailClaim(w) =>
      var j := PhaseOf(s, w).job;
      if PhaseOf(s, w).Holding? then Live(s, w, j) else j in s.swept ==> !MightBeHeld(Row(s, j), s.now)
    case LateRelease(w) => Benign(Row(s, PhaseOf(s, w).job), None, s.now)
    case Sweep(j, write) => Benign(Row(s, j), RowAfterSweep(Row(s, j), write, s.now), s.now)
    case Complete(_, _, st) => IsTerminal(st)
    case _ => true
  }

  ghost predicate Next(s: State, step: Step, s': State) {
    Enabled(s, step) && Disciplined(s, step) && s' == Apply(s, step)
  }

  // ----- the invariant

  predicate RowOk(r: JobRecord, now: Instant) {
    r.createdAt.At? && r.createdAt.seconds <= Seconds(now)
  }

  /** A lease has no instance, unless a sweep interfered. */
  ghost predicate RowsOk(s: State) {
    forall j :: j in s.table ==>
      RowOk(s.table[j], s.now) && (j !in s.swept && s.table[j].status == Claiming ==> s.table[j].instance.None?)
  }

  /** Nothing stamped in this second, or before, is or will be in the row again. */
  predicate Superseded(s: State, j: JobId, second: nat) {
    && second < Seconds(s.now)
    && (j in s.table && s.table[j].createdAt.At? ==> second < s.table[j].createdAt.seconds)
  }

  predicate Stamped(row: Option<JobRecord>, second: nat) {
    row.Some? && row.value.createdAt == At(second)
  }

  /**
   A row seen requeued or terminating is superseded, or its stamp is there and nobody holds it;
   a row with the stamp that was seen has the attempt count that was seen.
   */
  predicate DecidingOk(s: State, p: Phase)
    requires p.Deciding?
  {
    && p.readAt <= s.now
    && EvaluateClaim(p.seen, p.readAt).Proceed?
    && (p.seen.Some? ==>
      && RowOk(p.seen.value, s.now)
      && var second := p.seen.value.createdAt.seconds;
      && var row := Row(s, p.job);
      && (p.seen.value.status != Claiming ==>
            Superseded(s, p.job, second) || (Stamped(row, second) && !MightBeHeld(row, s.now)))
      && (Stamped(row, second) ==> row.value.retryCount == p.seen.value.retryCount)
      && (p.job !in s.swept && Stamped(row, second) ==>
            if p.seen.value.status == Claiming then row == p.seen
            else row.value.instance.Some? || row.value.status !in {Claiming, Error}))
  }

  predicate GivingUpOk(s: State, p: Phase)
    requires p.GivingUp?
  {
    && p.readAt <= s.now && RowOk(p.stuck, s.now)
    && EvaluateClaim(Some(p.stuck), p.readAt).Exhausted?
    && (p.job !in s.swept ==>
      && Row(s, p.job).Some?
      && var r := Row(s, p.job).value;
      && r.createdAt == p.stuck.createdAt && r.retryCount == p.stuck.retryCount
      && r.instance.None? && r.status in {Claiming, Error})
  }

  predicate HoldingOk(s: State, p: Phase)
    requires p.Holding?
  {
    && p.since <= s.now
    && p.stub == ClaimStub(p.stub.runId, p.stub.repo, p.stub.retryCount, p.since)
    && (s.now < p.since + PROCESS_BUDGET ==> Row(s, p.job) == Some(p.stub))
  }

  predicate PhaseOk(s: State, p: Phase) {
    match p
    case Deciding(_, _, _, _, _) => DecidingOk(s, p)
    case GivingUp(_, _, _) => GivingUpOk(s, p)
    case Holding(_, _, _) => HoldingOk(s, p)
    case _ => true
  }

  ghost predicate Exclusive(s: State) {
    forall w1, w2, j :: Live(s, w1, j) && Live(s, w2, j) ==> w1 == w2
  }

  ghost predicate Inv(s: State) {
    && RowsOk(s)
    && (forall w :: PhaseOk(s, PhaseOf(s, w)))
    && Exclusive(s)
  }

  /** No processor is active; the table may hold any rows with readable, past stamps, leases without an instance. */
  ghost predicate Init(s: State) {
    && RowsOk(s) && s.swept == {}
    && (forall w :: PhaseOf(s, w).Idle?)
  }

  // ----- who might hold a row

  lemma LatestInSecond(second: nat, now: Instant)
    requires second <= Seconds(now)
    ensures var latest := LatestIn(second, now); latest <= now && Seconds(latest) == second
    ensures forall t: Instant :: t <= now && Seconds(t) == second ==> t <= LatestIn(second, now)
  {
  }

  /** A live holder's row is one that might be held. */
  lemma LiveMightBeHeld(s: State, p: Phase)
    requires p.Holding? && HoldingOk(s, p) && s.now < p.since + PROCESS_BUDGET
    ensures MightBeHeld(Row(s, p.job), s.now)
  {
    LatestInSecond(Seconds(p.since), s.now);
  }

  lemma HeldFades(row: Option<JobRecord>, now: Instant, later: Instant)
    requires now <= later && !MightBeHeld(row, now) && (row.Some? ==> RowOk(row.value, now))
    ensures !MightBeHeld(row, later)
  {
    if row.Some? {
      LatestInSecond(row.value.createdAt.seconds, now);
      LatestInSecond(row.value.createdAt.seconds, later);
    }
  }

  /** What was read as stale is past, and nobody can be holding it. */
  lemma StaleIsPast(row: Option<JobRecord>, second: nat, readAt: Instant, now: Instant)
    requires readAt <= now && IsStale(At(second), readAt)
    ensures second < Seconds(now)
    ensures Stamped(row, second) ==> !MightBeHeld(row, now)
  {
  }

  // ----- preservation, one phase and one step at a time

  /** Time alone breaks nothing. */
  lemma TickKeepsPhase(s: State, s': State, p: Phase)
    requires s' == s.(now := s'.now) && s.now <= s'.now
    requires RowsOk(s) && PhaseOk(s, p)
    ensures PhaseOk(s', p)
  {
    assert Seconds(s.now) <= Seconds(s'.now);
    if p.Deciding? && !MightBeHeld(Row(s, p.job), s.now) {
      HeldFades(Row(s, p.job), s.now, s'.now);
    }
  }

  predicate IsLease(r: JobRecord) {
    r.status == Claiming || (r.status == Error && r.instance.None?)
  }

  /** A row change that keeps stamp, attempt count and instance, on a row that is no lease, held or failed. */
  predicate StatusOnly(before: Option<JobRecord>, after: Option<JobRecord>) {
    || before == after
    || (before.Some? && after.Some? && !IsLease(before.value)
        && after.value.instance == before.value.instance
        && after.value.createdAt == before.value.createdAt
        && after.value.retryCount == before.value.retryCount
        && !IsLease(after.value))
  }

  predicate KeepsStamp(before: Option<JobRecord>, after: Option<JobRecord>) {
    before.Some? && after.Some? ==>
      after.value.createdAt == before.value.createdAt && after.value.retryCount == before.value.retryCount
  }

  /** A write to a row that nobody might hold; on a job no sweep or late release has touched it changes the status only. */
  predicate Harmless(s: State, j: JobId, r: Option<JobRecord>, s': State) {
    && s'.now == s.now && s'.table == Store(s.table, j, r)
    && s.swept <= s'.swept <= s.swept + {j}
    && Benign(Row(s, j), r, s.now) && KeepsStamp(Row(s, j), r)
    && (j !in s'.swept ==> StatusOnly(Row(s, j), r))
  }

  lemma HarmlessKeepsPhase(s: State, j: JobId, r: Option<JobRecord>, s': State, p: Phase)
    requires RowsOk(s) && Harmless(s, j, r, s') && PhaseOk(s, p)
    ensures PhaseOk(s', p)
  {
    if !p.Idle? && !p.Preparing? {
      assert Row(s', p.job) == if p.job == j then r else Row(s, p.job);
      if p.Holding? && s.now < p.since + PROCESS_BUDGET {
        LiveMightBeHeld(s, p);
      }
    }
  }

  /** A claim never wins over a live holder, nor over an untouched row someone is giving up on. */
  lemma WinnerMeetsNoHolder(s: State, w: Worker, v: Worker)
    requires Inv(s) && Wins(s, w) && StampedLater(s, PhaseOf(s, w))
    ensures !Live(s, v, PhaseOf(s, w).job)
    ensures PhaseOf(s, v).GivingUp? && PhaseOf(s, w).job !in s.swept ==> PhaseOf(s, v).job != PhaseOf(s, w).job
  {
    var p, q := PhaseOf(s, w), PhaseOf(s, v);
    assert PhaseOk(s, p) && PhaseOk(s, q);
    if Live(s, v, p.job) {
      LiveMightBeHeld(s, q);
      if p.seen.Some? && p.seen.value.status == Claiming {
        StaleIsPast(Row(s, p.job), p.seen.value.createdAt.seconds, p.readAt, s.now);
      }
    }
  }

  /** The winner's put leaves every other processor's knowledge intact. */
  lemma ClaimKeepsPhase(s: State, w: Worker, v: Worker)
    requires Inv(s) && Wins(s, w) && StampedLater(s, PhaseOf(s, w)) && v != w
    ensures PhaseOk(AfterClaimWrite(s, w), PhaseOf(s, v))
  {
    var p, q, s' := PhaseOf(s, w), PhaseOf(s, v), AfterClaimWrite(s, w);
    assert PhaseOk(s, p) && PhaseOk(s, q);
    WinnerMeetsNoHolder(s, w, v);
    if !q.Idle? && !q.Preparing? {
      if q.job != p.job {
        assert Row(s', q.job) == Row(s, q.job);
      } else if q.Deciding? && q.seen.Some? {
        if q.seen.value.status == Claiming {
          StaleIsPast(None, q.seen.value.createdAt.seconds, q.readAt, s.now);
        } else if p.seen.Some? && p.seen.value.status == Claiming {
          StaleIsPast(None, p.seen.value.createdAt.seconds, p.readAt, s.now);
        }
      }
    }
  }

  /** What a live holder does to its own row leaves every other processor's knowledge intact. */
  lemma HolderKeepsPhase(s: State, w: Worker, v: Worker, r: Option<JobRecord>, s': State)
    requires Inv(s) && PhaseOf(s, w).Holding? && Live(s, w, PhaseOf(s, w).job) && v != w
    requires s'.now == s.now && s'.swept == s.swept && s'.table == Store(s.table, PhaseOf(s, w).job, r)
    requires r.Some? ==> r.value.createdAt == At(Seconds(s.now)) || r.value.createdAt == Row(s, PhaseOf(s, w).job).value.createdAt
    ensures PhaseOk(s', PhaseOf(s, v))
  {
    var p, q := PhaseOf(s, w), PhaseOf(s, v);
    assert PhaseOk(s, p) && PhaseOk(s, q);
    assert !Live(s, v, p.job);
    LiveMightBeHeld(s, p);
    if !q.Idle? && !q.Preparing? {
      if q.job != p.job {
        assert Row(s', q.job) == Row(s, q.job);
      } else if q.Deciding? && q.seen.Some? && q.seen.value.status == Claiming {
        StaleIsPast(Row(s, p.job), q.seen.value.createdAt.seconds, q.readAt, s.now);
      } else if q.GivingUp? {
        StaleIsPast(Row(s, p.job), q.stuck.createdAt.seconds, q.readAt, s.now);
      }
    }
  }

  /** Nobody holds the row that a processor answered exhausted is about to fail. */
  lemma GiveUpMeetsNoHolder(s: State, w: Worker)
    requires Inv(s) && PhaseOf(s, w).GivingUp?
    ensures PhaseOf(s, w).job !in s.swept ==> !MightBeHeld(Row(s, PhaseOf(s, w).job), s.now)
  {
    var p := PhaseOf(s, w);
    assert PhaseOk(s, p);
    StaleIsPast(Row(s, p.job), p.stuck.createdAt.seconds, p.readAt, s.now);
  }

  /** Failing an exhausted lease leaves every other processor's knowledge intact. */
  lemma GiveUpKeepsPhase(s: State, w: Worker, v: Worker, s': State)
    requires Inv(s) && PhaseOf(s, w).GivingUp? && v != w
    requires PhaseOf(s, w).job in s.swept ==> !MightBeHeld(Row(s, PhaseOf(s, w).job), s.now)
    requires s'.now == s.now && s'.swept == s.swept
    requires s'.table == Store(s.table, PhaseOf(s, w).job, RowAfterFailClaim(Row(s, PhaseOf(s, w).job), s.now))
    ensures PhaseOk(s', PhaseOf(s, v))
  {
    var p, q := PhaseOf(s, w), PhaseOf(s, v);
    assert PhaseOk(s, p) && PhaseOk(s, q);
    GiveUpMeetsNoHolder(s, w);
    if !q.Idle? && !q.Preparing? {
      assert q.job != p.job ==> Row(s', q.job) == Row(s, q.job);
      if q.Holding? && s.now < q.since + PROCESS_BUDGET {
        LiveMightBeHeld(s, q);
      }
    }
  }

  lemma ClaimWriteKeepsInv(s: State, w: Worker)
    requires Inv(s) && PhaseOf(s, w).Deciding? && (Wins(s, w) ==> StampedLater(s, PhaseOf(s, w)))
    ensures Inv(AfterClaimWrite(s, w))
  {
    var p, s' := PhaseOf(s, w), AfterClaimWrite(s, w);
    if Wins(s, w) {
      forall v ensures PhaseOk(s', PhaseOf(s', v)) {
        if v != w { ClaimKeepsPhase(s, w, v); }
      }
      forall v, j | v != w && Live(s', v, j) ensures j != p.job {
        WinnerMeetsNoHolder(s, w, v);
        assert Live(s, v, j);
      }
      assert forall v, j :: v != w ==> Live(s', v, j) == Live(s, v, j);
    } else {
      OthersUntouched(s, w, Idle, s');
    }
  }

  /** Only the acting processor's phase changes, and it ends up holding nothing. */
  lemma OthersUntouched(s: State, w: Worker, p: Phase, s': State)
    requires Inv(s) && s'.table == s.table && s'.workers == s.workers[w := p]
    requires s'.now == s.now && s'.swept == s.swept
    requires !p.Holding? && PhaseOk(s, p)
    ensures Inv(s')
  {
    assert forall v :: PhaseOf(s', v) == if v == w then p else PhaseOf(s, v);
    forall v ensures PhaseOk(s', PhaseOf(s', v)) {
      assert PhaseOk(s, PhaseOf(s, v));
    }
    assert forall v, j :: Live(s', v, j) ==> Live(s, v, j);
  }

  ghost predicate SameButFor(s: State, s': State, w: Worker) {
    forall v :: v != w ==> PhaseOf(s', v) == PhaseOf(s, v)
  }

  /** A write by a processor that then stops holding, when it spares every other phase. */
  lemma WriteAndLeave(s: State, w: Worker, j: JobId, r: Option<JobRecord>, s': State)
    requires Inv(s) && s'.now == s.now && s'.table == Store(s.table, j, r) && s.swept <= s'.swept
    requires r.Some? ==> RowOk(r.value, s.now) && (j !in s'.swept && r.value.status == Claiming ==> r.value.instance.None?)
    requires SameButFor(s, s', w) && (PhaseOf(s', w).Idle? || PhaseOf(s', w).Preparing?)
    requires forall v :: v != w ==> PhaseOk(s', PhaseOf(s, v))
    ensures Inv(s')
  {
    assert forall v, k :: Live(s', v, k) ==> Live(s, v, k);
  }

  /** A write from outside: started, completed, cancelled, requeued, terminating, swept. */
  lemma UpdateKeepsInv(s: State, j: JobId, r: Option<JobRecord>, s': State)
    requires Inv(s) && Harmless(s, j, r, s') && s'.workers == s.workers
    ensures Inv(s')
  {
    assert forall v :: PhaseOf(s', v) == PhaseOf(s, v);
    forall v ensures PhaseOk(s', PhaseOf(s', v)) {
      HarmlessKeepsPhase(s, j, r, s', PhaseOf(s, v));
    }
    assert forall v, k :: Live(s', v, k) == Live(s, v, k);
    forall k | k in s'.table
      ensures RowOk(s'.table[k], s'.now) && (k !in s'.swept && s'.table[k].status == Claiming ==> s'.table[k].instance.None?)
    {
      if k != j { assert s'.table[k] == s.table[k]; }
    }
  }

  lemma ReadKeepsInv(s: State, w: Worker, j: JobId, runId: int, repo: string)
    requires Inv(s) && PhaseOf(s, w).Idle?
    ensures Inv(AfterRead(s, w, j, runId, repo))
  {
    var s' := AfterRead(s, w, j, runId, repo);
    if s' != s {
      OthersUntouched(s, w, s'.workers[w], s');
    }
  }

  /** A processor that saved the row deletes it again, when nobody might hold it. */
  lemma LateReleaseKeepsInv(s: State, w: Worker)
    requires Inv(s) && PhaseOf(s, w).Preparing? && Benign(Row(s, PhaseOf(s, w).job), None, s.now)
    ensures Inv(Apply(s, LateRelease(w)))
  {
    var j, s' := PhaseOf(s, w).job, Apply(s, LateRelease(w));
    forall v | v != w ensures PhaseOk(s', PhaseOf(s, v)) {
      assert PhaseOk(s, PhaseOf(s, v));
      HarmlessKeepsPhase(s, j, None, s', PhaseOf(s, v));
    }
    WriteAndLeave(s, w, j, None, s');
  }

  lemma WorkerStepKeepsInv(s: State, step: Step, s': State)
    requires Inv(s) && Next(s, step, s')
    requires step.Save? || step.Release? || step.FailClaim? || step.Stop?
    ensures Inv(s')
  {
    var w := step.w;
    var p := PhaseOf(s, w);
    assert PhaseOk(s, p);
    if step.Stop? {
      OthersUntouched(s, w, Idle, s');
    } else {
      var r := Row(s', p.job);
      assert s' == WithPhase(WithRow(s, p.job, r), w, PhaseOf(s', w));
      forall v | v != w ensures PhaseOk(s', PhaseOf(s, v)) {
        if p.Holding? {
          HolderKeepsPhase(s, w, v, r, s');
        } else {
          GiveUpKeepsPhase(s, w, v, s');
        }
      }
      WriteAndLeave(s, w, p.job, r, s');
    }
  }

  /** Every disciplined step keeps the invariant. */
  lemma StepKeepsInv(s: State, step: Step, s': State)
    requires Inv(s) && Next(s, step, s')
    ensures Inv(s')
  {
    match step {
      case Tick(to) =>
        assert Seconds(s.now) <= Seconds(s'.now);
        forall v ensures PhaseOk(s', PhaseOf(s', v)) {
          assert PhaseOk(s, PhaseOf(s, v));
          TickKeepsPhase(s, s', PhaseOf(s, v));
        }
        assert forall v, k :: Live(s', v, k) ==> Live(s, v, k);
      case ClaimRead(w, j, runId, repo) => ReadKeepsInv(s, w, j, runId, repo);
      case ClaimWrite(w) => ClaimWriteKeepsInv(s, w);
      case Started(j) => UpdateKeepsInv(s, j, RowAfterStarted(Row(s, j)), s');
      case Complete(j, i, st) => UpdateKeepsInv(s, j, RowAfterComplete(Row(s, j), i, st, s.now), s');
      case Cancel(j) => UpdateKeepsInv(s, j, RowAfterCancel(Row(s, j), s.now), s');
      case Requeue(j) => UpdateKeepsInv(s, j, RowAfterRequeue(Row(s, j)), s');
      case Terminate(j, i) => UpdateKeepsInv(s, j, RowAfterTerminating(Row(s, j), i), s');
      case Sweep(j, write) => UpdateKeepsInv(s, j, RowAfterSweep(Row(s, j), write, s.now), s');
      case LateRelease(w) => LateReleaseKeepsInv(s, w);
      case _ => WorkerStepKeepsInv(s, step, s');
    }
  }
}
