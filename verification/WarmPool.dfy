/**
 Assigning a job to a warm instance, and undoing a failed assignment: the instance is
 stopped while its claim is still held, and the claim is released only after that.
 */
module WarmPool {

  import opened Clock
  import opened Wrappers
  import opened PoolsTable
  import opened TtlLease
  import MessageProcessing

  const STOP_ATTEMPTS: nat := 3

  // ----- the undo procedure

  datatype Effect =
    | ClaimInstance(instance: string)
    | PrepareConfig(ok: bool)
    | SaveRow(ok: bool)
    | CleanupConfig
    | StopInstance(accepted: bool)
    | ReleaseClaim

  /** At most three stops after the cleanup, none after an accepted one; a release only right after that, at the end. */
  ghost predicate UndoOrder(log: seq<Effect>) {
    && 0 < |log| <= STOP_ATTEMPTS + 2 && log[0] == CleanupConfig
    && (forall k :: 0 <= k < |log| && log[k] == ReleaseClaim ==> k == |log| - 1 && k > 0 && log[k - 1] == StopInstance(true))
    && (forall k :: 0 <= k < |log| && log[k] == StopInstance(true) ==> forall m :: k < m < |log| ==> log[m] == ReleaseClaim)
    && (forall k :: 1 <= k < |log| ==> log[k].StopInstance? || log[k] == ReleaseClaim)
  }

  /**
   `alive(k)` and `accepts(k)` are the answers the k-th stop attempt would meet.
   */
  method ReleaseFailedAssignment(alive: nat -> bool, accepts: nat -> bool, hasTable: bool) returns (log: seq<Effect>)
    ensures UndoOrder(log) && log[0] == CleanupConfig
    ensures ReleaseClaim in log <==> hasTable && exists n :: 0 <= n < 3 && accepts(n) && forall k :: 0 <= k <= n ==> alive(k)
    ensures forall k :: 0 <= k < |log| && log[k] == ReleaseClaim ==> k == |log| - 1 && k > 1 && log[k - 1] == StopInstance(true)
    ensures forall k :: 1 <= k < |log| && log[k] != ReleaseClaim ==> log[k] == StopInstance(accepts(k - 1))
    ensures forall p, q :: 0 <= p < q < |log| && log[p] == StopInstance(true) ==> log[q] == ReleaseClaim
  {
    log := [CleanupConfig];
    var stopped := false;
    var attempt := 0;
    while attempt < STOP_ATTEMPTS
      invariant attempt <= STOP_ATTEMPTS && !stopped
      invariant |log| == attempt + 1 && log[0] == CleanupConfig
      invariant forall k :: 1 <= k < |log| ==> log[k] == StopInstance(false)
      invariant forall k :: 0 <= k < attempt ==> alive(k) && !accepts(k)
    {
      if !alive(attempt) { break; }
      if accepts(attempt) {
        log := log + [StopInstance(true)];
        stopped := true;
        break;
      }
      log := log + [StopInstance(false)];
      attempt := attempt + 1;
    }
    if stopped && hasTable {
      log := log + [ReleaseClaim];
    }
    InUndoOrder(log, accepts);
  }

  lemma InUndoOrder(log: seq<Effect>, accepts: nat -> bool)
    requires 0 < |log| <= STOP_ATTEMPTS + 2 && log[0] == CleanupConfig
    requires forall k :: 0 <= k < |log| && log[k] == ReleaseClaim ==> k == |log| - 1 && k > 1 && log[k - 1] == StopInstance(true)
    requires forall k :: 1 <= k < |log| && log[k] != ReleaseClaim ==> log[k] == StopInstance(accepts(k - 1))
    requires forall p, q :: 0 <= p < q < |log| && log[p] == StopInstance(true) ==> log[q] == ReleaseClaim
    ensures UndoOrder(log)
  {
  }

  /**
   What an assignment meets: `ready` with a pool and a runner manager, `inTime` with budget
   left, `claimed` the pool's answer (none for a failed call, an empty one for no instance).
   */
  datatype Answers = Answers(
    pool: string, ready: bool, inTime: bool, claimed: Option<Option<string>>,
    prepareOk: bool, hasTable: bool, hasJobsTable: bool, saveOk: bool,
    alive: nat -> bool, accepts: nat -> bool)

  /** One of the three stops is accepted while there is time. */
  predicate StopAccepted(a: Answers) {
    exists n :: 0 <= n < 3 && a.accepts(n) && forall k :: 0 <= k <= n ==> a.alive(k)
  }

  predicate Tries(a: Answers) {
    a.pool != "" && a.ready
  }

  predicate Claims(a: Answers) {
    Tries(a) && a.inTime && a.claimed.Some? && a.claimed.value.Some?
  }

  /**
   Assigned exactly when an instance was claimed, its runner configured and then the job
   saved; every other end of a claimed instance undoes the claim.
   */
  method TryAssignToWarmPool(a: Answers) returns (answer: MessageProcessing.WarmAnswer, log: seq<Effect>, undo: seq<Effect>)
    ensures answer.AssignedTo? <==>
              && a.pool != "" && a.ready && a.inTime && a.claimed.Some? && a.claimed.value.Some?
              && a.prepareOk && (a.hasTable && a.hasJobsTable ==> a.saveOk)
    ensures answer.AssignedTo? ==> a.claimed == Some(Some(answer.instance))
    ensures answer.WarmFailed? <==> a.pool != "" && a.ready && (!a.inTime || a.claimed.None?)
    ensures if a.pool != "" && a.ready && a.inTime && a.claimed.Some? && a.claimed.value.Some? then log != [] && log[0] == ClaimInstance(a.claimed.value.value) else log == []
    ensures forall k :: 0 <= k < |log| && log[k].SaveRow? ==> k > 0 && log[k - 1] == PrepareConfig(true)
    ensures answer.AssignedTo? ==> PrepareConfig(true) in log && (a.hasTable && a.hasJobsTable ==> SaveRow(true) in log)
    ensures if Claims(a) && !answer.AssignedTo? then UndoOrder(undo) && (ReleaseClaim in undo <==> a.hasTable && StopAccepted(a)) else undo == []
  {
    log, undo := [], [];
    if a.pool == "" || !a.ready { return MessageProcessing.NotAssigned, log, undo; }
    if !a.inTime || a.claimed.None? { return MessageProcessing.WarmFailed, log, undo; }
    if a.claimed.value.None? { return MessageProcessing.NotAssigned, log, undo; }
    var instance := a.claimed.value.value;
    log := [ClaimInstance(instance), PrepareConfig(a.prepareOk)];
    assert log[1] == PrepareConfig(a.prepareOk);
    if !a.prepareOk {
      undo := ReleaseFailedAssignment(a.alive, a.accepts, a.hasTable);
      return MessageProcessing.NotAssigned, log, undo;
    }
    if a.hasTable && a.hasJobsTable {
      log := log + [SaveRow(a.saveOk)];
      assert log[1] == PrepareConfig(true) && log[2] == SaveRow(a.saveOk);
      if !a.saveOk {
        undo := ReleaseFailedAssignment(a.alive, a.accepts, a.hasTable);
        return MessageProcessing.NotAssigned, log, undo;
      }
    }
    return MessageProcessing.AssignedTo(instance), log, undo;
  }

  // ----- assignments interleaved with everything else on the pools table

  datatype Assignment =
    | Outside
    | Assigned(instance: string)
    | Stopping(instance: string, tried: nat)
    | Stopped(instance: string)

  datatype Fleet = Fleet(pools: State, jobs: map<int, Assignment>)

  datatype Move =
    | Claim(job: int, instance: string, ttl: nat)
    | Fail(job: int)
    | TryStop(job: int, accepted: bool)
    | Abandon(job: int)
    | ReleaseAfterStop(job: int)
    | Finish(job: int)
    /** Any other process: clock, reaper, locks, claims and releases in the name of any job. */
    | Other(step: Step)

  function PhaseOf(f: Fleet, job: int): Assignment {
    if job in f.jobs then f.jobs[job] else Outside
  }

  function HeldInstance(a: Assignment): Option<string> {
    if a.Outside? then None else Some(a.instance)
  }

  /** A stop is attempted before the claim expires. */
  predicate CanMove(f: Fleet, m: Move) {
    match m
    case Claim(j, i, ttl) => PhaseOf(f, j).Outside? && ttl > 0
    case Fail(j) => PhaseOf(f, j).Assigned?
    case TryStop(j, _) =>
      && PhaseOf(f, j).Stopping? && PhaseOf(f, j).tried < STOP_ATTEMPTS
      && OnTime(f, j)
    case Abandon(j) => PhaseOf(f, j).Stopping?
    case ReleaseAfterStop(j) => PhaseOf(f, j).Stopped?
    case Finish(j) => PhaseOf(f, j).Assigned?
    case Other(step) => Enabled(f.pools, step)
  }

  predicate OnTime(f: Fleet, job: int) {
    var i := HeldInstance(PhaseOf(f, job));
    i.Some? && (Instance(i.value), Job(job)) in f.pools.grants ==>
      Seconds(f.pools.now) <= f.pools.grants[(Instance(i.value), Job(job))]
  }

  function WithPhase(f: Fleet, job: int, a: Assignment): Fleet {
    f.(jobs := f.jobs[job := a])
  }

  /** The table step a move performs, if any. */
  function TableStep(f: Fleet, m: Move): Option<Step>
    requires CanMove(f, m)
  {
    match m
    case Claim(j, i, ttl) => Some(Acquire(Instance(i), Job(j), ttl))
    case ReleaseAfterStop(j) => Some(Release(Instance(PhaseOf(f, j).instance), Job(j)))
    case Other(step) => Some(step)
    case _ => None
  }

  function After(f: Fleet, m: Move): Fleet
    requires CanMove(f, m)
  {
    var step := TableStep(f, m);
    var f1 := if step.Some? then f.(pools := Apply(f.pools, step.value)) else f;
    match m
    case Claim(j, i, _) =>
      if Acquirable(f.pools.rows, Instance(i), Job(j), Seconds(f.pools.now)) then WithPhase(f1, j, Assigned(i)) else f1
    case Fail(j) => WithPhase(f1, j, Stopping(PhaseOf(f, j).instance, 0))
    case TryStop(j, accepted) =>
      WithPhase(f1, j, if accepted then Stopped(PhaseOf(f, j).instance)
                       else Stopping(PhaseOf(f, j).instance, PhaseOf(f, j).tried + 1))
    case Abandon(j) => WithPhase(f1, j, Outside)
    case ReleaseAfterStop(j) => WithPhase(f1, j, Outside)
    case Finish(j) => WithPhase(f1, j, Outside)
    case Other(_) => f1
  }

  /** Unexpired grants of an instance are exclusive. */
  ghost predicate FleetInv(f: Fleet) {
    forall i :: LeaseInv(f.pools, Instance(i))
  }

  lemma MoveKeepsInv(f: Fleet, m: Move)
    requires FleetInv(f) && CanMove(f, m)
    ensures FleetInv(After(f, m))
  {
    var f', step := After(f, m), TableStep(f, m);
    if step.Some? {
      assert f'.pools == Apply(f.pools, step.value);
      forall i ensures LeaseInv(f'.pools, Instance(i)) {
        StepKeepsLease(f.pools, step.value, Instance(i));
      }
    }
  }

  /** Step m, by somebody else, released the claim of a job under assignment to this instance. */
  ghost predicate ReleasedByOther(fleets: seq<Fleet>, moves: seq<Move>, m: nat, job: int, instance: string)
    requires m < |moves| < |fleets|
  {
    moves[m] == Other(Release(Instance(instance), Job(job))) && HeldInstance(PhaseOf(fleets[m], job)) == Some(instance)
  }

  predicate HasGrant(f: Fleet, job: int, instance: string) {
    (Instance(instance), Job(job)) in f.pools.grants
  }

  /** A move keeps the grant of a job under assignment, or is somebody else's release of it. */
  lemma MoveKeepsGrant(f: Fleet, m: Move, job: int, instance: string)
    requires CanMove(f, m) && HeldInstance(PhaseOf(After(f, m), job)) == Some(instance)
    requires HeldInstance(PhaseOf(f, job)) == Some(instance) ==> HasGrant(f, job, instance)
    ensures HasGrant(After(f, m), job, instance)
            || (m == Other(Release(Instance(instance), Job(job))) && HeldInstance(PhaseOf(f, job)) == Some(instance))
  {
  }

  ghost predicate IsHistory(fleets: seq<Fleet>, moves: seq<Move>) {
    && |fleets| == |moves| + 1
    && fleets[0].pools.grants == map[] && fleets[0].jobs == map[]
    && forall k :: 0 <= k < |moves| ==> CanMove(fleets[k], moves[k]) && fleets[k + 1] == After(fleets[k], moves[k])
  }

  lemma {:induction false} HistoryKeepsInv(fleets: seq<Fleet>, moves: seq<Move>, k: nat)
    requires IsHistory(fleets, moves) && k < |fleets|
    ensures FleetInv(fleets[k])
  {
    if k > 0 {
      HistoryKeepsInv(fleets, moves, k - 1);
      MoveKeepsInv(fleets[k - 1], moves[k - 1]);
    }
  }

  lemma {:induction false} GrantKept(fleets: seq<Fleet>, moves: seq<Move>, k: nat, job: int, instance: string)
    requires IsHistory(fleets, moves) && k < |fleets| && HeldInstance(PhaseOf(fleets[k], job)) == Some(instance)
    ensures HasGrant(fleets[k], job, instance) || exists m :: 0 <= m < k && ReleasedByOther(fleets, moves, m, job, instance)
  {
    assert fleets[k] == After(fleets[k - 1], moves[k - 1]) && CanMove(fleets[k - 1], moves[k - 1]);
    if HeldInstance(PhaseOf(fleets[k - 1], job)) == Some(instance) {
      GrantKept(fleets, moves, k - 1, job, instance);
    }
    if !exists m :: 0 <= m < k && ReleasedByOther(fleets, moves, m, job, instance) {
      MoveKeepsGrant(fleets[k - 1], moves[k - 1], job, instance);
      assert !ReleasedByOther(fleets, moves, k - 1, job, instance);
    }
  }

  /**
   A stop issued on behalf of a failed assignment never reaches an instance another job holds,
   unless somebody else released the claim from under the assignment.
   */
  lemma StopSparesOtherJobs(fleets: seq<Fleet>, moves: seq<Move>, k: nat, other: Owner)
    requires IsHistory(fleets, moves) && k < |moves| && moves[k].TryStop? && other != Job(moves[k].job)
    ensures var j := moves[k].job;
            var i := PhaseOf(fleets[k], j).instance;
            Holds(fleets[k].pools, Instance(i), other) ==>
              exists m :: 0 <= m < k && moves[m] == Other(Release(Instance(i), Job(j))) && HeldInstance(PhaseOf(fleets[m], j)) == Some(i)
  {
    HistoryKeepsInv(fleets, moves, k);
    var j := moves[k].job;
    assert CanMove(fleets[k], moves[k]);
    var i := PhaseOf(fleets[k], j).instance;
    GrantKept(fleets, moves, k, j, i);
    assert LeaseInv(fleets[k].pools, Instance(i));
    if Holds(fleets[k].pools, Instance(i), other) {
      var m :| 0 <= m < k && ReleasedByOther(fleets, moves, m, j, i);
      assert moves[m] == Other(Release(Instance(i), Job(j)));
    }
  }

  /** A release from under an assignment, and the instance claimed again: the stop then reaches it. */
  lemma ReleasedUnderAssignment(f: Fleet, job: int, other: int, instance: string, ttl: nat)
    requires job != other && PhaseOf(f, job).Stopping? && PhaseOf(f, job).instance == instance && PhaseOf(f, job).tried < STOP_ATTEMPTS
    requires PhaseOf(f, other).Outside? && ttl > 0
    requires LeaseInv(f.pools, Instance(instance)) && Holds(f.pools, Instance(instance), Job(job))
    ensures var release := Other(Release(Instance(instance), Job(job)));
            var f1 := After(f, release);
            CanMove(f, release) && CanMove(f1, Claim(other, instance, ttl))
            && var f2 := After(f1, Claim(other, instance, ttl));
            CanMove(f2, TryStop(job, true)) && Holds(f2.pools, Instance(instance), Job(other))
  {
    var f1 := After(f, Other(Release(Instance(instance), Job(job))));
    assert LeaseOf(f.pools.rows, Instance(instance)) == Held(Some(Job(job)), f.pools.grants[(Instance(instance), Job(job))]);
    assert Key(Instance(instance)) !in f1.pools.rows;
    assert Acquirable(f1.pools.rows, Instance(instance), Job(other), Seconds(f1.pools.now));
    assert Seconds(f1.pools.now) <= Seconds(f1.pools.now + ttl);
  }

  // ----- the moves of a job are those of the undo procedure

  /** The undo log of a job after one more move. */
  function LogAfter(log: seq<Effect>, m: Move, job: int): seq<Effect> {
    match m
    case Fail(j) => if j == job then [CleanupConfig] else log
    case TryStop(j, accepted) => if j == job then log + [StopInstance(accepted)] else log
    case ReleaseAfterStop(j) => if j == job then log + [ReleaseClaim] else log
    case _ => log
  }

  /** What the job's latest failed assignment has done by the first k moves. */
  function UndoLog(moves: seq<Move>, k: nat, job: int): seq<Effect>
    requires k <= |moves|
  {
    if k == 0 then [] else LogAfter(UndoLog(moves, k - 1, job), moves[k - 1], job)
  }

  /** The cleanup and n refused stops, then perhaps more. */
  ghost predicate Refusals(log: seq<Effect>, n: nat) {
    n < |log| && log[0] == CleanupConfig && forall k :: 1 <= k <= n ==> log[k] == StopInstance(false)
  }

  ghost predicate LogMatches(log: seq<Effect>, a: Assignment) {
    match a
    case Stopping(_, tried) => tried <= STOP_ATTEMPTS && |log| == tried + 1 && Refusals(log, tried)
    case Stopped(_) => 2 <= |log| <= STOP_ATTEMPTS + 1 && Refusals(log, |log| - 2) && log[|log| - 1] == StopInstance(true)
    case _ => true
  }

  lemma MoveMatchesLog(f: Fleet, m: Move, job: int, log: seq<Effect>)
    requires CanMove(f, m) && LogMatches(log, PhaseOf(f, job))
    ensures LogMatches(LogAfter(log, m, job), PhaseOf(After(f, m), job))
  {
    if m.Other? {
      assert PhaseOf(After(f, m), job) == PhaseOf(f, job);
    }
  }

  lemma {:induction false} PhaseMatchesLog(fleets: seq<Fleet>, moves: seq<Move>, k: nat, job: int)
    requires IsHistory(fleets, moves) && k < |fleets|
    ensures LogMatches(UndoLog(moves, k, job), PhaseOf(fleets[k], job))
  {
    if k > 0 {
      PhaseMatchesLog(fleets, moves, k - 1, job);
      MoveMatchesLog(fleets[k - 1], moves[k - 1], job, UndoLog(moves, k - 1, job));
    }
  }

  lemma ReleaseInOrder(before: seq<Effect>, instance: string)
    requires LogMatches(before, Stopped(instance))
    ensures UndoOrder(before + [ReleaseClaim])
  {
  }

  /**
   Whatever else happens in between, a failed assignment that releases its claim has done what
   the undo procedure does, in that order: cleanup, refused stops, an accepted stop, the release.
   */
  lemma ReleaseFollowsStop(fleets: seq<Fleet>, moves: seq<Move>, k: nat)
    requires IsHistory(fleets, moves) && k < |moves| && moves[k].ReleaseAfterStop?
    ensures var log := UndoLog(moves, k + 1, moves[k].job);
            UndoOrder(log) && |log| >= 3 && log[|log| - 2] == StopInstance(true) && log[|log| - 1] == ReleaseClaim
  {
    var job := moves[k].job;
    PhaseMatchesLog(fleets, moves, k, job);
    assert CanMove(fleets[k], moves[k]);
    ReleaseInOrder(UndoLog(moves, k, job), PhaseOf(fleets[k], job).instance);
  }
}
