/**
 Processing one queue message around the job lease, against an environment that answers
 every external call as it likes, and the webhook handlers that requeue or retire a job.
 */
module MessageProcessing {

  import opened Wrappers
  import opened Jobs

  const MAX_DELETE_RETRIES: nat := 3
  const MAX_FLEET_CREATE_RETRIES: nat := 3
  const MAX_JOB_RETRIES: int := 2

  /** Attempts at saving a row: three from the queue, one on the direct path. */
  const SAVE_ATTEMPTS: nat := 3
  const DIRECT_SAVE_ATTEMPTS: nat := 1

  datatype JobMessage = JobMessage(
    jobId: JobId, runId: int, repo: string, instanceType: string, instanceTypes: seq<string>,
    pool: string, spot: bool, originalLabel: string, retryCount: int, forceOnDemand: bool,
    arch: string, storageGiB: int, traceparent: string)

  predicate OnDemandFallbackEligible(job: JobMessage) {
    job.spot && !job.forceOnDemand && job.retryCount < MAX_JOB_RETRIES
  }

  function BuildOnDemandFallbackJob(job: JobMessage): JobMessage {
    job.(spot := false, retryCount := job.retryCount + 1, forceOnDemand := true, traceparent := "")
  }

  datatype WarmAnswer = WarmFailed | NotAssigned | AssignedTo(instance: InstanceId)

  /** Every answer the environment would give; numbered answers go to successive attempts. */
  datatype World = World(
    body: Option<JobMessage>,
    hasTable: bool,
    claim: ClaimResult,
    failWriteOk: bool,
    warm: WarmAnswer,
    hasFleet: bool,
    hasQueue: bool,
    launch: nat -> Option<seq<InstanceId>>,
    saves: (InstanceId, nat) -> bool,
    hasRunner: bool,
    prepares: InstanceId -> bool,
    releaseOk: bool,
    sends: nat -> bool,
    deletes: nat -> bool)

  datatype Effect =
    | Claim(result: ClaimResult)
    | FailClaim(ok: bool)
    | Warm(answer: WarmAnswer)
    | FleetCall(instances: Option<seq<InstanceId>>)
    | Save(instance: InstanceId, ok: bool)
    | Prepare(instance: InstanceId, ok: bool)
    | Release(ok: bool)
    | Send(msg: JobMessage, ok: bool)
    | Delete(ok: bool)

  // ----- retries

  /** The outcome of up to three attempts: whether one succeeded. */
  predicate SomeOf(answers: nat -> bool, n: nat) {
    exists k :: 0 <= k < n && answers(k)
  }

  ghost predicate OnlyDeletes(log: seq<Effect>) {
    forall k :: 0 <= k < |log| ==> log[k].Delete?
  }

  /** One attempt after another, up to three, until one is answered. */
  method DeleteMessageWithRetry(w: World) returns (log: seq<Effect>)
    ensures 0 < |log| <= 3 && OnlyDeletes(log)
    ensures forall k :: 0 <= k < |log| ==> log[k] == Delete(w.deletes(k))
    ensures forall k :: 0 <= k < |log| - 1 ==> !w.deletes(k)
    ensures |log| < 3 ==> w.deletes(|log| - 1)
  {
    var ok := w.deletes(0);
    log := [Delete(ok)];
    var attempts := 1;
    while attempts < MAX_DELETE_RETRIES && !ok
      invariant 1 <= attempts <= MAX_DELETE_RETRIES && |log| == attempts && ok == w.deletes(attempts - 1)
      invariant forall k :: 0 <= k < attempts ==> log[k] == Delete(w.deletes(k))
      invariant forall k :: 0 <= k < attempts - 1 ==> !w.deletes(k)
    {
      ok := w.deletes(attempts);
      log := log + [Delete(ok)];
      attempts := attempts + 1;
    }
  }

  method SendMessageWithRetry(w: World, msg: JobMessage) returns (ok: bool, log: seq<Effect>)
    ensures ok <==> exists k :: 0 <= k < 3 && w.sends(k)
    ensures 0 < |log| <= 3 && forall k :: 0 <= k < |log| ==> log[k] == Send(msg, w.sends(k))
    ensures forall k :: 0 <= k < |log| - 1 ==> !w.sends(k)
    ensures if ok then w.sends(|log| - 1) else |log| == 3
    ensures (Send(msg, true) in log) <==> ok
  {
    ok := w.sends(0);
    log := [Send(msg, ok)];
    var attempts := 1;
    while attempts < MAX_DELETE_RETRIES && !ok
      invariant 1 <= attempts <= MAX_DELETE_RETRIES && |log| == attempts && ok == w.sends(attempts - 1)
      invariant forall k :: 0 <= k < attempts ==> log[k] == Send(msg, w.sends(k))
      invariant forall k :: 0 <= k < attempts - 1 ==> !w.sends(k)
    {
      ok := w.sends(attempts);
      log := log + [Send(msg, ok)];
      attempts := attempts + 1;
    }
    if ok { assert log[|log| - 1] == Send(msg, true); }
  }

  /** The first of three launches that succeeds. */
  function Launched(w: World, n: nat): Option<seq<InstanceId>>
    requires n <= MAX_FLEET_CREATE_RETRIES
    decreases MAX_FLEET_CREATE_RETRIES - n
  {
    if n == MAX_FLEET_CREATE_RETRIES then None
    else if w.launch(n).Some? then w.launch(n)
    else Launched(w, n + 1)
  }

  method CreateFleetWithRetry(w: World) returns (instances: Option<seq<InstanceId>>)
    ensures instances.Some? <==> exists k :: 0 <= k < 3 && w.launch(k).Some?
    ensures forall k :: 0 <= k < 3 && w.launch(k).Some? && (forall m :: 0 <= m < k ==> w.launch(m).None?) ==> instances == w.launch(k)
    ensures instances == Launched(w, 0)
  {
    var attempt := 0;
    while attempt < MAX_FLEET_CREATE_RETRIES
      invariant 0 <= attempt <= MAX_FLEET_CREATE_RETRIES && Launched(w, 0) == Launched(w, attempt)
      invariant forall m :: 0 <= m < attempt ==> w.launch(m).None?
    {
      instances := w.launch(attempt);
      if instances.Some? { return; }
      attempt := attempt + 1;
    }
    return None;
  }

  /** The launch that a cold start goes on with, over the answers alone. */
  lemma LaunchedIsFirst(w: World)
    ensures Launched(w, 0).Some? <==> exists k :: 0 <= k < 3 && w.launch(k).Some?
    ensures forall k :: 0 <= k < 3 && w.launch(k).Some? && (forall m :: 0 <= m < k ==> w.launch(m).None?) ==> Launched(w, 0) == w.launch(k)
    ensures Launched(w, 0).Some? ==>
              exists k :: 0 <= k < 3 && w.launch(k) == Launched(w, 0) && forall m :: 0 <= m < k ==> w.launch(m).None?
  {
    assert Launched(w, 3) == None && Launched(w, 2) == w.launch(2);
    assert Launched(w, 1) == if w.launch(1).Some? then w.launch(1) else w.launch(2);
  }

  // ----- when a message may go

  /** What must have happened before the message is deleted. */
  ghost predicate Justified(w: World, past: seq<Effect>) {
    || w.body.None?
    || Claim(AlreadyClaimed) in past
    || (Claim(ClaimExhausted) in past && FailClaim(true) in past)
    || (exists i :: Warm(AssignedTo(i)) in past)
    || (exists up :: FleetCall(Some(up)) in past && AllPrepared(w, up, past))
    || (w.body.Some? && Send(BuildOnDemandFallbackJob(w.body.value), true) in past)
  }

  ghost predicate AllPrepared(w: World, instances: seq<InstanceId>, past: seq<Effect>) {
    forall i :: i in instances ==> Prepare(i, false) !in past && (w.hasRunner ==> Prepare(i, true) in past)
  }

  ghost predicate NoDelete(log: seq<Effect>) {
    forall k :: 0 <= k < |log| ==> !log[k].Delete?
  }

  /** Every delete comes after its justification. */
  ghost predicate DeletesJustified(w: World, log: seq<Effect>) {
    forall k :: 0 <= k < |log| && log[k].Delete? ==> Justified(w, log[..k])
  }

  lemma JustifiedLater(w: World, past: seq<Effect>, more: seq<Effect>)
    requires Justified(w, past) && forall k :: 0 <= k < |more| ==> !more[k].Prepare?
    ensures Justified(w, past + more)
  {
    assert forall e :: e in past ==> e in past + more;
    if up :| FleetCall(Some(up)) in past && AllPrepared(w, up, past) {
      assert AllPrepared(w, up, past + more);
    }
  }

  /** Deletes appended to a justified, delete-free log are justified. */
  lemma AppendDeletes(w: World, log: seq<Effect>, dels: seq<Effect>)
    requires NoDelete(log) && Justified(w, log) && OnlyDeletes(dels)
    ensures DeletesJustified(w, log + dels)
  {
    forall k | |log| <= k < |log + dels| ensures Justified(w, (log + dels)[..k]) {
      assert (log + dels)[..k] == log + dels[..k - |log|];
      JustifiedLater(w, log, dels[..k - |log|]);
    }
  }

  // ----- cold start

  predicate Unprepared(w: World, instances: seq<InstanceId>) {
    w.hasRunner && exists k :: 0 <= k < |instances| && !w.prepares(instances[k])
  }

  method PrepareRunners(w: World, instances: seq<InstanceId>) returns (failed: bool, log: seq<Effect>)
    ensures failed <==> w.hasRunner && exists k :: 0 <= k < |instances| && !w.prepares(instances[k])
    ensures forall k :: 0 <= k < |log| ==> log[k].Prepare?
    ensures !w.hasRunner ==> log == []
    ensures !failed ==> AllPrepared(w, instances, log)
    ensures w.hasRunner ==> forall i :: i in instances ==> Prepare(i, w.prepares(i)) in log
  {
    failed, log := false, [];
    if !w.hasRunner { return; }
    for k := 0 to |instances|
      invariant failed <==> exists m :: 0 <= m < k && !w.prepares(instances[m])
      invariant forall m :: 0 <= m < |log| ==> log[m].Prepare? && (log[m].ok || failed)
      invariant forall m :: 0 <= m < k ==> Prepare(instances[m], w.prepares(instances[m])) in log
    {
      var ok := w.prepares(instances[k]);
      log := log + [Prepare(instances[k], ok)];
      if !ok { failed := true; }
    }
  }

  predicate SavedWithin(w: World, instance: InstanceId, attempts: nat) {
    exists k :: 0 <= k < attempts && w.saves(instance, k)
  }

  /** Saves until one is answered; a row never saved is only logged. */
  method SaveWithRetry(w: World, instance: InstanceId, attempts: nat) returns (log: seq<Effect>)
    requires attempts > 0
    ensures 0 < |log| <= attempts && forall k :: 0 <= k < |log| ==> log[k].Save? && log[k].instance == instance
    ensures Save(instance, true) in log <==> exists k :: 0 <= k < attempts && w.saves(instance, k)
    ensures forall k :: 0 <= k < |log| ==> log[k] == Save(instance, w.saves(instance, k))
  {
    log := [];
    for k := 0 to attempts
      invariant |log| == k && forall m :: 0 <= m < k ==> log[m] == Save(instance, false)
      invariant !SavedWithin(w, instance, k)
    {
      var ok := w.saves(instance, k);
      log := log + [Save(instance, ok)];
      if ok {
        assert log[k] == Save(instance, true);
        return;
      }
    }
  }

  ghost predicate SaveTried(log: seq<Effect>, instance: InstanceId) {
    Save(instance, true) in log || Save(instance, false) in log
  }

  /** Every row is tried, and saved exactly when one of its attempts is answered. */
  ghost predicate RowsTried(w: World, instances: seq<InstanceId>, attempts: nat, log: seq<Effect>) {
    forall i :: i in instances ==> SaveTried(log, i) && (Save(i, true) in log <==> SavedWithin(w, i, attempts))
  }

  lemma RowsTriedNext(w: World, before: seq<InstanceId>, i: InstanceId, attempts: nat, log: seq<Effect>, more: seq<Effect>)
    requires RowsTried(w, before, attempts, log)
    requires more != [] && forall k :: 0 <= k < |more| ==> more[k].Save? && more[k].instance == i
    requires Save(i, true) in more <==> SavedWithin(w, i, attempts)
    requires Save(i, true) in log ==> SavedWithin(w, i, attempts)
    ensures RowsTried(w, before + [i], attempts, log + more)
  {
    assert more[0] == Save(i, true) || more[0] == Save(i, false);
    assert forall e :: e in log + more <==> e in log || e in more;
  }

  method SaveJobRecords(w: World, instances: seq<InstanceId>, attempts: nat) returns (log: seq<Effect>)
    requires attempts > 0
    ensures forall k :: 0 <= k < |log| ==> log[k].Save?
    ensures if w.hasTable then RowsTried(w, instances, attempts, log) else log == []
  {
    log := [];
    if !w.hasTable { return; }
    for k := 0 to |instances|
      invariant forall m :: 0 <= m < |log| ==> log[m].Save?
      invariant forall i :: Save(i, true) in log ==> SavedWithin(w, i, attempts)
      invariant RowsTried(w, instances[..k], attempts, log)
    {
      var more := SaveWithRetry(w, instances[k], attempts);
      RowsTriedNext(w, instances[..k], instances[k], attempts, log, more);
      assert instances[..k + 1] == instances[..k] + [instances[k]];
      log := log + more;
    }
    assert instances[..|instances|] == instances;
  }

  /** Every row tried, then every runner prepared; the claim let go of exactly when one was not. */
  ghost predicate Provisioned(w: World, instances: seq<InstanceId>, attempts: nat, log: seq<Effect>) {
    && (w.hasTable ==> RowsTried(w, instances, attempts, log))
    && (w.hasRunner ==> forall i :: i in instances ==> Prepare(i, w.prepares(i)) in log)
    && (forall p, q :: 0 <= p < q < |log| && log[q].Save? ==> log[p].Save?)
    && (forall p, q :: 0 <= p < q < |log| && log[p].Release? ==> !log[q].Prepare?)
    && (Release(w.releaseOk) in log <==> w.hasTable && Unprepared(w, instances))
  }

  method Provision(w: World, instances: seq<InstanceId>, attempts: nat) returns (failed: bool, log: seq<Effect>)
    requires attempts > 0
    ensures failed <==> w.hasRunner && exists k :: 0 <= k < |instances| && !w.prepares(instances[k])
    ensures Provisioned(w, instances, attempts, log)
    ensures forall k :: 0 <= k < |log| ==> log[k].Save? || log[k].Prepare? || log[k].Release?
    ensures !failed ==> AllPrepared(w, instances, log)
  {
    var saves := SaveJobRecords(w, instances, attempts);
    var prepares;
    failed, prepares := PrepareRunners(w, instances);
    log := saves + prepares;
    if failed && w.hasTable {
      log := log + [Release(w.releaseOk)];
    }
  }

  /**
   Every row tried and saved if one try was answered, every runner prepared after that, the claim
   released exactly when a runner was not.
   */
  lemma ProvisionedMeans(w: World, instances: seq<InstanceId>, attempts: nat, log: seq<Effect>)
    requires Provisioned(w, instances, attempts, log)
    ensures w.hasTable ==> forall i :: i in instances ==> (Save(i, true) in log <==> exists k :: 0 <= k < attempts && w.saves(i, k))
    ensures w.hasTable ==> forall i :: i in instances ==> Save(i, true) in log || Save(i, false) in log
    ensures w.hasRunner ==> forall i :: i in instances ==> Prepare(i, w.prepares(i)) in log
    ensures forall p, q :: 0 <= p < q < |log| && log[p].Prepare? ==> !log[q].Save?
    ensures forall p, q :: 0 <= p < q < |log| && log[p].Release? ==> !log[q].Save? && !log[q].Prepare?
    ensures Release(w.releaseOk) in log <==> w.hasTable && w.hasRunner && exists i :: i in instances && !w.prepares(i)
  {
    if i :| i in instances && !w.prepares(i) {
      var k :| 0 <= k < |instances| && instances[k] == i;
    }
  }

  /** After a failed launch: the claim let go of first, then the fallback sent if the job may fall back. */
  ghost predicate Recovered(w: World, job: JobMessage, log: seq<Effect>) {
    && (w.hasTable ==> log != [] && log[0] == Release(w.releaseOk))
    && (forall k :: 0 <= k < |log| ==> !log[k].Save? && !log[k].Prepare?)
    && (forall k :: 0 <= k < |log| && log[k].Send? ==> OnDemandFallbackEligible(job) && log[k].msg == BuildOnDemandFallbackJob(job))
    && (Send(BuildOnDemandFallbackJob(job), true) in log <==> FallbackSent(w, job))
  }

  /** A cold start from its launch on; the message's deletes may follow. */
  ghost predicate ColdLog(w: World, job: JobMessage, log: seq<Effect>) {
    && log != [] && log[0] == FleetCall(Launched(w, 0))
    && (forall k :: 1 <= k < |log| ==> !log[k].FleetCall? && !log[k].Claim? && !log[k].FailClaim? && !log[k].Warm?)
    && match Launched(w, 0)
       case Some(up) => Provisioned(w, up, SAVE_ATTEMPTS, log[1..])
       case None => Recovered(w, job, log[1..])
  }

  lemma ColdLogThenDeletes(w: World, job: JobMessage, log: seq<Effect>, dels: seq<Effect>)
    requires ColdLog(w, job, log) && OnlyDeletes(dels)
    ensures ColdLog(w, job, log + dels)
  {
    var tail := (log + dels)[1..];
    assert tail == log[1..] + dels;
    assert forall e :: e in tail <==> e in log[1..] || e in dels;
  }

  predicate FallbackSent(w: World, job: JobMessage) {
    Launched(w, 0).None? && OnDemandFallbackEligible(job) && SomeOf(w.sends, 3)
  }

  predicate ColdStartDone(w: World) {
    Launched(w, 0).Some? && !Unprepared(w, Launched(w, 0).value)
  }

  /** The launch, its recovery, and the runner configuration; `processed` asks for the message's deletion. */
  method ColdStart(w: World, job: JobMessage) returns (processed: bool, log: seq<Effect>)
    requires w.body == Some(job)
    ensures processed <==> ColdStartDone(w)
    ensures DeletesJustified(w, log)
    ensures !NoDelete(log) <==> FallbackSent(w, job)
    ensures processed ==> NoDelete(log) && Justified(w, log)
    ensures ColdLog(w, job, log)
  {
    var instances := CreateFleetWithRetry(w);
    log := [FleetCall(instances)];
    if instances.None? {
      log := FallBack(w, job);
      return false, log;
    }
    var failed, provisioned := Provision(w, instances.value, SAVE_ATTEMPTS);
    log := log + provisioned;
    assert log[1..] == provisioned && NoDelete(log);
    if !failed {
      assert FleetCall(instances) in log && AllPrepared(w, instances.value, log) by {
        assert log[0] == FleetCall(instances);
        assert forall e :: e in log <==> e in provisioned || e == log[0];
      }
    }
    return !failed, log;
  }

  /** The claim let go of, then the fallback sent if the job may fall back. */
  method SendFallback(w: World, job: JobMessage) returns (sent: bool, log: seq<Effect>)
    requires Launched(w, 0).None?
    ensures sent <==> job.spot && !job.forceOnDemand && job.retryCount < 2 && exists k :: 0 <= k < 3 && w.sends(k)
    ensures Recovered(w, job, log)
    ensures forall k :: 0 <= k < |log| ==> log[k].Release? || log[k].Send?
    ensures sent ==> Send(BuildOnDemandFallbackJob(job), true) in log
  {
    sent := false;
    log := if w.hasTable then [Release(w.releaseOk)] else [];
    if OnDemandFallbackEligible(job) {
      var sends;
      sent, sends := SendMessageWithRetry(w, BuildOnDemandFallbackJob(job));
      var released := log;
      log := released + sends;
      assert Send(BuildOnDemandFallbackJob(job), true) in log <==> Send(BuildOnDemandFallbackJob(job), true) in sends;
    }
  }

  /** The launch failed: send before delete, so that a failed send leaves the original message. */
  method FallBack(w: World, job: JobMessage) returns (log: seq<Effect>)
    requires w.body == Some(job) && Launched(w, 0).None?
    ensures DeletesJustified(w, log) && (!NoDelete(log) <==> FallbackSent(w, job))
    ensures ColdLog(w, job, log)
  {
    var sent, recovery := SendFallback(w, job);
    log := [FleetCall(None)] + recovery;
    assert log[1..] == recovery && NoDelete(log);
    if sent {
      assert Send(BuildOnDemandFallbackJob(job), true) in log;
      var dels := DeleteMessageWithRetry(w);
      AppendDeletes(w, log, dels);
      ColdLogThenDeletes(w, job, log, dels);
      log := log + dels;
      assert log[|log| - 1].Delete?;
    }
  }

  /** A cold start whose fleet call succeeded did so on the first of three, and went on to provision with three saves each. */
  lemma LaunchLogMeans(w: World, job: JobMessage, cold: seq<Effect>, up: seq<InstanceId>)
    requires ColdLog(w, job, cold) && FleetCall(Some(up)) in cold
    ensures exists k :: 0 <= k < 3 && w.launch(k) == Some(up) && forall m :: 0 <= m < k ==> w.launch(m).None?
    ensures Provisioned(w, up, 3, cold[1..]) && cold[0] == FleetCall(Some(up))
    ensures forall e :: e in cold[1..] ==> !e.FleetCall? && !e.Claim? && !e.FailClaim? && !e.Warm?
  {
    LaunchedIsFirst(w);
    assert cold == [cold[0]] + cold[1..];
  }

  /** After three failed launches: the claim released first, then the on-demand fallback if the job may fall back. */
  lemma FallbackLogMeans(w: World, job: JobMessage, cold: seq<Effect>)
    requires ColdLog(w, job, cold) && FleetCall(None) in cold
    ensures forall k :: 0 <= k < 3 ==> w.launch(k).None?
    ensures forall e :: e in cold ==> !e.Save? && !e.Prepare?
    ensures w.hasTable ==> |cold| > 1 && cold[1] == Release(w.releaseOk)
    ensures var fallback := JobMessage(job.jobId, job.runId, job.repo, job.instanceType, job.instanceTypes, job.pool, false,
                                       job.originalLabel, job.retryCount + 1, true, job.arch, job.storageGiB, "");
            var mayFallBack := job.spot && !job.forceOnDemand && job.retryCount < 2;
            && (forall m, ok :: Send(m, ok) in cold ==> mayFallBack && m == fallback)
            && (Send(fallback, true) in cold <==> mayFallBack && exists k :: 0 <= k < 3 && w.sends(k))
  {
    LaunchedIsFirst(w);
    assert cold == [cold[0]] + cold[1..];
    assert forall e :: e in cold <==> e == cold[0] || e in cold[1..];
    assert Launched(w, 0) == None;
  }

  // ----- the whole message

  /** The lease lets this processor go on. */
  predicate Proceeds(w: World) {
    !w.hasTable || w.claim == Claimed
  }

  predicate WarmAssigned(w: World, job: JobMessage) {
    job.pool != "" && w.warm.AssignedTo?
  }

  /** The outcomes after which the message is deleted. */
  predicate MessageDone(w: World) {
    || w.body.None?
    || (w.hasTable && w.claim == AlreadyClaimed)
    || (w.hasTable && w.claim == ClaimExhausted && w.failWriteOk)
    || (Proceeds(w) && (|| WarmAssigned(w, w.body.value)
                        || (w.hasFleet && (ColdStartDone(w) || FallbackSent(w, w.body.value)))))
  }

  /** The message gets as far as a cold start. */
  predicate StartsCold(w: World) {
    w.body.Some? && Proceeds(w) && !WarmAssigned(w, w.body.value) && w.hasFleet
  }

  /** The claim, the give-up on an exhausted one, and the warm pool. */
  function Asked(w: World): seq<Effect>
    requires w.body.Some?
  {
    (if w.hasTable then [Claim(w.claim)] else [])
    + (if w.hasTable && w.claim == ClaimExhausted then [FailClaim(w.failWriteOk)] else [])
    + (if Proceeds(w) && w.body.value.pool != "" then [Warm(w.warm)] else [])
  }

  /** Up to n only claim and warm pool, the claim first; from n on a cold start if there is one, else deletes. */
  ghost predicate MessageLog(w: World, log: seq<Effect>, n: nat) {
    && n <= |log| && log[..n] == (if w.body.Some? then Asked(w) else [])
    && if StartsCold(w) then ColdLog(w, w.body.value, log[n..]) else OnlyDeletes(log[n..])
  }

  /** Which of the outcomes asks for the deferred deletion. */
  datatype Outcome = JobProcessed | FoundClaimed | FoundExhausted | NoneOfThese

  ghost predicate OutcomeOk(w: World, job: JobMessage, outcome: Outcome) {
    match outcome
    case FoundClaimed => w.hasTable && w.claim == AlreadyClaimed
    case FoundExhausted => w.hasTable && w.claim == ClaimExhausted && w.failWriteOk
    case JobProcessed => Proceeds(w) && (WarmAssigned(w, job) || (w.hasFleet && ColdStartDone(w)))
    case NoneOfThese => MessageDone(w) ==> StartsCold(w) && FallbackSent(w, job)
  }

  /** Everything but the deferred deletion. */
  method HandleMessage(w: World, job: JobMessage) returns (outcome: Outcome, log: seq<Effect>, ghost asked: nat)
    requires w.body == Some(job)
    ensures OutcomeOk(w, job, outcome) && MessageLog(w, log, asked) && DeletesJustified(w, log)
    ensures !NoDelete(log) <==> StartsCold(w) && FallbackSent(w, job)
    ensures outcome != NoneOfThese ==> NoDelete(log) && Justified(w, log)
  {
    log, asked := [], 0;
    if w.hasTable {
      log, asked := [Claim(w.claim)], 1;
      if w.claim == AlreadyClaimed { return FoundClaimed, log, asked; }
      if w.claim == ClaimExhausted {
        log, asked := [Claim(w.claim), FailClaim(w.failWriteOk)], 2;
        assert log[0] == Claim(ClaimExhausted) && log[1] == FailClaim(w.failWriteOk);
        return if w.failWriteOk then FoundExhausted else NoneOfThese, log, asked;
      }
      if w.claim != Claimed { return NoneOfThese, log, asked; }
    }
    var processed;
    processed, log, asked := AssignOrLaunch(w, job, log);
    return if processed then JobProcessed else NoneOfThese, log, asked;
  }

  /** With the lease in hand: the warm pool if the job names one, else a cold start. */
  method AssignOrLaunch(w: World, job: JobMessage, claimed: seq<Effect>) returns (processed: bool, log: seq<Effect>, ghost asked: nat)
    requires w.body == Some(job) && Proceeds(w) && claimed == if w.hasTable then [Claim(w.claim)] else []
    ensures processed <==> WarmAssigned(w, job) || (w.hasFleet && ColdStartDone(w))
    ensures MessageLog(w, log, asked) && DeletesJustified(w, log)
    ensures !NoDelete(log) <==> StartsCold(w) && FallbackSent(w, job)
    ensures processed ==> NoDelete(log) && Justified(w, log)
  {
    log, asked := claimed, |claimed|;
    if job.pool != "" {
      log, asked := claimed + [Warm(w.warm)], |claimed| + 1;
      if w.warm.AssignedTo? {
        assert log[|log| - 1] == Warm(w.warm);
        return true, log, asked;
      }
    }
    if !w.hasFleet { return false, log, asked; }
    var cold;
    processed, cold := ColdStart(w, job);
    ColdAfter(w, log, cold, processed);
    assert (log + cold)[..asked] == log && (log + cold)[asked..] == cold;
    log := log + cold;
  }

  /**
   The message is deleted only after one of the outcomes that justify it, and a delete is
   attempted exactly when one of them came about. `asked` is where the log leaves the claim
   and the warm pool behind.
   */
  method ProcessEC2Message(w: World) returns (log: seq<Effect>, ghost asked: nat)
    ensures DeletesJustified(w, log)
    ensures (exists k :: 0 <= k < |log| && log[k].Delete?) <==> MessageDone(w)
    ensures MessageLog(w, log, asked)
  {
    if w.body.None? {
      log := DeleteMessageWithRetry(w);
      assert log[0].Delete?;
      return log, 0;
    }
    var outcome;
    outcome, log, asked := HandleMessage(w, w.body.value);
    if outcome != NoneOfThese {
      var dels := DeleteMessageWithRetry(w);
      AppendDeletes(w, log, dels);
      MessageLogThenDeletes(w, log, asked, dels);
      log := log + dels;
      assert log[|log| - 1].Delete?;
    }
  }

  /**
   A message is done with when it is unreadable; when another processor holds the job; when its
   exhausted claim was written off; when a warm instance took it; when the first of three launches
   that succeeded has every runner prepared; or when none did and the fallback was accepted.
   */
  lemma DoneMeans(w: World)
    ensures MessageDone(w) <==>
              || w.body.None?
              || (w.hasTable && w.claim == AlreadyClaimed)
              || (w.hasTable && w.claim == ClaimExhausted && w.failWriteOk)
              || ((!w.hasTable || w.claim == Claimed)
                  && var job := w.body.value;
                  || (job.pool != "" && w.warm.AssignedTo?)
                  || (w.hasFleet && exists k :: 0 <= k < 3 && w.launch(k).Some? && (forall m :: 0 <= m < k ==> w.launch(m).None?)
                                                && (w.hasRunner ==> forall i :: i in w.launch(k).value ==> w.prepares(i)))
                  || (w.hasFleet && (forall k :: 0 <= k < 3 ==> w.launch(k).None?)
                      && job.spot && !job.forceOnDemand && job.retryCount < 2 && exists k :: 0 <= k < 3 && w.sends(k)))
  {
    LaunchedIsFirst(w);
    PreparedMeans(w);
  }

  lemma PreparedMeans(w: World)
    ensures ColdStartDone(w) <==>
              exists k :: 0 <= k < 3 && w.launch(k).Some? && (forall m :: 0 <= m < k ==> w.launch(m).None?)
                          && (w.hasRunner ==> forall i :: i in w.launch(k).value ==> w.prepares(i))
  {
    LaunchedIsFirst(w);
  }

  /** A delete comes only after what makes it right is in the log. */
  lemma JustifiedMeans(w: World, log: seq<Effect>, k: nat)
    requires DeletesJustified(w, log) && k < |log| && log[k].Delete?
    ensures var past := log[..k];
            || w.body.None?
            || Claim(AlreadyClaimed) in past
            || (Claim(ClaimExhausted) in past && FailClaim(true) in past)
            || (exists i :: Warm(AssignedTo(i)) in past)
            || (exists up :: FleetCall(Some(up)) in past
                             && forall i :: i in up ==> Prepare(i, false) !in past && (w.hasRunner ==> Prepare(i, true) in past))
            || (exists job :: w.body == Some(job)
                              && Send(job.(spot := false, retryCount := job.retryCount + 1, forceOnDemand := true, traceparent := ""), true) in past)
  {
    if w.body.Some? && Send(BuildOnDemandFallbackJob(w.body.value), true) in log[..k] {
      var job := w.body.value;
      assert w.body == Some(job);
    }
  }

  /**
   The claim comes first when there is a table; an exhausted one is written off; the warm pool is
   asked when the claim is ours and the job names a pool.
   */
  lemma MessageLogMeans(w: World, log: seq<Effect>, asked: nat)
    requires w.body.Some? && MessageLog(w, log, asked)
    ensures w.hasTable ==> log != [] && log[0] == Claim(w.claim)
    ensures forall ok :: FailClaim(ok) in log <==> w.hasTable && w.claim == ClaimExhausted && ok == w.failWriteOk
    ensures forall a :: Warm(a) in log <==> (!w.hasTable || w.claim == Claimed) && w.body.value.pool != "" && a == w.warm
  {
    var rest := log[asked..];
    assert log == Asked(w) + rest;
    assert forall e :: e in log <==> e in Asked(w) || e in rest;
    AskedMeans(w);
    RestMeans(w, rest);
  }

  /**
   A fleet is launched when the claim is ours, no warm instance took the job and there is a fleet
   manager; the rest of the log is then that of a cold start. Without a launch nothing is sent,
   saved, prepared or released.
   */
  lemma LaunchMeans(w: World, log: seq<Effect>, asked: nat)
    requires w.body.Some? && MessageLog(w, log, asked)
    ensures (exists x :: FleetCall(x) in log) <==>
              (!w.hasTable || w.claim == Claimed) && !(w.body.value.pool != "" && w.warm.AssignedTo?) && w.hasFleet
    ensures (exists x :: FleetCall(x) in log) ==> ColdLog(w, w.body.value, log[asked..])
    ensures (forall x :: FleetCall(x) !in log) ==> forall e :: e in log ==> !e.Send? && !e.Save? && !e.Prepare? && !e.Release?
  {
    var rest := log[asked..];
    assert log == Asked(w) + rest;
    assert forall e :: e in log <==> e in Asked(w) || e in rest;
    AskedMeans(w);
    RestMeans(w, rest);
  }

  lemma RestMeans(w: World, rest: seq<Effect>)
    requires w.body.Some? && if StartsCold(w) then ColdLog(w, w.body.value, rest) else OnlyDeletes(rest)
    ensures forall e :: e in rest ==> !e.FailClaim? && !e.Warm? && !e.Claim?
    ensures if StartsCold(w) then FleetCall(Launched(w, 0)) in rest else forall e :: e in rest ==> e.Delete?
  {
    if StartsCold(w) { assert rest[0] in rest; }
  }

  lemma AskedMeans(w: World)
    requires w.body.Some?
    ensures w.hasTable ==> Asked(w) != [] && Asked(w)[0] == Claim(w.claim)
    ensures forall e :: e in Asked(w) <==>
              || (w.hasTable && e == Claim(w.claim))
              || (w.hasTable && w.claim == ClaimExhausted && e == FailClaim(w.failWriteOk))
              || ((!w.hasTable || w.claim == Claimed) && w.body.value.pool != "" && e == Warm(w.warm))
  {
  }

  lemma MessageLogThenDeletes(w: World, log: seq<Effect>, n: nat, dels: seq<Effect>)
    requires MessageLog(w, log, n) && OnlyDeletes(dels)
    ensures MessageLog(w, log + dels, n)
  {
    assert (log + dels)[..n] == log[..n] && (log + dels)[n..] == log[n..] + dels;
    if StartsCold(w) { ColdLogThenDeletes(w, w.body.value, log[n..], dels); }
  }

  /** What happened before a cold start takes nothing from its justifications. */
  lemma ColdAfter(w: World, before: seq<Effect>, cold: seq<Effect>, processed: bool)
    requires w.body.Some? && NoDelete(before) && forall e :: e in before ==> e.Claim? || e.Warm?
    requires DeletesJustified(w, cold) && (processed ==> NoDelete(cold) && Justified(w, cold))
    ensures DeletesJustified(w, before + cold)
    ensures processed ==> NoDelete(before + cold) && Justified(w, before + cold)
    ensures NoDelete(before + cold) <==> NoDelete(cold)
  {
    var log := before + cold;
    assert forall k :: 0 <= k < |cold| ==> log[|before| + k] == cold[k];
    forall k | |before| <= k < |log| && log[k].Delete? ensures Justified(w, log[..k]) {
      assert log[..k] == before + cold[..k - |before|];
      assert cold[k - |before|].Delete?;
      JustifiedEarlier(w, before, cold[..k - |before|]);
    }
    if processed { JustifiedEarlier(w, before, cold); }
  }

  lemma JustifiedEarlier(w: World, before: seq<Effect>, past: seq<Effect>)
    requires Justified(w, past) && forall e :: e in before ==> e.Claim? || e.Warm?
    ensures Justified(w, before + past)
  {
    assert forall e :: e in past ==> e in before + past;
    if up :| FleetCall(Some(up)) in past && AllPrepared(w, up, past) {
      assert AllPrepared(w, up, before + past);
    }
  }

  // ----- the direct path

  predicate HandsBack(w: World, job: JobMessage) {
    OnDemandFallbackEligible(job) && w.hasQueue
  }

  /** Nothing sent, written off or deleted. */
  ghost predicate Quiet(log: seq<Effect>) {
    forall k :: 0 <= k < |log| ==> !log[k].Send? && !log[k].FailClaim? && !log[k].Delete?
  }

  /** The claim let go of and then the fallback sent, or the job written off. */
  ghost predicate RecoveryOk(w: World, job: JobMessage, log: seq<Effect>) {
    if HandsBack(w, job) then
      var first := if w.hasTable then 1 else 0;
      && first < |log| && (w.hasTable ==> log[0] == Release(w.releaseOk))
      && (forall k :: first <= k < |log| ==> log[k] == Send(BuildOnDemandFallbackJob(job), w.sends(k - first)))
      && (Send(BuildOnDemandFallbackJob(job), true) in log <==> SomeOf(w.sends, 3))
    else log == if w.hasTable then [FailClaim(w.failWriteOk)] else []
  }

  method RecoverFleetFailure(w: World, job: JobMessage) returns (log: seq<Effect>)
    ensures RecoveryOk(w, job, log)
  {
    log := [];
    if OnDemandFallbackEligible(job) && w.hasQueue {
      if w.hasTable { log := [Release(w.releaseOk)]; }
      var ok, sends := SendMessageWithRetry(w, BuildOnDemandFallbackJob(job));
      var released := log;
      log := released + sends;
      assert Send(BuildOnDemandFallbackJob(job), true) in log <==> Send(BuildOnDemandFallbackJob(job), true) in sends;
    } else if w.hasTable {
      log := [FailClaim(w.failWriteOk)];
    }
  }

  /** A spot job below the cap is handed back to the queue on demand, its claim released first; any other is written off. */
  lemma RecoveryMeans(w: World, job: JobMessage, log: seq<Effect>)
    requires RecoveryOk(w, job, log)
    ensures var fallback := JobMessage(job.jobId, job.runId, job.repo, job.instanceType, job.instanceTypes, job.pool, false,
                                       job.originalLabel, job.retryCount + 1, true, job.arch, job.storageGiB, "");
            var handsBack := job.spot && !job.forceOnDemand && job.retryCount < 2 && w.hasQueue;
            && (forall m, ok :: Send(m, ok) in log ==> handsBack && m == fallback)
            && (handsBack ==> (Send(fallback, true) in log <==> exists k :: 0 <= k < 3 && w.sends(k)))
            && (handsBack && w.hasTable ==> log[0] == Release(w.releaseOk))
            && (forall ok :: FailClaim(ok) in log <==> !handsBack && w.hasTable && ok == w.failWriteOk)
            && (forall ok :: Release(ok) in log <==> handsBack && w.hasTable && ok == w.releaseOk)
  {
    if HandsBack(w, job) {
      if w.hasTable { assert log[0] in log; }
      forall e | e in log ensures e.Send? || (w.hasTable && e == Release(w.releaseOk)) {}
    }
  }

  /**
   Processing straight from the webhook, which holds no message to delete. A failed launch
   either hands the job back to the queue, its claim let go of first, or ends it in error;
   nothing else sends or writes off. `log` is up to the launch, `after` what follows it.
   */
  method ProcessJobDirect(w: World, job: JobMessage) returns (served: bool, log: seq<Effect>, after: seq<Effect>)
    ensures served <==> w.hasFleet && (!w.hasTable || w.claim == Claimed) && ((job.pool != "" && w.warm.AssignedTo?) || ColdStartDone(w))
    ensures w.hasFleet && w.hasTable ==> log != [] && log[0] == Claim(w.claim)
    ensures forall a :: Warm(a) in log <==> w.hasFleet && (!w.hasTable || w.claim == Claimed) && job.pool != "" && a == w.warm
    ensures forall e :: e in log ==> e.Claim? || e.Warm? || e.FleetCall?
    ensures if w.hasFleet && (!w.hasTable || w.claim == Claimed) && !(job.pool != "" && w.warm.AssignedTo?) then
              && log != [] && log[|log| - 1] == FleetCall(Launched(w, 0))
              && (if Launched(w, 0).Some? then Quiet(after) && Provisioned(w, Launched(w, 0).value, 1, after)
                  else RecoveryOk(w, job, after))
            else after == [] && forall x :: FleetCall(x) !in log
  {
    served, log, after := false, [], [];
    if !w.hasFleet { return; }
    if w.hasTable {
      log := [Claim(w.claim)];
      if w.claim != Claimed { return; }
    }
    if job.pool != "" {
      log := log + [Warm(w.warm)];
      assert log[|log| - 1] == Warm(w.warm);
      if w.warm.AssignedTo? { return true, log, []; }
    }
    var instances := CreateFleetWithRetry(w);
    log := log + [FleetCall(instances)];
    if instances.None? {
      after := RecoverFleetFailure(w, job);
      return;
    }
    var failed;
    failed, after := Provision(w, instances.value, DIRECT_SAVE_ATTEMPTS);
    served := !failed;
  }

  // ----- webhook handlers

  /** What the handlers read back of a job. */
  datatype JobInfo = JobInfo(jobId: JobId, runId: int, repo: string, instance: InstanceId, instanceType: string,
                             pool: string, retryCount: int, originalLabel: string)

  datatype Handled = Handled(ok: bool, owned: bool)

  /** The message that requeues a failed job, rebuilt from its row. */
  function RequeueMessage(info: JobInfo): JobMessage {
    JobMessage(info.jobId, info.runId, info.repo, info.instanceType, [], info.pool, false,
               info.originalLabel, info.retryCount + 1, true, "", 0, "")
  }

  /** `read`, `mark` and `sent` are the answered calls; none stands for a failed call. */
  method HandleJobFailure(ours: bool, hasTable: bool, read: Option<Option<JobInfo>>, mark: Option<bool>, sendOk: bool)
    returns (r: Handled, sent: Option<JobMessage>)
    ensures sent.Some? <==>
              && ours && hasTable && read.Some? && read.value.Some? && mark == Some(true)
              && var info := read.value.value; info.retryCount < 2 && info.runId != 0 && info.repo != ""
    ensures sent.Some? ==> sent.value == RequeueMessage(read.value.value) && !OnDemandFallbackEligible(sent.value)
    ensures sent.Some? ==>
              var info := read.value.value;
              sent.value == JobMessage(info.jobId, info.runId, info.repo, info.instanceType, [], info.pool, false,
                                       info.originalLabel, info.retryCount + 1, true, "", 0, "")
    ensures r.owned <==> sent.Some? && sendOk
    ensures !r.ok <==> ours && hasTable
                       && (read.None?
                           || (read.value.Some?
                               && var info := read.value.value;
                               info.retryCount < 2 && info.runId != 0 && info.repo != ""
                               && (mark.None? || (mark.value && !sendOk))))
  {
    if !ours || !hasTable { return Handled(true, false), None; }
    if read.None? { return Handled(false, false), None; }
    if read.value.None? { return Handled(true, false), None; }
    var info := read.value.value;
    if info.retryCount >= MAX_JOB_RETRIES || info.runId == 0 || info.repo == "" { return Handled(true, false), None; }
    if mark.None? { return Handled(false, false), None; }
    if !mark.value { return Handled(true, false), None; }
    return Handled(sendOk, sendOk), Some(RequeueMessage(info));
  }

  /** The runner config and the instance claim are cleaned up only by the caller whose mark succeeded. */
  method HandleJobCancelled(ours: bool, hasTable: bool, read: Option<Option<JobInfo>>, mark: Option<bool>)
    returns (r: Handled, cleaned: Option<InstanceId>)
    ensures r.owned <==> ours && hasTable && read.Some? && read.value.Some? && mark == Some(true)
    ensures cleaned == if r.owned && read.value.value.instance != "" then Some(read.value.value.instance) else None
    ensures !r.ok <==> ours && hasTable && (read.None? || (read.value.Some? && mark.None?))
  {
    if !ours || !hasTable { return Handled(true, false), None; }
    if read.None? { return Handled(false, false), None; }
    if read.value.None? { return Handled(true, false), None; }
    if mark.None? { return Handled(false, false), None; }
    if !mark.value { return Handled(true, false), None; }
    if read.value.value.instance != "" { return Handled(true, true), Some(read.value.value.instance); }
    return Handled(true, true), None;
  }
}
