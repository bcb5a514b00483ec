/**
 Why requeue chains end: the messages of a job over every run of the webhook, the
 processors, the termination handler, the housekeeping sweeps, the spot handler and an
 operator. Every sender but the last two stops at the cap.
 */
module RetryBudget {

  import opened Wrappers
  import opened Jobs
  import opened MessageProcessing

  /** Every message sent so far, and every retry count a job row has carried: reads may be out of date. */
  datatype State = State(sent: seq<JobMessage>, counts: set<(JobId, int)>)

  datatype Step =
    /** A workflow job was queued: first dispatch, no retry, on-demand not forced. */
    | Enqueue(msg: JobMessage)
    /** A processor of a sent message failed to launch a fleet and requeues it on-demand. */
    | Fallback(msg: JobMessage)
    /** A processor of a sent message saves the row with the message's count. */
    | SaveRow(msg: JobMessage)
    /** A claim rewrites the row with its attempt count. */
    | ClaimRow(job: JobId, attempts: nat)
    /** A job is requeued from its row: failed, not booted, still queued, unconfirmed or picked by an operator. */
    | Requeue(info: JobInfo)
    /** A requeue without a cap: after a spot interruption, or forced by an operator. */
    | ForcedRequeue(info: JobInfo)

  predicate Enabled(s: State, step: Step) {
    match step
    case Enqueue(m) => m.retryCount == 0 && !m.forceOnDemand
    case Fallback(m) => m in s.sent && OnDemandFallbackEligible(m)
    case SaveRow(m) => m in s.sent
    case ClaimRow(_, _) => true
    case Requeue(info) => info.retryCount < MAX_JOB_RETRIES && (info.jobId, info.retryCount) in s.counts
    case ForcedRequeue(info) => (info.jobId, info.retryCount) in s.counts
  }

  function Apply(s: State, step: Step): State {
    match step
    case Enqueue(m) => s.(sent := s.sent + [m])
    case Fallback(m) => s.(sent := s.sent + [BuildOnDemandFallbackJob(m)])
    case SaveRow(m) => s.(counts := s.counts + {(m.jobId, m.retryCount)})
    case ClaimRow(j, attempts) => s.(counts := s.counts + {(j, attempts)})
    case Requeue(info) => s.(sent := s.sent + [RequeueMessage(info)])
    case ForcedRequeue(info) => s.(sent := s.sent + [RequeueMessage(info)])
  }

  ghost predicate IsRun(states: seq<State>, steps: seq<Step>) {
    && |states| == |steps| + 1 && states[0] == State([], {})
    && forall i :: 0 <= i < |steps| ==> Enabled(states[i], steps[i]) && states[i + 1] == Apply(states[i], steps[i])
  }

  /** The step goes past the cap for this job. */
  predicate Exceeds(step: Step, job: JobId) {
    step.ForcedRequeue? && step.info.jobId == job && step.info.retryCount >= MAX_JOB_RETRIES
  }

  /** A retry is never eligible to fall back. */
  predicate CountedUp(m: JobMessage) {
    m.retryCount >= 0 && (m.retryCount > 0 ==> !OnDemandFallbackEligible(m))
  }

  ghost predicate Inv(s: State) {
    && (forall k :: 0 <= k < |s.sent| ==> CountedUp(s.sent[k]))
    && (forall c :: c in s.counts ==> c.1 >= 0)
  }

  lemma {:induction false} RunKeepsInv(states: seq<State>, steps: seq<Step>, i: nat)
    requires IsRun(states, steps) && i < |states|
    ensures Inv(states[i])
  {
    if i > 0 {
      RunKeepsInv(states, steps, i - 1);
      assert Enabled(states[i - 1], steps[i - 1]) && states[i] == Apply(states[i - 1], steps[i - 1]);
    }
  }

  /** What a retry was built from. */
  function BuiltFrom(step: Step): int
    requires step.Fallback? || step.Requeue? || step.ForcedRequeue?
  {
    if step.Fallback? then step.msg.retryCount else step.info.retryCount
  }

  /** Every retry carries one more than what it was built from and cannot fall back; only a forced one passes the cap. */
  lemma RetriesCountUp(states: seq<State>, steps: seq<Step>, i: nat)
    requires IsRun(states, steps) && i < |steps| && (steps[i].Fallback? || steps[i].Requeue? || steps[i].ForcedRequeue?)
    ensures |states[i + 1].sent| == |states[i].sent| + 1 && states[i].sent <= states[i + 1].sent
    ensures var m := states[i + 1].sent[|states[i].sent|];
            && m.retryCount == 1 + BuiltFrom(steps[i]) && m.retryCount >= 1 && !OnDemandFallbackEligible(m)
            && (m.retryCount <= MAX_JOB_RETRIES <==> !Exceeds(steps[i], m.jobId))
  {
    RunKeepsInv(states, steps, i);
    RunKeepsInv(states, steps, i + 1);
    assert Enabled(states[i], steps[i]) && states[i + 1] == Apply(states[i], steps[i]);
  }

  /** What the FIFO queue deduplicates on. */
  function DedupId(m: JobMessage): (JobId, int) {
    (m.jobId, m.retryCount)
  }

  function DedupIds(sent: seq<JobMessage>, job: JobId): set<(JobId, int)> {
    set k | 0 <= k < |sent| && sent[k].jobId == job :: DedupId(sent[k])
  }

  /** The ids within the budget. */
  function Budgeted(job: JobId): set<(JobId, int)> {
    {(job, 0), (job, 1), (job, 2)}
  }

  lemma IdsAppend(sent: seq<JobMessage>, m: JobMessage, job: JobId)
    ensures DedupIds(sent + [m], job) == DedupIds(sent, job) + if m.jobId == job then {DedupId(m)} else {}
  {
    var all := sent + [m];
    assert all[|sent|] == m && forall k :: 0 <= k < |sent| ==> all[k] == sent[k];
    assert forall d :: d in DedupIds(sent, job) ==> d in DedupIds(all, job);
  }

  /** The one id a step adds is within the budget unless the step exceeds the cap. */
  lemma StepWithinBudget(s: State, step: Step, job: JobId)
    requires Inv(s) && Enabled(s, step)
    ensures DedupIds(Apply(s, step).sent, job) <= Budgeted(job)
            <==> DedupIds(s.sent, job) <= Budgeted(job) && !Exceeds(step, job)
  {
    var sent' := Apply(s, step).sent;
    if sent' != s.sent {
      var m := sent'[|sent'| - 1];
      IdsAppend(s.sent, m, job);
      if step.Fallback? {
        var k :| 0 <= k < |s.sent| && s.sent[k] == step.msg;
      }
      assert m.retryCount >= 0;
      assert m.jobId == job ==> (DedupId(m) in Budgeted(job) <==> !Exceeds(step, job));
    }
  }

  /** A job's ids stay within the budget of three over a run exactly when no forced requeue passed the cap. */
  lemma {:induction false} BudgetKeptExactly(states: seq<State>, steps: seq<Step>, i: nat, job: JobId)
    requires IsRun(states, steps) && i < |states|
    ensures DedupIds(states[i].sent, job) <= Budgeted(job) <==> forall m :: 0 <= m < i ==> !Exceeds(steps[m], job)
  {
    if i > 0 {
      BudgetKeptExactly(states, steps, i - 1, job);
      RunKeepsInv(states, steps, i - 1);
      assert Enabled(states[i - 1], steps[i - 1]) && states[i] == Apply(states[i - 1], steps[i - 1]);
      StepWithinBudget(states[i - 1], steps[i - 1], job);
    }
  }

  /** A job has at most three deduplication ids, over any run without a forced requeue past the cap. */
  lemma AtMostThreeDedupIds(states: seq<State>, steps: seq<Step>, i: nat, job: JobId)
    requires IsRun(states, steps) && i < |states| && forall m :: 0 <= m < i ==> !Exceeds(steps[m], job)
    ensures |DedupIds(states[i].sent, job)| <= 3
  {
    BudgetKeptExactly(states, steps, i, job);
    SubsetSize(DedupIds(states[i].sent, job), Budgeted(job));
    assert |Budgeted(job)| == 3;
  }

  /** The retries of a message, each saved to the row and requeued from it. */
  function Retried(first: JobMessage, n: nat): JobMessage {
    if n == 0 then first
    else RequeueMessage(InfoOf(Retried(first, n - 1)))
  }

  function InfoOf(m: JobMessage): JobInfo {
    JobInfo(m.jobId, m.runId, m.repo, "", m.instanceType, m.pool, m.retryCount, m.originalLabel)
  }

  /** From a run that ends with a message of count n: the row is saved and requeued. */
  lemma RequeueAgain(states0: seq<State>, steps0: seq<Step>, first: JobMessage, n: nat) returns (states: seq<State>, steps: seq<Step>)
    requires IsRun(states0, steps0) && first.retryCount == 0 && n <= 2
    requires Retried(first, n) in states0[|steps0|].sent && Retried(first, n).retryCount == n
    ensures IsRun(states, steps) && states0 <= states && |steps| == |steps0| + 2
    ensures states[|steps|].sent == states0[|steps0|].sent + [Retried(first, n + 1)] && Retried(first, n + 1).retryCount == n + 1
  {
    var s, m := states0[|steps0|], Retried(first, n);
    var save, again := SaveRow(m), if n < 2 then Requeue(InfoOf(m)) else ForcedRequeue(InfoOf(m));
    var s1 := Apply(s, save);
    states, steps := states0 + [s1, Apply(s1, again)], steps0 + [save, again];
  }

  /** A forced requeue past the cap does reach a fourth id. */
  lemma FourthDedupId(first: JobMessage) returns (states: seq<State>, steps: seq<Step>)
    requires first.retryCount == 0 && !first.forceOnDemand
    ensures IsRun(states, steps) && |DedupIds(states[|steps|].sent, first.jobId)| == 4
  {
    states, steps := [State([], {}), State([first], {})], [Enqueue(first)];
    states, steps := RequeueAgain(states, steps, first, 0);
    states, steps := RequeueAgain(states, steps, first, 1);
    states, steps := RequeueAgain(states, steps, first, 2);
    assert states[|steps|].sent == [first, Retried(first, 1), Retried(first, 2), Retried(first, 3)];
    FourIds(first, states[|steps|].sent);
  }

  lemma FourIds(first: JobMessage, sent: seq<JobMessage>)
    requires |sent| == 4 && forall k :: 0 <= k < 4 ==> sent[k].retryCount == k && sent[k].jobId == first.jobId
    ensures |DedupIds(sent, first.jobId)| == 4
  {
    var j := first.jobId;
    assert forall k :: 0 <= k < 4 ==> DedupId(sent[k]) == (j, k);
    assert DedupIds(sent, j) == {(j, 0), (j, 1), (j, 2), (j, 3)};
  }

  lemma {:induction false} SubsetSize<T>(a: set<T>, b: set<T>)
    requires a <= b
    ensures |a| <= |b|
    decreases b
  {
    if a != {} {
      var x :| x in a;
      SubsetSize(a - {x}, b - {x});
    }
  }
}
