/**
 What every run of the job lease guarantees, and the runs that show the hypotheses
 are needed.
 */
module JobRuns {

  import opened Clock
  import opened Wrappers
  import opened Jobs
  import opened JobLease

  datatype Run = Run(states: seq<State>, steps: seq<Step>)

  ghost predicate IsRun(r: Run) {
    && |r.states| == |r.steps| + 1
    && Init(r.states[0])
    && forall i :: 0 <= i < |r.steps| ==> Next(r.states[i], r.steps[i], r.states[i + 1])
  }

  lemma {:induction false} ReachableInv(r: Run, i: nat)
    requires IsRun(r) && i < |r.states|
    ensures Inv(r.states[i])
  {
    if i == 0 {
      assert forall w, j :: !Live(r.states[0], w, j);
    } else {
      ReachableInv(r, i - 1);
      StepKeepsInv(r.states[i - 1], r.steps[i - 1], r.states[i]);
    }
  }

  /**
   The hypotheses exclude nothing but this: the write of a holder past its 90 s; a takeover of a
   requeued or terminating row in the second of its stamp; a completion without a terminal status;
   and a sweep, a late release or a give-up on a job those have touched, landing on a row that might
   be held before or after it, or deleting one of this very second.
   */
  lemma ExcludedSteps(s: State, step: Step)
    requires Enabled(s, step) && !Disciplined(s, step) && RowsOk(s)
    ensures match step
            case Save(w, _) => PhaseOf(s, w).Holding? && PhaseOf(s, w).since + 90 * SECOND <= s.now
            case Release(w) => PhaseOf(s, w).Holding? && PhaseOf(s, w).since + 90 * SECOND <= s.now
            case FailClaim(w) =>
              if PhaseOf(s, w).Holding? then PhaseOf(s, w).since + 90 * SECOND <= s.now
              else PhaseOf(s, w).job in s.swept && MightBeHeld(Row(s, PhaseOf(s, w).job), s.now)
            case ClaimWrite(w) =>
              && Wins(s, w) && Row(s, PhaseOf(s, w).job).Some?
              && HasStatus(PhaseOf(s, w).seen, {Requeued, Terminating})
              && s.now < (Row(s, PhaseOf(s, w).job).value.createdAt.seconds + 1) * SECOND
            case Complete(_, _, status) => status in {Launched, Running, Claiming, Terminating, Requeued, Failed, Orphaned}
            case LateRelease(w) =>
              var row := Row(s, PhaseOf(s, w).job);
              row.Some? && (MightBeHeld(row, s.now) || s.now < (row.value.createdAt.seconds + 1) * SECOND)
            case Sweep(j, write) =>
              var row, row' := Row(s, j), Row(Apply(s, step), j);
              && row != row' && row.Some?
              && (|| MightBeHeld(row, s.now) || MightBeHeld(row', s.now)
                  || (write == Purge && s.now < (row.value.createdAt.seconds + 1) * SECOND))
            case _ => false
  {
    if step.Sweep? { StoredRow(MarkSwept(s, step.job), step.job, RowAfterSweep(Row(s, step.job), step.write, s.now)); }
  }

  // ----- mutual exclusion

  /** At most one live holder per job, and the row is exactly the stub it wrote. */
  lemma AtMostOneLiveHolder(r: Run, i: nat, w1: Worker, w2: Worker, j: JobId)
    requires IsRun(r) && i < |r.states|
    requires Live(r.states[i], w1, j) && Live(r.states[i], w2, j)
    ensures w1 == w2
    ensures var p := PhaseOf(r.states[i], w1);
            && Row(r.states[i], j) == Some(p.stub)
            && p.stub == ClaimStub(p.stub.runId, p.stub.repo, p.stub.retryCount, p.since)
  {
    ReachableInv(r, i);
    assert PhaseOk(r.states[i], PhaseOf(r.states[i], w1));
  }

  /**
   The unconditional writes of a holder (save, release) and its guarded give-up land
   on its own stub, and no other processor is a live holder of that job.
   */
  lemma HolderWritesOwnStub(r: Run, i: nat, v: Worker)
    requires IsRun(r) && i < |r.steps|
    requires r.steps[i].Save? || r.steps[i].Release? || r.steps[i].FailClaim?
    requires PhaseOf(r.states[i], r.steps[i].w).Holding? && v != r.steps[i].w
    ensures var p := PhaseOf(r.states[i], r.steps[i].w);
            Row(r.states[i], p.job) == Some(p.stub) && !Live(r.states[i], v, p.job)
  {
    ReachableInv(r, i);
    assert Next(r.states[i], r.steps[i], r.states[i + 1]);
    assert PhaseOk(r.states[i], PhaseOf(r.states[i], r.steps[i].w));
  }

  /**
   Giving up on an exhausted lease never fails a job somebody is holding. For a job that neither a
   sweep nor a late release has touched this needs no hypothesis: the write is disciplined by itself.
   */
  lemma GiveUpSparesHolders(r: Run, i: nat, w: Worker, v: Worker)
    requires IsRun(r) && i < |r.states| && PhaseOf(r.states[i], w).GivingUp?
    ensures var j := PhaseOf(r.states[i], w).job;
            && (j !in r.states[i].swept ==> !Live(r.states[i], v, j) && Disciplined(r.states[i], FailClaim(w)))
            && (i < |r.steps| && r.steps[i] == FailClaim(w) ==> !Live(r.states[i], v, j))
  {
    ReachableInv(r, i);
    var s, q := r.states[i], PhaseOf(r.states[i], v);
    var j := PhaseOf(s, w).job;
    assert PhaseOk(s, q);
    GiveUpMeetsNoHolder(s, w);
    if i < |r.steps| { assert Next(s, r.steps[i], r.states[i + 1]); }
    if Live(s, v, j) { LiveMightBeHeld(s, q); }
  }

  /**
   Two processors that both read the row as it now stands: once the first has written,
   the second still wins exactly when the first wrote in the very second the row was
   stamped. A stale lease is too old for that.
   */
  lemma TakeoverRace(s: State, w1: Worker, w2: Worker, row: JobRecord, later: Instant)
    requires w1 != w2 && s.now <= later && row.createdAt.At?
    requires PhaseOf(s, w1).Deciding? && PhaseOf(s, w2).Deciding?
    requires PhaseOf(s, w1).job == PhaseOf(s, w2).job
    requires PhaseOf(s, w1).seen == PhaseOf(s, w2).seen == Some(row) == Row(s, PhaseOf(s, w1).job)
    ensures Wins(AfterClaimWrite(s, w1).(now := later), w2) <==> row.createdAt == At(Seconds(s.now))
    ensures IsStale(row.createdAt, s.now) ==> !Wins(AfterClaimWrite(s, w1).(now := later), w2)
  {
  }

  // ----- without the hypotheses

  /** A sequence of steps the code can take, whether or not the hypotheses hold. */
  ghost predicate CanHappen(r: Run) {
    && |r.states| == |r.steps| + 1
    && Init(r.states[0])
    && forall i :: 0 <= i < |r.steps| ==> Enabled(r.states[i], r.steps[i]) && r.states[i + 1] == Apply(r.states[i], r.steps[i])
  }

  ghost function Last(r: Run): State
    requires |r.states| > 0
  {
    r.states[|r.states| - 1]
  }

  /** No step leaves the hypotheses; if lax, none but the sweeps. */
  ghost predicate Faithful(r: Run, lax: bool) {
    CanHappen(r) && forall i :: 0 <= i < |r.steps| ==> Disciplined(r.states[i], r.steps[i]) || (lax && r.steps[i].Sweep?)
  }

  lemma Start(s: State) returns (r: Run)
    requires Init(s)
    ensures CanHappen(r) && Faithful(r, false) && r.states == [s] && Last(r) == s && r.steps == []
  {
    r := Run([s], []);
  }

  lemma Extend(r: Run, step: Step) returns (r': Run)
    requires CanHappen(r) && Enabled(Last(r), step)
    ensures CanHappen(r') && r'.states[0] == r.states[0] && r'.steps == r.steps + [step]
    ensures Last(r') == Apply(Last(r), step)
  {
    r' := Run(r.states + [Apply(Last(r), step)], r.steps + [step]);
  }

  lemma ExtendFaithfully(r: Run, step: Step, lax: bool) returns (r': Run)
    requires Faithful(r, lax) && Enabled(Last(r), step) && (Disciplined(Last(r), step) || (lax && step.Sweep?))
    ensures Faithful(r', lax) && r'.states[0] == r.states[0] && Last(r') == Apply(Last(r), step)
  {
    r' := Run(r.states + [Apply(Last(r), step)], r.steps + [step]);
  }

  lemma BothRead(row: JobRecord) returns (r: Run)
    requires row.status == Requeued && row.createdAt == At(0)
    ensures CanHappen(r) && r.states[0].table == map[1 := row] && r.steps == [ClaimRead(1, 1, 7, "r"), ClaimRead(2, 1, 7, "r")]
    ensures var p := Deciding(1, 7, "r", Some(row), 0);
            Last(r) == State(0, map[1 := row], map[1 := p, 2 := p], {})
  {
    r := Start(State(0, map[1 := row], map[], {}));
    r := Extend(r, ClaimRead(1, 1, 7, "r"));
    r := Extend(r, ClaimRead(2, 1, 7, "r"));
  }

  /** Two takeovers of a requeued row within its second: both processors hold the job. */
  lemma SameSecondTakeover(row: JobRecord) returns (r: Run)
    requires row.status == Requeued && row.createdAt == At(0)
    ensures CanHappen(r) && r.states[0].table == map[1 := row] && !Exclusive(Last(r))
    ensures forall i :: 0 <= i < |r.steps| ==> r.steps[i].ClaimRead? || r.steps[i].ClaimWrite?
  {
    r := BothRead(row);
    r := Extend(r, ClaimWrite(1));
    r := Extend(r, ClaimWrite(2));
    assert Live(Last(r), 1, 1) && Live(Last(r), 2, 1);
  }

  // ----- writes that may land on a lease

  /** A disciplined run that goes on from a given state. */
  ghost predicate Continues(r: Run, s: State) {
    && |r.states| == |r.steps| + 1 && r.states[0] == s
    && forall i :: 0 <= i < |r.steps| ==> Next(r.states[i], r.steps[i], r.states[i + 1])
  }

  /** However the run goes on within the hypotheses, no job ever has two live holders. */
  ghost predicate StaysExclusive(s: State) {
    forall r :: Continues(r, s) ==> Exclusive(Last(r))
  }

  lemma {:induction false} InvContinues(r: Run, s: State, i: nat)
    requires Inv(s) && Continues(r, s) && i < |r.states|
    ensures Inv(r.states[i])
  {
    if i > 0 {
      InvContinues(r, s, i - 1);
      StepKeepsInv(r.states[i - 1], r.steps[i - 1], r.states[i]);
    }
  }

  lemma InvStaysExclusive(s: State)
    requires Inv(s)
    ensures StaysExclusive(s)
  {
    forall r | Continues(r, s) ensures Exclusive(Last(r)) { InvContinues(r, s, |r.steps|); }
  }

  lemma Here(s: State) returns (r: Run)
    ensures Continues(r, s) && Last(r) == s
  {
    r := Run([s], []);
  }

  lemma GoOn(r: Run, s: State, step: Step) returns (r': Run)
    requires Continues(r, s) && Enabled(Last(r), step) && Disciplined(Last(r), step)
    ensures Continues(r', s) && Last(r') == Apply(Last(r), step)
  {
    r' := Run(r.states + [Apply(Last(r), step)], r.steps + [step]);
  }

  /** The state after w's read and put with nothing in between. */
  function ClaimNow(s: State, w: Worker, j: JobId, runId: int, repo: string): State
    requires EvaluateClaim(Row(s, j), s.now).Proceed?
  {
    AfterClaimWrite(AfterRead(s, w, j, runId, repo), w)
  }

  /** A takeover leaves exactly the former live holders and the new one. */
  lemma ClaimNowAddsHolder(s: State, w: Worker, j: JobId, runId: int, repo: string)
    requires PhaseOf(s, w).Idle? && EvaluateClaim(Row(s, j), s.now).Proceed?
    requires Row(s, j).Some? ==> Row(s, j).value.createdAt.At?
    ensures var s' := ClaimNow(s, w, j, runId, repo);
            Live(s', w, j) && forall v, k :: v != w ==> Live(s', v, k) == Live(s, v, k)
  {
  }

  /** A row that can be claimed under a live holder: the claim makes two. */
  lemma ClaimUnderHolder(r0: Run, s: State, v: Worker, w: Worker, j: JobId) returns (r: Run)
    requires Continues(r0, s) && v != w && Live(Last(r0), v, j) && PhaseOf(Last(r0), w).Idle?
    requires Row(Last(r0), j).Some? ==>
               && HasStatus(Row(Last(r0), j), {Requeued})
               && Row(Last(r0), j).value.createdAt.At? && Row(Last(r0), j).value.createdAt.seconds < Seconds(Last(r0).now)
    ensures Continues(r, s) && !Exclusive(Last(r))
  {
    ClaimNowAddsHolder(Last(r0), w, j, 7, "r");
    r := GoOn(r0, s, ClaimRead(w, j, 7, "r"));
    r := GoOn(r, s, ClaimWrite(w));
    assert Live(Last(r), v, j) && Live(Last(r), w, j);
  }

  /** For every row that might be held there is a state of the protocol in which it is. */
  lemma HeldWitness(row: JobRecord, now: Instant, w: Worker, j: JobId) returns (s: State)
    requires MightBeHeld(Some(row), now) && RowOk(row, now)
    ensures Inv(s) && s.now == now && Row(s, j) == Some(row) && PhaseOf(s, w) == Preparing(j)
    ensures PhaseOf(s, w + 1) == Holding(j, row, LatestIn(row.createdAt.seconds, now)) && Live(s, w + 1, j)
    ensures PhaseOf(s, w + 2).Idle?
  {
    var since := LatestIn(row.createdAt.seconds, now);
    LatestInSecond(row.createdAt.seconds, now);
    s := State(now, map[j := row], map[w := Preparing(j), w + 1 := Holding(j, row, since)], {});
    assert forall u :: PhaseOf(s, u) == if u == w then Preparing(j) else if u == w + 1 then Holding(j, row, since) else Idle;
  }

  /** For every other row there is one in which a processor read it requeued and has yet to write. */
  lemma PendingWitness(row: JobRecord, now: Instant, w: Worker, j: JobId) returns (s: State)
    requires !MightBeHeld(Some(row), now) && RowOk(row, now)
    ensures Inv(s) && s.now == now && Row(s, j) == Some(row) && PhaseOf(s, w) == Preparing(j)
    ensures PhaseOf(s, w + 1) == Deciding(j, 7, "r", Some(row.(status := Requeued)), now)
    ensures PhaseOf(s, w + 2).Idle?
  {
    var p := Deciding(j, 7, "r", Some(row.(status := Requeued)), now);
    s := State(now, map[j := row], map[w := Preparing(j), w + 1 := p], {j});
    assert forall u :: PhaseOf(s, u) == if u == w then Preparing(j) else if u == w + 1 then p else Idle;
    assert forall v, k :: !Live(s, v, k);
  }

  /** Nobody is live on a row that might not be held. */
  lemma NobodyLive(s: State, j: JobId, v: Worker)
    requires Inv(s) && !MightBeHeld(Row(s, j), s.now)
    ensures !Live(s, v, j)
  {
    assert PhaseOk(s, PhaseOf(s, v));
    if Live(s, v, j) { LiveMightBeHeld(s, PhaseOf(s, v)); }
  }

  /**
   A release that deletes a row of this very second, while somebody has read it requeued: the job
   is claimed afresh with the same stamp, and a second later the pending claim wins as well.
   */
  lemma SameSecondRelease(s: State, w: Worker, p: Worker, v: Worker, j: JobId) returns (r: Run)
    requires PhaseOf(s, w) == Preparing(j) && PhaseOf(s, v).Idle? && PhaseOf(s, p).Deciding? && PhaseOf(s, p).job == j
    requires HasStatus(PhaseOf(s, p).seen, {Requeued}) && PhaseOf(s, p).seen.value.createdAt == At(Seconds(s.now))
    ensures Continues(r, Apply(s, LateRelease(w))) && !Exclusive(Last(r))
  {
    var s1 := Apply(s, LateRelease(w));
    ClaimNowAddsHolder(s1, v, j, 7, "r");
    r := Here(s1);
    r := GoOn(r, s1, ClaimRead(v, j, 7, "r"));
    r := GoOn(r, s1, ClaimWrite(v));
    assert Last(r) == ClaimNow(s1, v, j, 7, "r");
    r := PendingWins(r, s1, p, v, j);
  }

  /** A pending claim on the stamp a holder has just written wins in the next second. */
  lemma PendingWins(r0: Run, s: State, p: Worker, v: Worker, j: JobId) returns (r: Run)
    requires Continues(r0, s) && p != v
    requires PhaseOf(Last(r0), v).Holding? && PhaseOf(Last(r0), v).job == j && PhaseOf(Last(r0), v).since == Last(r0).now
    requires Row(Last(r0), j).Some? && Row(Last(r0), j).value.createdAt == At(Seconds(Last(r0).now))
    requires PhaseOf(Last(r0), p).Deciding? && PhaseOf(Last(r0), p).job == j && HasStatus(PhaseOf(Last(r0), p).seen, {Requeued})
    requires PhaseOf(Last(r0), p).seen.value.createdAt == At(Seconds(Last(r0).now))
    ensures Continues(r, s) && !Exclusive(Last(r))
  {
    r := GoOn(r0, s, Tick(Last(r0).now + SECOND));
    r := GoOn(r, s, ClaimWrite(p));
    assert Live(Last(r), p, j) && Live(Last(r), v, j);
  }

  /** Whatever the processors are at, deleting this row again keeps exclusion from then on. */
  ghost predicate ReleaseIsSafe(row: Option<JobRecord>, now: Instant, w: Worker, j: JobId) {
    forall s :: Inv(s) && s.now == now && Row(s, j) == row && PhaseOf(s, w) == Preparing(j)
                ==> StaysExclusive(Apply(s, LateRelease(w)))
  }

  /**
   A processor whose runner preparation failed deletes the row it saved. No run from there on ever
   has two live holders exactly when there is no row, or a row of an earlier second that might not be held.
   */
  lemma LateReleaseSafeExactly(row: Option<JobRecord>, now: Instant, w: Worker, j: JobId)
    requires row.Some? ==> RowOk(row.value, now)
    ensures ReleaseIsSafe(row, now, w, j)
            <==> row.None? || (row.value.createdAt.seconds < Seconds(now) && !MightBeHeld(row, now))
  {
    if Benign(row, None, now) {
      forall s | Inv(s) && s.now == now && Row(s, j) == row && PhaseOf(s, w) == Preparing(j)
        ensures StaysExclusive(Apply(s, LateRelease(w)))
      {
        LateReleaseKeepsInv(s, w);
        InvStaysExclusive(Apply(s, LateRelease(w)));
      }
    } else if MightBeHeld(row, now) {
      var s := HeldWitness(row.value, now, w, j);
      var s1 := Apply(s, LateRelease(w));
      var r := Here(s1);
      r := ClaimUnderHolder(r, s1, w + 1, w + 2, j);
      assert !StaysExclusive(s1);
    } else {
      var s := PendingWitness(row.value, now, w, j);
      var r := SameSecondRelease(s, w, w + 1, w + 2, j);
      assert !StaysExclusive(Apply(s, LateRelease(w)));
    }
  }

  /** Whatever the processors are at, this flip keeps exclusion from then on. */
  ghost predicate FlipIsSafe(row: JobRecord, now: Instant, j: JobId)
    requires row.status in {Launched, Running, Claiming}
  {
    forall s :: Inv(s) && s.now == now && Row(s, j) == Some(row) ==> StaysExclusive(Apply(s, Sweep(j, Flip(row.status, true))))
  }

  /** A flip under a live holder, and a takeover in a later second. */
  lemma FlipUnderHolder(s: State, row: JobRecord, v: Worker, w: Worker, j: JobId) returns (r: Run)
    requires Row(s, j) == Some(row) && row.status == Claiming && RowOk(row, s.now) && v != w && PhaseOf(s, w).Idle?
    requires PhaseOf(s, v) == Holding(j, row, LatestIn(row.createdAt.seconds, s.now)) && Live(s, v, j)
    ensures Continues(r, Apply(s, Sweep(j, Flip(Claiming, true)))) && !Exclusive(Last(r))
  {
    var s1 := Apply(s, Sweep(j, Flip(Claiming, true)));
    r := Here(s1);
    if row.createdAt.seconds == Seconds(s.now) {
      assert PhaseOf(s, v).since == s.now;
      r := GoOn(r, s1, Tick(s.now + SECOND));
    }
    r := ClaimUnderHolder(r, s1, v, w, j);
  }

  /**
   A sweep or an operator flips the row to requeued, looking at its status alone. No run from there
   on ever has two live holders exactly when the row flipped is not one that might be held.
   */
  lemma FlipSafeExactly(row: JobRecord, now: Instant, j: JobId)
    requires RowOk(row, now) && row.status in {Launched, Running, Claiming}
    ensures FlipIsSafe(row, now, j) <==> !MightBeHeld(Some(row), now)
  {
    if MightBeHeld(Some(row), now) {
      var s := HeldWitness(row, now, 0, j);
      var r := FlipUnderHolder(s, row, 1, 2, j);
      assert !StaysExclusive(Apply(s, Sweep(j, Flip(Claiming, true))));
    } else {
      forall s | Inv(s) && s.now == now && Row(s, j) == Some(row)
        ensures StaysExclusive(Apply(s, Sweep(j, Flip(row.status, true))))
      {
        var s' := Apply(s, Sweep(j, Flip(row.status, true)));
        StepKeepsInv(s, Sweep(j, Flip(row.status, true)), s');
        InvStaysExclusive(s');
      }
    }
  }

  /** Whatever the processors are at, this write keeps the invariant: each live holder alone on its own stub. */
  ghost predicate SweepIsSafe(row: Option<JobRecord>, now: Instant, j: JobId, write: SweepWrite)
    requires Enabled(EMPTY, Sweep(j, write))
  {
    forall s :: Inv(s) && s.now == now && Row(s, j) == row ==> Inv(Apply(s, Sweep(j, write)))
  }

  /** Any write of the sweeps keeps the invariant exactly when it is benign on the row it lands on. */
  lemma SweepSafeExactly(row: Option<JobRecord>, now: Instant, j: JobId, write: SweepWrite)
    requires Enabled(EMPTY, Sweep(j, write)) && (row.Some? ==> RowOk(row.value, now))
    ensures SweepIsSafe(row, now, j, write) <==> Benign(row, RowAfterSweep(row, write, now), now)
  {
    if Benign(row, RowAfterSweep(row, write, now), now) {
      forall s | Inv(s) && s.now == now && Row(s, j) == row ensures Inv(Apply(s, Sweep(j, write))) {
        StepKeepsInv(s, Sweep(j, write), Apply(s, Sweep(j, write)));
      }
    } else {
      var s: State;
      if MightBeHeld(row, now) { s := HeldWitness(row.value, now, 0, j); } else { s := PendingWitness(row.value, now, 0, j); }
      assert !PhaseOk(Apply(s, Sweep(j, write)), PhaseOf(s, 1));
      assert PhaseOf(Apply(s, Sweep(j, write)), 1) == PhaseOf(s, 1);
    }
  }

  /** A claim with nothing between its read and its put. */
  lemma Claim(r0: Run, w: Worker, lax: bool) returns (r: Run)
    requires Faithful(r0, lax) && PhaseOf(Last(r0), w).Idle? && EvaluateClaim(Row(Last(r0), 1), Last(r0).now).Proceed?
    requires Row(Last(r0), 1).Some? ==> Row(Last(r0), 1).value.createdAt == At(0) && SECOND <= Last(r0).now
    ensures Faithful(r, lax) && r.states[0] == r0.states[0] && Last(r) == ClaimNow(Last(r0), w, 1, 7, "r")
  {
    r := ExtendFaithfully(r0, ClaimRead(w, 1, 7, "r"), lax);
    r := ExtendFaithfully(r, ClaimWrite(w), lax);
  }

  const EMPTY := State(0, map[], map[], {})

  const FIRST_STUB := ClaimStub(7, "r", 1, 0)

  lemma FirstClaim(lax: bool) returns (r: Run)
    ensures Faithful(r, lax) && r.states[0] == EMPTY
    ensures Last(r) == State(0, map[1 := FIRST_STUB], map[1 := Holding(1, FIRST_STUB, 0)], {})
  {
    r := Start(EMPTY);
    r := Claim(r, 1, lax);
  }

  lemma RequeuedWhilePreparing(l: Launch) returns (r: Run)
    requires l.jobId == 1
    ensures Faithful(r, false) && r.states[0] == EMPTY
    ensures Last(r) == State(SECOND, map[1 := LaunchedRow(l, 0).(status := Requeued)], map[1 := Preparing(1)], {})
  {
    r := FirstClaim(false);
    r := ExtendFaithfully(r, Save(1, l), false);
    r := ExtendFaithfully(r, Requeue(1), false);
    r := ExtendFaithfully(r, Tick(SECOND), false);
  }

  /** The situation arises: a saved job, requeued and taken over while its first processor prepares. */
  lemma LateReleaseMeetsHolder() returns (r: Run)
    ensures IsRun(r) && r.states[0] == EMPTY
    ensures PhaseOf(Last(r), 1) == Preparing(1) && Live(Last(r), 2, 1)
  {
    r := RequeuedWhilePreparing(Launch(1, 7, "r", "i-1", "", true, 0));
    r := Claim(r, 2, false);
  }

  lemma ReadWhilePreparing(l: Launch) returns (r: Run)
    requires l.jobId == 1
    ensures IsRun(r) && r.states[0] == EMPTY
    ensures var row := LaunchedRow(l, 0).(status := Requeued);
            Last(r) == State(0, map[1 := row], map[1 := Preparing(1), 3 := Deciding(1, 7, "r", Some(row), 0)], {})
  {
    r := FirstClaim(false);
    r := ExtendFaithfully(r, Save(1, l), false);
    r := ExtendFaithfully(r, Requeue(1), false);
    r := ExtendFaithfully(r, ClaimRead(3, 1, 7, "r"), false);
  }

  /** That arises too: the row deleted might not be held, and still two live holders follow. */
  lemma LateReleaseMeetsReader() returns (r: Run, after: Run)
    ensures IsRun(r) && r.states[0] == EMPTY && PhaseOf(Last(r), 1) == Preparing(1) && !MightBeHeld(Row(Last(r), 1), 0)
    ensures Continues(after, Apply(Last(r), LateRelease(1))) && !Exclusive(Last(after))
  {
    r := ReadWhilePreparing(Launch(1, 7, "r", "i-1", "", true, 0));
    after := SameSecondRelease(Last(r), 1, 3, 2, 1);
  }

  lemma FlippedUnderHolder() returns (r: Run)
    ensures Faithful(r, true) && r.states[0] == EMPTY
    ensures Last(r) == State(SECOND, map[1 := FIRST_STUB.(status := Requeued)], map[1 := Holding(1, FIRST_STUB, 0)], {1})
  {
    r := FirstClaim(true);
    r := ExtendFaithfully(r, Sweep(1, Flip(Claiming, true)), true);
    r := ExtendFaithfully(r, Tick(SECOND), true);
  }

  /** A sweep requeues a lease that is held, and it is taken over a second later: two live holders. */
  lemma FlipMeetsHolder() returns (r: Run)
    ensures Faithful(r, true) && r.states[0] == EMPTY && !Exclusive(Last(r))
  {
    r := FlippedUnderHolder();
    r := Claim(r, 2, true);
    assert Live(Last(r), 1, 1) && Live(Last(r), 2, 1);
  }

  lemma ExhaustedThenFlipped(stuck: JobRecord) returns (r: Run)
    requires stuck.status == Claiming && stuck.instance.None? && stuck.createdAt == At(0) && stuck.retryCount >= CLAIM_MAX_ATTEMPTS
    ensures Faithful(r, false) && r.states[0].table == map[1 := stuck]
    ensures Last(r) == State(CLAIM_STALE_THRESHOLD, map[1 := stuck.(status := Requeued)],
                             map[1 := GivingUp(1, stuck, CLAIM_STALE_THRESHOLD)], {1})
  {
    r := Start(State(CLAIM_STALE_THRESHOLD, map[1 := stuck], map[], {}));
    r := ExtendFaithfully(r, ClaimRead(1, 1, 7, "r"), false);
    r := ExtendFaithfully(r, Sweep(1, Flip(Claiming, true)), false);
  }

  /**
   The terminal write after an exhausted answer is guarded on the status alone: when a sweep
   requeues the exhausted lease and another processor claims it first, that holder's lease is failed.
   */
  lemma GiveUpMeetsHolder(stuck: JobRecord) returns (r: Run)
    requires stuck.status == Claiming && stuck.instance.None? && stuck.createdAt == At(0) && stuck.retryCount >= CLAIM_MAX_ATTEMPTS
    ensures IsRun(r) && r.states[0].table == map[1 := stuck] && PhaseOf(Last(r), 1).GivingUp?
    ensures var s' := Apply(Last(r), FailClaim(1)); Live(s', 2, 1) && HasStatus(Row(s', 1), {Error})
  {
    r := ExhaustedThenFlipped(stuck);
    r := Claim(r, 2, false);
  }

  /** Whatever the processors are at, the one giving up on the job meets no live holder. */
  ghost predicate GiveUpIsSafe(row: Option<JobRecord>, now: Instant, w: Worker, j: JobId) {
    forall s, v :: Inv(s) && s.now == now && Row(s, j) == row && PhaseOf(s, w).GivingUp? && PhaseOf(s, w).job == j ==> !Live(s, v, j)
  }

  /** Exactly when the row its write lands on is not one that might be held. */
  lemma GiveUpThenHolder(row: Option<JobRecord>, now: Instant, w: Worker, j: JobId)
    requires CLAIM_STALE_THRESHOLD <= now && (row.Some? ==> RowOk(row.value, now))
    ensures GiveUpIsSafe(row, now, w, j) <==> !MightBeHeld(row, now)
  {
    if MightBeHeld(row, now) {
      var since := LatestIn(row.value.createdAt.seconds, now);
      LatestInSecond(row.value.createdAt.seconds, now);
      var stuck := ClaimStub(7, "r", CLAIM_MAX_ATTEMPTS, 0);
      var p, q := GivingUp(j, stuck, now), Holding(j, row.value, since);
      var s := State(now, map[j := row.value], map[w := p, w + 1 := q], {j});
      assert forall u :: PhaseOf(s, u) == if u == w then p else if u == w + 1 then q else Idle;
      assert Inv(s) && Live(s, w + 1, j);
    } else {
      forall s, v | Inv(s) && s.now == now && Row(s, j) == row ensures !Live(s, v, j) { NobodyLive(s, j, v); }
    }
  }

  /** Whatever the others are at, a holder past its budget that now writes meets no live holder. */
  ghost predicate OverdueWriteIsSafe(row: Option<JobRecord>, now: Instant, w: Worker, held: Phase) {
    forall s, v :: Inv(s) && s.now == now && held.Holding? && Row(s, held.job) == row && PhaseOf(s, w) == held && v != w ==> !Live(s, v, held.job)
  }

  /** Exactly when the row its unconditional write lands on is not one that might be held. */
  lemma OverdueWriteSafeExactly(row: Option<JobRecord>, now: Instant, w: Worker, j: JobId, runId: int, repo: string, attempts: int, since: Instant)
    requires since + PROCESS_BUDGET <= now && (row.Some? ==> RowOk(row.value, now))
    ensures OverdueWriteIsSafe(row, now, w, Holding(j, ClaimStub(runId, repo, attempts, since), since)) <==> !MightBeHeld(row, now)
  {
    var p := Holding(j, ClaimStub(runId, repo, attempts, since), since);
    if MightBeHeld(row, now) {
      var latest := LatestIn(row.value.createdAt.seconds, now);
      LatestInSecond(row.value.createdAt.seconds, now);
      var q := Holding(j, row.value, latest);
      var s := State(now, map[j := row.value], map[w := p, w + 1 := q], {});
      assert forall u :: PhaseOf(s, u) == if u == w then p else if u == w + 1 then q else Idle;
      assert Inv(s) && Live(s, w + 1, j);
    } else {
      forall s, v | Inv(s) && s.now == now && Row(s, j) == row ensures !Live(s, v, j) { NobodyLive(s, j, v); }
    }
  }

  lemma OverdueHolder() returns (r: Run)
    ensures Faithful(r, false) && r.states[0] == EMPTY
    ensures Last(r) == State(CLAIM_STALE_THRESHOLD, map[1 := FIRST_STUB], map[1 := Holding(1, FIRST_STUB, 0)], {})
  {
    r := FirstClaim(false);
    r := ExtendFaithfully(r, Tick(CLAIM_STALE_THRESHOLD), false);
  }

  /** That arises: a holder past its budget is taken over, and its save lands on the new holder's stub. */
  lemma OverdueSaveMeetsHolder(l: Launch) returns (r: Run)
    requires l.jobId == 1
    ensures IsRun(r) && r.states[0] == EMPTY && Enabled(Last(r), Save(1, l)) && Live(Last(r), 2, 1)
    ensures var s' := Apply(Last(r), Save(1, l)); Live(s', 2, 1) && Row(s', 1) != Some(PhaseOf(s', 2).stub)
  {
    r := OverdueHolder();
    r := Claim(r, 2, false);
  }

  // ----- terminal rows

  predicate Terminal(s: State, j: JobId) {
    Row(s, j).Some? && IsTerminal(Row(s, j).value.status)
  }

  /** A pending claim rests on a read that some earlier step made. */
  lemma {:induction false} ReadBehindClaim(r: Run, i: nat, w: Worker) returns (k: nat)
    requires IsRun(r) && i < |r.states| && PhaseOf(r.states[i], w).Deciding?
    ensures k < i && r.steps[k].ClaimRead? && r.steps[k].w == w
    ensures var p := PhaseOf(r.states[i], w);
            r.steps[k].job == p.job && Row(r.states[k], p.job) == p.seen && r.states[k].now == p.readAt
    ensures forall m :: k < m <= i ==> PhaseOf(r.states[m], w) == PhaseOf(r.states[i], w)
  {
    assert Next(r.states[i - 1], r.steps[i - 1], r.states[i]);
    if PhaseOf(r.states[i - 1], w) == PhaseOf(r.states[i], w) {
      k := ReadBehindClaim(r, i - 1, w);
    } else {
      k := i - 1;
    }
  }

  /**
   A row leaves the terminal statuses for another status only by a claim's put, and that very
   claim read the row before it became terminal. Otherwise the row was deleted, by the purge
   of old rows or by a processor releasing what it saved.
   */
  lemma TerminalLeftOnlyByEarlierRead(r: Run, i: nat, j: JobId)
    requires IsRun(r) && i < |r.steps|
    requires j in r.states[i].table && IsTerminal(r.states[i].table[j].status)
    requires !(j in r.states[i + 1].table && IsTerminal(r.states[i + 1].table[j].status))
    ensures Row(r.states[i + 1], j).Some? ==>
              && r.steps[i].ClaimWrite?
              && exists k :: 0 <= k < i && r.steps[k].ClaimRead? && r.steps[k].w == r.steps[i].w && r.steps[k].job == j
                             && (forall m :: k < m <= i ==> PhaseOf(r.states[m], r.steps[i].w) == PhaseOf(r.states[i], r.steps[i].w))
                             && !(j in r.states[k].table && IsTerminal(r.states[k].table[j].status))
    ensures Row(r.states[i + 1], j).None? ==> r.steps[i] == Sweep(j, Purge) || r.steps[i].LateRelease?
  {
    ReachableInv(r, i);
    var s, step := r.states[i], r.steps[i];
    assert Next(s, step, r.states[i + 1]);
    if step.ClaimWrite? {
      var k := ReadBehindClaim(r, i, step.w);
      assert PhaseOk(s, PhaseOf(s, step.w));
      assert !Terminal(r.states[k], j);
    }
  }

  // ----- which instance may complete a job

  /** The step replaces or removes the row outright. */
  predicate Rewrites(s: State, step: Step, j: JobId) {
    SavesJob(step, j) || TakesOver(s, step, j) || Deletes(s, step, j)
  }

  /** Only a save binds an instance. */
  lemma BindingKept(s: State, step: Step, s': State, j: JobId, instance: InstanceId)
    requires Next(s, step, s') && BoundTo(Row(s', j), instance)
    ensures if Rewrites(s, step, j) then SavesJob(step, j) && step.launch.instance == instance else BoundTo(Row(s, j), instance)
  {
    if step.Sweep? && step.job == j {
      assert Row(s', j) == RowAfterSweep(Row(s, j), step.write, s.now);
    } else if step.Sweep? || step.Tick? || step.ClaimRead? || step.Stop? {
      assert Row(s', j) == Row(s, j);
    }
  }

  lemma {:induction false} BoundByLatestSave(r: Run, i: nat, j: JobId, instance: InstanceId) returns (k: nat)
    requires IsRun(r) && i < |r.states| && j !in r.states[0].table
    requires BoundTo(Row(r.states[i], j), instance)
    ensures k < i && SavesJob(r.steps[k], j) && r.steps[k].launch.instance == instance
    ensures forall m :: k < m < i ==> !Rewrites(r.states[m], r.steps[m], j)
    ensures forall m :: k < m <= i ==> BoundTo(Row(r.states[m], j), instance)
  {
    assert Next(r.states[i - 1], r.steps[i - 1], r.states[i]);
    BindingKept(r.states[i - 1], r.steps[i - 1], r.states[i], j, instance);
    if Rewrites(r.states[i - 1], r.steps[i - 1], j) {
      k := i - 1;
    } else {
      k := BoundByLatestSave(r, i - 1, j, instance);
    }
  }

  /**
   A completion takes effect only for the instance bound by the latest save, with no claim, save,
   release or purge of the job since: the row has been that instance's all along.
   */
  lemma CompletionBoundToLatestSave(r: Run, i: nat)
    requires IsRun(r) && i < |r.steps| && r.steps[i].Complete? && r.steps[i].job !in r.states[0].table
    requires r.states[i + 1].table != r.states[i].table
    ensures var j, instance := r.steps[i].job, r.steps[i].instance;
            exists k :: 0 <= k < i && r.steps[k].Save? && r.steps[k].launch.jobId == j && r.steps[k].launch.instance == instance
                        && (forall m :: k < m < i ==> !(r.steps[m].Save? && r.steps[m].launch.jobId == j)
                                                      && !Rewrites(r.states[m], r.steps[m], j))
                        && (forall m :: k < m <= i ==> j in r.states[m].table && r.states[m].table[j].instance == Some(instance))
  {
    assert Next(r.states[i], r.steps[i], r.states[i + 1]);
    StoreSame(r.states[i].table, r.steps[i].job);
    var k := BoundByLatestSave(r, i, r.steps[i].job, r.steps[i].instance);
    assert forall m :: k < m <= i ==> BoundTo(Row(r.states[m], r.steps[i].job), r.steps[i].instance);
  }

  lemma StoreSame<K, V>(m: map<K, V>, k: K)
    ensures Store(m, k, Lookup(m, k)) == m
  {
  }

  /** The step does not save the job for this instance. */
  predicate NotFor(step: Step, j: JobId, instance: InstanceId) {
    SavesJob(step, j) ==> step.launch.instance != instance
  }

  lemma StaysUnbound(s: State, step: Step, s': State, j: JobId, instance: InstanceId)
    requires Next(s, step, s') && !BoundTo(Row(s, j), instance) && NotFor(step, j, instance)
    ensures !BoundTo(Row(s', j), instance)
  {
    if BoundTo(Row(s', j), instance) {
      BindingKept(s, step, s', j, instance);
    }
  }

  lemma {:induction false} UnboundUntilSaved(r: Run, k: nat, i: nat, j: JobId, instance: InstanceId)
    requires IsRun(r) && k <= i < |r.states| && !BoundTo(Row(r.states[k], j), instance)
    requires forall m :: k <= m < i ==> NotFor(r.steps[m], j, instance)
    ensures !BoundTo(Row(r.states[i], j), instance)
  {
    if k < i {
      UnboundUntilSaved(r, k, i - 1, j, instance);
      StaysUnbound(r.states[i - 1], r.steps[i - 1], r.states[i], j, instance);
    }
  }

  /**
   Once the row is not an instance's any more, because the job was claimed, saved or requeued by an
   operator, or is gone, that instance cannot complete the job until a save binds it anew.
   */
  lemma StaleAgentIgnored(r: Run, k: nat, i: nat)
    requires IsRun(r) && k <= i < |r.steps| && r.steps[i].Complete?
    requires r.steps[i].job in r.states[k].table ==> r.states[k].table[r.steps[i].job].instance != Some(r.steps[i].instance)
    requires forall m :: k <= m < i && r.steps[m].Save? && r.steps[m].launch.jobId == r.steps[i].job
                         ==> r.steps[m].launch.instance != r.steps[i].instance
    ensures r.states[i + 1].table == r.states[i].table
  {
    UnboundUntilSaved(r, k, i, r.steps[i].job, r.steps[i].instance);
    assert Next(r.states[i], r.steps[i], r.states[i + 1]);
    StoreSame(r.states[i].table, r.steps[i].job);
  }

  // ----- every message does what it says

  /** The step leaves the row, if it meets the guard, in this status, and every other row alone. */
  ghost predicate Achieves(s: State, step: Step, j: JobId, guard: bool, status: Status)
    requires Enabled(s, step)
  {
    var s' := Apply(s, step);
    && s'.table == Store(s.table, j, Row(s', j))
    && if guard && Row(s, j).Some? then Row(s', j).Some? && Row(s', j).value == Row(s, j).value.(status := status, completedAt := Row(s', j).value.completedAt)
       else Row(s', j) == Row(s, j)
  }

  /**
   A start confirms a launched job, a cancel ends it, a requeue of a launched or running job
   makes it claimable at once. Otherwise nothing happens.
   */
  lemma WebhooksTakeEffect(s: State, j: JobId)
    ensures Achieves(s, Started(j), j, HasStatus(Row(s, j), {Launched}), Running)
    ensures Achieves(s, Cancel(j), j, HasStatus(Row(s, j), {Launched}), Cancelled)
    ensures Achieves(s, Requeue(j), j, HasStatus(Row(s, j), {Launched, Running}), Requeued)
    ensures HasStatus(Row(s, j), {Launched, Running}) ==>
              EvaluateClaim(Row(Apply(s, Requeue(j)), j), s.now) == Proceed(Row(s, j).value.retryCount, Row(s, j).value.createdAt)
  {
    StoredRow(s, j, RowAfterStarted(Row(s, j)));
    StoredRow(s, j, RowAfterCancel(Row(s, j), s.now));
    StoredRow(s, j, RowAfterRequeue(Row(s, j)));
  }

  /** A completion by the instance of the row ends the job; a spot interruption of it marks an active one. */
  lemma InstancesTakeEffect(s: State, j: JobId, instance: InstanceId, ending: Status)
    ensures Achieves(s, Terminate(j, instance), j, Row(s, j).Some? && Row(s, j).value.instance == Some(instance)
                                                   && HasStatus(Row(s, j), {Launched, Running}), Terminating)
    ensures Achieves(s, Complete(j, instance, ending), j, Row(s, j).Some? && Row(s, j).value.instance == Some(instance), ending)
  {
    StoredRow(s, j, RowAfterTerminating(Row(s, j), instance));
    StoredRow(s, j, RowAfterComplete(Row(s, j), instance, ending, s.now));
  }

  /**
   A holder's save binds the instance it launched, and its release makes the job claimable from
   scratch; a failed claim ends in error; a claim that wins writes its own fresh stub.
   */
  lemma ProcessorsTakeEffect(s: State, w: Worker, l: Launch)
    ensures PhaseOf(s, w).Holding? && l.jobId == PhaseOf(s, w).job ==>
              var s' := Apply(s, Save(w, l));
              && s'.table == s.table[l.jobId := JobRecord(Some(l.instance), l.runId, l.repo, l.pool, l.spot, l.retryCount,
                                                          Launched, At(s.now / SECOND), None)]
              && PhaseOf(s', w) == Preparing(l.jobId)
    ensures PhaseOf(s, w).Holding? ==>
              var s' := Apply(s, Release(w));
              s'.table == s.table - {PhaseOf(s, w).job} && PhaseOf(s', w) == Idle
    ensures PhaseOf(s, w).Preparing? ==>
              var s' := Apply(s, LateRelease(w));
              s'.table == s.table - {PhaseOf(s, w).job} && PhaseOf(s', w) == Idle
    ensures (PhaseOf(s, w).Holding? || PhaseOf(s, w).GivingUp?) && HasStatus(Row(s, PhaseOf(s, w).job), {Claiming}) ==>
              var s' := Apply(s, FailClaim(w));
              HasStatus(Row(s', PhaseOf(s, w).job), {Error}) && PhaseOf(s', w) == Idle
    ensures PhaseOf(s, w).Deciding? && Wins(s, w) ==>
              var p, s' := PhaseOf(s, w), Apply(s, ClaimWrite(w));
              && PhaseOf(s', w) == Holding(p.job, s'.table[p.job], s.now)
              && s'.table[p.job] == JobRecord(None, p.runId, p.repo, "", false, s'.table[p.job].retryCount,
                                              Claiming, At(s.now / SECOND), None)
    ensures PhaseOf(s, w).Deciding? && !Wins(s, w) ==> Apply(s, ClaimWrite(w)).table == s.table
  {
    if PhaseOf(s, w).Deciding? { StoreSame(s.table, PhaseOf(s, w).job); }
  }

  lemma StoredRow(s: State, j: JobId, r: Option<JobRecord>)
    ensures Row(WithRow(s, j, r), j) == r
  {
  }

  /** Likewise the writes of the sweeps; the operator's flip also cuts the instance off the job. */
  lemma SweepsTakeEffect(s: State, j: JobId, from: Status, instance: InstanceId, ending: Status)
    requires from in {Launched, Running, Claiming} && HasStatus(Row(s, j), {from})
    ensures var flipped := Apply(s, Sweep(j, Flip(from, true)));
            && HasStatus(Row(flipped, j), {Requeued}) && Row(flipped, j).value.instance == None
            && Row(Apply(flipped, Complete(j, instance, ending)), j) == Row(flipped, j)
            && HasStatus(Row(Apply(flipped, Sweep(j, Rollback(from))), j), {from})
    ensures HasStatus(Row(Apply(s, Sweep(j, Orphan(from))), j), {Orphaned})
    ensures HasStatus(Row(Apply(s, Sweep(j, Settle)), j), {if from == Launched then Launched else Completed})
    ensures HasStatus(Row(Apply(s, Sweep(j, FailLaunched)), j), {if from == Launched then Error else from})
    ensures Row(Apply(s, Sweep(j, Purge)), j) == None
  {
  }

  // ----- one recovery per launch

  predicate Active(s: State, j: JobId) {
    HasStatus(Row(s, j), {Launched, Running})
  }

  predicate SavesJob(step: Step, j: JobId) {
    step.Save? && step.launch.jobId == j
  }

  /** A requeue is taken back: the row is active again without a save. */
  predicate PutsBack(s: State, step: Step, j: JobId) {
    step.Sweep? && step.job == j && step.write.Rollback? && HasStatus(Row(s, j), {Requeued})
  }

  predicate Reactivates(s: State, step: Step, j: JobId) {
    SavesJob(step, j) || PutsBack(s, step, j)
  }

  lemma StaysInactive(s: State, step: Step, s': State, j: JobId)
    requires Next(s, step, s') && !Active(s, j) && !Reactivates(s, step, j)
    ensures !Active(s', j)
  {
    if step.Sweep? && step.job == j {
      assert Row(s', j) == RowAfterSweep(Row(s, j), step.write, s.now);
    } else if step.Sweep? || step.Tick? || step.ClaimRead? || step.Stop? {
      assert Row(s', j) == Row(s, j);
    }
  }

  lemma {:induction false} InactiveUntilSaved(r: Run, a: nat, b: nat, j: JobId)
    requires IsRun(r) && a <= b < |r.states| && !Active(r.states[a], j)
    requires forall m :: a <= m < b ==> !Reactivates(r.states[m], r.steps[m], j)
    ensures !Active(r.states[b], j)
  {
    if a < b {
      InactiveUntilSaved(r, a, b - 1, j);
      StaysInactive(r.states[b - 1], r.steps[b - 1], r.states[b], j);
    }
  }

  /** The call returns true: this caller owns the recovery. */
  predicate OwnsRecovery(s: State, step: Step, j: JobId) {
    || (step == Cancel(j) && HasStatus(Row(s, j), {Launched}))
    || (step == Requeue(j) && HasStatus(Row(s, j), {Running, Launched}))
    || (step.Sweep? && step.job == j && step.write.Flip? && step.write.from in {Running, Launched} && HasStatus(Row(s, j), {step.write.from}))
  }

  /** To own the recovery is to have taken the row out of launched and running. */
  lemma OwningIsDeactivating(s: State, step: Step, j: JobId)
    requires Enabled(s, step) && (step == Cancel(j) || step == Requeue(j) || (step.Sweep? && step.job == j && step.write.Flip?))
    ensures OwnsRecovery(s, step, j) <==> HasStatus(Row(s, j), {Launched, Running}) && !HasStatus(Row(Apply(s, step), j), {Launched, Running})
  {
  }

  /** Between two calls that both own the recovery the job was saved again, or a requeue was taken back. */
  lemma OneRecoveryPerLaunch(r: Run, a: nat, b: nat, j: JobId)
    requires IsRun(r) && a < b < |r.steps|
    requires OwnsRecovery(r.states[a], r.steps[a], j) && OwnsRecovery(r.states[b], r.steps[b], j)
    ensures exists m :: a < m < b && (|| (r.steps[m].Save? && r.steps[m].launch.jobId == j)
                                      || (r.steps[m].Sweep? && r.steps[m].job == j && r.steps[m].write.Rollback?
                                          && HasStatus(Row(r.states[m], j), {Requeued})))
  {
    assert Next(r.states[a], r.steps[a], r.states[a + 1]);
    if forall m :: a < m < b ==> !Reactivates(r.states[m], r.steps[m], j) {
      InactiveUntilSaved(r, a + 1, b, j);
    }
    var m :| a < m < b && Reactivates(r.states[m], r.steps[m], j);
  }

  /** A started message after a cancel, requeue or completion took effect changes nothing. */
  lemma LateStartIgnored(r: Run, a: nat, b: nat, j: JobId)
    requires IsRun(r) && a < b < |r.steps| && r.steps[b] == Started(j)
    requires OwnsRecovery(r.states[a], r.steps[a], j)
             || (r.steps[a].Complete? && r.steps[a].job == j && BoundTo(Row(r.states[a], j), r.steps[a].instance))
    requires forall m :: a < m < b ==> !Reactivates(r.states[m], r.steps[m], j)
    ensures r.states[b + 1].table == r.states[b].table
  {
    assert Next(r.states[a], r.steps[a], r.states[a + 1]);
    InactiveUntilSaved(r, a + 1, b, j);
    assert Next(r.states[b], r.steps[b], r.states[b + 1]);
    StoreSame(r.states[b].table, j);
  }

  // ----- bounded takeovers of a stale lease

  predicate TakesOver(s: State, step: Step, j: JobId) {
    step.ClaimWrite? && Wins(s, step.w) && PhaseOf(s, step.w).job == j
  }

  /** The claim that wins had read the row as a stale lease. */
  predicate StaleTakeover(s: State, step: Step, j: JobId) {
    TakesOver(s, step, j) && HasStatus(PhaseOf(s, step.w).seen, {Claiming})
  }

  predicate Deletes(s: State, step: Step, j: JobId) {
    || (step.Release? && PhaseOf(s, step.w).Holding? && PhaseOf(s, step.w).job == j)
    || (step.LateRelease? && PhaseOf(s, step.w).Preparing? && PhaseOf(s, step.w).job == j)
    || step == Sweep(j, Purge)
  }

  predicate FailsClaim(s: State, step: Step, j: JobId) {
    step.FailClaim? && Enabled(s, step) && PhaseOf(s, step.w).job == j
  }

  function StaleTakeovers(r: Run, a: nat, b: nat, j: JobId): nat
    requires a <= b <= |r.steps| <= |r.states|
    decreases b - a
  {
    if a == b then 0
    else StaleTakeovers(r, a, b - 1, j) + if StaleTakeover(r.states[b - 1], r.steps[b - 1], j) then 1 else 0
  }

  /** A step that neither saves nor deletes the row: only a stale takeover raises the count, only below the cap. */
  lemma CountStep(s: State, step: Step, s': State, j: JobId)
    requires Inv(s) && Next(s, step, s') && Row(s, j).Some? && Row(s', j).Some? && !SavesJob(step, j)
    ensures var n := Row(s, j).value.retryCount;
            if StaleTakeover(s, step, j) then n < CLAIM_MAX_ATTEMPTS && Row(s', j).value.retryCount == n + 1
            else Row(s', j).value.retryCount == n
  {
    if TakesOver(s, step, j) {
      assert PhaseOk(s, PhaseOf(s, step.w));
    } else if step.Sweep? && step.job == j {
      assert Row(s', j) == RowAfterSweep(Row(s, j), step.write, s.now);
    } else if step.Sweep? || step.Tick? || step.ClaimRead? || step.Stop? {
      assert Row(s', j) == Row(s, j);
    }
  }

  /**
   With no save and no deletion in between, the attempt count of a row grows by one with each
   takeover of a stale lease and by nothing else, takeovers of requeued rows included, and stays
   within the cap or the count it started from.
   */
  lemma {:induction false} AttemptsBounded(r: Run, a: nat, b: nat, j: JobId)
    requires IsRun(r) && a <= b < |r.states| && forall m :: a <= m <= b ==> j in r.states[m].table
    requires forall m :: a <= m < b ==> !(r.steps[m].Save? && r.steps[m].launch.jobId == j)
    ensures var from, to := r.states[a].table[j].retryCount, r.states[b].table[j].retryCount;
            && to == from + StaleTakeovers(r, a, b, j)
            && to <= (if from <= 3 then 3 else from)
  {
    if a < b {
      AttemptsBounded(r, a, b - 1, j);
      ReachableInv(r, b - 1);
      CountStep(r.states[b - 1], r.steps[b - 1], r.states[b], j);
    }
  }

  // ----- an exhausted lease, of a job that neither a sweep nor a late release has touched

  /** A lease row, still claiming or already failed, that was never saved. */
  predicate Unsaved(s: State, j: JobId) {
    HasStatus(Row(s, j), {Claiming, Error}) && Row(s, j).value.instance.None?
  }

  /** A claim wins over an unsaved lease only as a stale takeover of exactly that row. */
  lemma TakeoverRaisesCount(s: State, w: Worker)
    requires Inv(s) && PhaseOf(s, w).Deciding? && Wins(s, w) && Unsaved(s, PhaseOf(s, w).job) && PhaseOf(s, w).job !in s.swept
    ensures var p := PhaseOf(s, w);
            && p.seen == Row(s, p.job) && p.seen.value.status == Claiming
            && p.seen.value.retryCount < CLAIM_MAX_ATTEMPTS && Attempts(p) == p.seen.value.retryCount + 1
  {
    assert PhaseOk(s, PhaseOf(s, w));
  }

  /** A lease at the cap is not taken over; only a save, a deletion or a give-up changes it. */
  lemma LeaseStep(s: State, step: Step, s': State, j: JobId)
    requires Inv(s) && Next(s, step, s') && Unsaved(s, j) && Row(s, j).value.retryCount >= CLAIM_MAX_ATTEMPTS
    requires !SavesJob(step, j) && Row(s', j).Some? && !FailsClaim(s, step, j) && j !in s'.swept
    ensures Row(s', j) == Row(s, j)
  {
    if TakesOver(s, step, j) {
      TakeoverRaisesCount(s, step.w);
    }
  }

  lemma CappedStep(s: State, step: Step, s': State, j: JobId)
    requires Inv(s) && Next(s, step, s') && HasStatus(Row(s, j), {Claiming}) && Row(s, j).value.retryCount >= CLAIM_MAX_ATTEMPTS
    requires !SavesJob(step, j) && Row(s', j).Some? && !FailsClaim(s, step, j) && j !in s'.swept
    ensures Row(s', j) == Row(s, j)
  {
    SweptStays(s, step, s');
    assert s.table[j].instance.None?;
    LeaseStep(s, step, s', j);
  }

  lemma SweptStays(s: State, step: Step, s': State)
    requires Next(s, step, s')
    ensures s.swept <= s'.swept
  {
  }

  ghost predicate LeftAlone(r: Run, m: nat, j: JobId)
    requires m < |r.steps| && |r.states| == |r.steps| + 1
  {
    !SavesJob(r.steps[m], j) && !FailsClaim(r.states[m], r.steps[m], j) && Row(r.states[m + 1], j).Some?
  }

  lemma {:induction false} CappedRowStands(r: Run, a: nat, b: nat, j: JobId, row: JobRecord)
    requires IsRun(r) && a <= b < |r.states| && j !in r.states[b].swept
    requires Row(r.states[a], j) == Some(row) && row.status == Claiming && row.retryCount >= CLAIM_MAX_ATTEMPTS
    requires forall m :: a <= m < b ==> LeftAlone(r, m, j)
    ensures Row(r.states[b], j) == Some(row)
  {
    if a < b {
      SweptStays(r.states[b - 1], r.steps[b - 1], r.states[b]);
      CappedRowStands(r, a, b - 1, j, row);
      ReachableInv(r, b - 1);
      assert LeftAlone(r, b - 1, j);
      CappedStep(r.states[b - 1], r.steps[b - 1], r.states[b], j);
    }
  }

  lemma CappedAnswer(row: JobRecord, now: Instant)
    requires row.status == Claiming && row.retryCount >= 3
    ensures EvaluateClaim(Some(row), now)
            == if row.createdAt.At? ==> (row.createdAt.seconds + 100) * SECOND <= now then Exhausted else Refused
  {
  }

  /**
   At the cap the row stands still until it is saved, deleted or failed; a claim that
   reads it stale is answered exhausted, one that reads it fresh is refused.
   */
  lemma ExhaustedStandsStill(r: Run, a: nat, b: nat, j: JobId)
    requires IsRun(r) && a <= b < |r.states| && j !in r.states[b].swept
    requires forall m :: a <= m <= b ==> j in r.states[m].table
    requires r.states[a].table[j].status == Claiming && r.states[a].table[j].retryCount >= 3
    requires forall m :: a <= m < b ==> !(r.steps[m].Save? && r.steps[m].launch.jobId == j) && !FailsClaim(r.states[m], r.steps[m], j)
    ensures r.states[b].table[j] == r.states[a].table[j]
    ensures var stamp := r.states[a].table[j].createdAt;
            EvaluateClaim(Row(r.states[b], j), r.states[b].now)
            == if stamp.At? ==> (stamp.seconds + 100) * SECOND <= r.states[b].now then Exhausted else Refused
  {
    forall m | a <= m < b ensures LeftAlone(r, m, j) {
      assert j in r.states[m + 1].table;
    }
    CappedRowStands(r, a, b, j, r.states[a].table[j]);
    CappedAnswer(r.states[a].table[j], r.states[b].now);
  }

  /** The terminal write of a processor that was answered exhausted leaves the job in error. */
  lemma GiveUpEndsInError(r: Run, i: nat)
    requires IsRun(r) && i < |r.steps| && r.steps[i].FailClaim? && PhaseOf(r.states[i], r.steps[i].w).GivingUp?
    requires PhaseOf(r.states[i], r.steps[i].w).job !in r.states[i].swept
    ensures HasStatus(Row(r.states[i + 1], PhaseOf(r.states[i], r.steps[i].w).job), {Error})
  {
    ReachableInv(r, i);
    assert PhaseOk(r.states[i], PhaseOf(r.states[i], r.steps[i].w));
    assert Next(r.states[i], r.steps[i], r.states[i + 1]);
  }
}
