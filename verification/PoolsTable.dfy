/**
 The pools table: pool rows, task-lock rows and instance-claim rows under one key space.
 Three kinds of lease live on it, each in its own pair of attributes.
 */
module PoolsTable {

  import opened Clock
  import opened Wrappers
  import opened TtlLease

  const TASK_LOCK_PREFIX := "__task_lock:"
  const INSTANCE_CLAIM_PREFIX := "__instance_claim:"
  const RUNNER_SIGHTING_PREFIX := "__runner_offline:"
  const FLEET_DAY_PREFIX := "__fleet_day:"

  datatype Owner = Job(id: int) | Process(name: string)

  datatype Attrs = Attrs(owner: Option<Owner>, expiry: Option<nat>)

  const NO_ATTRS := Attrs(None, None)

  datatype PoolRow = PoolRow(claim: Attrs, task: Attrs, reconcile: Attrs, ephemeral: bool)

  const EMPTY_ROW := PoolRow(NO_ATTRS, NO_ATTRS, NO_ATTRS, false)

  type Rows = map<string, PoolRow>

  /** A lease: on an instance (by a job), on a housekeeping task, or on a pool's reconciliation. */
  datatype LeaseId = Instance(instance: string) | Task(task: string) | Pool(pool: string)

  predicate IsReservedPoolKey(name: string) {
    || TASK_LOCK_PREFIX <= name
    || INSTANCE_CLAIM_PREFIX <= name
    || RUNNER_SIGHTING_PREFIX <= name
    || FLEET_DAY_PREFIX <= name
  }

  predicate ValidId(id: LeaseId) {
    id.Pool? ==> !IsReservedPoolKey(id.pool)
  }

  function Key(id: LeaseId): string {
    match id
    case Instance(i) => INSTANCE_CLAIM_PREFIX + i
    case Task(t) => TASK_LOCK_PREFIX + t
    case Pool(p) => p
  }

  /** No two leases share a row. */
  lemma KeysDistinct(a: LeaseId, b: LeaseId)
    requires ValidId(a) && ValidId(b) && a != b
    ensures Key(a) != Key(b)
  {
    match (a, b) {
      case (Instance(i), Instance(k)) =>
        assert Key(a)[|INSTANCE_CLAIM_PREFIX|..] == i && Key(b)[|INSTANCE_CLAIM_PREFIX|..] == k;
      case (Task(t), Task(u)) =>
        assert Key(a)[|TASK_LOCK_PREFIX|..] == t && Key(b)[|TASK_LOCK_PREFIX|..] == u;
      case (Instance(_), Task(_)) => assert Key(a)[2] == 'i' && Key(b)[2] == 't';
      case (Task(_), Instance(_)) => assert Key(a)[2] == 't' && Key(b)[2] == 'i';
      case (Instance(_), Pool(_)) => assert INSTANCE_CLAIM_PREFIX <= Key(a);
      case (Task(_), Pool(_)) => assert TASK_LOCK_PREFIX <= Key(a);
      case (Pool(_), Instance(_)) => assert INSTANCE_CLAIM_PREFIX <= Key(b);
      case (Pool(_), Task(_)) => assert TASK_LOCK_PREFIX <= Key(b);
      case _ =>
    }
  }

  function AttrsOf(row: PoolRow, id: LeaseId): Attrs {
    match id
    case Instance(_) => row.claim
    case Task(_) => row.task
    case Pool(_) => row.reconcile
  }

  function WithAttrs(row: PoolRow, id: LeaseId, a: Attrs): PoolRow {
    match id
    case Instance(_) => row.(claim := a)
    case Task(_) => row.(task := a)
    case Pool(_) => row.(reconcile := a)
  }

  /** The lease a set of rows amounts to. */
  function LeaseOf(rows: Rows, id: LeaseId): Lease<Owner> {
    if Key(id) !in rows then Free
    else
      var a := AttrsOf(rows[Key(id)], id);
      if a.expiry.None? then Free else Held(a.owner, a.expiry.value)
  }

  // ----- conditional writes

  /** The condition of the acquiring update, over the stored attributes. */
  predicate Acquirable(rows: Rows, id: LeaseId, owner: Owner, second: nat) {
    if Key(id) !in rows then !id.Pool?
    else
      var a := AttrsOf(rows[Key(id)], id);
      a.expiry.None? || a.expiry.value < second || a.owner == Some(owner)
  }

  function AfterAcquire(rows: Rows, id: LeaseId, owner: Owner, now: Instant, ttl: nat): Rows {
    if !Acquirable(rows, id, owner, Seconds(now)) then rows
    else
      var row := if Key(id) in rows then rows[Key(id)] else EMPTY_ROW;
      rows[Key(id) := WithAttrs(row, id, Attrs(Some(owner), Some(Seconds(now + ttl))))]
  }

  /** Releasing an instance claim deletes the row; releasing a lock clears its attributes. */
  function AfterRelease(rows: Rows, id: LeaseId, owner: Owner): Rows {
    if Key(id) !in rows || AttrsOf(rows[Key(id)], id).owner != Some(owner) then rows
    else if id.Instance? then rows - {Key(id)}
    else rows[Key(id) := WithAttrs(rows[Key(id)], id, NO_ATTRS)]
  }

  /** One conditional delete of the reaper. */
  predicate Reapable(rows: Rows, key: string, cutoff: nat) {
    key in rows && rows[key].claim.expiry.Some? && rows[key].claim.expiry.value < cutoff
  }

  function AfterReap(rows: Rows, key: string, cutoff: nat): Rows {
    if Reapable(rows, key, cutoff) then rows - {key} else rows
  }

  function AfterPut(rows: Rows, pool: string, ephemeral: bool): Rows {
    rows[pool := (if pool in rows then rows[pool] else EMPTY_ROW).(ephemeral := ephemeral)]
  }

  function AfterDelete(rows: Rows, pool: string): Rows {
    if pool in rows && rows[pool].ephemeral then rows - {pool} else rows
  }

  predicate LiveClaim(rows: Rows, instance: string, now: Instant) {
    var key := Key(Instance(instance));
    key in rows && (rows[key].claim.expiry.Some? ==> Seconds(now) < rows[key].claim.expiry.value)
  }

  // ----- processes racing on the table

  /** `grants` is each owner's latest grant of each lease, until it releases it. */
  datatype State = State(now: Instant, rows: Rows, grants: map<(LeaseId, Owner), nat>)

  datatype Step =
    | Tick(to: Instant)
    | Acquire(id: LeaseId, owner: Owner, ttl: nat)
    | Release(id: LeaseId, owner: Owner)
    | Reap(instance: string, cutoff: nat)
    | PutPool(pool: string, ephemeral: bool)
    | DeletePool(pool: string)

  /** The reaper's cutoff was read off the clock; pools are never named like reserved rows. */
  predicate Enabled(s: State, step: Step) {
    match step
    case Tick(to) => s.now <= to
    case Acquire(id, _, ttl) => ValidId(id) && ttl > 0
    case Release(id, _) => ValidId(id)
    case Reap(_, cutoff) => cutoff <= Seconds(s.now)
    case PutPool(p, _) => !IsReservedPoolKey(p)
    case DeletePool(p) => !IsReservedPoolKey(p)
  }

  function Apply(s: State, step: Step): State {
    match step
    case Tick(to) => s.(now := to)
    case Acquire(id, o, ttl) =>
      s.(rows := AfterAcquire(s.rows, id, o, s.now, ttl),
         grants := if Acquirable(s.rows, id, o, Seconds(s.now))
                   then s.grants[(id, o) := Seconds(s.now + ttl)] else s.grants)
    case Release(id, o) => s.(rows := AfterRelease(s.rows, id, o), grants := s.grants - {(id, o)})
    case Reap(i, cutoff) => s.(rows := AfterReap(s.rows, Key(Instance(i)), cutoff))
    case PutPool(p, e) => s.(rows := AfterPut(s.rows, p, e))
    case DeletePool(p) => s.(rows := AfterDelete(s.rows, p))
  }

  /** The step deletes the row this lease lives on; the row of a persistent pool is never deleted. */
  predicate Destroys(s: State, step: Step, id: LeaseId) {
    step.DeletePool? && id == Pool(step.pool) && step.pool in s.rows && s.rows[step.pool].ephemeral
  }

  // ----- refinement of the abstract lease

  /** What a step of the table means for one lease. */
  function Project(s: State, step: Step, id: LeaseId): LeaseOp<Owner> {
    match step
    case Acquire(k, o, ttl) =>
      if k == id && (id.Pool? ==> Key(id) in s.rows)
      then TryAcquire(o, Seconds(s.now), Seconds(s.now + ttl)) else Skip
    case Release(k, o) => if k == id then Drop(o) else Skip
    case Reap(i, cutoff) => if id == Instance(i) then Expire(cutoff) else Skip
    case _ => Skip
  }

  /** Every step of the table is a step of each lease on it. */
  lemma TableRefinesLease(s: State, step: Step, id: LeaseId)
    requires Enabled(s, step) && ValidId(id) && !Destroys(s, step, id)
    ensures LeaseOf(Apply(s, step).rows, id) == LeaseStep(LeaseOf(s.rows, id), Project(s, step, id))
    ensures step.Acquire? && step.id == id && (id.Pool? ==> Key(id) in s.rows) ==>
              (Acquirable(s.rows, id, step.owner, Seconds(s.now))
               <==> CanAcquire(LeaseOf(s.rows, id), step.owner, Seconds(s.now)))
  {
    match step {
      case Acquire(k, _, _) => if k != id { KeysDistinct(k, id); }
      case Release(k, _) => if k != id { KeysDistinct(k, id); }
      case Reap(i, _) => if Instance(i) != id { KeysDistinct(Instance(i), id); }
      case PutPool(p, _) => if Pool(p) != id { KeysDistinct(Pool(p), id); }
      case DeletePool(p) => if Pool(p) != id { KeysDistinct(Pool(p), id); }
      case _ =>
    }
  }

  // ----- the invariant of one lease, over runs

  predicate Holds(s: State, id: LeaseId, o: Owner) {
    (id, o) in s.grants && Seconds(s.now) <= s.grants[(id, o)]
  }

  ghost predicate LeaseInv(s: State, id: LeaseId) {
    forall o :: Holds(s, id, o) ==> LeaseOf(s.rows, id) == Held(Some(o), s.grants[(id, o)])
  }

  lemma StepKeepsLease(s: State, step: Step, id: LeaseId)
    requires LeaseInv(s, id) && Enabled(s, step) && ValidId(id) && !Destroys(s, step, id)
    ensures LeaseInv(Apply(s, step), id)
  {
    var s', op := Apply(s, step), Project(s, step, id);
    TableRefinesLease(s, step, id);
    assert Seconds(s.now) <= Seconds(s'.now);
    forall o | Holds(s', id, o) ensures LeaseOf(s'.rows, id) == Held(Some(o), s'.grants[(id, o)]) {
      if step.Acquire? && step.id == id && step.owner == o && Acquirable(s.rows, id, o, Seconds(s.now)) {
      } else {
        assert Holds(s, id, o) && s'.grants[(id, o)] == s.grants[(id, o)];
        if !(step.Acquire? && step.id == id && step.owner == o) {
          UnexpiredSurvives(LeaseOf(s.rows, id), op, o, Seconds(s.now));
        }
      }
    }
  }

  ghost predicate IsRun(states: seq<State>, steps: seq<Step>) {
    && |states| == |steps| + 1
    && states[0].grants == map[]
    && forall i :: 0 <= i < |steps| ==> Enabled(states[i], steps[i]) && states[i + 1] == Apply(states[i], steps[i])
  }

  ghost predicate Undisturbed(states: seq<State>, steps: seq<Step>, id: LeaseId)
    requires |states| == |steps| + 1
  {
    forall i :: 0 <= i < |steps| ==> !Destroys(states[i], steps[i], id)
  }

  lemma {:induction false} RunKeepsLease(states: seq<State>, steps: seq<Step>, id: LeaseId, i: nat)
    requires IsRun(states, steps) && ValidId(id) && Undisturbed(states, steps, id) && i < |states|
    ensures LeaseInv(states[i], id)
  {
    if i > 0 {
      RunKeepsLease(states, steps, id, i - 1);
      StepKeepsLease(states[i - 1], steps[i - 1], id);
    }
  }

  /** Two owners never hold one lease at the same time. */
  lemma LeaseExclusion(states: seq<State>, steps: seq<Step>, id: LeaseId, i: nat, o1: Owner, o2: Owner)
    requires IsRun(states, steps) && ValidId(id) && Undisturbed(states, steps, id) && i < |states|
    requires Holds(states[i], id, o1) && Holds(states[i], id, o2)
    ensures o1 == o2
  {
    RunKeepsLease(states, steps, id, i);
  }

  /**
   A holder's row outlasts every step that is neither its own release nor its own renewal:
   late releases by earlier owners and reaper deletes included.
   */
  lemma HolderUndisturbed(states: seq<State>, steps: seq<Step>, id: LeaseId, i: nat, o: Owner)
    requires IsRun(states, steps) && ValidId(id) && Undisturbed(states, steps, id) && i < |steps|
    requires Holds(states[i], id, o)
    requires !(steps[i].Release? && steps[i].id == id && steps[i].owner == o)
    requires !(steps[i].Acquire? && steps[i].id == id && steps[i].owner == o)
    ensures LeaseOf(states[i + 1].rows, id) == LeaseOf(states[i].rows, id) == Held(Some(o), states[i].grants[(id, o)])
  {
    RunKeepsLease(states, steps, id, i);
    TableRefinesLease(states[i], steps[i], id);
    UnexpiredSurvives(LeaseOf(states[i].rows, id), Project(states[i], steps[i], id), o, Seconds(states[i].now));
  }

  /** Throughout a hold, up to the second it expires, the instance reads as claimed. */
  lemma HoldIsVisible(states: seq<State>, steps: seq<Step>, instance: string, i: nat, o: Owner)
    requires IsRun(states, steps) && i < |states|
    requires Holds(states[i], Instance(instance), o)
    ensures LiveClaim(states[i].rows, instance, states[i].now)
            <==> Seconds(states[i].now) < states[i].grants[(Instance(instance), o)]
  {
    RunKeepsLease(states, steps, Instance(instance), i);
  }

  /** Whatever a claim row records was granted to its owner: a claim row has an owner and an expiry, and both are its grant. */
  ghost predicate Recorded(s: State, instance: string) {
    var key := Key(Instance(instance));
    key in s.rows ==>
      var a := s.rows[key].claim;
      a.owner.Some? && a.expiry.Some? && (Instance(instance), a.owner.value) in s.grants
      && s.grants[(Instance(instance), a.owner.value)] == a.expiry.value
  }

  lemma StepKeepsRecorded(s: State, step: Step, instance: string)
    requires Enabled(s, step) && Recorded(s, instance)
    ensures Recorded(Apply(s, step), instance)
  {
    var id := Instance(instance);
    match step {
      case Acquire(k, _, _) => if k != id { KeysDistinct(k, id); }
      case Release(k, _) => if k != id { KeysDistinct(k, id); }
      case Reap(i, _) => if Instance(i) != id { KeysDistinct(Instance(i), id); }
      case PutPool(p, _) => KeysDistinct(Pool(p), id);
      case DeletePool(p) => KeysDistinct(Pool(p), id);
      case _ =>
    }
  }

  lemma {:induction false} RunKeepsRecorded(states: seq<State>, steps: seq<Step>, instance: string, i: nat)
    requires IsRun(states, steps) && i < |states| && Key(Instance(instance)) !in states[0].rows
    ensures Recorded(states[i], instance)
  {
    if i > 0 {
      RunKeepsRecorded(states, steps, instance, i - 1);
      StepKeepsRecorded(states[i - 1], steps[i - 1], instance);
    }
  }

  /**
   An instance without a claim row at first reads as claimed at some moment exactly when somebody
   then holds it and the hold's last second has not come.
   */
  lemma ClaimedExactlyWhenHeld(states: seq<State>, steps: seq<Step>, instance: string, i: nat)
    requires IsRun(states, steps) && i < |states| && Key(Instance(instance)) !in states[0].rows
    ensures LiveClaim(states[i].rows, instance, states[i].now)
            <==> exists o :: Holds(states[i], Instance(instance), o)
                             && states[i].now / SECOND < states[i].grants[(Instance(instance), o)]
  {
    RunKeepsRecorded(states, steps, instance, i);
    RunKeepsLease(states, steps, Instance(instance), i);
    var key := Key(Instance(instance));
    if LiveClaim(states[i].rows, instance, states[i].now) {
      assert Holds(states[i], Instance(instance), states[i].rows[key].claim.owner.value);
    }
  }

  /**
   Deleting and recreating a pool's row under a held lock lets a second owner in exactly
   when the pool is ephemeral: the row of a persistent one stays.
   */
  lemma DeletedPoolForgetsLock(s: State, pool: string, o1: Owner, o2: Owner, ttl: nat)
    requires o1 != o2 && ttl > 0 && !IsReservedPoolKey(pool) && LeaseInv(s, Pool(pool))
    requires Holds(s, Pool(pool), o1) && pool in s.rows
    ensures var s' := Apply(Apply(Apply(s, DeletePool(pool)), PutPool(pool, true)), Acquire(Pool(pool), o2, ttl));
            Holds(s', Pool(pool), o1) && Holds(s', Pool(pool), o2) <==> s.rows[pool].ephemeral
  {
    var s1 := Apply(s, DeletePool(pool));
    var s2 := Apply(s1, PutPool(pool, true));
    if s.rows[pool].ephemeral {
      assert s2.rows[pool] == EMPTY_ROW.(ephemeral := true);
      assert Acquirable(s2.rows, Pool(pool), o2, Seconds(s2.now));
    } else {
      assert s2.rows[pool].reconcile == s.rows[pool].reconcile;
      assert LeaseOf(s.rows, Pool(pool)) == Held(Some(o1), s.grants[(Pool(pool), o1)]);
      assert !Acquirable(s2.rows, Pool(pool), o2, Seconds(s2.now));
    }
  }

  // ----- the client

  datatype LockResult = Acquired | HeldByOther | PoolNotFound | Rejected

  class PoolsClient {
    var rows: Rows

    constructor ()
      ensures rows == map[]
    {
      rows := map[];
    }

    /** Granted when there is no claim, an expired one, or this job's own. */
    method ClaimInstanceForJob(instance: string, job: int, ttl: int, now: Instant) returns (r: LockResult)
      modifies this`rows
      ensures r == Rejected <==> instance == "" || job == 0 || ttl <= 0
      ensures r == Acquired <==> r != Rejected
                                 && var key := "__instance_claim:" + instance;
                                    key in old(rows) ==>
                                      var a := old(rows)[key].claim;
                                      a.expiry.None? || a.expiry.value < now / SECOND || a.owner == Some(Job(job))
      ensures rows == if r == Acquired then AfterAcquire(old(rows), Instance(instance), Job(job), now, ttl) else old(rows)
      ensures r == Acquired ==>
                var key := "__instance_claim:" + instance;
                && key in rows && rows == old(rows)[key := rows[key]]
                && rows[key].claim == Attrs(Some(Job(job)), Some((now + ttl) / SECOND))
                && rows[key] == (if key in old(rows) then old(rows)[key].(claim := rows[key].claim)
                                 else PoolRow(rows[key].claim, Attrs(None, None), Attrs(None, None), false))
      ensures r == Acquired || r == HeldByOther || r == Rejected
    {
      if instance == "" || job == 0 || ttl <= 0 { return Rejected; }
      r := Acquire(Instance(instance), Job(job), ttl, now);
    }

    method AcquireTaskLock(task: string, owner: string, ttl: int, now: Instant) returns (r: LockResult)
      modifies this`rows
      ensures r == Rejected <==> task == "" || owner == "" || ttl <= 0
      ensures r == Acquired <==> r != Rejected
                                 && var key := "__task_lock:" + task;
                                    key in old(rows) ==>
                                      var a := old(rows)[key].task;
                                      a.expiry.None? || a.expiry.value < now / SECOND || a.owner == Some(Process(owner))
      ensures rows == if r == Acquired then AfterAcquire(old(rows), Task(task), Process(owner), now, ttl) else old(rows)
      ensures r == Acquired ==>
                var key := "__task_lock:" + task;
                && key in rows && rows == old(rows)[key := rows[key]]
                && rows[key].task == Attrs(Some(Process(owner)), Some((now + ttl) / SECOND))
                && rows[key] == (if key in old(rows) then old(rows)[key].(task := rows[key].task)
                                 else PoolRow(Attrs(None, None), rows[key].task, Attrs(None, None), false))
      ensures r == Acquired || r == HeldByOther || r == Rejected
    {
      if task == "" || owner == "" || ttl <= 0 { return Rejected; }
      r := Acquire(Task(task), Process(owner), ttl, now);
    }

    /** Only on the row of a pool that exists. */
    method AcquirePoolReconcileLock(pool: string, owner: string, ttl: int, now: Instant) returns (r: LockResult)
      modifies this`rows
      ensures r == Rejected <==> pool == "" || owner == "" || ttl <= 0
      ensures r == PoolNotFound <==> r != Rejected && (pool !in old(rows) || "__task_lock:" <= pool || "__instance_claim:" <= pool
                                                       || "__runner_offline:" <= pool || "__fleet_day:" <= pool)
      ensures r == Acquired <==> r != Rejected && r != PoolNotFound
                                 && var a := old(rows)[pool].reconcile;
                                    a.expiry.None? || a.expiry.value < now / SECOND || a.owner == Some(Process(owner))
      ensures rows == if r == Acquired then AfterAcquire(old(rows), Pool(pool), Process(owner), now, ttl) else old(rows)
      ensures r == Acquired ==>
                rows == old(rows)[pool := old(rows)[pool].(reconcile := Attrs(Some(Process(owner)), Some((now + ttl) / SECOND)))]
    {
      if pool == "" || owner == "" || ttl <= 0 { return Rejected; }
      if IsReservedPoolKey(pool) || pool !in rows { return PoolNotFound; }
      r := Acquire(Pool(pool), Process(owner), ttl, now);
    }

    /** The conditional update all three share. */
    method Acquire(id: LeaseId, owner: Owner, ttl: nat, now: Instant) returns (r: LockResult)
      modifies this`rows
      ensures rows == AfterAcquire(old(rows), id, owner, now, ttl)
      ensures r == if Acquirable(old(rows), id, owner, Seconds(now)) then Acquired else HeldByOther
    {
      var row := EMPTY_ROW;
      if Key(id) in rows {
        row := rows[Key(id)];
        var a := AttrsOf(row, id);
        if a.expiry.Some? && Seconds(now) <= a.expiry.value && a.owner != Some(owner) { return HeldByOther; }
      } else if id.Pool? {
        return HeldByOther;
      }
      rows := rows[Key(id) := WithAttrs(row, id, Attrs(Some(owner), Some(Seconds(now + ttl))))];
      return Acquired;
    }

    method ReleaseInstanceClaim(instance: string, job: int) returns (ok: bool)
      modifies this`rows
      ensures ok <==> instance != "" && job != 0
      ensures rows == if ok then AfterRelease(old(rows), Instance(instance), Job(job)) else old(rows)
      ensures var key := "__instance_claim:" + instance;
              rows == if ok && key in old(rows) && old(rows)[key].claim.owner == Some(Job(job)) then old(rows) - {key} else old(rows)
    {
      if instance == "" || job == 0 { return false; }
      var key := Key(Instance(instance));
      if key in rows && rows[key].claim.owner == Some(Job(job)) {
        rows := rows - {key};
      }
      return true;
    }

    method ReleaseTaskLock(task: string, owner: string) returns (ok: bool)
      modifies this`rows
      ensures ok <==> task != "" && owner != ""
      ensures rows == if ok then AfterRelease(old(rows), Task(task), Process(owner)) else old(rows)
      ensures var key := "__task_lock:" + task;
              rows == if ok && key in old(rows) && old(rows)[key].task.owner == Some(Process(owner))
                      then old(rows)[key := old(rows)[key].(task := Attrs(None, None))] else old(rows)
    {
      if task == "" || owner == "" { return false; }
      var key := Key(Task(task));
      if key in rows && rows[key].task.owner == Some(Process(owner)) {
        rows := rows[key := rows[key].(task := NO_ATTRS)];
      }
      return true;
    }

    method ReleasePoolReconcileLock(pool: string, owner: string) returns (ok: bool)
      modifies this`rows
      ensures ok <==> pool != "" && owner != ""
      ensures rows == if ok then AfterRelease(old(rows), Pool(pool), Process(owner)) else old(rows)
      ensures rows == if ok && pool in old(rows) && old(rows)[pool].reconcile.owner == Some(Process(owner))
                      then old(rows)[pool := old(rows)[pool].(reconcile := Attrs(None, None))] else old(rows)
    {
      if pool == "" || owner == "" { return false; }
      if pool in rows && rows[pool].reconcile.owner == Some(Process(owner)) {
        rows := rows[pool := rows[pool].(reconcile := NO_ATTRS)];
      }
      return true;
    }

    /** No answer for an unnamed instance. A row without a readable expiry counts as held. */
    method HasLiveInstanceClaim(instance: string, now: Instant) returns (live: Option<bool>)
      ensures live == if instance == "" then None else Some(LiveClaim(rows, instance, now))
      ensures var key := "__instance_claim:" + instance;
              live == Some(true) <==> instance != "" && key in rows
                                      && (rows[key].claim.expiry.None? || now / SECOND < rows[key].claim.expiry.value)
    {
      if instance == "" { return None; }
      var key := Key(Instance(instance));
      if key !in rows { return Some(false); }
      var e := rows[key].claim.expiry;
      return Some(e.None? || Seconds(now) < e.value);
    }

    /**
     The reaper: scan pages, then one conditional delete per scanned key. The pages may
     be out of date; `budget` is how many deletes are answered before a call fails.
     */
    method ReapReservedRows(pages: seq<seq<string>>, cutoff: nat, budget: nat) returns (deleted: nat, ok: bool)
      modifies this`rows
      ensures forall k :: k in rows ==> k in old(rows) && rows[k] == old(rows)[k]
      ensures forall k :: k in old(rows) && k !in rows ==>
                && old(rows)[k].claim.expiry.Some? && old(rows)[k].claim.expiry.value < cutoff
                && exists p, n :: 0 <= p < |pages| && 0 <= n < |pages[p]| && pages[p][n] == k
      ensures deleted == |old(rows)| - |rows|
      ensures ok ==> forall p, n :: 0 <= p < |pages| && 0 <= n < |pages[p]| && pages[p][n] in rows ==>
                       rows[pages[p][n]].claim.expiry.Some? ==> cutoff <= rows[pages[p][n]].claim.expiry.value
    {
      deleted := 0;
      var left := budget;
      for p := 0 to |pages|
        invariant ReapedFrom(old(rows), rows, pages, cutoff)
        invariant deleted == |old(rows)| - |rows|
        invariant forall q :: 0 <= q < p ==> PageReaped(rows, pages[q], |pages[q]|, cutoff)
      {
        ghost var before := rows;
        var n, answered, rest := ReapPage(pages[p], cutoff, left);
        ReapedMore(old(rows), before, rows, pages, p, cutoff);
        deleted := deleted + n;
        left := rest;
        if !answered { return deleted, false; }
      }
      return deleted, true;
    }

    /** One conditional delete per key of a page. */
    method ReapPage(keys: seq<string>, cutoff: nat, budget: nat) returns (deleted: nat, ok: bool, left: nat)
      modifies this`rows
      ensures ReapedFrom(old(rows), rows, [keys], cutoff)
      ensures deleted == |old(rows)| - |rows|
      ensures ok ==> PageReaped(rows, keys, |keys|, cutoff)
    {
      deleted, left := 0, budget;
      for n := 0 to |keys|
        invariant ReapedFrom(old(rows), rows, [keys], cutoff)
        invariant deleted == |old(rows)| - |rows|
        invariant PageReaped(rows, keys, n, cutoff)
      {
        if left == 0 { return deleted, false, 0; }
        left := left - 1;
        if Reapable(rows, keys[n], cutoff) {
          ReapShrinks(rows, keys[n], cutoff);
          assert [keys][0][n] == keys[n];
          rows := rows - {keys[n]};
          deleted := deleted + 1;
        }
      }
      return deleted, true, left;
    }
  }

  /** None of the first n keys is past the cutoff any more. */
  ghost predicate PageReaped(rows: Rows, keys: seq<string>, n: nat, cutoff: nat)
    requires n <= |keys|
  {
    forall m :: 0 <= m < n ==> !Reapable(rows, keys[m], cutoff)
  }

  lemma ReapedMore(before: Rows, mid: Rows, after: Rows, pages: seq<seq<string>>, p: nat, cutoff: nat)
    requires p < |pages| && ReapedFrom(before, mid, pages, cutoff) && ReapedFrom(mid, after, [pages[p]], cutoff)
    ensures ReapedFrom(before, after, pages, cutoff)
    ensures forall k :: Reapable(after, k, cutoff) ==> Reapable(mid, k, cutoff)
  {
    forall k | k in mid && k !in after ensures Scanned(pages, k) {
      var q, n :| 0 <= q < |[pages[p]]| && 0 <= n < |[pages[p]][q]| && [pages[p]][q][n] == k;
      assert pages[p][n] == k;
    }
  }

  /** Only scanned rows that were past the cutoff are gone; the rest are as they were. */
  ghost predicate ReapedFrom(before: Rows, after: Rows, pages: seq<seq<string>>, cutoff: nat) {
    && (forall k :: k in after ==> k in before && after[k] == before[k])
    && (forall k :: k in before && k !in after ==> Reapable(before, k, cutoff) && Scanned(pages, k))
  }

  ghost predicate Scanned(pages: seq<seq<string>>, key: string) {
    exists p, n :: 0 <= p < |pages| && 0 <= n < |pages[p]| && pages[p][n] == key
  }

  lemma ReapShrinks(rows: Rows, key: string, cutoff: nat)
    requires key in rows
    ensures |rows - {key}| == |rows| - 1
    ensures forall k :: Reapable(rows - {key}, k, cutoff) ==> Reapable(rows, k, cutoff)
  {
    assert (rows - {key}).Keys == rows.Keys - {key};
  }
}
