/** An expiring lease on its own: who holds it, and until which second. */
module TtlLease {

  import opened Wrappers

  datatype Lease<+O> = Free | Held(owner: Option<O>, until: nat)

  datatype LeaseOp<+O> =
    | TryAcquire(owner: O, second: nat, until: nat)
    | Drop(owner: O)
    | Expire(cutoff: nat)
    | Skip

  /** A lease is still its holder's in the second it expires. */
  predicate CanAcquire<O(==)>(l: Lease<O>, owner: O, second: nat) {
    l.Free? || l.until < second || l.owner == Some(owner)
  }

  function LeaseStep<O(==)>(l: Lease<O>, op: LeaseOp<O>): Lease<O> {
    match op
    case TryAcquire(o, second, until) => if CanAcquire(l, o, second) then Held(Some(o), until) else l
    case Drop(o) => if l.Held? && l.owner == Some(o) then Free else l
    case Expire(cutoff) => if l.Held? && l.until < cutoff then Free else l
    case Skip => l
  }

  /** No step by anyone else, and no reaper running on the clock, disturbs an unexpired lease. */
  lemma UnexpiredSurvives<O>(l: Lease<O>, op: LeaseOp<O>, owner: O, second: nat)
    requires l.Held? && l.owner == Some(owner) && second <= l.until
    requires op.TryAcquire? ==> op.owner != owner && op.second == second
    requires op.Drop? ==> op.owner != owner
    requires op.Expire? ==> op.cutoff <= second
    ensures LeaseStep(l, op) == l
  {
  }
}
