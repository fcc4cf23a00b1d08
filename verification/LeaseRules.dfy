/** What the lease statements mean to each other: reading, taking, renewing, releasing and
    recovering agree on who holds the lease at a clock. */
module LeaseRules {
  import opened Wrappers
  import opened Store

  /** While a lease is in force by some clock, nobody takes it by that clock, only its owner can
      renew it, and nobody else can release it. */
  lemma OneHolder(db: Db, row: LeaseRow, t: real, owner: Uuid, expires: real)
    requires ActiveLease(db, t) == Some(row)
    ensures TryAcquire(db, owner, t, expires) == (db, false)
    ensures Renew(db, owner, t, expires).1 <==> owner == row.owner
    ensures owner != row.owner ==> Release(db, owner) == db && Renew(db, owner, t, expires).0 == db
  {
  }

  /** A lease that has expired by some clock is never revived by it: no renewal succeeds or
      changes anything, not even its owner's, and anybody can take it. */
  lemma ExpiredNeverRevives(db: Db, t: real, owner: Uuid, expires: real)
    requires ActiveLease(db, t).None?
    ensures Renew(db, owner, t, expires) == (db, false)
    ensures TryAcquire(db, owner, t, expires).1
  {
  }

  /** After a successful acquisition or renewal the lease is the caller's at exactly the clocks
      before the new expiry, and a renewal never changes its owner. */
  lemma GrantHolds(db: Db, owner: Uuid, t: real, expires: real, u: real)
    ensures var (db', won) := TryAcquire(db, owner, t, expires);
      won ==> ActiveLease(db', u) == if u < expires then Some(LeaseRow(owner, expires)) else None
    ensures var (db', held) := Renew(db, owner, t, expires);
      && (held ==> ActiveLease(db', u) == if u < expires then Some(LeaseRow(owner, expires)) else None)
      && (forall other :: Owns(db', other) <==> Owns(db, other))
  {
  }

  /** A release frees the lease at every clock if it is the caller's, and is not noticed by
      anybody otherwise; afterwards the caller cannot renew. */
  lemma ReleaseFrees(db: Db, owner: Uuid, t: real, expires: real)
    ensures var db' := Release(db, owner);
      && (forall u :: ActiveLease(db', u) == if Owns(db, owner) then None else ActiveLease(db, u))
      && !Renew(db', owner, t, expires).1
      && Release(db', owner) == db'
  {
  }

  /** Stale recovery takes no lease away that is in force by its clock or later, fails exactly
      the old running rows and those only if there is no such lease, and once is enough. */
  lemma RecoveryIsSafe(db: Db, now: real, cutoff: real)
    ensures var db' := RecoverStale(db, now, cutoff);
      && (forall u :: u >= now ==> ActiveLease(db', u) == ActiveLease(db, u))
      && db'.probes.Keys == db.probes.Keys
      && (forall r :: r in db.probes ==>
            db'.probes[r] == if ActiveLease(db, now).None? && db.probes[r].status.Running? && db.probes[r].started < cutoff
                             then db.probes[r].(status := Failed) else db.probes[r])
      && RecoverStale(db', now, cutoff) == db'
  {
    var db' := RecoverStale(db, now, cutoff);
    assert RecoverStale(db', now, cutoff).probes == db'.probes;
  }
}
