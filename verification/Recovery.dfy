/** What stale recovery does to the rows that crashed calls have left behind. */
module Recovery {
  import opened Wrappers
  import opened Store
  import opened Effects
  import opened Invariants
  import opened System
  import opened Safety
  import Observe
  import Retention
  import Opening

  predicate Finished(db: Db, r: nat) { r in db.probes && !db.probes[r].status.Running? }

  /** No step of anybody sets a finished row running again. */
  lemma StepKeepsFinished(codec: Codec, s: Sys, step: Step, r: nat)
    requires Can(codec, s, step) && Finished(s.db, r)
    ensures Finished(Do(codec, s, step).db, r)
  {
    match step
    case ObserveStep(a, in_) => StepHasEffect(codec, s.db, s.actors[a].k, in_);
    case RetainStep(a, in_) => RetentionHasEffect(s.db, s.actors[a].r, in_);
    case OpenStep(a, in_) => OpeningHasEffect(s.db, s.actors[a].o, in_);
    case Pin(id, pinned) => LifecycleHasEffect(s.db, id, pinned);
    case Upload(id) => LifecycleHasEffect(s.db, id, true);
    case _ =>
  }

  lemma {:induction false} FinishedForGood(codec: Codec, trace: seq<Sys>, steps: seq<Step>, j: nat, n: nat, r: nat)
    requires Behaviour(codec, trace, steps) && j <= n < |trace| && Finished(trace[j].db, r)
    ensures Finished(trace[n].db, r)
  {
    if j < n {
      FinishedForGood(codec, trace, steps, j, n - 1, r);
      assert Follows(codec, trace, steps, n - 1);
      StepKeepsFinished(codec, trace[n - 1], steps[n - 1], r);
    }
  }

  /** Step i is the recovery with which a store opens, and it succeeds. */
  predicate Recovers(trace: seq<Sys>, steps: seq<Step>, i: nat) {
    i < |steps| && i < |trace| && steps[i].OpenStep? && steps[i].open.ok
    && steps[i].a in trace[i].actors && trace[i].actors[steps[i].a] == OpeningStore(Opening.Recover)
  }

  predicate InForce(db: Db, now: real) { db.lease.Some? && now < db.lease.value.expires }

  /** A row that a call left running before the cutoff. */
  predicate IsStale(db: Db, r: nat, cutoff: real) {
    r in db.probes && db.probes[r].status.Running? && db.probes[r].started < cutoff
  }

  /** What crashed calls left behind is cleaned up when a store opens and no lease is in force by
      its clock: the expired lease is gone, exactly the stale rows have failed, and they never
      run again, whatever happens later. While a lease is in force, nothing is touched. */
  lemma RecoveryCleansUp(codec: Codec, trace: seq<Sys>, steps: seq<Step>, i: nat, n: nat)
    requires Behaviour(codec, trace, steps) && Recovers(trace, steps, i) && i < n < |trace|
    ensures var db, db', in_ := trace[i].db, trace[i + 1].db, steps[i].open;
      if InForce(db, in_.now) then db' == db
      else
        && db' == db.(lease := None, probes := db'.probes) && db'.probes.Keys == db.probes.Keys
        && forall r :: r in db.probes ==>
             db'.probes[r] == (if IsStale(db, r, in_.cutoff) then db.probes[r].(status := Failed) else db.probes[r])
             && (IsStale(db, r, in_.cutoff) ==> Finished(trace[n].db, r))
  {
    assert Follows(codec, trace, steps, i);
    var db, db', in_ := trace[i].db, trace[i + 1].db, steps[i].open;
    if !InForce(db, in_.now) {
      forall r | r in db.probes && IsStale(db, r, in_.cutoff) ensures Finished(trace[n].db, r) {
        FinishedForGood(codec, trace, steps, i + 1, n, r);
      }
    }
  }
}
