/** Retention against concurrent publishers: what a run of `apply_retention_sync` can delete. */
module RetentionTheorems {
  import opened Wrappers
  import opened Store
  import opened Effects
  import opened Invariants
  import opened System
  import opened Safety
  import opened Retention
  import opened RetentionChoice
  import Theorems

  // ----- a retention call across a run -----

  predicate Retains(trace: seq<Sys>, m: nat, a: nat) {
    m < |trace| && a in trace[m].actors && trace[m].actors[a].Retaining?
  }

  predicate RetainStepOf(steps: seq<System.Step>, m: nat, a: nat) {
    m < |steps| && steps[m].RetainStep? && steps[m].a == a
  }

  predicate AtDelete(trace: seq<Sys>, m: nat, a: nat, eligible: seq<Candidate>) {
    Retains(trace, m, a) && trace[m].actors[a].r.pc == Delete(eligible)
  }

  predicate AtRows(trace: seq<Sys>, m: nat, a: nat, current: Option<Uuid>, keep: nat) {
    Retains(trace, m, a) && trace[m].actors[a].r.pc == ReadRows(current) && trace[m].actors[a].r.policy.keep == keep
  }

  /** The candidates about to be deleted were read at an earlier step m. */
  lemma {:induction false} DeleteWasRead(codec: Codec, trace: seq<Sys>, steps: seq<System.Step>, i: nat, a: nat,
                                         eligible: seq<Candidate>)
    returns (m: nat)
    requires Behaviour(codec, trace, steps) && i < |trace| && AtDelete(trace, i, a, eligible)
    ensures m < i && RetainStepOf(steps, m, a) && Retains(trace, m, a) && trace[m].actors[a].r.pc.ReadRows?
    ensures Answers(trace[m].db, trace[m].actors[a].r, steps[m].retain)
    ensures var r, in_ := trace[m].actors[a].r, steps[m].retain;
      eligible == Eligible(in_.listing, |in_.listing|, r.pc.current, r.policy.keep, in_.cutoff) && !r.policy.dryRun
  {
    assert i > 0;
    assert Follows(codec, trace, steps, i - 1);
    if AtDelete(trace, i - 1, a, eligible) {
      m := DeleteWasRead(codec, trace, steps, i - 1, a, eligible);
    } else {
      m := i - 1;
    }
  }

  /** And the current id they were judged against, at a step before that. */
  lemma {:induction false} RowsWereAfterCurrent(codec: Codec, trace: seq<Sys>, steps: seq<System.Step>, m: nat,
                                                a: nat, current: Option<Uuid>, keep: nat)
    returns (c: nat)
    requires Behaviour(codec, trace, steps) && m < |trace| && AtRows(trace, m, a, current, keep)
    ensures c < m && RetainStepOf(steps, c, a) && trace[c].db.state.current == current
  {
    assert m > 0;
    assert Follows(codec, trace, steps, m - 1);
    if AtRows(trace, m - 1, a, current, keep) {
      c := RowsWereAfterCurrent(codec, trace, steps, m - 1, a, current, keep);
    } else {
      c := m - 1;
    }
  }

  /** Publications since a point of the run are not uploaded, as long as nobody says so. */
  ghost predicate NewUnuploaded(db: Db, mark: nat) {
    forall i :: mark <= i < |db.history| && db.history[i].id in db.snapshots ==> !db.snapshots[db.history[i].id].uploaded
  }

  lemma CallerKeepsUnuploaded(codec: Codec, db: Db, k: Caller, row: nat, db': Db, mark: nat)
    requires CallerEffect(codec, db, k, row, db') && mark <= |db.history| && NewUnuploaded(db, mark)
    ensures NewUnuploaded(db', mark)
  {
    forall i | mark <= i < |db'.history| && db'.history[i].id in db'.snapshots
      ensures !db'.snapshots[db'.history[i].id].uploaded
    {
      if i < |db.history| { assert db'.history[i] == db.history[i]; }
    }
  }

  lemma StepKeepsUnuploaded(codec: Codec, s: Sys, step: System.Step, mark: nat)
    requires Can(codec, s, step) && !step.Upload?
    requires mark <= |s.db.history| && NewUnuploaded(s.db, mark)
    ensures NewUnuploaded(Do(codec, s, step).db, mark)
  {
    match step
    case ObserveStep(a, in_) =>
      StepHasEffect(codec, s.db, s.actors[a].k, in_);
      CallerKeepsUnuploaded(codec, s.db, s.actors[a].k, in_.row, Do(codec, s, step).db, mark);
    case RetainStep(a, in_) => RetentionHasEffect(s.db, s.actors[a].r, in_);
    case OpenStep(a, in_) => OpeningHasEffect(s.db, s.actors[a].o, in_);
    case _ =>
  }

  lemma {:induction false} NewStayUnuploaded(codec: Codec, trace: seq<Sys>, steps: seq<System.Step>, c: nat, i: nat)
    requires Behaviour(codec, trace, steps) && c <= i < |trace|
    requires forall m :: c <= m < i ==> !steps[m].Upload?
    ensures |trace[c].db.history| <= |trace[i].db.history| && NewUnuploaded(trace[i].db, |trace[c].db.history|)
  {
    if c < i {
      NewStayUnuploaded(codec, trace, steps, c, i - 1);
      assert Follows(codec, trace, steps, i - 1);
      StepKeepsUnuploaded(codec, trace[i - 1], steps[i - 1], |trace[c].db.history|);
      Theorems.StepExtendsHistory(codec, trace[i - 1], steps[i - 1]);
    }
  }

  /** What the delete transaction removes, with publishers interleaved anywhere: never the
      snapshot current at that moment, and only snapshots that were free to go in the store
      that the call had read; if it commits, all of these that are still there. */
  lemma RetentionDeletesOnlyTheJudged(codec: Codec, trace: seq<Sys>, steps: seq<System.Step>, i: nat,
                                      a: nat) returns (m: nat)
    requires Behaviour(codec, trace, steps) && i < |steps| && RetainStepOf(steps, i, a) && Retains(trace, i, a)
    requires trace[i].actors[a].r.pc.Delete?
    ensures m < i && RetainStepOf(steps, m, a) && Retains(trace, m, a) && trace[m].actors[a].r.pc.ReadRows?
    ensures var db, db' := trace[i].db, trace[i + 1].db;
      && (db.state.current.Some? ==> db.state.current.value in db'.snapshots)
      && (forall id :: id in db.snapshots && id !in db'.snapshots ==> Judged(trace, steps, m, a, id))
      && (Retains(trace, i + 1, a) && !trace[i + 1].actors[a].r.pc.Finished? ==>
            forall id :: id in db'.snapshots <==> id in db.snapshots && !Judged(trace, steps, m, a, id))
  {
    var eligible := trace[i].actors[a].r.pc.eligible;
    m := DeleteWasRead(codec, trace, steps, i, a, eligible);
    assert Follows(codec, trace, steps, i);
    AlwaysInv(codec, trace, steps, i);
    var r, in_ := trace[m].actors[a].r, steps[m].retain;
    EligibleIds(trace[m].db, in_.listing, r.pc.current, r.policy.keep, in_.cutoff);
    DeleteRemoves(trace[i].db, trace[i].actors[a].r, steps[i].retain);
  }

  /** Free to go in the store that the call a read at step m. */
  ghost predicate Judged(trace: seq<Sys>, steps: seq<System.Step>, m: nat, a: nat, id: Uuid) {
    RetainStepOf(steps, m, a) && Retains(trace, m, a) && trace[m].actors[a].r.pc.ReadRows?
    && MayGo(trace[m].db, trace[m].actors[a].r.pc.current, trace[m].actors[a].r.policy.keep, steps[m].retain.cutoff, id)
  }

  lemma DeleteRemoves(db: Db, r: Retainer, in_: Input)
    requires r.pc.Delete?
    ensures var (db', r') := Retention.Step(db, r, in_);
      && (db.state.current.Some? && db.state.current.value in db.snapshots ==> db.state.current.value in db'.snapshots)
      && (forall id :: id in db'.snapshots ==> id in db.snapshots)
      && (forall id :: id in db.snapshots && id !in db'.snapshots ==> id in Ids(r.pc.eligible))
      && (!r'.pc.Finished? ==> forall id :: id in db'.snapshots <==> id in db.snapshots && id !in Ids(r.pc.eligible))
  {
  }

  /** Between the call's read of the current id (step c) and its delete transaction: unless an
      upload is recorded meanwhile, the foreign key on the current snapshot never aborts the
      transaction, whatever is published in between. */
  lemma RetentionNeverAborts(codec: Codec, trace: seq<Sys>, steps: seq<System.Step>, i: nat, a: nat) returns (c: nat)
    requires Behaviour(codec, trace, steps) && i < |steps| && RetainStepOf(steps, i, a) && Retains(trace, i, a)
    requires trace[i].actors[a].r.pc.Delete?
    ensures c < i && RetainStepOf(steps, c, a)
    ensures (exists u :: c <= u < i && steps[u].Upload?) || DeleteSnapshots(trace[i].db, trace[i].actors[a].r.pc.eligible).Some?
  {
    var m := RetentionDeletesOnlyTheJudged(codec, trace, steps, i, a);
    var eligible := trace[i].actors[a].r.pc.eligible;
    var m' := DeleteWasRead(codec, trace, steps, i, a, eligible);
    var r, in_ := trace[m'].actors[a].r, steps[m'].retain;
    c := RowsWereAfterCurrent(codec, trace, steps, m', a, r.pc.current, r.policy.keep);
    var x := trace[i].db.state.current;
    if (forall u :: c <= u < i ==> !steps[u].Upload?) && x.Some? && x.value in Ids(eligible) {
      EligibleExactly(trace[m'].db, in_.listing, r.pc.current, r.policy.keep, in_.cutoff, x.value);
      CurrentIsNotFree(codec, trace, steps, c, m', i, r.policy.keep, in_.cutoff);
    }
  }

  /** The snapshot current at i was either current at c already or is a new, unuploaded one. */
  lemma CurrentIsNotFree(codec: Codec, trace: seq<Sys>, steps: seq<System.Step>, c: nat, m: nat, i: nat, keep: nat,
                         cutoff: real)
    requires Behaviour(codec, trace, steps) && c < m < i < |trace| && trace[i].db.state.current.Some?
    requires forall u :: c <= u < m ==> !steps[u].Upload?
    ensures !MayGo(trace[m].db, trace[c].db.state.current, keep, cutoff, trace[i].db.state.current.value)
  {
    var x := trace[i].db.state.current.value;
    NewStayUnuploaded(codec, trace, steps, c, m);
    Theorems.HistoryGrows(codec, trace, steps, c, m);
    Theorems.HistoryGrows(codec, trace, steps, m, i);
    Theorems.CurrentIsInHistory(codec, trace, steps, c);
    Theorems.CurrentIsInHistory(codec, trace, steps, i);
    if x in trace[m].db.snapshots && trace[m].db.snapshots[x].uploaded {
      var h := trace[i].db.history;
      var p := PlaceOf(codec, trace, steps, m, x);
      assert h[p] == trace[m].db.history[p];
      assert p < |trace[c].db.history|;
      LastPlace(codec, trace, steps, i, p);
    }
  }

  lemma PlaceOf(codec: Codec, trace: seq<Sys>, steps: seq<System.Step>, m: nat, x: Uuid) returns (p: nat)
    requires Behaviour(codec, trace, steps) && m < |trace| && x in trace[m].db.snapshots
    ensures p < |trace[m].db.history| && trace[m].db.history[p].id == x
  {
    AlwaysInv(codec, trace, steps, m);
    p :| p < |trace[m].db.history| && trace[m].db.history[p].id == x;
  }

  lemma LastPlace(codec: Codec, trace: seq<Sys>, steps: seq<System.Step>, i: nat, p: nat)
    requires Behaviour(codec, trace, steps) && i < |trace| && p < |trace[i].db.history|
    requires trace[i].db.history[p].id == trace[i].db.history[|trace[i].db.history| - 1].id
    ensures p == |trace[i].db.history| - 1
  {
    AlwaysInv(codec, trace, steps, i);
  }

  // ----- a dry run -----

  predicate DryPc(r: Retainer) {
    r.policy.dryRun ==> r.pc.ReadCurrent? || r.pc.ReadRows? || r.pc.Finished?
  }

  lemma DryStep(db: Db, r: Retainer, in_: Input)
    requires DryPc(r)
    ensures DryPc(Retention.Step(db, r, in_).1) && (r.policy.dryRun ==> Retention.Step(db, r, in_).0 == db)
  {
  }

  lemma {:induction false} DryPcAlways(codec: Codec, trace: seq<Sys>, steps: seq<System.Step>, n: nat, a: nat)
    requires Behaviour(codec, trace, steps) && Retains(trace, n, a)
    ensures DryPc(trace[n].actors[a].r)
  {
    if n > 0 {
      assert Follows(codec, trace, steps, n - 1);
      if Retains(trace, n - 1, a) {
        DryPcAlways(codec, trace, steps, n - 1, a);
        if RetainStepOf(steps, n - 1, a) {
          DryStep(trace[n - 1].db, trace[n - 1].actors[a].r, steps[n - 1].retain);
        }
      }
    }
  }

  /** A dry run changes nothing, at any of its steps. */
  lemma DryRunChangesNothing(codec: Codec, trace: seq<Sys>, steps: seq<System.Step>, i: nat, a: nat)
    requires Behaviour(codec, trace, steps) && RetainStepOf(steps, i, a) && Retains(trace, i, a)
    requires trace[i].actors[a].r.policy.dryRun
    ensures trace[i + 1].db == trace[i].db
  {
    DryPcAlways(codec, trace, steps, i, a);
    assert Follows(codec, trace, steps, i);
    DryStep(trace[i].db, trace[i].actors[a].r, steps[i].retain);
  }
}
