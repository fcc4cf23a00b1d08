/** What the probe rows say when a call is over. */
module Closing {
  import opened Wrappers
  import opened Store
  import opened Effects
  import opened Invariants
  import opened System
  import opened Safety
  import opened Theorems
  import Observe
  import Retention
  import Opening

  /** Row r ended with this status and names this snapshot, unless that was deleted since. */
  predicate Says(db: Db, r: nat, status: ProbeStatus, id: Option<Uuid>) {
    r in db.probes && db.probes[r].status == status
    && (db.probes[r].snapshot == id || (id.Some? && db.probes[r].snapshot.None? && id.value !in db.snapshots))
  }

  /** The full row fits the outcome: none for a reused snapshot, else one that names the new
      snapshot and tells whether its report was complete. */
  ghost predicate FullFor(db: Db, k: Caller, outcome: Observe.Outcome) {
    match outcome
    case Reused(_) => k.fullRow.None?
    case NewScan(id) =>
      k.fullRow.Some?
      && exists i :: 0 <= i < |db.history| && db.history[i].id == id
                     && Says(db, k.fullRow.value, if db.history[i].row.complete then Succeeded else Partial, Some(id))
  }

  /** The quick row fits the outcome: it names the snapshot, or tells that the quick probe
      itself had failed. */
  predicate QuickFor(db: Db, k: Caller, outcome: Observe.Outcome) {
    k.quickRow.Some?
    && if k.quick.Some? then Says(db, k.quickRow.value, Succeeded, Some(outcome.id))
       else Says(db, k.quickRow.value, Failed, None)
  }

  ghost predicate Answered(db: Db, k: Caller, outcome: Observe.Outcome) {
    InHistory(db.history, outcome.id) && QuickFor(db, k, outcome) && FullFor(db, k, outcome)
  }

  predicate RowFailed(db: Db, r: Option<nat>) { r.Some? ==> Says(db, r.value, Failed, None) }

  /** Errors of loading the answer, after the rows were closed. */
  predicate LoadError(e: Observe.Error) { e.Database? || e.SnapshotNotFound? || e.ArtifactRejected? }

  /** The rows at the end of a call fit its result. */
  ghost predicate RowsFit(db: Db, k: Caller, result: Result<Observe.Outcome, Observe.Error>) {
    match result
    case Ok(outcome) => Answered(db, k, outcome)
    case Err(e) =>
      || (RowFailed(db, k.quickRow) && RowFailed(db, k.fullRow))
      || (LoadError(e) && exists outcome :: Answered(db, k, outcome))
  }

  /** The same along the way. */
  ghost predicate Tell(db: Db, k: Caller) {
    && (k.quick.None? && !k.pc.Probing? && !k.pc.QuickFailed? ==> RowFailed(db, k.quickRow))
    && match k.pc
       case Conclude(r) => if r.Ok? then InHistory(db.history, r.value.id) && FullFor(db, k, r.value) else RowFailed(db, k.fullRow)
       case ReleaseLease(r, _) => if r.Ok? then Answered(db, k, r.value) else RowFailed(db, k.quickRow) && RowFailed(db, k.fullRow)
       case LoadRow(outcome) => Answered(db, k, outcome)
       case LoadFile(outcome, _) => Answered(db, k, outcome)
       case Done(r) => RowsFit(db, k, r)
       case _ => true
  }

  ghost predicate TellInv(db: Db, k: Caller) { !k.failed && k.quickRow.Some? ==> Tell(db, k) }

  // ----- the steps of others -----

  /** A finished row stays as it is, but for the name of a snapshot that is deleted. */
  predicate RowKept(db: Db, db': Db, r: nat) {
    r in db.probes && !db.probes[r].status.Running? ==>
      r in db'.probes && db'.probes[r].status == db.probes[r].status
      && (db'.probes[r].snapshot == db.probes[r].snapshot
          || (db'.probes[r].snapshot.None? && db.probes[r].snapshot.value !in db'.snapshots))
  }

  /** Nothing that was published once comes back. */
  ghost predicate NoneReturns(db: Db, db': Db) {
    db.history <= db'.history
    && forall id :: id in db'.snapshots ==> id in db.snapshots || !InHistory(db.history, id)
  }

  lemma SaysStable(db: Db, db': Db, r: nat, status: ProbeStatus, id: Option<Uuid>)
    requires Says(db, r, status, id) && !status.Running? && RowKept(db, db', r) && NoneReturns(db, db')
    requires id.Some? ==> InHistory(db.history, id.value)
    ensures Says(db', r, status, id)
  {
  }

  lemma InHistoryStable(db: Db, db': Db, id: Uuid)
    requires NoneReturns(db, db') && InHistory(db.history, id)
    ensures InHistory(db'.history, id)
  {
    var i :| 0 <= i < |db.history| && db.history[i].id == id;
    assert db'.history[i] == db.history[i];
  }

  lemma FullStable(db: Db, db': Db, k: Caller, outcome: Observe.Outcome)
    requires FullFor(db, k, outcome) && NoneReturns(db, db') && InHistory(db.history, outcome.id)
    requires forall r :: OwnRow(k, r) ==> RowKept(db, db', r)
    ensures FullFor(db', k, outcome) && InHistory(db'.history, outcome.id)
  {
    InHistoryStable(db, db', outcome.id);
    if outcome.NewScan? {
      var i :| 0 <= i < |db.history| && db.history[i].id == outcome.id
               && Says(db, k.fullRow.value, if db.history[i].row.complete then Succeeded else Partial, Some(outcome.id));
      assert db'.history[i] == db.history[i];
      assert OwnRow(k, k.fullRow.value);
      SaysStable(db, db', k.fullRow.value, if db.history[i].row.complete then Succeeded else Partial, Some(outcome.id));
    }
  }

  lemma AnsweredStable(db: Db, db': Db, k: Caller, outcome: Observe.Outcome)
    requires Answered(db, k, outcome) && NoneReturns(db, db')
    requires forall r :: OwnRow(k, r) ==> RowKept(db, db', r)
    ensures Answered(db', k, outcome)
  {
    FullStable(db, db', k, outcome);
    assert OwnRow(k, k.quickRow.value);
  }

  lemma FailedStable(db: Db, db': Db, k: Caller, r: Option<nat>)
    requires RowFailed(db, r) && (r.Some? ==> OwnRow(k, r.value)) && NoneReturns(db, db')
    requires forall r :: OwnRow(k, r) ==> RowKept(db, db', r)
    ensures RowFailed(db', r)
  {
  }

  lemma RowsFitStable(db: Db, db': Db, k: Caller, result: Result<Observe.Outcome, Observe.Error>)
    requires RowsFit(db, k, result) && NoneReturns(db, db')
    requires forall r :: OwnRow(k, r) ==> RowKept(db, db', r)
    ensures RowsFit(db', k, result)
  {
    if result.Ok? {
      AnsweredStable(db, db', k, result.value);
    } else if RowFailed(db, k.quickRow) && RowFailed(db, k.fullRow) {
      FailedStable(db, db', k, k.quickRow);
      FailedStable(db, db', k, k.fullRow);
    } else {
      var outcome :| Answered(db, k, outcome);
      AnsweredStable(db, db', k, outcome);
    }
  }

  lemma TellStable(db: Db, db': Db, k: Caller)
    requires TellInv(db, k) && NoneReturns(db, db')
    requires forall r :: OwnRow(k, r) ==> RowKept(db, db', r)
    ensures TellInv(db', k)
  {
    if !k.failed && k.quickRow.Some? {
      if RowFailed(db, k.quickRow) { FailedStable(db, db', k, k.quickRow); }
      if RowFailed(db, k.fullRow) { FailedStable(db, db', k, k.fullRow); }
      match k.pc
      case Conclude(r) => if r.Ok? { FullStable(db, db', k, r.value); }
      case ReleaseLease(r, _) => if r.Ok? { AnsweredStable(db, db', k, r.value); }
      case LoadRow(outcome) => AnsweredStable(db, db', k, outcome);
      case LoadFile(outcome, _) => AnsweredStable(db, db', k, outcome);
      case Done(r) => RowsFitStable(db, db', k, r);
      case _ =>
    }
  }

  lemma RetentionKeepsTold(db: Db, r: Retention.Retainer, in_: Retention.Input, row: nat)
    ensures var db' := Retention.Step(db, r, in_).0; RowKept(db, db', row) && NoneReturns(db, db')
  {
  }

  lemma OpeningKeepsTold(db: Db, pc: Opening.Pc, in_: Opening.Input, row: nat)
    ensures var db' := Opening.Step(db, pc, in_).0; RowKept(db, db', row) && NoneReturns(db, db')
  {
  }

  lemma OthersKeepTold(codec: Codec, s: Sys, b: nat, in_: Observe.Input, row: nat)
    requires SysInv(codec, s) && HasCaller(s, b) && in_.row !in s.db.probes && !OwnRow(s.actors[b].k, row)
    ensures var db' := Observe.Step(codec, s.db, s.actors[b].k, in_).0; RowKept(s.db, db', row) && NoneReturns(s.db, db')
  {
    StepHasEffect(codec, s.db, s.actors[b].k, in_);
    assert CallerInv(codec, s.db, s.actors[b].k);
  }

  // ----- the call's own steps -----

  lemma StartingTells(db: Db, k: Caller, in_: Observe.Input)
    requires Observe.PhaseOf(k.pc).Starting? && TellInv(db, k) && RowInv(db, k)
    ensures var (db', k') := Observe.StartingStep(db, k, in_); TellInv(db', k')
  {
  }

  lemma CheckingTells(codec: Codec, db: Db, k: Caller, in_: Observe.Input)
    requires Observe.PhaseOf(k.pc).Checking? && TellInv(db, k) && RowInv(db, k) && InHistory(db.history, k.pc.id)
    ensures var (db', k') := Observe.CheckingStep(codec, db, k, in_); TellInv(db', k')
  {
  }

  lemma WaitingTells(db: Db, k: Caller, in_: Observe.Input)
    requires Observe.PhaseOf(k.pc).Waiting? && TellInv(db, k) && RowInv(db, k)
    ensures var (db', k') := Observe.WaitingStep(db, k, in_); TellInv(db', k')
  {
  }

  lemma LeadingTells(db: Db, k: Caller, in_: Observe.Input)
    requires Observe.PhaseOf(k.pc).Leading? && TellInv(db, k) && RowInv(db, k) && in_.row !in db.probes
    ensures var (db', k') := Observe.LeadingStep(db, k, in_); TellInv(db', k')
  {
  }

  lemma WritingTells(codec: Codec, db: Db, k: Caller, in_: Observe.Input)
    requires Observe.PhaseOf(k.pc).Writing? && !k.pc.Commit? && TellInv(db, k) && RowInv(db, k)
    ensures var (db', k') := Observe.WritingStep(codec, db, k, in_); TellInv(db', k')
  {
  }

  lemma CommitTells(codec: Codec, db: Db, k: Caller, in_: Observe.Input)
    requires k.pc.Commit? && TellInv(db, k) && RowInv(db, k)
    ensures var (db', k') := Observe.CommitStep(codec, db, k, in_, k.pc.pub); TellInv(db', k')
  {
    var (db', k') := Observe.CommitStep(codec, db, k, in_, k.pc.pub);
    if db'.history != db.history {
      var n := |db.history|;
      assert db'.history[n] == Entry(k.pc.pub.id, SnapshotOf(codec, k.pc.pub), k.pc.pub.stateProbe);
    }
  }

  lemma FailFullTells(db: Db, k: Caller, ok: bool)
    requires k.pc.FailFull? && TellInv(db, k) && RowInv(db, k)
    ensures var (db', k') := Observe.FailFullStep(db, k, ok, k.pc.error); TellInv(db', k')
  {
  }

  lemma ConcludeTells(db: Db, k: Caller, ok: bool)
    requires k.pc.Conclude? && TellInv(db, k) && RowInv(db, k)
    ensures var (db', k') := Observe.ConcludeStep(db, k, ok, k.pc.result); TellInv(db', k')
  {
  }

  lemma ReleaseTells(codec: Codec, db: Db, k: Caller, in_: Observe.Input)
    requires k.pc.ReleaseLease? && TellInv(db, k) && RowInv(db, k)
    ensures var (db', k') := Observe.ClosingStep(codec, db, k, in_); TellInv(db', k')
  {
    var (db', k') := Observe.ClosingStep(codec, db, k, in_);
    assert db' == db.(lease := db'.lease);
    if k.pc.result.Ok? && Answered(db, k, k.pc.result.value) { assert Answered(db', k', k.pc.result.value); }
  }

  lemma LoadTells(codec: Codec, db: Db, k: Caller, in_: Observe.Input, outcome: Observe.Outcome)
    requires k.pc == Observe.LoadRow(outcome) || (k.pc.LoadFile? && k.pc.answer == outcome)
    requires TellInv(db, k)
    ensures var (db', k') := Observe.ClosingStep(codec, db, k, in_); TellInv(db', k')
  {
    var k' := Observe.ClosingStep(codec, db, k, in_).1;
    if Answered(db, k, outcome) { assert Answered(db, k', outcome); }
  }

  lemma OwnStepTells(codec: Codec, db: Db, k: Caller, in_: Observe.Input)
    requires TellInv(db, k) && RowInv(db, k) && AnswerInv(codec, db.history, k) && in_.row !in db.probes
    ensures var (db', k') := Observe.Step(codec, db, k, in_); TellInv(db', k')
  {
    match Observe.PhaseOf(k.pc)
    case Starting => StartingTells(db, k, in_);
    case Checking => CheckingTells(codec, db, k, in_);
    case Waiting => WaitingTells(db, k, in_);
    case Leading => LeadingTells(db, k, in_);
    case Writing => if k.pc.Commit? { CommitTells(codec, db, k, in_); } else { WritingTells(codec, db, k, in_); }
    case Closing =>
      if k.pc.FailFull? {
        FailFullTells(db, k, in_.ok);
      } else if k.pc.Conclude? {
        ConcludeTells(db, k, in_.ok);
      } else if k.pc.ReleaseLease? {
        ReleaseTells(codec, db, k, in_);
      } else {
        LoadTells(codec, db, k, in_, k.pc.answer);
      }
    case Over =>
  }

  // ----- every run -----

  lemma OtherStepKeepsTold(codec: Codec, s: Sys, step: Step, a: nat, row: nat)
    requires SysInv(codec, s) && Can(codec, s, step) && HasCaller(s, a) && !(step.ObserveStep? && step.a == a)
    requires OwnRow(s.actors[a].k, row)
    ensures RowKept(s.db, Do(codec, s, step).db, row) && NoneReturns(s.db, Do(codec, s, step).db)
  {
    match step
    case ObserveStep(b, in_) =>
      assert Apart(s.actors[a].k, s.actors[b].k);
      OthersKeepTold(codec, s, b, in_, row);
    case RetainStep(b, in_) => RetentionKeepsTold(s.db, s.actors[b].r, in_, row);
    case OpenStep(b, in_) => OpeningKeepsTold(s.db, s.actors[b].o, in_, row);
    case _ =>
  }

  lemma OtherStepTells(codec: Codec, s: Sys, step: Step, a: nat)
    requires SysInv(codec, s) && Can(codec, s, step) && HasCaller(s, a) && !(step.ObserveStep? && step.a == a)
    requires TellInv(s.db, s.actors[a].k)
    ensures TellInv(Do(codec, s, step).db, s.actors[a].k)
  {
    var k, db' := s.actors[a].k, Do(codec, s, step).db;
    if k.quickRow.Some? {
      forall r | OwnRow(k, r) ensures RowKept(s.db, db', r) {
        OtherStepKeepsTold(codec, s, step, a, r);
      }
      OtherStepKeepsTold(codec, s, step, a, k.quickRow.value);
      TellStable(s.db, db', k);
    }
  }

  lemma {:induction false} AlwaysTells(codec: Codec, trace: seq<Sys>, steps: seq<Step>, n: nat, a: nat)
    requires Behaviour(codec, trace, steps) && n < |trace| && HasCaller(trace[n], a)
    ensures TellInv(trace[n].db, trace[n].actors[a].k)
  {
    if n > 0 {
      assert Follows(codec, trace, steps, n - 1);
      if HasCaller(trace[n - 1], a) {
        AlwaysTells(codec, trace, steps, n - 1, a);
        AlwaysInv(codec, trace, steps, n - 1);
        assert CallerInv(codec, trace[n - 1].db, trace[n - 1].actors[a].k);
        if StepOf(steps, n - 1, a) {
          OwnStepTells(codec, trace[n - 1].db, trace[n - 1].actors[a].k, steps[n - 1].observe);
        } else {
          OtherStepTells(codec, trace[n - 1], steps[n - 1], a);
        }
      }
    }
  }

  /** Every path closes its rows, and they tell the result. When a call is over and none of its
      statements failed that close a row or give the lease back, it holds no lease and has
      finished each row that it started exactly once. If it answers with a snapshot, its quick
      row succeeded and names that snapshot (or failed, if the quick probe itself did), and its
      full row names it with the completeness of its report, or there is none for a reused one.
      If it ends in an error, its rows failed and name nothing, except that an error of the
      final load leaves them as an answer does. Whatever others do, a row keeps its status, and
      loses its snapshot only when that is deleted. */
  lemma EveryPathCloses(codec: Codec, trace: seq<Sys>, steps: seq<Step>, n: nat, a: nat)
    requires Behaviour(codec, trace, steps) && n < |trace| && HasCaller(trace[n], a)
    requires var k := trace[n].actors[a].k; k.pc.Done? && !k.failed
    ensures var k, db := trace[n].actors[a].k, trace[n].db;
      && !Owns(db, k.owner)
      && (k.quickRow.Some? ==> k.quickFinishes == 1 && RowsFit(db, k, k.pc.result))
      && (k.fullRow.Some? ==> k.fullFinishes == 1 && k.fullRow != k.quickRow)
      && (forall r :: OwnRow(k, r) ==> r in db.probes && !db.probes[r].status.Running?)
  {
    CallerAlwaysInv(codec, trace, steps, n, a);
    AlwaysTells(codec, trace, steps, n, a);
  }
}
