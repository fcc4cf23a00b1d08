/** What is left in the report directory is accounted for: files of deleted snapshots, and files
    of failed publications. No assumption about openings is needed here. */
module Residue {
  import opened Wrappers
  import opened Store
  import opened Effects
  import opened Invariants
  import opened System
  import opened Safety
  import opened Theorems
  import Artifacts
  import Observe
  import Retention
  import Opening

  // ----- files of deleted snapshots -----

  /** The report name of a snapshot that was committed once. */
  ghost predicate Committed(h: seq<Entry>, n: FileName) { n.ReportJson? && InHistory(h, n.id) }

  ghost predicate NamesTheirs(h: seq<Entry>) {
    forall i :: 0 <= i < |h| ==> h[i].row.artifact.file == ReportJson(h[i].id)
  }

  /** The report of a snapshot that was deleted is gone or waits in the delete queue. */
  ghost predicate Remembered(db: Db) {
    forall id :: InHistory(db.history, id) && id !in db.snapshots && ReportJson(id) in db.files ==> ReportJson(id) in db.queue
  }

  ghost predicate RetainerOk(db: Db, r: Retention.Retainer) {
    && (r.pc.DrainFile? || r.pc.DrainRow? ==> forall n :: n in r.pc.todo ==> Committed(db.history, n))
    && (r.pc.DrainRow? && r.pc.removed && r.pc.todo != [] ==> r.pc.todo[0] !in db.files)
    && (r.pc.Delete? ==> forall c :: c in r.pc.eligible ==> c.artifact.file == ReportJson(c.id) && InHistory(db.history, c.id))
  }

  ghost predicate DbOk(db: Db) {
    NamesTheirs(db.history) && Remembered(db) && forall n :: n in db.queue ==> Committed(db.history, n)
  }

  ghost predicate ResidueInv(s: Sys) {
    DbOk(s.db) && forall a :: a in s.actors && s.actors[a].Retaining? ==> RetainerOk(s.db, s.actors[a].r)
  }

  lemma InHistoryGrows(h: seq<Entry>, h': seq<Entry>, id: Uuid)
    requires h <= h' && InHistory(h, id)
    ensures InHistory(h', id)
  {
    var i :| 0 <= i < |h| && h[i].id == id;
    assert h'[i] == h[i];
  }

  // ----- callers -----

  /** A caller creates no file of a snapshot that was committed before. */
  lemma CallerCreatesNew(codec: Codec, db: Db, k: Caller, in_: Observe.Input, n: FileName)
    requires Pending(k.pc).Some? ==> !InHistory(db.history, Pending(k.pc).value)
    requires Committed(db.history, n) && n in Observe.Step(codec, db, k, in_).0.files
    ensures n in db.files
  {
    Artifacts.StepCreates(codec, db, k, in_);
  }

  lemma CallerKeepsDbOk(codec: Codec, db: Db, k: Caller, in_: Observe.Input)
    requires DbOk(db) && in_.row !in db.probes
    requires Pending(k.pc).Some? ==> !InHistory(db.history, Pending(k.pc).value)
    ensures DbOk(Observe.Step(codec, db, k, in_).0)
  {
    var db' := Observe.Step(codec, db, k, in_).0;
    StepHasEffect(codec, db, k, in_);
    assert db.history <= db'.history && db'.queue == db.queue;
    forall n | n in db'.queue ensures Committed(db'.history, n) { InHistoryGrows(db.history, db'.history, n.id); }
    forall id | InHistory(db'.history, id) && id !in db'.snapshots && ReportJson(id) in db'.files ensures ReportJson(id) in db'.queue {
      OldAndDeleted(codec, db, k, db', id);
      CallerCreatesNew(codec, db, k, in_, ReportJson(id));
    }
  }

  lemma OldAndDeleted(codec: Codec, db: Db, k: Caller, db': Db, id: Uuid)
    requires SameCatalog(db, db') || (k.pc.Commit? && Commits(codec, db, k.pc.pub, db'))
    requires InHistory(db'.history, id) && id !in db'.snapshots
    ensures InHistory(db.history, id) && id !in db.snapshots
  {
    var i :| 0 <= i < |db'.history| && db'.history[i].id == id;
    if i < |db.history| { assert db'.history[i] == db.history[i]; }
  }

  lemma CallerKeepsRetainerOk(codec: Codec, db: Db, k: Caller, in_: Observe.Input, r: Retention.Retainer)
    requires RetainerOk(db, r) && in_.row !in db.probes
    requires Pending(k.pc).Some? ==> !InHistory(db.history, Pending(k.pc).value)
    ensures RetainerOk(Observe.Step(codec, db, k, in_).0, r)
  {
    var db' := Observe.Step(codec, db, k, in_).0;
    StepHasEffect(codec, db, k, in_);
    assert db.history <= db'.history;
    forall id | InHistory(db.history, id) ensures InHistory(db'.history, id) { InHistoryGrows(db.history, db'.history, id); }
    if r.pc.DrainRow? && r.pc.removed && r.pc.todo != [] && r.pc.todo[0] in db'.files {
      CallerCreatesNew(codec, db, k, in_, r.pc.todo[0]);
    }
  }

  // ----- maintenance -----

  /** Rows and files only go, and no path of a file that is still there leaves the queue. */
  ghost predicate Shrinks(db: Db, db': Db) {
    && db'.history == db.history
    && (forall n :: n in db'.files ==> n in db.files)
    && (forall id :: id in db'.snapshots ==> id in db.snapshots)
    && (forall id :: id in db.snapshots && id !in db'.snapshots ==> ReportJson(id) in db'.queue)
    && (forall n :: n in db.queue && n !in db'.queue ==> n !in db'.files)
    && (forall n :: n in db'.queue ==> n in db.queue || Committed(db.history, n))
  }

  lemma ShrinkingKeepsDbOk(db: Db, db': Db)
    requires DbOk(db) && Shrinks(db, db')
    ensures DbOk(db')
  {
  }

  lemma RetentionShrinks(db: Db, r: Retention.Retainer, in_: Retention.Input)
    requires DbOk(db) && RetainerOk(db, r)
    ensures Shrinks(db, Retention.Step(db, r, in_).0)
  {
    if r.pc.Delete? { DeletionShrinks(db, r.pc.eligible); }
  }

  lemma DeletionShrinks(db: Db, gone: seq<Candidate>)
    requires forall c :: c in gone ==> c.artifact.file == ReportJson(c.id) && InHistory(db.history, c.id)
    ensures DeleteSnapshots(db, gone).Some? ==> Shrinks(db, DeleteSnapshots(db, gone).value)
  {
    forall id | id in Ids(gone) ensures ReportJson(id) in Files(gone) {
      var c :| c in gone && c.id == id;
      assert c.artifact.file == ReportJson(id);
    }
  }

  lemma RetentionKeepsOwn(db: Db, r: Retention.Retainer, in_: Retention.Input)
    requires DbOk(db) && RetainerOk(db, r) && Retention.Answers(db, r, in_) && CatalogInv(db.state, db.snapshots, db.history)
    ensures var (db', r') := Retention.Step(db, r, in_); RetainerOk(db', r')
  {
    if r.pc.ReadRows? {
      ListedAreNamed(db, in_.listing);
      Artifacts.EligibleAreListed(in_.listing, |in_.listing|, r.pc.current, r.policy.keep, in_.cutoff);
    } else if r.pc.DrainRow? && r.pc.todo != [] {
      assert forall n :: n in r.pc.todo[1..] ==> n in r.pc.todo;
    }
  }

  lemma ListedAreNamed(db: Db, listing: seq<Candidate>)
    requires NamesTheirs(db.history) && CatalogInv(db.state, db.snapshots, db.history) && Retention.IsListing(db, listing)
    ensures forall c :: c in listing ==> c.artifact.file == ReportJson(c.id) && InHistory(db.history, c.id)
  {
  }

  lemma OtherRetainerOk(db: Db, db': Db, r: Retention.Retainer)
    requires RetainerOk(db, r) && Shrinks(db, db')
    ensures RetainerOk(db', r)
  {
  }

  lemma OpeningOnlyShrinks(db: Db, o: Opening.Pc, in_: Opening.Input)
    ensures Shrinks(db, Opening.Step(db, o, in_).0)
  {
  }

  // ----- every run -----

  lemma ObserveKeepsResidue(codec: Codec, s: Sys, a: nat, in_: Observe.Input)
    requires SysInv(codec, s) && ResidueInv(s) && HasCaller(s, a) && FreshInput(codec, s, in_)
    ensures ResidueInv(Do(codec, s, ObserveStep(a, in_)))
  {
    var s' := Do(codec, s, ObserveStep(a, in_));
    assert CallerInv(codec, s.db, s.actors[a].k);
    CallerKeepsDbOk(codec, s.db, s.actors[a].k, in_);
    forall b | b in s'.actors && s'.actors[b].Retaining? ensures RetainerOk(s'.db, s'.actors[b].r) {
      CallerKeepsRetainerOk(codec, s.db, s.actors[a].k, in_, s.actors[b].r);
    }
  }

  lemma RetainKeepsResidue(codec: Codec, s: Sys, a: nat, in_: Retention.Input)
    requires SysInv(codec, s) && ResidueInv(s) && Can(codec, s, RetainStep(a, in_))
    ensures ResidueInv(Do(codec, s, RetainStep(a, in_)))
  {
    var s' := Do(codec, s, RetainStep(a, in_));
    RetentionShrinks(s.db, s.actors[a].r, in_);
    ShrinkingKeepsDbOk(s.db, s'.db);
    RetentionKeepsOwn(s.db, s.actors[a].r, in_);
    forall b | b in s'.actors && s'.actors[b].Retaining? ensures RetainerOk(s'.db, s'.actors[b].r) {
      if b != a { OtherRetainerOk(s.db, s'.db, s.actors[b].r); }
    }
  }

  lemma MaintenanceKeepsResidue(codec: Codec, s: Sys, step: Step)
    requires ResidueInv(s) && Can(codec, s, step) && !step.ObserveStep? && !step.RetainStep?
    ensures ResidueInv(Do(codec, s, step))
  {
    var s' := Do(codec, s, step);
    if step.OpenStep? { OpeningOnlyShrinks(s.db, s.actors[step.a].o, step.open); }
    assert Shrinks(s.db, s'.db);
    ShrinkingKeepsDbOk(s.db, s'.db);
    forall b | b in s'.actors && s'.actors[b].Retaining? ensures RetainerOk(s'.db, s'.actors[b].r) {
      if b in s.actors && s'.actors[b] == s.actors[b] { OtherRetainerOk(s.db, s'.db, s.actors[b].r); }
    }
  }

  lemma {:induction false} ResidueAlways(codec: Codec, trace: seq<Sys>, steps: seq<Step>, n: nat)
    requires Behaviour(codec, trace, steps) && n < |trace|
    ensures ResidueInv(trace[n])
  {
    if n > 0 {
      ResidueAlways(codec, trace, steps, n - 1);
      AlwaysInv(codec, trace, steps, n - 1);
      assert Follows(codec, trace, steps, n - 1);
      match steps[n - 1]
      case ObserveStep(a, in_) => ObserveKeepsResidue(codec, trace[n - 1], a, in_);
      case RetainStep(a, in_) => RetainKeepsResidue(codec, trace[n - 1], a, in_);
      case _ => MaintenanceKeepsResidue(codec, trace[n - 1], steps[n - 1]);
    }
  }

  /** No deleted report is forgotten: in every state of every run, a report file whose snapshot
      was committed and has been deleted waits in the delete queue, however often its removal
      failed and whoever crashed in between. */
  lemma NothingForgotten(codec: Codec, trace: seq<Sys>, steps: seq<Step>, n: nat, id: Uuid)
    requires Behaviour(codec, trace, steps) && n < |trace|
    requires InHistory(trace[n].db.history, id) && id !in trace[n].db.snapshots && ReportJson(id) in trace[n].db.files
    ensures ReportJson(id) in trace[n].db.queue
  {
    ResidueAlways(codec, trace, steps, n);
  }

  // ----- files of failed publications -----

  /** Nobody is publishing under this id any more. */
  ghost predicate Unclaimed(s: Sys, id: Uuid) {
    id in s.issued && forall a :: HasCaller(s, a) ==> Pending(s.actors[a].k.pc) != Some(id)
  }

  lemma UnclaimedStays(codec: Codec, s: Sys, step: Step, id: Uuid)
    requires Can(codec, s, step) && Unclaimed(s, id)
    ensures Unclaimed(Do(codec, s, step), id)
  {
    var s' := Do(codec, s, step);
    forall a | HasCaller(s', a) ensures Pending(s'.actors[a].k.pc) != Some(id) {
      if step.ObserveStep? && step.a == a {
        StepTakesOnlyFresh(codec, s.db, s.actors[a].k, step.observe);
      }
    }
  }

  lemma NoFileReturns(codec: Codec, s: Sys, step: Step, n: FileName)
    requires Can(codec, s, step) && Artifacts.IsReport(n) && Unclaimed(s, n.id) && n !in s.db.files
    ensures n !in Do(codec, s, step).db.files
  {
    match step
    case ObserveStep(a, in_) => Artifacts.StepCreates(codec, s.db, s.actors[a].k, in_);
    case RetainStep(a, in_) => Artifacts.RetentionShrinks(s.db, s.actors[a].r, in_);
    case OpenStep(a, in_) => Artifacts.OpeningShrinks(s.db, s.actors[a].o, in_);
    case _ =>
  }

  lemma {:induction false} GoneForGood(codec: Codec, trace: seq<Sys>, steps: seq<Step>, j: nat, n: nat, name: FileName)
    requires Behaviour(codec, trace, steps) && j <= n < |trace|
    requires Artifacts.IsReport(name) && Unclaimed(trace[j], name.id) && name !in trace[j].db.files
    ensures Unclaimed(trace[n], name.id) && name !in trace[n].db.files
  {
    if j < n {
      GoneForGood(codec, trace, steps, j, n - 1, name);
      assert Follows(codec, trace, steps, n - 1);
      UnclaimedStays(codec, trace[n - 1], steps[n - 1], name.id);
      NoFileReturns(codec, trace[n - 1], steps[n - 1], name);
    }
  }

  /** Step i is a call cleaning up after its failed publication, and the removal succeeds. */
  predicate CleansUp(trace: seq<Sys>, steps: seq<Step>, i: nat, name: FileName) {
    i < |trace| && i < |steps| && steps[i].ObserveStep? && HasCaller(trace[i], steps[i].a) && steps[i].observe.ok
    && var pc := trace[i].actors[steps[i].a].k.pc;
       (pc.DropReport? && name == ReportJson(pc.pub.id)) || (pc.DropTemp? && name == ReportTemp(pc.pub.id, pc.pub.pid))
  }

  lemma CleanUpUnclaims(codec: Codec, trace: seq<Sys>, steps: seq<Step>, i: nat, name: FileName)
    requires Behaviour(codec, trace, steps) && CleansUp(trace, steps, i, name)
    ensures Unclaimed(trace[i + 1], name.id) && name !in trace[i + 1].db.files
  {
    AlwaysInv(codec, trace, steps, i);
    assert Follows(codec, trace, steps, i);
    var a, s' := steps[i].a, trace[i + 1];
    assert Pending(trace[i].actors[a].k.pc) == Some(name.id);
    forall b | HasCaller(s', b) ensures Pending(s'.actors[b].k.pc) != Some(name.id) {
      if b != a { assert HasCaller(trace[i], b) && Apart(trace[i].actors[b].k, trace[i].actors[a].k); }
    }
  }

  /** A failed publication is cleaned up for good: a commit that does not publish goes on to
      remove the report, a write that fails goes on to remove the temporary file, and once
      such a removal has succeeded the file never comes back. */
  lemma FailedPublicationIsCleanedUp(codec: Codec, trace: seq<Sys>, steps: seq<Step>, i: nat, n: nat, name: FileName)
    requires Behaviour(codec, trace, steps) && CleansUp(trace, steps, i, name) && i < n < |trace|
    ensures name !in trace[n].db.files
  {
    CleanUpUnclaims(codec, trace, steps, i, name);
    GoneForGood(codec, trace, steps, i + 1, n, name);
  }

  lemma FailureGoesToCleanUp(codec: Codec, db: Db, k: Caller, in_: Observe.Input)
    requires k.pc.Commit? || k.pc.RenameTemp?
    ensures var (db', k') := Observe.Step(codec, db, k, in_);
      && (k.pc.Commit? && db'.history == db.history ==> k'.pc.DropReport? && k'.pc.pub == k.pc.pub)
      && (k.pc.RenameTemp? && !k'.pc.Commit? ==> k'.pc == Observe.DropTemp(k.pc.pub))
      && (k.pc.RenameTemp? && k'.pc.Commit? ==> ReportTemp(k.pc.pub.id, k.pc.pub.pid) !in db'.files)
  {
  }
}
