/** What the report directory holds right after a store has been opened. */
module OpenedDirectory {
  import opened Wrappers
  import opened Store
  import opened System
  import opened Safety
  import opened Artifacts
  import Observe
  import Opening

  /** The sweep knows exactly the live reports, and what is still to be looked at covers
      everything that has to go. */
  ghost predicate ExactSweep(db: Db, o: Opening.Pc) {
    match o
    case ReadDirectory(known) => known == KnownPaths(db)
    case Sweep(known, todo) => known == KnownPaths(db) && StillToLookAt(db, known, todo)
    case _ => true
  }

  ghost predicate StillToLookAt(db: Db, known: set<FileName>, todo: seq<FileName>) {
    && (forall i, j :: 0 <= i < j < |todo| ==> todo[i] != todo[j])
    && (forall n :: n in todo ==> n in db.files)
    && (forall n :: n in db.files && Removable(n, known) ==> n in todo)
  }

  predicate IsOpening(s: Sys, a: nat) {
    a in s.actors && s.actors[a].OpeningStore? && !s.actors[a].o.Opened?
  }

  /** An actor that has returned. */
  predicate IsOver(actor: Actor) {
    match actor
    case Observer(k) => k.pc.Done?
    case Retaining(r) => r.pc.Finished?
    case OpeningStore(o) => o.Opened?
  }

  /** While a store opens nothing else is under way on it. */
  ghost predicate Solo(s: Sys) {
    forall a, b :: IsOpening(s, a) && b in s.actors && b != a ==> IsOver(s.actors[b])
  }

  ghost predicate OpensAlone(trace: seq<Sys>) {
    forall i :: 0 <= i < |trace| ==> Solo(trace[i])
  }

  lemma SoloIsUnexposed(s: Sys)
    requires Solo(s)
    ensures Unexposed(s)
  {
    forall a, b ensures !Dangerous(s, a, b) {
      assert IsOpening(s, b) && a in s.actors && b != a ==> IsOver(s.actors[a]);
    }
  }

  ghost predicate ExactSweeps(s: Sys) {
    forall a :: IsOpening(s, a) ==> ExactSweep(s.db, s.actors[a].o)
  }

  lemma OwnStepKeepsExact(db: Db, o: Opening.Pc, in_: Opening.Input)
    requires ExactSweep(db, o) && Opening.Answers(db, o, in_)
    ensures var (db', o') := Opening.Step(db, o, in_); ExactSweep(db', o')
  {
    if o.Sweep? && o.todo != [] {
      assert o.todo == [o.todo[0]] + o.todo[1..];
    }
  }

  /** Actors that are over change nothing. */
  lemma OverStepsAreIdle(codec: Codec, s: Sys, step: Step)
    requires Can(codec, s, step) && (step.ObserveStep? || step.RetainStep? || step.OpenStep?) && IsOver(s.actors[step.a])
    ensures Do(codec, s, step).db == s.db
  {
  }

  lemma LifecycleKeepsExact(codec: Codec, s: Sys, step: Step, o: Opening.Pc)
    requires (step.Pin? || step.Upload?) && ExactSweep(s.db, o)
    ensures ExactSweep(Do(codec, s, step).db, o)
  {
    LifecycleKeepsPaths(codec, s, step);
  }

  lemma LifecycleKeepsPaths(codec: Codec, s: Sys, step: Step)
    requires step.Pin? || step.Upload?
    ensures var db' := Do(codec, s, step).db; KnownPaths(db') == KnownPaths(s.db) && db'.files == s.db.files
  {
    var db' := Do(codec, s, step).db;
    assert db'.snapshots.Keys == s.db.snapshots.Keys;
    assert forall id :: id in s.db.snapshots ==> db'.snapshots[id].artifact == s.db.snapshots[id].artifact;
  }

  lemma ExactStep(codec: Codec, s: Sys, step: Step)
    requires ExactSweeps(s) && Solo(s) && Can(codec, s, step)
    ensures ExactSweeps(Do(codec, s, step))
  {
    var s' := Do(codec, s, step);
    forall b | IsOpening(s', b) ensures ExactSweep(s'.db, s'.actors[b].o) {
      if step.OpenStep? && step.a == b {
        if IsOpening(s, b) { OwnStepKeepsExact(s.db, s.actors[b].o, step.open); }
      } else if step.Pin? || step.Upload? {
        assert IsOpening(s, b);
        LifecycleKeepsExact(codec, s, step, s.actors[b].o);
      } else if step.ObserveStep? || step.RetainStep? || step.OpenStep? {
        assert IsOpening(s, b);
        OverStepsAreIdle(codec, s, step);
      } else {
        assert IsOpening(s, b) || s'.actors[b].o.Recover? || s'.actors[b].o.ListKnown?;
      }
    }
  }

  lemma {:induction false} ExactAlways(codec: Codec, trace: seq<Sys>, steps: seq<Step>, n: nat)
    requires Behaviour(codec, trace, steps) && OpensAlone(trace) && n < |trace|
    ensures ExactSweeps(trace[n])
  {
    if n > 0 {
      ExactAlways(codec, trace, steps, n - 1);
      assert Follows(codec, trace, steps, n - 1);
      ExactStep(codec, trace[n - 1], steps[n - 1]);
    }
  }

  /** Right after the last step of `initialize`, whatever crashes came before, in runs in which
      stores open alone: the JSON files are exactly the reports of the live rows, and no
      temporary file is left. */
  lemma OpenedDirectoryIsExact(codec: Codec, trace: seq<Sys>, steps: seq<Step>, i: nat)
    requires Behaviour(codec, trace, steps) && OpensAlone(trace) && i < |steps|
    requires steps[i].OpenStep? && IsOpening(trace[i], steps[i].a)
    requires Opening.Step(trace[i].db, trace[i].actors[steps[i].a].o, steps[i].open).1 == Opening.Opened(true)
    ensures forall n :: n in trace[i + 1].db.files && n.IsJson() <==> n.ReportJson? && n.id in trace[i + 1].db.snapshots
    ensures forall n :: n in trace[i + 1].db.files ==> !n.IsTemp()
  {
    LiveAfter(codec, trace, steps, i + 1);
    ExactAlways(codec, trace, steps, i);
    assert Follows(codec, trace, steps, i);
    SweepEndsClean(trace[i].db, trace[i].actors[steps[i].a].o, steps[i].open);
    CleanIsExact(codec, trace[i + 1].db);
  }

  lemma LiveAfter(codec: Codec, trace: seq<Sys>, steps: seq<Step>, n: nat)
    requires Behaviour(codec, trace, steps) && OpensAlone(trace) && n < |trace|
    ensures LiveVerified(codec, trace[n].db)
  {
    forall m | 0 <= m < |trace| ensures Unexposed(trace[m]) { SoloIsUnexposed(trace[m]); }
    ArtifactsConserved(codec, trace, steps, n);
  }

  lemma CleanIsExact(codec: Codec, db: Db)
    requires LiveVerified(codec, db) && forall n :: n in db.files ==> !Removable(n, KnownPaths(db))
    ensures forall n :: n in db.files && n.IsJson() <==> n.ReportJson? && n.id in db.snapshots
    ensures forall n :: n in db.files ==> !n.IsTemp()
  {
    KnownAreLive(codec, db);
    LiveFilesAreThere(codec, db);
  }

  lemma LiveFilesAreThere(codec: Codec, db: Db)
    requires LiveVerified(codec, db)
    ensures forall n: FileName :: n.ReportJson? && n.id in db.snapshots ==> n in db.files
  {
    forall n: FileName | n.ReportJson? && n.id in db.snapshots ensures n in db.files {
      assert db.snapshots[n.id].artifact.file == n;
    }
  }

  lemma SweepEndsClean(db: Db, o: Opening.Pc, in_: Opening.Input)
    requires ExactSweep(db, o) && Opening.Answers(db, o, in_) && !o.Opened?
    requires Opening.Step(db, o, in_).1 == Opening.Opened(true)
    ensures var db' := Opening.Step(db, o, in_).0; forall n :: n in db'.files ==> !Removable(n, KnownPaths(db'))
  {
    if o.Sweep? && o.todo != [] {
      assert o.todo == [o.todo[0]] + o.todo[1..];
    }
  }
}
