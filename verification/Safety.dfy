/** The invariant of the whole system, kept by every step of every interleaving. */
module Safety {
  import opened Wrappers
  import opened Store
  import opened Effects
  import opened Invariants
  import opened Preservation
  import opened System
  import Observe
  import Retention
  import Opening

  ghost predicate CallersInv(codec: Codec, s: Sys) {
    forall a :: HasCaller(s, a) ==>
      CallerInv(codec, s.db, s.actors[a].k) && s.actors[a].k.owner in s.issued
      && (Pending(s.actors[a].k.pc).Some? ==> Pending(s.actors[a].k.pc).value in s.issued)
  }

  /** No two callers share an owner id, a probe row or a snapshot id in publication. */
  ghost predicate Apart(k: Caller, other: Caller) {
    k.owner != other.owner
    && (forall r :: OwnRow(k, r) ==> !OwnRow(other, r))
    && (Pending(other.pc).Some? ==> Pending(k.pc) != Pending(other.pc))
  }

  ghost predicate SeparateInv(s: Sys) {
    forall a, b :: HasCaller(s, a) && HasCaller(s, b) && a != b ==> Apart(s.actors[a].k, s.actors[b].k)
  }

  ghost predicate IssuedInv(s: Sys) {
    (s.db.lease.Some? ==> s.db.lease.value.owner in s.issued)
    && (forall i :: 0 <= i < |s.db.history| ==> s.db.history[i].id in s.issued)
  }

  ghost predicate SysInv(codec: Codec, s: Sys) {
    DbInv(s.db) && CallersInv(codec, s) && SeparateInv(s) && IssuedInv(s)
  }

  // ----- maintenance -----

  lemma DeleteKeepsCatalog(db: Db, gone: seq<Candidate>)
    requires CatalogInv(db.state, db.snapshots, db.history)
    ensures var r := DeleteSnapshots(db, gone);
      r.Some? ==> CatalogInv(r.value.state, r.value.snapshots, r.value.history)
  {
  }

  lemma DeleteKeepsReferences(db: Db, gone: seq<Candidate>)
    requires ReferencesInv(db.snapshots, db.probes)
    ensures var r := DeleteSnapshots(db, gone); r.Some? ==> ReferencesInv(r.value.snapshots, r.value.probes)
  {
  }

  lemma RetentionKeepsDb(db: Db, r: Retention.Retainer, in_: Retention.Input)
    requires DbInv(db)
    ensures DbInv(Retention.Step(db, r, in_).0)
  {
    var db' := Retention.Step(db, r, in_).0;
    if r.pc.Delete? {
      DeleteKeepsCatalog(db, r.pc.eligible);
      DeleteKeepsReferences(db, r.pc.eligible);
    } else {
      assert db' == db.(queue := db'.queue, files := db'.files);
    }
  }

  lemma OpeningKeepsDb(db: Db, pc: Opening.Pc, in_: Opening.Input)
    requires DbInv(db)
    ensures DbInv(Opening.Step(db, pc, in_).0)
  {
  }

  lemma LifecycleKeepsDb(db: Db, id: Uuid, pinned: bool)
    requires DbInv(db)
    ensures SetPinned(db, id, pinned).Some? ==> DbInv(SetPinned(db, id, pinned).value)
    ensures MarkUploaded(db, id).Some? ==> DbInv(MarkUploaded(db, id).value)
  {
  }

  /** A maintenance step leaves the callers as they are. */
  lemma MaintenanceKeepsSys(codec: Codec, s: Sys, s': Sys)
    requires SysInv(codec, s) && DbInv(s'.db) && MaintenanceEffect(s.db, s'.db) && s'.issued == s.issued
    requires forall a :: HasCaller(s', a) ==> HasCaller(s, a) && s'.actors[a] == s.actors[a]
    ensures SysInv(codec, s')
  {
    forall a | HasCaller(s', a) ensures CallerInv(codec, s'.db, s'.actors[a].k) {
      MaintenanceKeepsRely(s.db, s'.db, s.actors[a].k);
      StableUnderRely(codec, s.db, s'.db, s.actors[a].k);
    }
  }

  // ----- callers -----

  lemma SpawnKeepsSys(codec: Codec, s: Sys, a: nat, actor: Actor)
    requires SysInv(codec, s) && a !in s.actors && FreshActor(s, actor)
    ensures SysInv(codec, Do(codec, s, Spawn(a, actor)))
  {
    var s' := Do(codec, s, Spawn(a, actor));
    forall b | HasCaller(s', b) ensures CallerInv(codec, s'.db, s'.actors[b].k) {
      if b != a { assert HasCaller(s, b); }
    }
    forall b, c | HasCaller(s', b) && HasCaller(s', c) && b != c ensures Apart(s'.actors[b].k, s'.actors[c].k) {
      assert b != a ==> HasCaller(s, b);
      assert c != a ==> HasCaller(s, c);
    }
  }

  /** What a caller's own step keeps apart from the others: it only takes what is fresh. */
  lemma StepStaysApart(codec: Codec, s: Sys, a: nat, in_: Observe.Input, b: nat)
    requires SysInv(codec, s) && HasCaller(s, a) && HasCaller(s, b) && a != b && FreshInput(codec, s, in_)
    ensures var k' := Observe.Step(codec, s.db, s.actors[a].k, in_).1;
      Apart(k', s.actors[b].k) && Apart(s.actors[b].k, k')
  {
    var k, k' := s.actors[a].k, Observe.Step(codec, s.db, s.actors[a].k, in_).1;
    StepTakesOnlyFresh(codec, s.db, k, in_);
    assert Apart(k, s.actors[b].k) && Apart(s.actors[b].k, k);
  }

  lemma StepTakesOnlyFresh(codec: Codec, db: Db, k: Caller, in_: Observe.Input)
    ensures var k' := Observe.Step(codec, db, k, in_).1;
      && k'.owner == k.owner
      && (forall r :: OwnRow(k', r) ==> OwnRow(k, r) || r == in_.row)
      && (Pending(k'.pc).Some? ==> Pending(k'.pc) == Pending(k.pc) || Pending(k'.pc) == Some(in_.id))
  {
    StepPublication(codec, db, k, in_);
    StepRows(codec, db, k, in_);
  }

  /** The step of caller a leaves every other caller's invariant in place. */
  lemma OthersKeepInv(codec: Codec, s: Sys, a: nat, in_: Observe.Input, b: nat)
    requires SysInv(codec, s) && HasCaller(s, a) && FreshInput(codec, s, in_) && HasCaller(s, b) && a != b
    requires CallerEffect(codec, s.db, s.actors[a].k, in_.row, Observe.Step(codec, s.db, s.actors[a].k, in_).0)
    ensures CallerInv(codec, Observe.Step(codec, s.db, s.actors[a].k, in_).0, s.actors[b].k)
  {
    var db' := Observe.Step(codec, s.db, s.actors[a].k, in_).0;
    assert Apart(s.actors[b].k, s.actors[a].k);
    OthersKeepRely(codec, s.db, db', s.actors[b].k, s.actors[a].k, in_.row);
    StableUnderRely(codec, s.db, db', s.actors[b].k);
  }

  lemma OwnStepKeepsInv(codec: Codec, s: Sys, a: nat, in_: Observe.Input)
    requires SysInv(codec, s) && HasCaller(s, a) && FreshInput(codec, s, in_)
    ensures var (db', k') := Observe.Step(codec, s.db, s.actors[a].k, in_);
      DbInv(db') && CallerInv(codec, db', k') && CallerEffect(codec, s.db, s.actors[a].k, in_.row, db')
  {
    assert !InHistory(s.db.history, in_.id);
    StepKeepsInvariants(codec, s.db, s.actors[a].k, in_);
  }

  lemma ObserveKeepsCallers(codec: Codec, s: Sys, a: nat, in_: Observe.Input)
    requires SysInv(codec, s) && HasCaller(s, a) && FreshInput(codec, s, in_)
    ensures CallersInv(codec, Do(codec, s, ObserveStep(a, in_)))
  {
    var s' := Do(codec, s, ObserveStep(a, in_));
    OwnStepKeepsInv(codec, s, a, in_);
    StepTakesOnlyFresh(codec, s.db, s.actors[a].k, in_);
    forall b | HasCaller(s', b) ensures CallerInv(codec, s'.db, s'.actors[b].k) {
      if b != a {
        assert HasCaller(s, b);
        OthersKeepInv(codec, s, a, in_, b);
      }
    }
  }

  lemma ObserveKeepsSeparate(codec: Codec, s: Sys, a: nat, in_: Observe.Input)
    requires SysInv(codec, s) && HasCaller(s, a) && FreshInput(codec, s, in_)
    ensures SeparateInv(Do(codec, s, ObserveStep(a, in_)))
  {
    var s' := Do(codec, s, ObserveStep(a, in_));
    forall b, c | HasCaller(s', b) && HasCaller(s', c) && b != c ensures Apart(s'.actors[b].k, s'.actors[c].k) {
      assert b != a ==> HasCaller(s, b);
      assert c != a ==> HasCaller(s, c);
      if b == a { StepStaysApart(codec, s, a, in_, c); }
      if c == a { StepStaysApart(codec, s, a, in_, b); }
    }
  }

  lemma ObserveKeepsSys(codec: Codec, s: Sys, a: nat, in_: Observe.Input)
    requires SysInv(codec, s) && HasCaller(s, a) && FreshInput(codec, s, in_)
    ensures SysInv(codec, Do(codec, s, ObserveStep(a, in_)))
  {
    ObserveKeepsCallers(codec, s, a, in_);
    ObserveKeepsSeparate(codec, s, a, in_);
    OwnStepKeepsInv(codec, s, a, in_);
    ObserveKeepsIssued(codec, s, a, in_);
  }

  lemma ObserveKeepsIssued(codec: Codec, s: Sys, a: nat, in_: Observe.Input)
    requires IssuedInv(s) && CallersInv(codec, s) && HasCaller(s, a) && FreshInput(codec, s, in_)
    ensures IssuedInv(Do(codec, s, ObserveStep(a, in_)))
  {
    var s' := Do(codec, s, ObserveStep(a, in_));
    StepHasEffect(codec, s.db, s.actors[a].k, in_);
    forall i | 0 <= i < |s'.db.history| ensures s'.db.history[i].id in s'.issued {
      if i < |s.db.history| { assert s'.db.history[i] == s.db.history[i]; }
    }
  }

  // ----- every step, every run -----

  lemma DoKeepsSys(codec: Codec, s: Sys, step: Step)
    requires SysInv(codec, s) && Can(codec, s, step)
    ensures SysInv(codec, Do(codec, s, step))
  {
    var s' := Do(codec, s, step);
    match step
    case Spawn(a, actor) => SpawnKeepsSys(codec, s, a, actor);
    case ObserveStep(a, in_) => ObserveKeepsSys(codec, s, a, in_);
    case RetainStep(a, in_) =>
      RetentionHasEffect(s.db, s.actors[a].r, in_);
      RetentionKeepsDb(s.db, s.actors[a].r, in_);
      MaintenanceKeepsSys(codec, s, s');
    case OpenStep(a, in_) =>
      OpeningHasEffect(s.db, s.actors[a].o, in_);
      OpeningKeepsDb(s.db, s.actors[a].o, in_);
      MaintenanceKeepsSys(codec, s, s');
    case Vanish(a) => MaintenanceKeepsSys(codec, s, s');
    case Crash => MaintenanceKeepsSys(codec, s, s');
    case Pin(id, pinned) =>
      LifecycleHasEffect(s.db, id, pinned);
      LifecycleKeepsDb(s.db, id, pinned);
      MaintenanceKeepsSys(codec, s, s');
    case Upload(id) =>
      LifecycleHasEffect(s.db, id, true);
      LifecycleKeepsDb(s.db, id, true);
      MaintenanceKeepsSys(codec, s, s');
  }

  lemma {:induction false} AlwaysInv(codec: Codec, trace: seq<Sys>, steps: seq<Step>, n: nat)
    requires Behaviour(codec, trace, steps) && n < |trace|
    ensures SysInv(codec, trace[n])
  {
    if n > 0 {
      AlwaysInv(codec, trace, steps, n - 1);
      assert Follows(codec, trace, steps, n - 1);
      DoKeepsSys(codec, trace[n - 1], steps[n - 1]);
    }
  }

  lemma CallerAlwaysInv(codec: Codec, trace: seq<Sys>, steps: seq<Step>, n: nat, a: nat)
    requires Behaviour(codec, trace, steps) && n < |trace| && HasCaller(trace[n], a)
    ensures CallerInv(codec, trace[n].db, trace[n].actors[a].k)
  {
    AlwaysInv(codec, trace, steps, n);
  }
}
