/** The steady state: unchanged hardware is answered from the current snapshot. */
module SteadyState {
  import opened Wrappers
  import opened Store
  import opened Effects
  import opened Invariants
  import opened System
  import opened Safety
  import opened Artifacts
  import opened Theorems
  import Observe
  import Preservation

  /** The way of a reusing call through the function, with the snapshot x it reuses. */
  predicate OnReusePath(k: Caller, view: Observe.StateView, x: Uuid, stage: nat) {
    && k.fullRow.None? && !k.failed && !k.opts.force
    && (stage >= 1 ==> k.initial == view)
    && match stage
       case 0 => k.pc.Begin?
       case 1 => k.pc.StartQuick?
       case 2 => k.pc.Probing?
       case 3 => k.pc == Observe.CheckRow(Observe.AtStart, x)
       case 4 => k.pc.CheckFile? && k.pc.why.AtStart? && k.pc.id == x
       case 5 => k.pc == Observe.FinishReuse(x)
       case 6 => k.pc == Observe.LoadRow(Observe.Reused(x))
       case 7 => k.pc.LoadFile? && k.pc.answer == Observe.Reused(x)
       case 8 => k.pc == Observe.Done(Ok(Observe.Reused(x)))
       case _ => false
  }

  /** The quick probe sees what the state row says, and the snapshot is young enough. */
  predicate SeesSame(view: Observe.StateView, k: Caller, in_: Observe.Input) {
    k.pc.Probing? ==>
      in_.quick.Some? && Observe.SameHardware(view.state, in_.quick.value)
      && Observe.WithinAge(view.created, k.opts.maxAge, in_.wall)
  }

  /** The artifact that a call has in hand for the current snapshot is the verified one. */
  lemma CurrentVerifies(codec: Codec, db: Db, x: Uuid, meta: Artifact)
    requires CatalogInv(db.state, db.snapshots, db.history) && LiveVerified(codec, db)
    requires x in db.snapshots && PublishedAs(db.history, x, meta)
    ensures Verifies(codec, db.files, meta)
  {
    var i :| 0 <= i < |db.history| && db.history[i].id == x && SamePublished(db.snapshots[x], db.history[i].row);
    var j :| 0 <= j < |db.history| && db.history[j].id == x && db.history[j].row.artifact == meta;
    assert i == j;
  }

  lemma ReuseAdvances(codec: Codec, db: Db, k: Caller, in_: Observe.Input, view: Observe.StateView, x: Uuid, stage: nat)
    requires OnReusePath(k, view, x, stage) && stage < 8
    requires Observe.ReadState(db) == view && view.state.current == Some(x) && x in db.snapshots
    requires stage == 4 || stage == 7 ==> Verifies(codec, db.files, k.pc.meta)
    requires in_.ok && SeesSame(view, k, in_)
    ensures OnReusePath(Observe.Step(codec, db, k, in_).1, view, x, stage + 1)
  {
    if stage <= 2 {
      assert Observe.Step(codec, db, k, in_) == Observe.StartingStep(db, k, in_);
    } else if stage <= 5 {
      assert Observe.Step(codec, db, k, in_) == Observe.CheckingStep(codec, db, k, in_);
    } else {
      assert Observe.Step(codec, db, k, in_) == Observe.ClosingStep(codec, db, k, in_);
    }
  }

  lemma PathHoldsReport(codec: Codec, trace: seq<Sys>, steps: seq<Step>, m: nat, a: nat, view: Observe.StateView,
                        x: Uuid, stage: nat)
    requires Behaviour(codec, trace, steps) && NeverExposed(trace, m) && m < |trace| && HasCaller(trace[m], a)
    requires OnReusePath(trace[m].actors[a].k, view, x, stage) && trace[m].db.state.current == Some(x)
    ensures x in trace[m].db.snapshots
    ensures stage == 4 || stage == 7 ==> Verifies(codec, trace[m].db.files, trace[m].actors[a].k.pc.meta)
  {
    AlwaysInv(codec, trace, steps, m);
    ArtifactsConserved(codec, trace, steps, m);
    assert CallerInv(codec, trace[m].db, trace[m].actors[a].k);
    if stage == 4 || stage == 7 {
      CurrentVerifies(codec, trace[m].db, x, trace[m].actors[a].k.pc.meta);
    }
  }

  /** Step m publishes nothing, and if it is the call's own then no store call fails and the
      probe sees the hardware that the state row records. */
  predicate Calm(trace: seq<Sys>, steps: seq<Step>, b: nat, m: nat, a: nat)
    requires |trace| == |steps| + 1 && b < |trace| && m < |steps|
  {
    && trace[m + 1].db.history == trace[b].db.history
    && (StepOf(steps, m, a) && HasCaller(trace[m], a) ==>
          steps[m].observe.ok && SeesSame(Observe.ReadState(trace[b].db), trace[m].actors[a].k, steps[m].observe))
  }

  ghost predicate Undisturbed(trace: seq<Sys>, steps: seq<Step>, b: nat, n: nat, a: nat) {
    |trace| == |steps| + 1 && b <= n < |trace|
    && forall m: nat {:trigger Calm(trace, steps, b, m, a)} :: b <= m < n ==> Calm(trace, steps, b, m, a)
  }

  lemma SameView(codec: Codec, trace: seq<Sys>, steps: seq<Step>, b: nat, m: nat)
    requires Behaviour(codec, trace, steps) && b < |trace| && m < |trace| && trace[m].db.history == trace[b].db.history
    ensures Observe.ReadState(trace[m].db) == Observe.ReadState(trace[b].db)
  {
    AlwaysInv(codec, trace, steps, b);
    AlwaysInv(codec, trace, steps, m);
    Preservation.ReadStateMirrorsHistory(trace[b].db);
    Preservation.ReadStateMirrorsHistory(trace[m].db);
  }

  lemma NothingPublished(trace: seq<Sys>, steps: seq<Step>, b: nat, m: nat, n: nat, a: nat)
    requires Undisturbed(trace, steps, b, n, a) && b <= m <= n
    ensures trace[m].db.history == trace[b].db.history
    ensures Undisturbed(trace, steps, b, m, a)
  {
    if b < m { assert Calm(trace, steps, b, m - 1, a); }
  }

  /** One step of the run moves the call one stage on if it is its own, and not otherwise. */
  lemma PathAdvances(codec: Codec, trace: seq<Sys>, steps: seq<Step>, b: nat, m: nat, a: nat, owner: Uuid, x: Uuid,
                     stage: nat)
    requires Behaviour(codec, trace, steps) && NeverExposed(trace, m) && b <= m < |steps|
    requires Calm(trace, steps, b, m, a) && trace[m].db.history == trace[b].db.history
    requires trace[b].db.state.current == Some(x) && Is(trace, m, a, owner) && Is(trace, m + 1, a, owner)
    requires OnReusePath(trace[m].actors[a].k, Observe.ReadState(trace[b].db), x, stage)
    ensures OnReusePath(trace[m + 1].actors[a].k, Observe.ReadState(trace[b].db), x,
                        if StepOf(steps, m, a) && stage < 8 then stage + 1 else stage)
  {
    assert Follows(codec, trace, steps, m);
    if StepOf(steps, m, a) && stage < 8 {
      SameView(codec, trace, steps, b, m);
      PathHoldsReport(codec, trace, steps, m, a, Observe.ReadState(trace[b].db), x, stage);
      ReuseAdvances(codec, trace[m].db, trace[m].actors[a].k, steps[m].observe, Observe.ReadState(trace[b].db), x, stage);
    }
  }

  /** Steady state, in every interleaving: once the state row records the identity that the
      quick probe sees, an unforced call within the age bound, with nothing published since,
      walks the reuse path. It never starts a full scan, never takes the lease, and has
      answered with the current snapshot after exactly eight steps of its own, whatever
      retention, other callers and crashes of others do meanwhile. */
  lemma {:induction false} SteadyStateReuses(codec: Codec, trace: seq<Sys>, steps: seq<Step>, b: nat, n: nat, a: nat,
                                             owner: Uuid, x: Uuid)
    requires Behaviour(codec, trace, steps) && NeverExposed(trace, n) && Undisturbed(trace, steps, b, n, a)
    requires Is(trace, b, a, owner) && Is(trace, n, a, owner)
    requires trace[b].actors[a].k.pc.Begin? && !trace[b].actors[a].k.opts.force && trace[b].db.state.current == Some(x)
    ensures var done := OwnSteps(steps, b, n, a);
      OnReusePath(trace[n].actors[a].k, Observe.ReadState(trace[b].db), x, if done <= 8 then done else 8)
  {
    if n > b {
      OwnerIdentifiesActor(codec, trace, steps, b, a, n, a, owner);
      assert Is(trace, n - 1, a, owner);
      NothingPublished(trace, steps, b, n - 1, n, a);
      SteadyStateReuses(codec, trace, steps, b, n - 1, a, owner, x);
      assert Calm(trace, steps, b, n - 1, a);
      var done := OwnSteps(steps, b, n - 1, a);
      PathAdvances(codec, trace, steps, b, n - 1, a, owner, x, if done <= 8 then done else 8);
    } else {
      FreshAtBegin(codec, trace, steps, b, a);
    }
  }

  lemma {:induction false} FreshAtBegin(codec: Codec, trace: seq<Sys>, steps: seq<Step>, b: nat, a: nat)
    requires Behaviour(codec, trace, steps) && b < |trace| && HasCaller(trace[b], a) && trace[b].actors[a].k.pc.Begin?
    ensures !trace[b].actors[a].k.failed && trace[b].actors[a].k.fullRow.None?
  {
    AlwaysInv(codec, trace, steps, b);
    if b > 0 {
      assert Follows(codec, trace, steps, b - 1);
      if HasCaller(trace[b - 1], a) && trace[b - 1].actors[a].k.pc.Begin? {
        FreshAtBegin(codec, trace, steps, b - 1, a);
      }
      if StepOf(steps, b - 1, a) { LeavesBegin(codec, trace[b - 1].db, trace[b - 1].actors[a].k, steps[b - 1].observe); }
    }
  }

  lemma LeavesBegin(codec: Codec, db: Db, k: Caller, in_: Observe.Input)
    ensures !Observe.Step(codec, db, k, in_).1.pc.Begin?
  {
    match Observe.PhaseOf(k.pc)
    case Starting =>
    case Checking =>
    case Waiting =>
    case Leading =>
    case Writing =>
    case Closing =>
    case Over =>
  }

  /** The state row will take the quick probe's identity if that was complete. */
  predicate KeepsProbe(k: Caller) {
    Publishing(k.pc).Some? && k.quick.Some? && k.quick.value.coreComplete ==>
      Publishing(k.pc).value.stateProbe == k.quick.value
  }

  lemma StepKeepsProbe(codec: Codec, db: Db, k: Caller, in_: Observe.Input)
    requires KeepsProbe(k) && (k.pc.DirectCheck? ==> k.quick.None?)
    ensures KeepsProbe(Observe.Step(codec, db, k, in_).1)
  {
    StepPublication(codec, db, k, in_);
  }

  lemma {:induction false} ProbeKeptAlways(codec: Codec, trace: seq<Sys>, steps: seq<Step>, n: nat, a: nat)
    requires Behaviour(codec, trace, steps) && n < |trace| && HasCaller(trace[n], a)
    ensures KeepsProbe(trace[n].actors[a].k)
  {
    if n > 0 {
      assert Follows(codec, trace, steps, n - 1);
      if HasCaller(trace[n - 1], a) {
        ProbeKeptAlways(codec, trace, steps, n - 1, a);
        if StepOf(steps, n - 1, a) {
          AlwaysInv(codec, trace, steps, n - 1);
          StepKeepsProbe(codec, trace[n - 1].db, trace[n - 1].actors[a].k, steps[n - 1].observe);
        }
      }
    }
  }

  /** A publication made with a core-complete quick probe leaves exactly the probe's identity
      in the state row, which is what the next quick probe is compared with. */
  lemma PublishRecordsQuickProbe(codec: Codec, trace: seq<Sys>, steps: seq<Step>, i: nat)
    requires Behaviour(codec, trace, steps) && i < |steps| && trace[i + 1].db.history != trace[i].db.history
    ensures steps[i].ObserveStep? && HasCaller(trace[i], steps[i].a)
    ensures var k := trace[i].actors[steps[i].a].k;
      k.quick.Some? && k.quick.value.coreComplete ==> Observe.SameHardware(trace[i + 1].db.state, k.quick.value)
  {
    AlwaysInv(codec, trace, steps, i);
    assert Follows(codec, trace, steps, i);
    OnlyOwnersCommit(codec, trace[i], steps[i]);
    ProbeKeptAlways(codec, trace, steps, i, steps[i].a);
  }

  // ----- from a publication to the reuse of its snapshot -----

  /** As `Calm`, with the quick probe seeing the identity q instead of what the state says. */
  predicate CalmFor(trace: seq<Sys>, steps: seq<Step>, b: nat, m: nat, a: nat, q: QuickReport)
    requires |trace| == |steps| + 1 && b < |trace| && m < |steps|
  {
    && trace[m + 1].db.history == trace[b].db.history
    && (StepOf(steps, m, a) && HasCaller(trace[m], a) ==>
          steps[m].observe.ok
          && (trace[m].actors[a].k.pc.Probing? ==>
                steps[m].observe.quick.Some? && SameIdentity(q, steps[m].observe.quick.value)
                && Observe.WithinAge(Observe.ReadState(trace[b].db).created, trace[m].actors[a].k.opts.maxAge, steps[m].observe.wall)))
  }

  ghost predicate UndisturbedFor(trace: seq<Sys>, steps: seq<Step>, b: nat, n: nat, a: nat, q: QuickReport) {
    |trace| == |steps| + 1 && b <= n < |trace|
    && forall m: nat {:trigger CalmFor(trace, steps, b, m, a, q)} :: b <= m < n ==> CalmFor(trace, steps, b, m, a, q)
  }

  lemma CalmForIsCalm(trace: seq<Sys>, steps: seq<Step>, b: nat, n: nat, a: nat, q: QuickReport)
    requires UndisturbedFor(trace, steps, b, n, a, q) && Observe.SameHardware(trace[b].db.state, q)
    ensures Undisturbed(trace, steps, b, n, a)
  {
    forall m: nat {:trigger Calm(trace, steps, b, m, a)} | b <= m < n ensures Calm(trace, steps, b, m, a) {
      assert CalmFor(trace, steps, b, m, a, q);
    }
  }

  /** The state after a publication stays as long as nothing else is published. */
  lemma StateStays(codec: Codec, trace: seq<Sys>, steps: seq<Step>, i: nat, b: nat)
    requires Behaviour(codec, trace, steps) && i < |steps| && i < b < |trace|
    requires trace[i + 1].db.history != trace[i].db.history && trace[b].db.history == trace[i + 1].db.history
    ensures steps[i].ObserveStep? && HasCaller(trace[i], steps[i].a)
    ensures var k := trace[i].actors[steps[i].a].k;
      k.pc.Commit? && trace[b].db.state.current == Some(k.pc.pub.id) && trace[b].db.state == trace[i + 1].db.state
  {
    AlwaysInv(codec, trace, steps, i);
    assert Follows(codec, trace, steps, i);
    OnlyOwnersCommit(codec, trace[i], steps[i]);
    CurrentIsInHistory(codec, trace, steps, i + 1);
    CurrentIsInHistory(codec, trace, steps, b);
  }

  /** The steady state from end to end: after a publication made with a core-complete quick
      probe q, and as long as nothing else is published, every unforced call whose quick probe
      sees the identity of q within the age bound walks the reuse path and answers with that
      very snapshot. */
  lemma SteadyStateAfterPublish(codec: Codec, trace: seq<Sys>, steps: seq<Step>, i: nat, q: QuickReport, b: nat,
                                n: nat, a: nat, owner: Uuid)
    requires Behaviour(codec, trace, steps) && NeverExposed(trace, n) && i < |steps| && i < b
    requires trace[i + 1].db.history != trace[i].db.history
    requires steps[i].ObserveStep? && HasCaller(trace[i], steps[i].a) && trace[i].actors[steps[i].a].k.quick == Some(q) && q.coreComplete
    requires UndisturbedFor(trace, steps, b, n, a, q) && trace[b].db.history == trace[i + 1].db.history
    requires Is(trace, b, a, owner) && Is(trace, n, a, owner)
    requires trace[b].actors[a].k.pc.Begin? && !trace[b].actors[a].k.opts.force
    ensures var done, k := OwnSteps(steps, b, n, a), trace[i].actors[steps[i].a].k;
      k.pc.Commit? && OnReusePath(trace[n].actors[a].k, Observe.ReadState(trace[b].db), k.pc.pub.id, if done <= 8 then done else 8)
  {
    PublishRecordsQuickProbe(codec, trace, steps, i);
    StateStays(codec, trace, steps, i, b);
    CalmForIsCalm(trace, steps, b, n, a, q);
    SteadyStateReuses(codec, trace, steps, b, n, a, owner, trace[i].actors[steps[i].a].k.pc.pub.id);
  }
}
