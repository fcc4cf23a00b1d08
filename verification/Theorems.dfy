/** The claims about runs of the snapshot store: every interleaving, every clock. */
module Theorems {
  import opened Wrappers
  import opened Store
  import opened Effects
  import opened Invariants
  import opened Preservation
  import opened System
  import opened Safety
  import Observe

  // ----- a caller across a run -----

  /** At position m, actor a is the caller that draws on this owner id. */
  predicate Is(trace: seq<Sys>, m: nat, a: nat, owner: Uuid) {
    m < |trace| && HasCaller(trace[m], a) && trace[m].actors[a].k.owner == owner
  }

  predicate StepOf(steps: seq<Step>, m: nat, a: nat) {
    m < |steps| && steps[m].ObserveStep? && steps[m].a == a
  }

  /** How many steps an actor takes in a stretch of a run. */
  function OwnSteps(steps: seq<Step>, b: nat, n: nat, a: nat): nat
    requires b <= n <= |steps|
  {
    if n == b then 0
    else OwnSteps(steps, b, n - 1, a) + (if StepOf(steps, n - 1, a) then 1 else 0)
  }

  /** An owner id belongs to one actor for the whole run. */
  lemma {:induction false} OwnerIdentifiesActor(codec: Codec, trace: seq<Sys>, steps: seq<Step>, j: nat, b: nat,
                                                i: nat, a: nat, owner: Uuid)
    requires Behaviour(codec, trace, steps) && j <= i < |trace|
    requires Is(trace, j, b, owner) && Is(trace, i, a, owner)
    ensures a == b && forall m :: j <= m <= i ==> Is(trace, m, a, owner)
  {
    if i == j {
      OwnersDiffer(codec, trace, steps, i, a, b);
    } else {
      OwnerIssued(codec, trace, steps, j, b, i - 1);
      assert Follows(codec, trace, steps, i - 1);
      CallerWasThere(codec, trace[i - 1], steps[i - 1], a);
      OwnerIdentifiesActor(codec, trace, steps, j, b, i - 1, a, owner);
    }
  }

  lemma OwnersDiffer(codec: Codec, trace: seq<Sys>, steps: seq<Step>, i: nat, a: nat, b: nat)
    requires Behaviour(codec, trace, steps) && i < |trace| && HasCaller(trace[i], a) && HasCaller(trace[i], b)
    requires trace[i].actors[a].k.owner == trace[i].actors[b].k.owner
    ensures a == b
  {
    AlwaysInv(codec, trace, steps, i);
  }

  lemma OwnerIssued(codec: Codec, trace: seq<Sys>, steps: seq<Step>, j: nat, b: nat, i: nat)
    requires Behaviour(codec, trace, steps) && j <= i < |trace| && HasCaller(trace[j], b)
    ensures trace[j].actors[b].k.owner in trace[i].issued
  {
    AlwaysInv(codec, trace, steps, j);
    IssuedGrows(codec, trace, steps, j, i);
  }

  lemma {:induction false} IssuedGrows(codec: Codec, trace: seq<Sys>, steps: seq<Step>, j: nat, i: nat)
    requires Behaviour(codec, trace, steps) && j <= i < |trace|
    ensures trace[j].issued <= trace[i].issued
  {
    if j < i {
      IssuedGrows(codec, trace, steps, j, i - 1);
      assert Follows(codec, trace, steps, i - 1);
    }
  }

  /** A caller with an owner id issued before was there before, and keeps its id. */
  lemma CallerWasThere(codec: Codec, s: Sys, step: Step, a: nat)
    requires Can(codec, s, step) && HasCaller(Do(codec, s, step), a)
    ensures var owner := Do(codec, s, step).actors[a].k.owner;
      owner in s.issued ==> HasCaller(s, a) && s.actors[a].k.owner == owner
  {
    if step.ObserveStep? && step.a == a {
      StepTakesOnlyFresh(codec, s.db, s.actors[a].k, step.observe);
    }
  }

  // ----- publication is linear and fenced -----

  /** History changes only when a caller commits, and then by exactly its publication. */
  lemma OnlyOwnersCommit(codec: Codec, s: Sys, step: Step)
    requires SysInv(codec, s) && Can(codec, s, step) && Do(codec, s, step).db.history != s.db.history
    ensures step.ObserveStep? && HasCaller(s, step.a)
    ensures var k, db' := s.actors[step.a].k, Do(codec, s, step).db;
      k.pc.Commit? && Owns(s.db, k.owner) && Commits(codec, s.db, k.pc.pub, db')
  {
    match step
    case ObserveStep(a, in_) => StepHasEffect(codec, s.db, s.actors[a].k, in_);
    case RetainStep(a, in_) => RetentionHasEffect(s.db, s.actors[a].r, in_);
    case OpenStep(a, in_) => OpeningHasEffect(s.db, s.actors[a].o, in_);
    case Pin(id, pinned) => LifecycleHasEffect(s.db, id, pinned);
    case Upload(id) => LifecycleHasEffect(s.db, id, true);
    case _ =>
  }

  /** A lease row appears only by an acquisition of its owner. */
  lemma OnlyOwnersAcquire(codec: Codec, s: Sys, step: Step, owner: Uuid)
    requires Can(codec, s, step) && !Owns(s.db, owner) && Owns(Do(codec, s, step).db, owner)
    ensures step.ObserveStep? && HasCaller(s, step.a) && s.actors[step.a].k.owner == owner
    ensures var pc := s.actors[step.a].k.pc; pc.Acquire? || pc.DirectAcquire?
  {
    match step
    case ObserveStep(a, in_) => StepHasEffect(codec, s.db, s.actors[a].k, in_);
    case RetainStep(a, in_) => RetentionHasEffect(s.db, s.actors[a].r, in_);
    case OpenStep(a, in_) => OpeningHasEffect(s.db, s.actors[a].o, in_);
    case Pin(id, pinned) => LifecycleHasEffect(s.db, id, pinned);
    case Upload(id) => LifecycleHasEffect(s.db, id, true);
    case _ =>
  }

  /** The lease row that is there now has been there, with this owner, since some step put
      it there. */
  lemma {:induction false} LeaseUnbroken(codec: Codec, trace: seq<Sys>, steps: seq<Step>, i: nat,
                                         owner: Uuid) returns (j: nat)
    requires Behaviour(codec, trace, steps) && i < |trace| && Owns(trace[i].db, owner)
    ensures j < i && !Owns(trace[j].db, owner) && forall m :: j < m <= i ==> Owns(trace[m].db, owner)
  {
    assert i > 0;
    if !Owns(trace[i - 1].db, owner) {
      j := i - 1;
    } else {
      j := LeaseUnbroken(codec, trace, steps, i - 1, owner);
    }
  }

  /** Points after which a caller never commits. */
  predicate Past(pc: Observe.Pc) {
    pc.FailFull? || pc.Conclude? || pc.ReleaseLease? || pc.LoadRow? || pc.LoadFile? || pc.Done?
  }

  lemma PastStaysPast(codec: Codec, db: Db, k: Caller, in_: Observe.Input)
    requires Past(k.pc)
    ensures Past(Observe.Step(codec, db, k, in_).1.pc)
  {
  }

  lemma CommitIsPast(codec: Codec, db: Db, k: Caller, in_: Observe.Input)
    requires k.pc.Commit? && Observe.Step(codec, db, k, in_).0.history != db.history
    ensures Past(Observe.Step(codec, db, k, in_).1.pc)
  {
  }

  lemma {:induction false} OncePast(codec: Codec, trace: seq<Sys>, steps: seq<Step>, j: nat, i: nat, a: nat,
                                    owner: Uuid)
    requires Behaviour(codec, trace, steps) && j <= i < |trace|
    requires Is(trace, j, a, owner) && Past(trace[j].actors[a].k.pc) && Is(trace, i, a, owner)
    ensures Past(trace[i].actors[a].k.pc)
  {
    if j < i {
      OwnerIdentifiesActor(codec, trace, steps, j, a, i, a, owner);
      assert Is(trace, i - 1, a, owner);
      OncePast(codec, trace, steps, j, i - 1, a, owner);
      assert Follows(codec, trace, steps, i - 1);
      if StepOf(steps, i - 1, a) {
        PastStaysPast(codec, trace[i - 1].db, trace[i - 1].actors[a].k, steps[i - 1].observe);
      }
    }
  }

  /** While one owner holds the lease without a break, the only commit is its own last one. */
  lemma {:induction false} NoCommitBefore(codec: Codec, trace: seq<Sys>, steps: seq<Step>, j: nat, m: nat, i: nat,
                                          a: nat, owner: Uuid)
    requires Behaviour(codec, trace, steps) && j < m <= i < |steps|
    requires Is(trace, i, a, owner) && trace[i].actors[a].k.pc.Commit?
    requires forall n :: j < n <= i ==> Owns(trace[n].db, owner)
    ensures trace[m].db.history == trace[i].db.history
    decreases i - m
  {
    if m < i {
      NoCommitBefore(codec, trace, steps, j, m + 1, i, a, owner);
      if trace[m + 1].db.history != trace[m].db.history {
        assert Follows(codec, trace, steps, m);
        AlwaysInv(codec, trace, steps, m);
        OnlyOwnersCommit(codec, trace[m], steps[m]);
        var b := steps[m].a;
        assert Is(trace, m, b, owner);
        OwnerIdentifiesActor(codec, trace, steps, m, b, i, a, owner);
        CommitIsPast(codec, trace[m].db, trace[m].actors[a].k, steps[m].observe);
        assert Is(trace, m + 1, a, owner);
        OncePast(codec, trace, steps, m + 1, i, a, owner);
        assert false;
      }
    }
  }

  /** Publication is linear and fenced: a commit happens only while its owner holds the
      single lease row, the row has been its own without a break since the caller acquired
      it, nothing else was published since then, and the `previous` id read under the lease
      is the snapshot current just before the commit. No clock is assumed to be right. */
  lemma FencedHistory(codec: Codec, trace: seq<Sys>, steps: seq<Step>, i: nat) returns (j: nat)
    requires Behaviour(codec, trace, steps) && i < |steps| && trace[i + 1].db.history != trace[i].db.history
    ensures steps[i].ObserveStep? && HasCaller(trace[i], steps[i].a)
    ensures var a := steps[i].a; var k := trace[i].actors[a].k;
      && k.pc.Commit? && Commits(codec, trace[i].db, k.pc.pub, trace[i + 1].db)
      && j < i && StepOf(steps, j, a) && Is(trace, j, a, k.owner)
      && (trace[j].actors[a].k.pc.Acquire? || trace[j].actors[a].k.pc.DirectAcquire?)
      && (forall m :: j < m <= i ==> Owns(trace[m].db, k.owner) && trace[m].db.history == trace[i].db.history)
      && (!Observe.IsDirect(k) ==> k.previous == trace[i].db.state.current)
  {
    AlwaysInv(codec, trace, steps, i);
    assert Follows(codec, trace, steps, i);
    OnlyOwnersCommit(codec, trace[i], steps[i]);
    var a := steps[i].a;
    var owner := trace[i].actors[a].k.owner;
    j := LeaseUnbroken(codec, trace, steps, i, owner);
    assert Follows(codec, trace, steps, j);
    assert Owns(trace[j + 1].db, owner);
    OnlyOwnersAcquire(codec, trace[j], steps[j], owner);
    OwnerIdentifiesActor(codec, trace, steps, j, steps[j].a, i, a, owner);
    forall m | j < m <= i ensures trace[m].db.history == trace[i].db.history {
      NoCommitBefore(codec, trace, steps, j, m, i, a, owner);
    }
  }

  // ----- the full row of a publisher -----

  /** Stale recovery never touches the row of a publisher: a commit finds its own full row
      running and leaves it finished and pointing at the new snapshot. */
  lemma CommitFinishesItsRow(codec: Codec, trace: seq<Sys>, steps: seq<Step>, i: nat)
    requires Behaviour(codec, trace, steps) && i < |steps| && trace[i + 1].db.history != trace[i].db.history
    requires steps[i].ObserveStep? && HasCaller(trace[i], steps[i].a)
    requires !Observe.IsDirect(trace[i].actors[steps[i].a].k)
    ensures var k, db, db' := trace[i].actors[steps[i].a].k, trace[i].db, trace[i + 1].db;
      && k.pc.Commit? && k.fullRow.Some? && StillRunning(db, k.fullRow)
      && k.fullRow.value in db'.probes && !StillRunning(db', k.fullRow)
      && db'.probes[k.fullRow.value].snapshot == Some(k.pc.pub.id)
  {
    AlwaysInv(codec, trace, steps, i);
    assert Follows(codec, trace, steps, i);
    OnlyOwnersCommit(codec, trace[i], steps[i]);
  }

  // ----- answers -----

  lemma {:induction false} HistoryGrows(codec: Codec, trace: seq<Sys>, steps: seq<Step>, j: nat, i: nat)
    requires Behaviour(codec, trace, steps) && j <= i < |trace|
    ensures trace[j].db.history <= trace[i].db.history
  {
    if j < i {
      HistoryGrows(codec, trace, steps, j, i - 1);
      assert Follows(codec, trace, steps, i - 1);
      StepExtendsHistory(codec, trace[i - 1], steps[i - 1]);
    }
  }

  lemma StepExtendsHistory(codec: Codec, s: Sys, step: Step)
    requires Can(codec, s, step)
    ensures s.db.history <= Do(codec, s, step).db.history
  {
    match step
    case ObserveStep(a, in_) => StepHasEffect(codec, s.db, s.actors[a].k, in_);
    case RetainStep(a, in_) => RetentionHasEffect(s.db, s.actors[a].r, in_);
    case OpenStep(a, in_) => OpeningHasEffect(s.db, s.actors[a].o, in_);
    case _ =>
  }

  lemma MarkIsKept(codec: Codec, db: Db, k: Caller, in_: Observe.Input)
    requires !k.pc.Begin?
    ensures var k' := Observe.Step(codec, db, k, in_).1; k'.mark == k.mark && k'.opts == k.opts && !k'.pc.Begin?
  {
    match Observe.PhaseOf(k.pc)
    case Starting =>
    case Checking =>
    case Waiting =>
    case Leading =>
    case Writing =>
    case Closing =>
    case Over =>
  }

  lemma {:induction false} MarkOfBaseline(codec: Codec, trace: seq<Sys>, steps: seq<Step>, b: nat, n: nat, a: nat,
                                          owner: Uuid)
    requires Behaviour(codec, trace, steps) && b < n < |trace| && StepOf(steps, b, a)
    requires Is(trace, b, a, owner) && trace[b].actors[a].k.pc.Begin? && steps[b].observe.ok && Is(trace, n, a, owner)
    ensures var k := trace[n].actors[a].k; k.mark == |trace[b].db.history| && !k.pc.Begin?
  {
    OwnerIdentifiesActor(codec, trace, steps, b, a, n, a, owner);
    assert Is(trace, n - 1, a, owner);
    assert Follows(codec, trace, steps, n - 1);
    if n - 1 > b {
      MarkOfBaseline(codec, trace, steps, b, n - 1, a, owner);
      if StepOf(steps, n - 1, a) {
        MarkIsKept(codec, trace[n - 1].db, trace[n - 1].actors[a].k, steps[n - 1].observe);
      }
    }
  }

  /** A forced observation is fresh, in every interleaving: the snapshot it answers with was
      committed after the call first read the state at step b, so it was not in the history
      then and is not the snapshot that was current then. The same holds of every answer
      that comes from a new scan, forced or not. */
  lemma ForcedObservationIsFresh(codec: Codec, trace: seq<Sys>, steps: seq<Step>, b: nat, n: nat, a: nat, owner: Uuid)
    requires Behaviour(codec, trace, steps) && b < n < |trace| && StepOf(steps, b, a)
    requires Is(trace, b, a, owner) && trace[b].actors[a].k.pc.Begin? && steps[b].observe.ok && Is(trace, n, a, owner)
    requires var k := trace[n].actors[a].k; k.pc.Done? && k.pc.result.Ok? && (k.opts.force || k.pc.result.value.NewScan?)
    ensures var id := trace[n].actors[a].k.pc.result.value.id;
      && InHistory(trace[n].db.history, id) && !InHistory(trace[b].db.history, id)
      && trace[b].db.state.current != Some(id)
  {
    HistoryGrows(codec, trace, steps, b, n);
    MarkOfBaseline(codec, trace, steps, b, n, a, owner);
    AnswerIsRecent(codec, trace, steps, n, a);
    CurrentIsInHistory(codec, trace, steps, b);
    RecentIsNew(codec, trace, steps, b, n, trace[n].actors[a].k.pc.result.value.id);
  }

  lemma AnswerIsRecent(codec: Codec, trace: seq<Sys>, steps: seq<Step>, n: nat, a: nat)
    requires Behaviour(codec, trace, steps) && n < |trace| && HasCaller(trace[n], a)
    requires var k := trace[n].actors[a].k; k.pc.Done? && k.pc.result.Ok? && (k.opts.force || k.pc.result.value.NewScan?)
    ensures var k := trace[n].actors[a].k; Recent(trace[n].db.history, k.mark, k.pc.result.value.id)
  {
    CallerAlwaysInv(codec, trace, steps, n, a);
  }

  lemma CurrentIsInHistory(codec: Codec, trace: seq<Sys>, steps: seq<Step>, b: nat)
    requires Behaviour(codec, trace, steps) && b < |trace|
    ensures trace[b].db.state == StateAfter(trace[b].db.history)
  {
    AlwaysInv(codec, trace, steps, b);
  }

  lemma RecentIsNew(codec: Codec, trace: seq<Sys>, steps: seq<Step>, b: nat, n: nat, id: Uuid)
    requires Behaviour(codec, trace, steps) && b <= n < |trace| && trace[b].db.history <= trace[n].db.history
    requires Recent(trace[n].db.history, |trace[b].db.history|, id)
    ensures InHistory(trace[n].db.history, id) && !InHistory(trace[b].db.history, id)
  {
    AlwaysInv(codec, trace, steps, n);
    var h, h0 := trace[n].db.history, trace[b].db.history;
    assert forall i :: 0 <= i < |h0| ==> h0[i] == h[i];
  }

  // ----- a failed renewal -----

  /** On the way out with this error. */
  predicate Doomed(k: Caller, error: Observe.Error) {
    var lost: Result<Observe.Outcome, Observe.Error> := Err(error);
    || (!Observe.IsDirect(k) && (k.pc == Observe.FailFull(error) || k.pc == Observe.Conclude(lost)))
    || (k.pc.DropReport? && k.pc.error == error)
    || (k.pc.ReleaseLease? && k.pc.result == lost && (k.pc.finished || (k.failed && !Observe.IsDirect(k))))
    || (k.pc.Done? && (k.pc.result == lost || (k.failed && !Observe.IsDirect(k) && k.pc.result == Err(Observe.Database))))
  }

  lemma FailFullStaysDoomed(db: Db, k: Caller, ok: bool, error: Observe.Error)
    requires k.pc == Observe.FailFull(error) && !Observe.IsDirect(k)
    ensures Doomed(Observe.FailFullStep(db, k, ok, error).1, error)
  {
  }

  lemma ConcludeStaysDoomed(db: Db, k: Caller, ok: bool, error: Observe.Error)
    requires k.pc == Observe.Conclude(Err(error)) && !Observe.IsDirect(k)
    ensures Doomed(Observe.ConcludeStep(db, k, ok, k.pc.result).1, error)
  {
  }

  lemma ReleaseStaysDoomed(codec: Codec, db: Db, k: Caller, in_: Observe.Input, error: Observe.Error)
    requires k.pc.ReleaseLease? && k.pc.result == Err(error) && (k.pc.finished || (k.failed && !Observe.IsDirect(k)))
    ensures Doomed(Observe.ClosingStep(codec, db, k, in_).1, error)
  {
  }

  lemma DropReportStaysDoomed(codec: Codec, db: Db, k: Caller, in_: Observe.Input, error: Observe.Error)
    requires k.pc.DropReport? && k.pc.error == error
    ensures Doomed(Observe.WritingStep(codec, db, k, in_).1, error) && Observe.WritingStep(codec, db, k, in_).0.history == db.history
  {
  }

  lemma ClosingStaysDoomed(codec: Codec, db: Db, k: Caller, in_: Observe.Input, error: Observe.Error)
    requires Doomed(k, error) && Observe.PhaseOf(k.pc).Closing?
    ensures Doomed(Observe.ClosingStep(codec, db, k, in_).1, error)
  {
    if k.pc.FailFull? {
      FailFullStaysDoomed(db, k, in_.ok, error);
    } else if k.pc.Conclude? {
      ConcludeStaysDoomed(db, k, in_.ok, error);
    } else {
      ReleaseStaysDoomed(codec, db, k, in_, error);
    }
  }

  lemma DoomedStaysDoomed(codec: Codec, db: Db, k: Caller, in_: Observe.Input, error: Observe.Error)
    requires Doomed(k, error)
    ensures Doomed(Observe.Step(codec, db, k, in_).1, error) && Observe.Step(codec, db, k, in_).0.history == db.history
  {
    match Observe.PhaseOf(k.pc)
    case Closing =>
      ClosingKeepsHistory(codec, db, k, in_);
      ClosingStaysDoomed(codec, db, k, in_, error);
    case Writing => DropReportStaysDoomed(codec, db, k, in_, error);
    case Over =>
  }

  lemma ClosingKeepsHistory(codec: Codec, db: Db, k: Caller, in_: Observe.Input)
    requires Observe.PhaseOf(k.pc).Closing?
    ensures Observe.ClosingStep(codec, db, k, in_).0.history == db.history
  {
  }

  /** From there on the call publishes nothing and can only end in that error, or in the error
      of a failing store call. */
  lemma {:induction false} DoomedPublishNothing(codec: Codec, trace: seq<Sys>, steps: seq<Step>, j: nat, n: nat, a: nat,
                                                owner: Uuid, error: Observe.Error)
    requires Behaviour(codec, trace, steps) && j <= n < |trace| && Is(trace, j, a, owner) && Is(trace, n, a, owner)
    requires Doomed(trace[j].actors[a].k, error)
    ensures Doomed(trace[n].actors[a].k, error)
    ensures n < |steps| && StepOf(steps, n, a) ==> trace[n + 1].db.history == trace[n].db.history
  {
    if j < n {
      OwnerIdentifiesActor(codec, trace, steps, j, a, n, a, owner);
      assert Is(trace, n - 1, a, owner);
      assert Follows(codec, trace, steps, n - 1);
      DoomedPublishNothing(codec, trace, steps, j, n - 1, a, owner, error);
      if StepOf(steps, n - 1, a) {
        DoomedStaysDoomed(codec, trace[n - 1].db, trace[n - 1].actors[a].k, steps[n - 1].observe, error);
      }
    }
    if n < |steps| && StepOf(steps, n, a) {
      assert Follows(codec, trace, steps, n);
      DoomedStaysDoomed(codec, trace[n].db, trace[n].actors[a].k, steps[n].observe, error);
    }
  }

  /** One failed renewal ends the call in `StaleLease`, or in another error if a store call
      failed on the way, with nothing published by it. */
  lemma FailedRenewalPublishesNothing(codec: Codec, trace: seq<Sys>, steps: seq<Step>, j: nat, n: nat, a: nat, owner: Uuid)
    requires Behaviour(codec, trace, steps) && j < n < |trace| && StepOf(steps, j, a)
    requires Is(trace, j, a, owner) && Is(trace, n, a, owner)
    requires var k, in_ := trace[j].actors[a].k, steps[j].observe;
      !Observe.IsDirect(k) && k.pc.Scanning? && in_.scan.RenewTick? && in_.ok && !Renew(trace[j].db, owner, in_.now, in_.expires).1
    ensures Doomed(trace[n].actors[a].k, Observe.LeaseLost)
    ensures n < |steps| && StepOf(steps, n, a) ==> trace[n + 1].db.history == trace[n].db.history
  {
    OwnerIdentifiesActor(codec, trace, steps, j, a, n, a, owner);
    assert Is(trace, j + 1, a, owner);
    assert Follows(codec, trace, steps, j);
    DoomedPublishNothing(codec, trace, steps, j + 1, n, a, owner, Observe.LeaseLost);
  }
}
