/** Which scan reports are published, and what becomes of the others. */
module Acceptance {
  import opened Wrappers
  import opened Store
  import opened Effects
  import opened Invariants
  import opened System
  import opened Safety
  import opened Theorems
  import Observe

  // ----- what was committed had been scanned and was acceptable -----

  /** The scan did not fail, its report identifies the core of the machine, and it is not a
      partial one that the call refuses. A direct publisher refuses no partial report. */
  predicate Acceptable(k: Caller, r: Observe.ScanReport) {
    !r.status.ScanFailed? && r.canonical.coreComplete && !(r.status.ScanPartial? && k.opts.rejectPartial && !Observe.IsDirect(k))
  }

  /** At this step the call has the report in its hands: a scan ends, or a direct publisher
      starts with the report that it was given. */
  predicate Receives(k: Caller, in_: Observe.Input) {
    in_.scan.ScanDone? && (if Observe.IsDirect(k) then k.pc.DirectCheck? else k.pc.Scanning?)
  }

  /** What the state row takes its identity from: the quick probe if it saw the whole core. */
  function IdentityFrom(quick: Option<QuickReport>, r: Observe.ScanReport): QuickReport {
    if quick.Some? && quick.value.coreComplete then quick.value else r.canonical
  }

  /** The publication carries the report, under the drawn id and creation time. */
  predicate Carries(pub: Publication, k: Caller, r: Observe.ScanReport, in_: Observe.Input) {
    pub.stateProbe == IdentityFrom(k.quick, r) && pub.id == in_.id && pub.created == in_.created && pub.bytes == r.bytes && pub.schema == r.schema
    && pub.canonical == r.canonical && (pub.complete <==> r.status.ScanComplete?)
  }

  predicate AcceptsOrKeeps(k: Caller, in_: Observe.Input, k': Caller) {
    && k'.opts == k.opts
    && (Publishing(k'.pc).Some? ==>
          k'.quickRow == k.quickRow && k'.quick == k.quick
          && (Publishing(k'.pc) == Publishing(k.pc)
              || (Receives(k, in_) && Acceptable(k, in_.scan.report) && Carries(Publishing(k'.pc).value, k, in_.scan.report, in_))))
  }

  lemma StepAccepts(codec: Codec, db: Db, k: Caller, in_: Observe.Input)
    requires RowInv(db, k)
    ensures AcceptsOrKeeps(k, in_, Observe.Step(codec, db, k, in_).1)
  {
    match Observe.PhaseOf(k.pc)
    case Starting => StartingAccepts(db, k, in_);
    case Checking => CheckingAccepts(codec, db, k, in_);
    case Waiting => WaitingAccepts(db, k, in_);
    case Leading => LeadingAccepts(db, k, in_);
    case Writing => WritingAccepts(codec, db, k, in_);
    case Closing => ClosingAccepts(codec, db, k, in_);
    case Over =>
  }

  lemma StartingAccepts(db: Db, k: Caller, in_: Observe.Input)
    requires Observe.PhaseOf(k.pc).Starting?
    ensures AcceptsOrKeeps(k, in_, Observe.StartingStep(db, k, in_).1)
  {
  }

  lemma CheckingAccepts(codec: Codec, db: Db, k: Caller, in_: Observe.Input)
    requires Observe.PhaseOf(k.pc).Checking?
    ensures AcceptsOrKeeps(k, in_, Observe.CheckingStep(codec, db, k, in_).1)
  {
  }

  lemma WaitingAccepts(db: Db, k: Caller, in_: Observe.Input)
    requires Observe.PhaseOf(k.pc).Waiting?
    ensures AcceptsOrKeeps(k, in_, Observe.WaitingStep(db, k, in_).1)
  {
  }

  lemma LeadingAccepts(db: Db, k: Caller, in_: Observe.Input)
    requires Observe.PhaseOf(k.pc).Leading? && RowInv(db, k)
    ensures AcceptsOrKeeps(k, in_, Observe.LeadingStep(db, k, in_).1)
  {
  }

  lemma WritingAccepts(codec: Codec, db: Db, k: Caller, in_: Observe.Input)
    requires Observe.PhaseOf(k.pc).Writing?
    ensures AcceptsOrKeeps(k, in_, Observe.WritingStep(codec, db, k, in_).1)
  {
  }

  lemma ClosingAccepts(codec: Codec, db: Db, k: Caller, in_: Observe.Input)
    requires Observe.PhaseOf(k.pc).Closing?
    ensures AcceptsOrKeeps(k, in_, Observe.ClosingStep(codec, db, k, in_).1)
  {
  }

  /** At step m the call a received this acceptable report and began to publish it. */
  ghost predicate Accepted(trace: seq<Sys>, steps: seq<Step>, m: nat, a: nat, k: Caller, pub: Publication) {
    StepOf(steps, m, a) && Is(trace, m, a, k.owner)
    && var before, in_ := trace[m].actors[a].k, steps[m].observe;
       before.opts == k.opts && before.quickRow == k.quickRow && before.quick == k.quick
       && Receives(before, in_) && Acceptable(before, in_.scan.report) && Carries(pub, before, in_.scan.report, in_)
  }

  lemma {:induction false} PublishingWasAccepted(codec: Codec, trace: seq<Sys>, steps: seq<Step>, n: nat, a: nat) returns (m: nat)
    requires Behaviour(codec, trace, steps) && n < |trace| && HasCaller(trace[n], a) && Publishing(trace[n].actors[a].k.pc).Some?
    ensures m < n && Accepted(trace, steps, m, a, trace[n].actors[a].k, Publishing(trace[n].actors[a].k.pc).value)
  {
    assert n > 0;
    assert Follows(codec, trace, steps, n - 1);
    if StepOf(steps, n - 1, a) {
      var k, k', in_ := trace[n - 1].actors[a].k, trace[n].actors[a].k, steps[n - 1].observe;
      CallerAlwaysInv(codec, trace, steps, n - 1, a);
      StepAccepts(codec, trace[n - 1].db, k, in_);
      StepPublication(codec, trace[n - 1].db, k, in_);
      if Publishing(k'.pc) == Publishing(k.pc) {
        m := PublishingWasAccepted(codec, trace, steps, n - 1, a);
      } else {
        m := n - 1;
      }
    } else {
      m := PublishingWasAccepted(codec, trace, steps, n - 1, a);
    }
  }

  /** The committed row is the one of this report. */
  predicate IsRowOf(codec: Codec, e: Entry, r: Observe.ScanReport, in_: Observe.Input) {
    && e.id == in_.id && e.row.created == in_.created
    && e.row.artifact == Artifact(ReportJson(in_.id), codec.sha(r.bytes), |r.bytes|, r.schema)
    && e.row.machine == r.canonical.machine && e.row.fingerprint == r.canonical.fingerprint
    && (e.row.complete <==> r.status.ScanComplete?) && !e.row.pinned && !e.row.uploaded
  }

  /** The state row names the snapshot with this identity. */
  predicate StatesIdentity(state: StateRow, id: Uuid, q: QuickReport) {
    state == StateRow(Some(id), Some(q.machine), Some(q.fingerprint), Some(q.version))
  }

  /** Only acceptable reports are published. Whatever a call commits it had received at an
      earlier step m of its own, from its scan or, for a direct publisher, from its caller; the
      scan had not failed, the report identifies the core of the machine, it is not a partial
      one that the call refuses, and the committed row is exactly the one of that report. The
      state row takes its identity from the quick probe if that saw the whole core, else from
      the report. */
  lemma CommitWasAcceptable(codec: Codec, trace: seq<Sys>, steps: seq<Step>, i: nat) returns (m: nat)
    requires Behaviour(codec, trace, steps) && i < |steps| && trace[i + 1].db.history != trace[i].db.history
    ensures steps[i].ObserveStep? && HasCaller(trace[i], steps[i].a)
    ensures m < i && StepOf(steps, m, steps[i].a) && Is(trace, m, steps[i].a, trace[i].actors[steps[i].a].k.owner)
    ensures var k, in_, h' := trace[m].actors[steps[i].a].k, steps[m].observe, trace[i + 1].db.history;
      && in_.scan.ScanDone? && !in_.scan.report.status.ScanFailed? && in_.scan.report.canonical.coreComplete
      && (if Observe.IsDirect(trace[i].actors[steps[i].a].k) then k.pc.DirectCheck?
          else k.pc.Scanning? && !(in_.scan.report.status.ScanPartial? && trace[i].actors[steps[i].a].k.opts.rejectPartial))
      && |h'| == |trace[i].db.history| + 1 && IsRowOf(codec, h'[|h'| - 1], in_.scan.report, in_)
      && StatesIdentity(trace[i + 1].db.state, in_.id, IdentityFrom(k.quick, in_.scan.report))
  {
    AlwaysInv(codec, trace, steps, i);
    assert Follows(codec, trace, steps, i);
    OnlyOwnersCommit(codec, trace[i], steps[i]);
    m := PublishingWasAccepted(codec, trace, steps, i, steps[i].a);
  }

  // ----- what becomes of the others -----

  /** The scan ended in a way that the call answers with this error. */
  predicate BadScan(opts: Observe.Options, scan: Observe.ScanEvent, error: Observe.Error) {
    match scan
    case RenewTick => false
    case ScanError(stale) => error == if stale then Observe.LeaseLost else Observe.FullScanFailed
    case ScanDone(r) =>
      if r.status.ScanFailed? then error == Observe.FullScanFailed
      else if r.status.ScanPartial? && opts.rejectPartial then error == Observe.PartialRejected
      else !r.canonical.coreComplete && error == Observe.CoreIdentityIncomplete
  }

  /** The report that a direct publisher was given cannot be published. */
  predicate BadReport(scan: Observe.ScanEvent, error: Observe.Error) {
    scan.ScanDone? && (scan.report.status.ScanFailed? || !scan.report.canonical.coreComplete) && error == Observe.InvalidReport
  }

  predicate ScansBadly(trace: seq<Sys>, steps: seq<Step>, j: nat, a: nat, owner: Uuid, error: Observe.Error) {
    StepOf(steps, j, a) && Is(trace, j, a, owner)
    && if Observe.IsDirect(trace[j].actors[a].k)
       then trace[j].actors[a].k.pc.DirectCheck? && BadReport(steps[j].observe.scan, error)
       else trace[j].actors[a].k.pc.Scanning? && BadScan(trace[j].actors[a].k.opts, steps[j].observe.scan, error)
  }

  lemma BadScanDooms(codec: Codec, db: Db, k: Caller, in_: Observe.Input, error: Observe.Error)
    requires if Observe.IsDirect(k) then k.pc.DirectCheck? && BadReport(in_.scan, error)
             else k.pc.Scanning? && BadScan(k.opts, in_.scan, error)
    ensures Doomed(Observe.Step(codec, db, k, in_).1, error) && Observe.Step(codec, db, k, in_).0.history == db.history
  {
  }

  /** A call whose scan fails, or whose report is incomplete or refused, and a direct publisher
      with a failed or incomplete report, publishes nothing at any of its steps, and when it is over it has ended in exactly the
      matching error, or in the error of a store call that failed on the way out. */
  lemma BadScanPublishesNothing(codec: Codec, trace: seq<Sys>, steps: seq<Step>, j: nat, n: nat, a: nat, owner: Uuid,
                                error: Observe.Error)
    requires Behaviour(codec, trace, steps) && ScansBadly(trace, steps, j, a, owner, error) && Is(trace, n, a, owner)
    ensures n < |steps| && StepOf(steps, n, a) ==> trace[n + 1].db.history == trace[n].db.history
    ensures n > j && trace[n].actors[a].k.pc.Done? ==>
      var k := trace[n].actors[a].k;
      k.pc.result == Err(error) || (k.failed && !Observe.IsDirect(k) && k.pc.result == Err(Observe.Database))
  {
    if n > j {
      DoomedAfter(codec, trace, steps, j, n, a, owner, error);
    } else if n < |steps| && StepOf(steps, n, a) && trace[n + 1].db.history != trace[n].db.history {
      NotYetCommitted(codec, trace, steps, n, j, a, owner, error);
    }
  }

  lemma DoomedAfter(codec: Codec, trace: seq<Sys>, steps: seq<Step>, j: nat, n: nat, a: nat, owner: Uuid, error: Observe.Error)
    requires Behaviour(codec, trace, steps) && ScansBadly(trace, steps, j, a, owner, error) && Is(trace, n, a, owner) && j < n
    ensures Doomed(trace[n].actors[a].k, error)
    ensures n < |steps| && StepOf(steps, n, a) ==> trace[n + 1].db.history == trace[n].db.history
  {
    OwnerIdentifiesActor(codec, trace, steps, j, a, n, a, owner);
    DoomedNext(codec, trace, steps, j, a, owner, error);
    DoomedPublishNothing(codec, trace, steps, j + 1, n, a, owner, error);
  }

  lemma DoomedNext(codec: Codec, trace: seq<Sys>, steps: seq<Step>, j: nat, a: nat, owner: Uuid, error: Observe.Error)
    requires Behaviour(codec, trace, steps) && ScansBadly(trace, steps, j, a, owner, error) && j < |steps| && Is(trace, j + 1, a, owner)
    ensures Doomed(trace[j + 1].actors[a].k, error)
  {
    assert Follows(codec, trace, steps, j);
    BadScanDooms(codec, trace[j].db, trace[j].actors[a].k, steps[j].observe, error);
  }

  lemma NotYetCommitted(codec: Codec, trace: seq<Sys>, steps: seq<Step>, n: nat, j: nat, a: nat, owner: Uuid, error: Observe.Error)
    requires Behaviour(codec, trace, steps) && ScansBadly(trace, steps, j, a, owner, error) && Is(trace, n, a, owner) && n <= j
    requires n < |steps| && StepOf(steps, n, a)
    ensures trace[n + 1].db.history == trace[n].db.history
  {
    if n == j {
      assert Follows(codec, trace, steps, j);
      BadScanDooms(codec, trace[j].db, trace[j].actors[a].k, steps[j].observe, error);
    } else if trace[n + 1].db.history != trace[n].db.history {
      CommittedIsPast(codec, trace, steps, n, j, a, owner);
    }
  }

  /** A call that has published is past its scan. */
  lemma CommittedIsPast(codec: Codec, trace: seq<Sys>, steps: seq<Step>, n: nat, j: nat, a: nat, owner: Uuid)
    requires Behaviour(codec, trace, steps) && n < j < |trace| && StepOf(steps, n, a) && Is(trace, n, a, owner) && Is(trace, j, a, owner)
    requires trace[n + 1].db.history != trace[n].db.history
    ensures Past(trace[j].actors[a].k.pc)
  {
    AlwaysInv(codec, trace, steps, n);
    assert Follows(codec, trace, steps, n);
    OnlyOwnersCommit(codec, trace[n], steps[n]);
    CommitIsPast(codec, trace[n].db, trace[n].actors[a].k, steps[n].observe);
    OwnerIdentifiesActor(codec, trace, steps, n, a, j, a, owner);
    assert Is(trace, n + 1, a, owner);
    OncePast(codec, trace, steps, n + 1, j, a, owner);
  }

  // ----- a commit that the fence refuses -----

  predicate HoldsLease(db: Db, owner: Uuid, now: real) { Owns(db, owner) && now < db.lease.value.expires }

  lemma RefusedCommitDooms(codec: Codec, db: Db, k: Caller, in_: Observe.Input)
    requires k.pc.Commit? && in_.ok && !HoldsLease(db, k.owner, in_.now)
    ensures Doomed(Observe.Step(codec, db, k, in_).1, Observe.LeaseLost) && Observe.Step(codec, db, k, in_).0.history == db.history
  {
  }

  /** A commit that comes when the lease is lost or has expired publishes nothing, nor does the
      call afterwards, and it ends in the stale-lease error, or in the error of a store call. */
  lemma RefusedCommitPublishesNothing(codec: Codec, trace: seq<Sys>, steps: seq<Step>, j: nat, n: nat, a: nat, owner: Uuid)
    requires Behaviour(codec, trace, steps) && j < n < |trace| && StepOf(steps, j, a)
    requires Is(trace, j, a, owner) && Is(trace, n, a, owner) && trace[j].actors[a].k.pc.Commit? && steps[j].observe.ok
    requires !HoldsLease(trace[j].db, owner, steps[j].observe.now)
    ensures trace[j + 1].db.history == trace[j].db.history
    ensures n < |steps| && StepOf(steps, n, a) ==> trace[n + 1].db.history == trace[n].db.history
    ensures trace[n].actors[a].k.pc.Done? ==>
      var k := trace[n].actors[a].k;
      k.pc.result == Err(Observe.LeaseLost) || (k.failed && !Observe.IsDirect(k) && k.pc.result == Err(Observe.Database))
  {
    assert Follows(codec, trace, steps, j);
    RefusedCommitDooms(codec, trace[j].db, trace[j].actors[a].k, steps[j].observe);
    OwnerIdentifiesActor(codec, trace, steps, j, a, n, a, owner);
    assert Is(trace, j + 1, a, owner);
    DoomedPublishNothing(codec, trace, steps, j + 1, n, a, owner, Observe.LeaseLost);
  }

  // ----- every error has its cause -----

  /** The error that the call is going to end in. */
  function Ending(pc: Observe.Pc): Option<Observe.Error> {
    match pc
    case WaitTimedOut => Some(Observe.LeaseTimeout)
    case FailFull(e) => Some(e)
    case Conclude(r) => if r.Err? then Some(r.error) else None
    case ReleaseLease(r, finished) => if !finished then Some(Observe.Database) else if r.Err? then Some(r.error) else None
    case DropReport(_, e) => Some(e)
    case Done(r) => if r.Err? then Some(r.error) else None
    case _ => None
  }

  /** The lease that the call sees now has not changed for the timeout. */
  predicate Stalled(db: Db, k: Caller, in_: Observe.Input) {
    in_.clock - (if ActiveLease(db, in_.now) == k.observed then k.progress else in_.clock) >= k.opts.waitTimeout
  }

  /** The statement names a snapshot that is not there, or inserts one that is. */
  predicate KeyRejected(db: Db, k: Caller) {
    match k.pc
    case StartQuick => !Present(db, k.initial.state.current)
    case StartFull => !Present(db, k.previous)
    case FinishReuse(id) => id !in db.snapshots
    case Conclude(r) => r.Ok? && r.value.id !in db.snapshots
    case Commit(pub) => pub.id in db.snapshots
    case _ => false
  }

  /** What a step must meet to bring this error up. */
  predicate Causes(codec: Codec, db: Db, k: Caller, in_: Observe.Input, error: Observe.Error) {
    match error
    case Database => !in_.ok || KeyRejected(db, k)
    case Io => k.pc.CreateTemp? || k.pc.DropTemp?
    case FullScanFailed => k.pc.Scanning? && (BadScan(k.opts, in_.scan, error) || (in_.scan.RenewTick? && !in_.ok))
    case PartialRejected => k.pc.Scanning? && BadScan(k.opts, in_.scan, error)
    case CoreIdentityIncomplete => k.pc.Scanning? && BadScan(k.opts, in_.scan, error)
    case InvalidReport =>
      k.pc.DirectCheck?
      && !(in_.scan.ScanDone? && !in_.scan.report.status.ScanFailed? && in_.scan.report.canonical.coreComplete)
    case LeaseLost =>
      || (k.pc.Scanning? && (BadScan(k.opts, in_.scan, error) || (in_.scan.RenewTick? && in_.ok && !HoldsLease(db, k.owner, in_.now))))
      || (k.pc.Commit? && in_.ok && !HoldsLease(db, k.owner, in_.now))
    case LeaseTimeout => in_.ok && if k.pc.DirectAcquire? then ActiveLease(db, in_.now).Some? else k.pc.PollLease? && Stalled(db, k, in_)
    case SnapshotNotFound => k.pc.LoadRow? && in_.ok && k.pc.answer.id !in db.snapshots
    case ArtifactRejected => k.pc.LoadFile? && !(in_.ok && Verifies(codec, db.files, k.pc.meta))
  }

  predicate HasCause(codec: Codec, db: Db, k: Caller, in_: Observe.Input, k': Caller) {
    Ending(k'.pc).Some? ==> Ending(k.pc) == Ending(k'.pc) || Causes(codec, db, k, in_, Ending(k'.pc).value)
  }

  lemma StepHasCause(codec: Codec, db: Db, k: Caller, in_: Observe.Input)
    requires RowInv(db, k)
    ensures HasCause(codec, db, k, in_, Observe.Step(codec, db, k, in_).1)
  {
    match Observe.PhaseOf(k.pc)
    case Starting => StartingHasCause(codec, db, k, in_);
    case Checking => CheckingHasCause(codec, db, k, in_);
    case Waiting => WaitingHasCause(codec, db, k, in_);
    case Leading => LeadingHasCause(codec, db, k, in_);
    case Writing => WritingHasCause(codec, db, k, in_);
    case Closing => ClosingHasCause(codec, db, k, in_);
    case Over =>
  }

  lemma StartingHasCause(codec: Codec, db: Db, k: Caller, in_: Observe.Input)
    requires Observe.PhaseOf(k.pc).Starting?
    ensures HasCause(codec, db, k, in_, Observe.StartingStep(db, k, in_).1)
  {
  }

  lemma CheckingHasCause(codec: Codec, db: Db, k: Caller, in_: Observe.Input)
    requires Observe.PhaseOf(k.pc).Checking?
    ensures HasCause(codec, db, k, in_, Observe.CheckingStep(codec, db, k, in_).1)
  {
  }

  lemma WaitingHasCause(codec: Codec, db: Db, k: Caller, in_: Observe.Input)
    requires Observe.PhaseOf(k.pc).Waiting?
    ensures HasCause(codec, db, k, in_, Observe.WaitingStep(db, k, in_).1)
  {
  }

  lemma LeadingHasCause(codec: Codec, db: Db, k: Caller, in_: Observe.Input)
    requires Observe.PhaseOf(k.pc).Leading?
    ensures HasCause(codec, db, k, in_, Observe.LeadingStep(db, k, in_).1)
  {
  }

  lemma WritingHasCause(codec: Codec, db: Db, k: Caller, in_: Observe.Input)
    requires Observe.PhaseOf(k.pc).Writing?
    ensures HasCause(codec, db, k, in_, Observe.WritingStep(codec, db, k, in_).1)
  {
  }

  lemma ClosingHasCause(codec: Codec, db: Db, k: Caller, in_: Observe.Input)
    requires Observe.PhaseOf(k.pc).Closing? && RowInv(db, k)
    ensures HasCause(codec, db, k, in_, Observe.ClosingStep(codec, db, k, in_).1)
  {
  }

  /** Every error has its cause: a call is on its way to an error only because an own step at
      an earlier time met what this error stands for. */
  lemma {:induction false} ErrorHasCause(codec: Codec, trace: seq<Sys>, steps: seq<Step>, n: nat, a: nat) returns (j: nat)
    requires Behaviour(codec, trace, steps) && n < |trace| && HasCaller(trace[n], a) && Ending(trace[n].actors[a].k.pc).Some?
    ensures j < n && StepOf(steps, j, a) && Is(trace, j, a, trace[n].actors[a].k.owner)
    ensures Causes(codec, trace[j].db, trace[j].actors[a].k, steps[j].observe, Ending(trace[n].actors[a].k.pc).value)
  {
    assert n > 0;
    assert Follows(codec, trace, steps, n - 1);
    if StepOf(steps, n - 1, a) {
      var k, k', in_ := trace[n - 1].actors[a].k, trace[n].actors[a].k, steps[n - 1].observe;
      CallerAlwaysInv(codec, trace, steps, n - 1, a);
      StepHasCause(codec, trace[n - 1].db, k, in_);
      StepPublication(codec, trace[n - 1].db, k, in_);
      if Ending(k.pc) == Ending(k'.pc) {
        j := ErrorHasCause(codec, trace, steps, n - 1, a);
      } else {
        j := n - 1;
      }
    } else {
      j := ErrorHasCause(codec, trace, steps, n - 1, a);
    }
  }
}
