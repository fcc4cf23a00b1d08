/** `observe_inventory_with_scanner` and the direct publisher `publish_snapshot` as state
    machines: one step is one store call, one file operation or one scanner result, with
    the local computation up to the next one. */
module Observe {
  import opened Wrappers
  import opened Store

  /** Whole seconds in a `u64`. */
  type Seconds = x: int | 0 <= x < 0x1_0000_0000_0000_0000

  datatype Options = Options(force: bool, maxAge: Option<Seconds>, rejectPartial: bool, waitTimeout: real)

  datatype Error =
    | Database
    | Io
    | InvalidReport
    | FullScanFailed
    | PartialRejected
    | CoreIdentityIncomplete
    | LeaseTimeout
    | LeaseLost
    | SnapshotNotFound
    | ArtifactRejected

  /** What `current_state` returns. */
  datatype StateView = StateView(state: StateRow, created: Option<Timestamp>)

  datatype Outcome = Reused(id: Uuid) | NewScan(id: Uuid)

  /** The three places that ask whether the current snapshot can be reused. */
  datatype Check = AtStart | WhileWaiting | UnderLease

  datatype Pc =
    | Begin
    | StartQuick
    | Probing
    | QuickFailed
    | CheckRow(why: Check, id: Uuid)
    | CheckFile(why: Check, id: Uuid, meta: Artifact)
    | FinishReuse(id: Uuid)
    | EnterLoop
    | Acquire
    | PollState
    | PollLease
    | WaitTimedOut
    | LeaseState
    | ReadPrevious
    | StartFull
    | Scanning
    | DirectAcquire
    | DirectCheck
    | CreateTemp(pub: Publication)
    | RenameTemp(pub: Publication)
    | DropTemp(pub: Publication)
    | Commit(pub: Publication)
    | DropReport(pub: Publication, error: Error)
    | FailFull(error: Error)
    | Conclude(result: Result<Outcome, Error>)
    | ReleaseLease(result: Result<Outcome, Error>, finished: bool)
    | LoadRow(answer: Outcome)
    | LoadFile(answer: Outcome, meta: Artifact)
    | Done(result: Result<Outcome, Error>)

  /** A caller: its parameters, the local variables of the function, and history variables:
      `mark` counts the commits before its first state read, `checkedAt` is the wall clock of
      its last reuse check, `report` the bytes it last verified, the two counters count its
      writes that finish a probe row, and `failed` records that a statement failed which would
      have closed a row or the lease, or that the wait ended in a database error. */
  datatype Caller = Caller(
    opts: Options,
    owner: Uuid,
    pc: Pc,
    initial: StateView,
    quick: Option<QuickReport>,
    quickRow: Option<nat>,
    fullRow: Option<nat>,
    previous: Option<Uuid>,
    observed: Option<LeaseRow>,
    progress: real,
    checkedAt: real,
    report: Bytes,
    mark: nat,
    quickFinishes: nat,
    fullFinishes: nat,
    failed: bool)

  datatype ScanStatus = ScanComplete | ScanPartial | ScanFailed

  datatype ScanReport = ScanReport(status: ScanStatus, bytes: Bytes, schema: Token, canonical: QuickReport)

  datatype ScanEvent = RenewTick | ScanError(stale: bool) | ScanDone(report: ScanReport)

  /** All nondeterminism of a step: whether the store call or file operation succeeds (and
      if a rename fails, whether it had taken effect), the clocks, row ids and UUIDs drawn,
      and what the scanner returns. */
  datatype Input = Input(
    ok: bool,
    late: bool,
    now: real,
    expires: real,
    wall: real,
    clock: real,
    quick: Option<QuickReport>,
    scan: ScanEvent,
    created: Timestamp,
    row: nat,
    id: Uuid,
    pid: nat)

  function ReadState(db: Db): StateView {
    StateView(db.state,
              if db.state.current.Some? && db.state.current.value in db.snapshots
              then Some(db.snapshots[db.state.current.value].created) else None)
  }

  /** The age bound, cast from `u64` to `i64`. */
  function AsI64(seconds: Seconds): int {
    if seconds < 0x8000_0000_0000_0000 then seconds else seconds - 0x1_0000_0000_0000_0000
  }

  /** What the age bound should mean: the snapshot was created at most that many seconds ago.
      A bound of 2^63 seconds or more lets only snapshots from the future pass. */
  predicate WithinAge(created: Option<Timestamp>, maxAge: Option<Seconds>, wall: real) {
    maxAge.Some? ==>
      created.Some? && created.value.instant.Some?
      && var age := wall - created.value.instant.value;
         if maxAge.value < 0x8000_0000_0000_0000 then age <= maxAge.value as real else age < 0.0
  }

  /** `is_fresh`. */
  predicate IsFresh(created: Option<Timestamp>, maxAge: Option<Seconds>, wall: real): (young: bool)
    ensures young <==> WithinAge(created, maxAge, wall)
  {
    maxAge.Some? ==>
      created.Some? && created.value.instant.Some? &&
      (wall < created.value.instant.value || wall - created.value.instant.value <= AsI64(maxAge.value) as real)
  }

  predicate SameHardware(state: StateRow, quick: QuickReport) {
    state.machine == Some(quick.machine) && state.fingerprint == Some(quick.fingerprint)
    && state.version == Some(quick.version)
  }

  /** The tests of `reusable_snapshot` that come before it loads the report. */
  predicate Reusable(view: StateView, quick: QuickReport, opts: Options, ignoreForce: bool, wall: real) {
    view.state.current.Some? && (opts.force ==> ignoreForce)
    && SameHardware(view.state, quick) && IsFresh(view.created, opts.maxAge, wall)
  }

  /** A statement failed whose failure leaves a row or the lease of this call as it was: one
      that would have finished a probe row or released the lease, or one while waiting, whose
      error ends the call at once. `pc` is where that leads. */
  function Fail(k: Caller, pc: Pc): Caller { k.(pc := pc, failed := true) }

  const DATABASE_ERROR := Done(Err(Database))

  /** The phases of the function, in program order. */
  datatype Phase = Starting | Checking | Waiting | Leading | Writing | Closing | Over

  function PhaseOf(pc: Pc): Phase {
    match pc
    case Begin => Starting
    case StartQuick => Starting
    case Probing => Starting
    case QuickFailed => Starting
    case CheckRow(_, _) => Checking
    case CheckFile(_, _, _) => Checking
    case FinishReuse(_) => Checking
    case EnterLoop => Waiting
    case Acquire => Waiting
    case PollState => Waiting
    case PollLease => Waiting
    case WaitTimedOut => Waiting
    case DirectAcquire => Waiting
    case LeaseState => Leading
    case ReadPrevious => Leading
    case StartFull => Leading
    case Scanning => Leading
    case DirectCheck => Leading
    case CreateTemp(_) => Writing
    case RenameTemp(_) => Writing
    case DropTemp(_) => Writing
    case Commit(_) => Writing
    case DropReport(_, _) => Writing
    case FailFull(_) => Closing
    case Conclude(_) => Closing
    case ReleaseLease(_, _) => Closing
    case LoadRow(_) => Closing
    case LoadFile(_, _) => Closing
    case Done(_) => Over
  }

  function Step(codec: Codec, db: Db, k: Caller, in_: Input): (Db, Caller) {
    match PhaseOf(k.pc)
    case Starting => StartingStep(db, k, in_)
    case Checking => CheckingStep(codec, db, k, in_)
    case Waiting => WaitingStep(db, k, in_)
    case Leading => LeadingStep(db, k, in_)
    case Writing => WritingStep(codec, db, k, in_)
    case Closing => ClosingStep(codec, db, k, in_)
    case Over => (db, k)
  }

  // ----- the quick probe -----

  function StartingStep(db: Db, k: Caller, in_: Input): (Db, Caller)
    requires PhaseOf(k.pc).Starting?
  {
    match k.pc
    case Probing => (db, AfterProbe(k, in_))
    case Begin =>
      if !in_.ok then (db, k.(pc := DATABASE_ERROR))
      else (db, k.(pc := StartQuick, initial := ReadState(db), mark := |db.history|))
    case StartQuick =>
      var r := StartProbe(db, in_.row, Quick, in_.now, k.initial.state.current);
      if in_.ok && r.Some? then (r.value, k.(pc := Probing, quickRow := Some(in_.row)))
      else (db, k.(pc := DATABASE_ERROR))
    case QuickFailed => FinishQuick(db, k, in_.ok, Failed, None, EnterLoop, DATABASE_ERROR)
  }

  function AfterProbe(k: Caller, in_: Input): Caller {
    match in_.quick
    case None => k.(pc := QuickFailed)
    case Some(q) =>
      k.(quick := Some(q),
         checkedAt := in_.wall,
         pc := if Reusable(k.initial, q, k.opts, false, in_.wall)
               then CheckRow(AtStart, k.initial.state.current.value) else EnterLoop)
  }

  /** `finish_probe` on the quick row; `bad` is where an error, including a rejected
      foreign key, leads. */
  function FinishQuick(db: Db, k: Caller, ok: bool, status: ProbeStatus, id: Option<Uuid>, good: Pc, bad: Pc): (Db,
                       Caller) {
    var r := if k.quickRow.Some? then FinishProbe(db, k.quickRow.value, status, id) else Some(db);
    if ok && r.Some? then (r.value, k.(pc := good, quickFinishes := k.quickFinishes + 1))
    else (db, Fail(k, bad))
  }

  // ----- reuse: a failing load means "not reusable" -----

  function CheckingStep(codec: Codec, db: Db, k: Caller, in_: Input): (Db, Caller)
    requires PhaseOf(k.pc).Checking?
  {
    match k.pc
    case CheckRow(why, id) =>
      if !in_.ok then (db, k.(pc := AfterCheck(why, id, false)))
      else if id in db.snapshots then (db, k.(pc := CheckFile(why, id, db.snapshots[id].artifact)))
      else (db, k.(pc := AfterCheck(why, id, false)))
    case CheckFile(why, id, meta) =>
      if !in_.ok then (db, k.(pc := AfterCheck(why, id, false)))
      else (db, k.(pc := AfterCheck(why, id, Verifies(codec, db.files, meta))))
    case FinishReuse(id) => FinishQuick(db, k, in_.ok, Succeeded, Some(id), LoadRow(Reused(id)), DATABASE_ERROR)
  }

  function AfterCheck(why: Check, id: Uuid, loaded: bool): Pc {
    if loaded then (if why.UnderLease? then Conclude(Ok(Reused(id))) else FinishReuse(id))
    else match why case AtStart => EnterLoop case WhileWaiting => PollLease case UnderLease => ReadPrevious
  }

  // ----- waiting for the lease -----

  function WaitingStep(db: Db, k: Caller, in_: Input): (Db, Caller)
    requires PhaseOf(k.pc).Waiting?
  {
    match k.pc
    case EnterLoop => (db, k.(pc := Acquire, observed := None, progress := in_.clock))
    case Acquire =>
      var (db', won) := TryAcquire(db, k.owner, in_.now, in_.expires);
      if !in_.ok then (db, Fail(k, DATABASE_ERROR))
      else (db', k.(pc := if won then (if k.quick.Some? then LeaseState else ReadPrevious)
                          else if k.quick.Some? then PollState else PollLease))
    case PollState =>
      var view := ReadState(db);
      if !in_.ok then (db, Fail(k, DATABASE_ERROR))
      else if k.quick.Some?
              && Reusable(view, k.quick.value, k.opts, view.state.current != k.initial.state.current, in_.wall)
      then (db, k.(checkedAt := in_.wall, pc := CheckRow(WhileWaiting, view.state.current.value)))
      else (db, k.(pc := PollLease))
    case PollLease =>
      if !in_.ok then (db, Fail(k, DATABASE_ERROR)) else (db, AfterPoll(k, ActiveLease(db, in_.now), in_.clock))
    case WaitTimedOut => FinishQuick(db, k, in_.ok, Failed, None, Done(Err(LeaseTimeout)), Done(Err(LeaseTimeout)))
    case DirectAcquire =>
      var (db', won) := TryAcquire(db, k.owner, in_.now, in_.expires);
      if !in_.ok then (db, k.(pc := DATABASE_ERROR))
      else (db', k.(pc := if won then DirectCheck else Done(Err(LeaseTimeout))))
  }

  /** One turn of the wait loop after the lease was read. */
  function AfterPoll(k: Caller, active: Option<LeaseRow>, clock: real): Caller {
    var progress := if active != k.observed then clock else k.progress;
    k.(observed := active, progress := progress,
       pc := if clock - progress >= k.opts.waitTimeout
             then (if k.quick.Some? then WaitTimedOut else Done(Err(LeaseTimeout)))
             else Acquire)
  }

  // ----- the full scan under the lease -----

  function LeadingStep(db: Db, k: Caller, in_: Input): (Db, Caller)
    requires PhaseOf(k.pc).Leading?
  {
    match k.pc
    case LeaseState =>
      var view := ReadState(db);
      if !in_.ok then (db, k.(pc := Conclude(Err(Database))))
      else if k.quick.Some? && view.state.current != k.initial.state.current
              && Reusable(view, k.quick.value, k.opts, true, in_.wall)
      then (db, k.(checkedAt := in_.wall, pc := CheckRow(UnderLease, view.state.current.value)))
      else (db, k.(pc := ReadPrevious))
    case ReadPrevious =>
      if !in_.ok then (db, k.(pc := Conclude(Err(Database))))
      else (db, k.(pc := StartFull, previous := db.state.current))
    case StartFull =>
      var r := StartProbe(db, in_.row, Full, in_.now, k.previous);
      if in_.ok && r.Some? then (r.value, k.(pc := Scanning, fullRow := Some(in_.row)))
      else (db, k.(pc := Conclude(Err(Database))))
    case Scanning =>
      if in_.scan.RenewTick? then
        var (db', held) := Renew(db, k.owner, in_.now, in_.expires);
        if !in_.ok then (db, k.(pc := FailFull(FullScanFailed)))
        else (db', k.(pc := if held then Scanning else FailFull(LeaseLost)))
      else (db, k.(pc := AfterScan(k, in_.scan, in_)))
    case DirectCheck => (db, k.(pc := DirectNext(in_)))
  }

  /** `scan_with_lease_renewal` returned: the checks between the scan and publication. */
  function AfterScan(k: Caller, e: ScanEvent, in_: Input): Pc
    requires !e.RenewTick?
  {
    match e
    case ScanError(stale) => FailFull(if stale then LeaseLost else FullScanFailed)
    case ScanDone(r) =>
      if r.status.ScanFailed? then FailFull(FullScanFailed)
      else if r.status.ScanPartial? && k.opts.rejectPartial then FailFull(PartialRejected)
      else if !r.canonical.coreComplete then FailFull(CoreIdentityIncomplete)
      else CreateTemp(PublicationOf(r, in_, k.quick))
  }

  function PublicationOf(r: ScanReport, in_: Input, quick: Option<QuickReport>): Publication {
    Publication(in_.id, in_.pid, in_.created, r.bytes, r.schema, r.status.ScanComplete?, r.canonical,
                if quick.Some? && quick.value.coreComplete then quick.value else r.canonical)
  }

  /** A direct publisher's report comes from outside and is checked before any write. */
  function DirectNext(in_: Input): Pc {
    if !in_.scan.ScanDone? || in_.scan.report.status.ScanFailed? || !in_.scan.report.canonical.coreComplete
    then ReleaseLease(Err(InvalidReport), true)
    else CreateTemp(PublicationOf(in_.scan.report, in_, None))
  }

  // ----- publication: the file first, then the fenced transaction -----

  function WritingStep(codec: Codec, db: Db, k: Caller, in_: Input): (Db, Caller)
    requires PhaseOf(k.pc).Writing?
  {
    match k.pc
    case CreateTemp(pub) =>
      if !in_.ok then (db, k.(pc := AfterPublish(k, Err(Io))))
      else (WriteFile(db, ReportTemp(pub.id, pub.pid), []), k.(pc := RenameTemp(pub)))
    case RenameTemp(pub) =>
      if in_.ok && ReportTemp(pub.id, pub.pid) in db.files then (RenameReport(db, pub), k.(pc := Commit(pub)))
      else if in_.late && ReportTemp(pub.id, pub.pid) in db.files then (RenameReport(db, pub), k.(pc := DropTemp(pub)))
      else (db, k.(pc := DropTemp(pub)))
    case DropTemp(pub) =>
      if !in_.ok then (db, k.(pc := AfterPublish(k, Err(Io))))
      else (RemoveFile(db, ReportTemp(pub.id, pub.pid)), k.(pc := AfterPublish(k, Err(Io))))
    case Commit(pub) => CommitStep(codec, db, k, in_, pub)
    case DropReport(pub, error) =>
      if !in_.ok then (db, k.(pc := AfterPublish(k, Err(error))))
      else (RemoveFile(db, ReportJson(pub.id)), k.(pc := AfterPublish(k, Err(error))))
  }

  function CommitStep(codec: Codec, db: Db, k: Caller, in_: Input, pub: Publication): (Db, Caller) {
    if !in_.ok then (db, k.(pc := DropReport(pub, Database)))
    else match PublishTransaction(codec, db, pub, k.fullRow, k.owner, in_.now)
      case StaleLease => (db, k.(pc := DropReport(pub, LeaseLost)))
      case ConstraintFailed => (db, k.(pc := DropReport(pub, Database)))
      case Committed(db') =>
        (db', k.(pc := AfterPublish(k, Ok(NewScan(pub.id))),
                 fullFinishes := if k.fullRow.Some? then k.fullFinishes + 1 else k.fullFinishes))
  }

  /** A direct publisher keeps no probe history. */
  predicate IsDirect(k: Caller) { k.quickRow.None? }

  /** Where `publish_sync` returns to. */
  function AfterPublish(k: Caller, result: Result<Outcome, Error>): Pc {
    if IsDirect(k) then ReleaseLease(result, true)
    else if result.Ok? then Conclude(result)
    else FailFull(result.error)
  }

  // ----- closing the probe rows, giving the lease back, loading the answer -----

  function ClosingStep(codec: Codec, db: Db, k: Caller, in_: Input): (Db, Caller)
    requires PhaseOf(k.pc).Closing?
  {
    match k.pc
    case FailFull(error) => FailFullStep(db, k, in_.ok, error)
    case Conclude(result) => ConcludeStep(db, k, in_.ok, result)
    case ReleaseLease(result, finished) =>
      if !in_.ok then (db, Fail(k, Done(if IsDirect(k) && result.Err? then result else Err(Database))))
      else (Release(db, k.owner), k.(pc := AfterRelease(k, result, finished)))
    case LoadRow(answer) =>
      if !in_.ok then (db, k.(pc := DATABASE_ERROR))
      else if answer.id in db.snapshots then (db, k.(pc := LoadFile(answer, db.snapshots[answer.id].artifact)))
      else (db, k.(pc := Done(Err(SnapshotNotFound))))
    case LoadFile(answer, meta) =>
      if !in_.ok then (db, k.(pc := Done(Err(ArtifactRejected))))
      else if Verifies(codec, db.files, meta) then (db, k.(pc := Done(Ok(answer)), report := db.files[meta.file]))
      else (db, k.(pc := Done(Err(ArtifactRejected))))
  }

  /** `fail_full_probe`, whose own error is ignored. No snapshot is named, so no foreign key
      can reject it. */
  function FailFullStep(db: Db, k: Caller, ok: bool, error: Error): (Db, Caller) {
    var r := if k.fullRow.Some? then FinishProbe(db, k.fullRow.value, Failed, None) else Some(db);
    if ok && r.Some? then (r.value, k.(pc := Conclude(Err(error)), fullFinishes := k.fullFinishes + 1))
    else (db, Fail(k, Conclude(Err(error))))
  }

  /** Finishes the quick row if it is still open, with the outcome of the scan. */
  function ConcludeStep(db: Db, k: Caller, ok: bool, result: Result<Outcome, Error>): (Db, Caller) {
    if k.quick.None? then (db, k.(pc := ReleaseLease(result, true)))
    else match result
      case Ok(outcome) =>
        FinishQuick(db, k, ok, Succeeded, Some(outcome.id), ReleaseLease(result, true), ReleaseLease(result, false))
      case Err(_) => FinishQuick(db, k, ok, Failed, None, ReleaseLease(result, true), ReleaseLease(result, false))
  }

  function AfterRelease(k: Caller, result: Result<Outcome, Error>, finished: bool): Pc {
    if !finished then DATABASE_ERROR
    else if result.Err? || IsDirect(k) then Done(result)
    else LoadRow(result.value)
  }
}
