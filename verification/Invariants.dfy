/** What holds of the database and of each caller in every reachable state. */
module Invariants {
  import opened Wrappers
  import opened Store
  import opened Effects
  import Observe

  // ----- the database -----

  function StateAfter(h: seq<Entry>): StateRow {
    if h == [] then StateRow(None, None, None, None) else StateOf(h[|h| - 1].id, h[|h| - 1].probe)
  }

  function CreatedAfter(h: seq<Entry>): Option<Timestamp> {
    if h == [] then None else Some(h[|h| - 1].row.created)
  }

  /** The columns that the schema's triggers make immutable, and the artifact. */
  predicate SamePublished(a: SnapshotRow, b: SnapshotRow) {
    a.created == b.created && a.machine == b.machine && a.fingerprint == b.fingerprint
    && a.complete == b.complete && a.artifact == b.artifact
  }

  ghost predicate InHistory(h: seq<Entry>, id: Uuid) {
    exists i :: 0 <= i < |h| && h[i].id == id
  }

  /** The state row mirrors the last commit, ids are never reused, and every snapshot row is
      as it was published. */
  ghost predicate CatalogInv(state: StateRow, snapshots: map<Uuid, SnapshotRow>, history: seq<Entry>) {
    && state == StateAfter(history)
    && (state.current.Some? ==> state.current.value in snapshots)
    && (forall i, j :: 0 <= i < j < |history| ==> history[i].id != history[j].id)
    && (forall id :: id in snapshots ==>
          exists i :: 0 <= i < |history| && history[i].id == id && SamePublished(snapshots[id], history[i].row))
  }

  /** No foreign key of the probe history dangles. */
  ghost predicate ReferencesInv(snapshots: map<Uuid, SnapshotRow>, probes: map<nat, ProbeRow>) {
    forall r :: r in probes ==>
      (probes[r].snapshot.Some? ==> probes[r].snapshot.value in snapshots)
      && (probes[r].previous.Some? ==> probes[r].previous.value in snapshots)
  }

  ghost predicate DbInv(db: Db) {
    CatalogInv(db.state, db.snapshots, db.history) && ReferencesInv(db.snapshots, db.probes)
  }

  // ----- one caller: the lease -----

  predicate Holding(pc: Observe.Pc) {
    pc.LeaseState? || ((pc.CheckRow? || pc.CheckFile?) && pc.why.UnderLease?) || pc.ReadPrevious? || pc.StartFull?
    || pc.DirectCheck? || Unpublished(pc) || pc.Conclude? || pc.ReleaseLease?
  }

  /** Between the start of a full scan (or a direct publication) and its outcome. */
  predicate Unpublished(pc: Observe.Pc) {
    pc.Scanning? || pc.CreateTemp? || pc.RenameTemp? || pc.DropTemp? || pc.Commit? || pc.DropReport? || pc.FailFull?
  }

  predicate LeaseInv(db: Db, k: Caller) {
    (Owns(db, k.owner) ==> Holding(k.pc) || (k.pc.Done? && k.failed))
    && (Owns(db, k.owner) && !Observe.IsDirect(k) && (k.pc.StartFull? || Unpublished(k.pc)) ==> k.previous == db.state.current)
  }

  // ----- one caller: its probe rows -----

  predicate StillRunning(db: Db, r: Option<nat>) {
    r.Some? && r.value in db.probes && db.probes[r.value].status.Running?
  }

  predicate QuickClosed(db: Db, k: Caller) {
    k.failed || (k.quickFinishes == 1 && !StillRunning(db, k.quickRow))
  }

  predicate QuickPending(db: Db, k: Caller) {
    if k.quick.Some? then k.quickFinishes == 0 else QuickClosed(db, k)
  }

  predicate FullClosed(db: Db, k: Caller) {
    if k.fullRow.Some? then k.failed || (k.fullFinishes == 1 && !StillRunning(db, k.fullRow)) else k.fullFinishes == 0
  }

  predicate NoFull(k: Caller) { k.fullRow.None? && k.fullFinishes == 0 }

  predicate DirectShape(k: Caller) { k.quick.None? && k.quickRow.None? && k.quickFinishes == 0 && NoFull(k) }

  /** The quick row is open and its report at hand. */
  predicate OpenShape(k: Caller) { k.quickRow.Some? && k.quick.Some? && k.quickFinishes == 0 && NoFull(k) }

  predicate WaitShape(db: Db, k: Caller) { k.quickRow.Some? && QuickPending(db, k) && NoFull(k) }

  predicate ClosedShape(db: Db, k: Caller) { QuickClosed(db, k) && FullClosed(db, k) }

  predicate RowShape(db: Db, k: Caller) {
    var pc := k.pc;
    && (pc.Begin? || pc.StartQuick? || pc.DirectAcquire? || pc.DirectCheck? ==> DirectShape(k))
    && (pc.Probing? || pc.QuickFailed? ==> k.quickRow.Some? && k.quick.None? && k.quickFinishes == 0 && NoFull(k))
    && (pc.CheckRow? || pc.CheckFile? || pc.FinishReuse? || pc.WaitTimedOut? ==> OpenShape(k))
    && (pc.EnterLoop? || pc.Acquire? || pc.PollState? || pc.PollLease? || pc.LeaseState? || pc.ReadPrevious? || pc.StartFull? ==>
          WaitShape(db, k))
    && (pc.Scanning? || pc.FailFull? ==> ScanShape(db, k))
    && (pc.CreateTemp? || pc.RenameTemp? || pc.DropTemp? || pc.Commit? || pc.DropReport? ==> DirectShape(k) || ScanShape(db, k))
    && (pc.Conclude? ==> k.quickRow.Some? && QuickPending(db, k) && FullClosed(db, k))
    && (pc.ReleaseLease? ==> (DirectShape(k) && pc.finished) || (k.quickRow.Some? && ClosedShape(db, k) && (!pc.finished ==> k.failed)))
    && (pc.LoadRow? || pc.LoadFile? ==> k.quickRow.Some? && ClosedShape(db, k))
    && (pc.Done? ==> DirectShape(k) || ClosedShape(db, k))
  }

  predicate RowInv(db: Db, k: Caller) {
    && (k.quickRow.Some? ==> k.quickRow.value in db.probes)
    && (k.fullRow.Some? ==> k.fullRow.value in db.probes && k.fullRow != k.quickRow)
    && RowShape(db, k)
  }

  /** The row of a full scan stays running for as long as its caller owns the lease. */
  predicate ScanShape(db: Db, k: Caller) {
    k.quickRow.Some? && QuickPending(db, k) && k.fullRow.Some? && k.fullFinishes == 0
    && (Owns(db, k.owner) ==> StillRunning(db, k.fullRow))
  }

  // ----- one caller: the snapshot it is about to answer with -----

  /** Committed after the caller's first state read. */
  ghost predicate Recent(h: seq<Entry>, mark: nat, id: Uuid) {
    exists i :: mark <= i < |h| && h[i].id == id
  }

  predicate SameIdentity(probe: QuickReport, quick: QuickReport) {
    probe.machine == quick.machine && probe.fingerprint == quick.fingerprint && probe.version == quick.version
  }

  /** Some commit of this id left exactly the identity that the quick probe saw, and was
      within the age bound when checked. */
  ghost predicate ReuseSound(h: seq<Entry>, quick: Option<QuickReport>, maxAge: Option<Observe.Seconds>, checkedAt: real,
                             id: Uuid) {
    quick.Some?
    && (exists i :: 0 <= i < |h| && h[i].id == id && SameIdentity(h[i].probe, quick.value)
                    && Observe.WithinAge(Some(h[i].row.created), maxAge, checkedAt))
  }

  ghost predicate PublishedAs(h: seq<Entry>, id: Uuid, meta: Artifact) {
    exists i :: 0 <= i < |h| && h[i].id == id && h[i].row.artifact == meta
  }

  /** The report bytes are the ones recorded at commit. */
  ghost predicate HoldsReport(codec: Codec, h: seq<Entry>, report: Bytes, id: Uuid) {
    exists i :: 0 <= i < |h| && h[i].id == id && codec.sha(report) == h[i].row.artifact.sha256
      && |report| == h[i].row.artifact.size && codec.schemaOf(report) == Some(h[i].row.artifact.schema)
  }

  function Chosen(pc: Observe.Pc): Option<Observe.Outcome> {
    match pc
    case CheckRow(_, id) => Some(Observe.Reused(id))
    case CheckFile(_, id, _) => Some(Observe.Reused(id))
    case FinishReuse(id) => Some(Observe.Reused(id))
    case Conclude(r) => if r.Ok? then Some(r.value) else None
    case ReleaseLease(r, _) => if r.Ok? then Some(r.value) else None
    case LoadRow(o) => Some(o)
    case LoadFile(o, _) => Some(o)
    case Done(r) => if r.Ok? then Some(r.value) else None
    case _ => None
  }

  ghost predicate Good(h: seq<Entry>, opts: Observe.Options, quick: Option<QuickReport>, checkedAt: real, mark: nat,
                       outcome: Observe.Outcome)
  {
    match outcome
    case Reused(id) => ReuseSound(h, quick, opts.maxAge, checkedAt, id) && (opts.force ==> Recent(h, mark, id))
    case NewScan(id) => Recent(h, mark, id)
  }

  /** The state that the caller read first. */
  predicate Baseline(h: seq<Entry>, mark: nat, initial: Observe.StateView) {
    mark <= |h| && initial == Observe.StateView(StateAfter(h[..mark]), CreatedAfter(h[..mark]))
  }

  ghost predicate AnswerInv(codec: Codec, h: seq<Entry>, k: Caller) {
    && k.mark <= |h|
    && (k.pc.StartQuick? || k.quickRow.Some? ==> Baseline(h, k.mark, k.initial))
    && (Chosen(k.pc).Some? ==> Good(h, k.opts, k.quick, k.checkedAt, k.mark, Chosen(k.pc).value))
    && (k.pc.CheckFile? ==> PublishedAs(h, k.pc.id, k.pc.meta))
    && (k.pc.LoadFile? ==> PublishedAs(h, k.pc.answer.id, k.pc.meta))
    && (k.pc.Done? && k.pc.result.Ok? && k.quickRow.Some? ==> HoldsReport(codec, h, k.report, k.pc.result.value.id))
    && (Pending(k.pc).Some? ==> !InHistory(h, Pending(k.pc).value))
  }

  ghost predicate CallerInv(codec: Codec, db: Db, k: Caller) {
    LeaseInv(db, k) && RowInv(db, k) && AnswerInv(codec, db.history, k)
  }

  // ----- stability: what the steps of others do to a caller -----

  ghost predicate Rely(k: Caller, db: Db, db': Db) {
    && db.history <= db'.history
    && (Owns(db', k.owner) ==> Owns(db, k.owner) && db'.state == db.state)
    && (Owns(db', k.owner) ==>
          forall r :: OwnRow(k, r) && r in db.probes ==> r in db'.probes && db'.probes[r].status == db.probes[r].status)
    && (forall r :: OwnRow(k, r) && r in db.probes ==>
          r in db'.probes && (db'.probes[r].status.Running? ==> db.probes[r].status.Running?))
    && (Pending(k.pc).Some? && !InHistory(db.history, Pending(k.pc).value) ==> !InHistory(db'.history, Pending(k.pc).value))
  }

  lemma StableUnderRely(codec: Codec, db: Db, db': Db, k: Caller)
    requires CallerInv(codec, db, k) && Rely(k, db, db')
    ensures CallerInv(codec, db', k)
  {
    AnswerStable(codec, db.history, db'.history, k);
  }

  lemma AnswerStable(codec: Codec, h: seq<Entry>, h': seq<Entry>, k: Caller)
    requires AnswerInv(codec, h, k) && h <= h'
    requires Pending(k.pc).Some? ==> !InHistory(h', Pending(k.pc).value)
    ensures AnswerInv(codec, h', k)
  {
    assert h'[..k.mark] == h[..k.mark];
    assert forall i :: 0 <= i < |h| ==> h'[i] == h[i];
  }

  /** Steps of another caller, whose owner id, rows and pending id are its own. */
  lemma OthersKeepRely(codec: Codec, db: Db, db': Db, k: Caller, other: Caller, row: nat)
    requires RowInv(db, k) && DbInv(db) && CallerEffect(codec, db, other, row, db')
    requires k.owner != other.owner && row !in db.probes
    requires forall r :: OwnRow(k, r) ==> !OwnRow(other, r)
    requires Pending(other.pc).Some? ==> Pending(k.pc) != Pending(other.pc)
    ensures Rely(k, db, db')
  {
  }

  lemma MaintenanceKeepsRely(db: Db, db': Db, k: Caller)
    requires MaintenanceEffect(db, db')
    ensures Rely(k, db, db')
  {
  }
}
