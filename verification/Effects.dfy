/** What one step of each kind of actor may do to the database, stated for everybody
    else. These are the guarantees from which the invariants of the other actors follow. */
module Effects {
  import opened Wrappers
  import opened Store
  import Observe
  import Retention
  import Opening

  type Caller = Observe.Caller

  /** The publication in progress. */
  function Publishing(pc: Observe.Pc): Option<Publication> {
    match pc
    case CreateTemp(pub) => Some(pub)
    case RenameTemp(pub) => Some(pub)
    case DropTemp(pub) => Some(pub)
    case Commit(pub) => Some(pub)
    case DropReport(pub, _) => Some(pub)
    case _ => None
  }

  function Pending(pc: Observe.Pc): Option<Uuid> {
    if Publishing(pc).Some? then Some(Publishing(pc).value.id) else None
  }

  predicate OwnRow(k: Caller, r: nat) { k.quickRow == Some(r) || k.fullRow == Some(r) }

  predicate OwnFile(k: Caller, n: FileName) {
    (n.ReportJson? || n.ReportTemp?) && Pending(k.pc) == Some(n.id)
  }

  predicate SameFile(db: Db, db': Db, n: FileName) {
    (n in db.files <==> n in db'.files) && (n in db.files ==> db.files[n] == db'.files[n])
  }

  predicate Commits(codec: Codec, db: Db, pub: Publication, db': Db) {
    db'.history == db.history + [Entry(pub.id, SnapshotOf(codec, pub), pub.stateProbe)]
    && db'.state == StateOf(pub.id, pub.stateProbe)
    && db'.snapshots == db.snapshots[pub.id := SnapshotOf(codec, pub)]
    && db'.lease == db.lease && db'.files == db.files
    && pub.id !in db.snapshots
  }

  predicate SameCatalog(db: Db, db': Db) {
    db'.history == db.history && db'.state == db.state && db'.snapshots == db.snapshots
  }

  /** Only the caller's own rows and one new row change; a changed row does not run any
      more, and a new reference names a snapshot that is there. */
  ghost predicate ProbesChange(db: Db, k: Caller, row: nat, db': Db) {
    && (forall r :: r in db.probes ==>
          r in db'.probes && (db'.probes[r] == db.probes[r] || (OwnRow(k, r) && !db'.probes[r].status.Running?)))
    && (forall r :: r in db'.probes ==> r in db.probes || r == row)
    && (forall r :: r in db'.probes && (r in db.probes ==> db'.probes[r] != db.probes[r]) ==>
          Justified(db'.probes[r].snapshot, if r in db.probes then db.probes[r].snapshot else None, db'.snapshots)
          && Justified(db'.probes[r].previous, if r in db.probes then db.probes[r].previous else None, db'.snapshots))
  }

  predicate Justified(now: Option<Uuid>, before: Option<Uuid>, snapshots: map<Uuid, SnapshotRow>) {
    now.Some? ==> now == before || now.value in snapshots
  }

  /** One step of caller k, with the fresh row id it may draw. */
  ghost predicate CallerEffect(codec: Codec, db: Db, k: Caller, row: nat, db': Db) {
    && (db'.lease == db.lease || db'.lease.None? || Owns(db', k.owner))
    && (Owns(db', k.owner) && !Owns(db, k.owner) ==> k.pc.Acquire? || k.pc.DirectAcquire?)
    && ProbesChange(db, k, row, db')
    && db'.queue == db.queue
    && (forall n :: !OwnFile(k, n) ==> SameFile(db, db', n))
    && (SameCatalog(db, db')
        || (k.pc.Commit? && Owns(db, k.owner) && Commits(codec, db, k.pc.pub, db')))
  }

  lemma StepHasEffect(codec: Codec, db: Db, k: Caller, in_: Observe.Input)
    requires in_.row !in db.probes
    ensures CallerEffect(codec, db, k, in_.row, Observe.Step(codec, db, k, in_).0)
  {
    match Observe.PhaseOf(k.pc)
    case Starting => StartingEffect(codec, db, k, in_);
    case Checking => CheckingEffect(codec, db, k, in_);
    case Waiting => WaitingEffect(codec, db, k, in_);
    case Leading => LeadingEffect(codec, db, k, in_);
    case Writing => WritingEffect(codec, db, k, in_);
    case Closing => ClosingEffect(codec, db, k, in_);
    case Over =>
  }

  lemma StartingEffect(codec: Codec, db: Db, k: Caller, in_: Observe.Input)
    requires Observe.PhaseOf(k.pc).Starting? && in_.row !in db.probes
    ensures CallerEffect(codec, db, k, in_.row, Observe.StartingStep(db, k, in_).0)
  {
    if k.pc.QuickFailed? {
      FinishQuickRows(db, k, in_.ok, in_.row, Failed, None, Observe.EnterLoop, Observe.DATABASE_ERROR);
    } else if k.pc.StartQuick? {
      StartProbeRows(db, k, in_.row, Quick, in_.now, k.initial.state.current);
    } else {
      assert Observe.StartingStep(db, k, in_).0 == db;
    }
  }

  lemma CheckingEffect(codec: Codec, db: Db, k: Caller, in_: Observe.Input)
    requires Observe.PhaseOf(k.pc).Checking?
    ensures CallerEffect(codec, db, k, in_.row, Observe.CheckingStep(codec, db, k, in_).0)
  {
    if k.pc.FinishReuse? {
      FinishQuickRows(db, k, in_.ok, in_.row, Succeeded, Some(k.pc.id), Observe.LoadRow(Observe.Reused(k.pc.id)), Observe.DATABASE_ERROR);
    }
  }

  lemma WaitingEffect(codec: Codec, db: Db, k: Caller, in_: Observe.Input)
    requires Observe.PhaseOf(k.pc).Waiting?
    ensures CallerEffect(codec, db, k, in_.row, Observe.WaitingStep(db, k, in_).0)
  {
    if k.pc.WaitTimedOut? {
      var timeout := Observe.Done(Err(Observe.LeaseTimeout));
      FinishQuickRows(db, k, in_.ok, in_.row, Failed, None, timeout, timeout);
    } else {
      assert SameCatalog(db, Observe.WaitingStep(db, k, in_).0);
    }
  }

  lemma LeadingEffect(codec: Codec, db: Db, k: Caller, in_: Observe.Input)
    requires Observe.PhaseOf(k.pc).Leading? && in_.row !in db.probes
    ensures CallerEffect(codec, db, k, in_.row, Observe.LeadingStep(db, k, in_).0)
  {
    if k.pc.StartFull? {
      StartProbeRows(db, k, in_.row, Full, in_.now, k.previous);
    } else {
      var db' := Observe.LeadingStep(db, k, in_).0;
      assert db' == db.(lease := db'.lease);
    }
  }

  lemma WritingEffect(codec: Codec, db: Db, k: Caller, in_: Observe.Input)
    requires Observe.PhaseOf(k.pc).Writing?
    ensures CallerEffect(codec, db, k, in_.row, Observe.WritingStep(codec, db, k, in_).0)
  {
    var db' := Observe.WritingStep(codec, db, k, in_).0;
    if k.pc.Commit? {
      CommitEffect(codec, db, k, in_);
    } else {
      assert db' == db.(files := db'.files);
    }
  }

  lemma CommitEffect(codec: Codec, db: Db, k: Caller, in_: Observe.Input)
    requires k.pc.Commit?
    ensures CallerEffect(codec, db, k, in_.row, Observe.CommitStep(codec, db, k, in_, k.pc.pub).0)
  {
  }

  lemma ClosingEffect(codec: Codec, db: Db, k: Caller, in_: Observe.Input)
    requires Observe.PhaseOf(k.pc).Closing?
    ensures CallerEffect(codec, db, k, in_.row, Observe.ClosingStep(codec, db, k, in_).0)
  {
    if k.pc.Conclude? {
      var result := k.pc.result;
      FinishQuickRows(db, k, in_.ok, in_.row, if result.Ok? then Succeeded else Failed,
                      if result.Ok? then Some(result.value.id) else None,
                      Observe.ReleaseLease(result, true), Observe.ReleaseLease(result, false));
    } else if k.pc.FailFull? {
      FailFullRows(db, k, in_.ok, in_.row, k.pc.error);
    } else {
      var db' := Observe.ClosingStep(codec, db, k, in_).0;
      assert db' == db.(lease := db'.lease);
    }
  }

  lemma FailFullRows(db: Db, k: Caller, ok: bool, row: nat, error: Observe.Error)
    ensures var db' := Observe.FailFullStep(db, k, ok, error).0;
      db' == db.(probes := db'.probes) && ProbesChange(db, k, row, db')
  {
  }

  lemma StartProbeRows(db: Db, k: Caller, row: nat, kind: ProbeKind, started: real, previous: Option<Uuid>)
    requires row !in db.probes
    ensures var r := StartProbe(db, row, kind, started, previous);
      r.Some? ==> r.value == db.(probes := r.value.probes) && ProbesChange(db, k, row, r.value)
  {
  }

  lemma FinishQuickRows(db: Db, k: Caller, ok: bool, row: nat, status: ProbeStatus, id: Option<Uuid>,
                        good: Observe.Pc, bad: Observe.Pc)
    requires !status.Running?
    ensures var db' := Observe.FinishQuick(db, k, ok, status, id, good, bad).0;
      db' == db.(probes := db'.probes) && ProbesChange(db, k, row, db')
  {
  }

  /** A publication starts only with a scanned report and a drawn id, and stays the same
      until it is over. */
  predicate SamePublication(k: Caller, in_: Observe.Input, k': Caller) {
    && k'.owner == k.owner
    && (Publishing(k'.pc).Some? ==>
      k'.quick == k.quick && (Publishing(k'.pc) == Publishing(k.pc) || NewPublication(k, in_, k'.pc)))
  }

  predicate NewPublication(k: Caller, in_: Observe.Input, pc: Observe.Pc) {
    in_.scan.ScanDone?
    && ((k.pc.Scanning? && pc == Observe.CreateTemp(Observe.PublicationOf(in_.scan.report, in_, k.quick)))
        || (k.pc.DirectCheck? && pc == Observe.CreateTemp(Observe.PublicationOf(in_.scan.report, in_, None))))
  }

  lemma StartingPublishesNothing(db: Db, k: Caller, in_: Observe.Input)
    requires Observe.PhaseOf(k.pc).Starting?
    ensures SamePublication(k, in_, Observe.StartingStep(db, k, in_).1)
  {
  }

  lemma CheckingPublishesNothing(codec: Codec, db: Db, k: Caller, in_: Observe.Input)
    requires Observe.PhaseOf(k.pc).Checking?
    ensures SamePublication(k, in_, Observe.CheckingStep(codec, db, k, in_).1)
  {
  }

  lemma WaitingPublishesNothing(db: Db, k: Caller, in_: Observe.Input)
    requires Observe.PhaseOf(k.pc).Waiting?
    ensures SamePublication(k, in_, Observe.WaitingStep(db, k, in_).1)
  {
  }

  lemma LeadingMayPublish(db: Db, k: Caller, in_: Observe.Input)
    requires Observe.PhaseOf(k.pc).Leading?
    ensures SamePublication(k, in_, Observe.LeadingStep(db, k, in_).1)
  {
  }

  lemma WritingKeepsPublication(codec: Codec, db: Db, k: Caller, in_: Observe.Input)
    requires Observe.PhaseOf(k.pc).Writing?
    ensures var k' := Observe.WritingStep(codec, db, k, in_).1;
      SamePublication(k, in_, k') && k'.quickRow == k.quickRow && k'.fullRow == k.fullRow
      && !k'.pc.CreateTemp?
  {
  }

  lemma ClosingPublishesNothing(codec: Codec, db: Db, k: Caller, in_: Observe.Input)
    requires Observe.PhaseOf(k.pc).Closing?
    ensures var k' := Observe.ClosingStep(codec, db, k, in_).1;
      SamePublication(k, in_, k') && k'.quickRow == k.quickRow && k'.fullRow == k.fullRow
  {
  }

  lemma StepPublication(codec: Codec, db: Db, k: Caller, in_: Observe.Input)
    ensures SamePublication(k, in_, Observe.Step(codec, db, k, in_).1)
  {
    match Observe.PhaseOf(k.pc)
    case Starting => StartingPublishesNothing(db, k, in_);
    case Checking => CheckingPublishesNothing(codec, db, k, in_);
    case Waiting => WaitingPublishesNothing(db, k, in_);
    case Leading => LeadingMayPublish(db, k, in_);
    case Writing => WritingKeepsPublication(codec, db, k, in_);
    case Closing => ClosingPublishesNothing(codec, db, k, in_);
    case Over =>
  }

  /** Rows too are only taken fresh. */
  lemma StepRows(codec: Codec, db: Db, k: Caller, in_: Observe.Input)
    ensures var k' := Observe.Step(codec, db, k, in_).1; forall r :: OwnRow(k', r) ==> OwnRow(k, r) || r == in_.row
  {
    match Observe.PhaseOf(k.pc)
    case Starting =>
    case Checking =>
    case Waiting =>
    case Leading =>
    case Writing => WritingKeepsPublication(codec, db, k, in_);
    case Closing => ClosingPublishesNothing(codec, db, k, in_);
    case Over =>
  }

  /** Steps of retention calls, openings and the two lifecycle statements: the commit
      history stays, and no lease is granted. */
  ghost predicate MaintenanceEffect(db: Db, db': Db) {
    && (db'.lease == db.lease || db'.lease.None?)
    && db'.history == db.history
    && db'.state == db.state
    && (forall id :: id in db'.snapshots ==> id in db.snapshots)
    && (forall r :: r in db.probes <==> r in db'.probes)
    && (forall r :: r in db.probes && db'.probes[r].status.Running? ==> db.probes[r].status.Running?)
    && (db'.lease.Some? ==> forall r :: r in db.probes ==> db'.probes[r].status == db.probes[r].status)
  }

  lemma RetentionHasEffect(db: Db, r: Retention.Retainer, in_: Retention.Input)
    ensures MaintenanceEffect(db, Retention.Step(db, r, in_).0)
  {
  }

  lemma OpeningHasEffect(db: Db, pc: Opening.Pc, in_: Opening.Input)
    ensures MaintenanceEffect(db, Opening.Step(db, pc, in_).0)
  {
  }

  lemma LifecycleHasEffect(db: Db, id: Uuid, pinned: bool)
    ensures SetPinned(db, id, pinned).Some? ==> MaintenanceEffect(db, SetPinned(db, id, pinned).value)
    ensures MarkUploaded(db, id).Some? ==> MaintenanceEffect(db, MarkUploaded(db, id).value)
  {
  }
}
