/** Each caller's own step keeps the invariants of the database and of that caller. */
module Preservation {
  import opened Wrappers
  import opened Store
  import opened Effects
  import opened Invariants
  import Observe

  // ----- the database -----

  lemma CommitKeepsCatalog(codec: Codec, db: Db, pub: Publication, db': Db)
    requires CatalogInv(db.state, db.snapshots, db.history) && !InHistory(db.history, pub.id)
    requires Commits(codec, db, pub, db')
    ensures CatalogInv(db'.state, db'.snapshots, db'.history)
  {
    var n := |db.history|;
    assert db'.history[n] == Entry(pub.id, SnapshotOf(codec, pub), pub.stateProbe);
    forall id | id in db'.snapshots
      ensures exists i :: 0 <= i < |db'.history| && db'.history[i].id == id
                          && SamePublished(db'.snapshots[id], db'.history[i].row)
    {
      if id == pub.id {
        assert SamePublished(db'.snapshots[id], db'.history[n].row);
      } else {
        var i :| 0 <= i < n && db.history[i].id == id && SamePublished(db.snapshots[id], db.history[i].row);
        assert db'.history[i] == db.history[i];
      }
    }
  }

  lemma EffectKeepsDb(codec: Codec, db: Db, k: Caller, row: nat, db': Db)
    requires DbInv(db) && CallerEffect(codec, db, k, row, db')
    requires Pending(k.pc).Some? ==> !InHistory(db.history, Pending(k.pc).value)
    ensures DbInv(db')
  {
    if !SameCatalog(db, db') {
      CommitKeepsCatalog(codec, db, k.pc.pub, db');
    }
  }

  // ----- the answer -----

  lemma ReadStateMirrorsHistory(db: Db)
    requires CatalogInv(db.state, db.snapshots, db.history)
    ensures Baseline(db.history, |db.history|, Observe.ReadState(db))
    ensures forall id :: id in db.snapshots ==> PublishedAs(db.history, id, db.snapshots[id].artifact)
  {
    assert db.history[..|db.history|] == db.history;
  }

  /** What passes the reuse test is a commit with the probe's identity, and a recent one if
      it is not the baseline. */
  lemma ReusableIsGood(h: seq<Entry>, n: nat, view: Observe.StateView, quick: QuickReport, opts: Observe.Options,
                       ignoreForce: bool, wall: real, mark: nat, initial: Observe.StateView)
    requires n <= |h| && Baseline(h, n, view) && Baseline(h, mark, initial) && mark <= n
    requires Observe.Reusable(view, quick, opts, ignoreForce, wall)
    requires ignoreForce ==> view.state.current != initial.state.current
    ensures Good(h, opts, Some(quick), wall, mark, Observe.Reused(view.state.current.value))
  {
    assert n > 0 && h[..n][n - 1] == h[n - 1];
    assert h[n - 1].id == view.state.current.value;
  }

  /** The step changes nothing that the answer rests on. */
  predicate Carries(k: Caller, k': Caller) {
    && k' == k.(pc := k'.pc, failed := k'.failed, quickFinishes := k'.quickFinishes, fullFinishes := k'.fullFinishes,
                previous := k'.previous, observed := k'.observed, progress := k'.progress, quickRow := k'.quickRow,
                fullRow := k'.fullRow)
    && (k'.pc.StartQuick? || k'.quickRow.Some? ==> k.pc.StartQuick? || k.quickRow.Some?)
    && (Chosen(k'.pc).Some? ==> Chosen(k'.pc) == Chosen(k.pc))
    && !k'.pc.CheckFile? && !k'.pc.LoadFile?
    && (k'.pc.Done? && k'.pc.result.Ok? ==> k.pc == k'.pc || k'.quickRow.None?)
    && (Pending(k'.pc).Some? ==> Pending(k'.pc) == Pending(k.pc))
  }

  lemma CarryKeepsAnswer(codec: Codec, h: seq<Entry>, k: Caller, k': Caller)
    requires AnswerInv(codec, h, k) && Carries(k, k')
    ensures AnswerInv(codec, h, k')
  {
  }

  /** The scan is over, and a publication id may be drawn. */
  predicate Draws(pc: Observe.Pc, in_: Observe.Input) {
    pc.DirectCheck? || (pc.Scanning? && !in_.scan.RenewTick?)
  }

  lemma StartingCarries(db: Db, k: Caller, in_: Observe.Input)
    requires Observe.PhaseOf(k.pc).Starting? && !k.pc.Begin? && !k.pc.Probing?
    ensures Carries(k, Observe.StartingStep(db, k, in_).1)
  {
  }

  lemma CheckingCarries(codec: Codec, db: Db, k: Caller, in_: Observe.Input)
    requires Observe.PhaseOf(k.pc).Checking? && !k.pc.CheckRow?
    ensures Carries(k, Observe.CheckingStep(codec, db, k, in_).1)
  {
  }

  lemma WaitingCarries(db: Db, k: Caller, in_: Observe.Input)
    requires Observe.PhaseOf(k.pc).Waiting? && !k.pc.PollState?
    ensures Carries(k, Observe.WaitingStep(db, k, in_).1)
  {
  }

  lemma LeadingCarries(db: Db, k: Caller, in_: Observe.Input)
    requires Observe.PhaseOf(k.pc).Leading? && !Draws(k.pc, in_) && !k.pc.LeaseState?
    ensures Carries(k, Observe.LeadingStep(db, k, in_).1)
  {
  }

  lemma WritingCarries(codec: Codec, db: Db, k: Caller, in_: Observe.Input)
    requires Observe.PhaseOf(k.pc).Writing? && !k.pc.Commit?
    ensures Carries(k, Observe.WritingStep(codec, db, k, in_).1)
  {
  }

  lemma ClosingCarries(codec: Codec, db: Db, k: Caller, in_: Observe.Input)
    requires Observe.PhaseOf(k.pc).Closing? && !k.pc.LoadRow? && !k.pc.LoadFile?
    ensures Carries(k, Observe.ClosingStep(codec, db, k, in_).1)
  {
  }

  /** The two steps that read the state row again, while waiting and under the lease. */
  lemma PollKeepsAnswer(codec: Codec, db: Db, k: Caller, in_: Observe.Input)
    requires Baseline(db.history, |db.history|, Observe.ReadState(db)) && AnswerInv(codec, db.history, k)
    requires k.pc.PollState? && k.quickRow.Some?
    ensures AnswerInv(codec, db.history, Observe.Step(codec, db, k, in_).1)
  {
    RereadIsGood(db, k, in_, Observe.ReadState(db).state.current != k.initial.state.current);
  }

  lemma LeaseStateKeepsAnswer(codec: Codec, db: Db, k: Caller, in_: Observe.Input)
    requires Baseline(db.history, |db.history|, Observe.ReadState(db)) && AnswerInv(codec, db.history, k)
    requires k.pc.LeaseState? && k.quickRow.Some?
    ensures AnswerInv(codec, db.history, Observe.Step(codec, db, k, in_).1)
  {
    if Observe.ReadState(db).state.current != k.initial.state.current { RereadIsGood(db, k, in_, true); }
  }

  lemma RereadIsGood(db: Db, k: Caller, in_: Observe.Input, changed: bool)
    requires Baseline(db.history, |db.history|, Observe.ReadState(db)) && Baseline(db.history, k.mark, k.initial)
    requires changed ==> Observe.ReadState(db).state.current != k.initial.state.current
    ensures var view := Observe.ReadState(db);
      k.quick.Some? && Observe.Reusable(view, k.quick.value, k.opts, changed, in_.wall) ==>
        Good(db.history, k.opts, k.quick, in_.wall, k.mark, Observe.Reused(view.state.current.value))
  {
    var view := Observe.ReadState(db);
    if k.quick.Some? && Observe.Reusable(view, k.quick.value, k.opts, changed, in_.wall) {
      ReusableIsGood(db.history, |db.history|, view, k.quick.value, k.opts, changed, in_.wall, k.mark, k.initial);
    }
  }

  lemma BeginKeepsAnswer(codec: Codec, db: Db, k: Caller, in_: Observe.Input)
    requires Baseline(db.history, |db.history|, Observe.ReadState(db)) && AnswerInv(codec, db.history, k)
    requires k.pc.Begin? && k.quickRow.None?
    ensures AnswerInv(codec, db.history, Observe.Step(codec, db, k, in_).1)
  {
  }

  lemma ProbingKeepsAnswer(codec: Codec, db: Db, k: Caller, in_: Observe.Input)
    requires AnswerInv(codec, db.history, k) && k.pc.Probing? && k.quickRow.Some?
    ensures AnswerInv(codec, db.history, Observe.Step(codec, db, k, in_).1)
  {
    var h := db.history;
    if in_.quick.Some? && Observe.Reusable(k.initial, in_.quick.value, k.opts, false, in_.wall) {
      ReusableIsGood(h, k.mark, k.initial, in_.quick.value, k.opts, false, in_.wall, k.mark, k.initial);
    }
  }

  lemma CheckRowKeepsAnswer(codec: Codec, db: Db, k: Caller, in_: Observe.Input)
    requires AnswerInv(codec, db.history, k) && k.pc.CheckRow?
    requires k.pc.id in db.snapshots ==> PublishedAs(db.history, k.pc.id, db.snapshots[k.pc.id].artifact)
    ensures AnswerInv(codec, db.history, Observe.Step(codec, db, k, in_).1)
  {
  }

  lemma LoadRowKeepsAnswer(codec: Codec, db: Db, k: Caller, in_: Observe.Input)
    requires AnswerInv(codec, db.history, k) && k.pc.LoadRow?
    requires var id := k.pc.answer.id; id in db.snapshots ==> PublishedAs(db.history, id, db.snapshots[id].artifact)
    ensures AnswerInv(codec, db.history, Observe.Step(codec, db, k, in_).1)
  {
  }

  lemma LoadFileKeepsAnswer(codec: Codec, db: Db, k: Caller, in_: Observe.Input)
    requires AnswerInv(codec, db.history, k) && k.pc.LoadFile?
    ensures AnswerInv(codec, db.history, Observe.Step(codec, db, k, in_).1)
  {
  }

  lemma DrawingKeepsAnswer(codec: Codec, db: Db, k: Caller, in_: Observe.Input)
    requires AnswerInv(codec, db.history, k) && Draws(k.pc, in_) && !InHistory(db.history, in_.id)
    ensures AnswerInv(codec, db.history, Observe.Step(codec, db, k, in_).1)
  {
  }

  lemma CommitKeepsAnswer(codec: Codec, db: Db, k: Caller, in_: Observe.Input)
    requires AnswerInv(codec, db.history, k) && k.pc.Commit?
    ensures var (db', k') := Observe.Step(codec, db, k, in_); AnswerInv(codec, db'.history, k')
  {
    var (db', k') := Observe.CommitStep(codec, db, k, in_, k.pc.pub);
    if db'.history != db.history {
      assert db'.history[|db.history|].id == k.pc.pub.id;
      assert db'.history[..k.mark] == db.history[..k.mark];
    }
  }

  predicate ReadsCatalog(pc: Observe.Pc) {
    pc.Begin? || pc.PollState? || pc.LeaseState? || pc.CheckRow? || pc.LoadRow?
  }

  lemma CatalogStepKeepsAnswer(codec: Codec, db: Db, k: Caller, in_: Observe.Input)
    requires CatalogInv(db.state, db.snapshots, db.history) && AnswerInv(codec, db.history, k) && ReadsCatalog(k.pc)
    requires if k.pc.Begin? then k.quickRow.None? else k.quickRow.Some?
    ensures AnswerInv(codec, db.history, Observe.Step(codec, db, k, in_).1)
  {
    ReadStateMirrorsHistory(db);
    match k.pc
    case Begin => BeginKeepsAnswer(codec, db, k, in_);
    case PollState => PollKeepsAnswer(codec, db, k, in_);
    case LeaseState => LeaseStateKeepsAnswer(codec, db, k, in_);
    case CheckRow(_, _) => CheckRowKeepsAnswer(codec, db, k, in_);
    case LoadRow(_) => LoadRowKeepsAnswer(codec, db, k, in_);
  }

  lemma OtherStepKeepsAnswer(codec: Codec, db: Db, k: Caller, in_: Observe.Input)
    requires AnswerInv(codec, db.history, k) && !ReadsCatalog(k.pc) && !InHistory(db.history, in_.id)
    requires k.pc.Probing? ==> k.quickRow.Some?
    requires !k.pc.Commit? ==> Observe.Step(codec, db, k, in_).0.history == db.history
    ensures var (db', k') := Observe.Step(codec, db, k, in_); AnswerInv(codec, db'.history, k')
  {
    if k.pc.Commit? {
      CommitKeepsAnswer(codec, db, k, in_);
    } else if k.pc.Probing? {
      ProbingKeepsAnswer(codec, db, k, in_);
    } else if k.pc.LoadFile? {
      LoadFileKeepsAnswer(codec, db, k, in_);
    } else if Draws(k.pc, in_) {
      DrawingKeepsAnswer(codec, db, k, in_);
    } else if !k.pc.Done? {
      OtherStepsCarry(codec, db, k, in_);
      CarryKeepsAnswer(codec, db.history, k, Observe.Step(codec, db, k, in_).1);
    }
  }

  lemma OtherStepsCarry(codec: Codec, db: Db, k: Caller, in_: Observe.Input)
    requires !k.pc.Commit? && !k.pc.Begin? && !k.pc.PollState? && !k.pc.LeaseState? && !k.pc.Probing? && !k.pc.CheckRow?
          && !k.pc.LoadRow? && !k.pc.LoadFile? && !k.pc.Done? && !Draws(k.pc, in_)
    ensures Carries(k, Observe.Step(codec, db, k, in_).1)
  {
    match Observe.PhaseOf(k.pc)
    case Starting => StartingCarries(db, k, in_);
    case Checking => CheckingCarries(codec, db, k, in_);
    case Waiting => WaitingCarries(db, k, in_);
    case Leading => LeadingCarries(db, k, in_);
    case Writing => WritingCarries(codec, db, k, in_);
    case Closing => ClosingCarries(codec, db, k, in_);
  }

  // ----- the lease and the probe rows -----

  lemma StartingKeepsLease(db: Db, k: Caller, in_: Observe.Input)
    requires Observe.PhaseOf(k.pc).Starting? && LeaseInv(db, k) && RowInv(db, k)
    ensures var (db', k') := Observe.StartingStep(db, k, in_); LeaseInv(db', k')
  {
  }

  lemma CheckingKeepsLease(codec: Codec, db: Db, k: Caller, in_: Observe.Input)
    requires Observe.PhaseOf(k.pc).Checking? && LeaseInv(db, k) && RowInv(db, k)
    ensures var (db', k') := Observe.CheckingStep(codec, db, k, in_); LeaseInv(db', k')
  {
  }

  lemma WaitingKeepsLease(db: Db, k: Caller, in_: Observe.Input)
    requires Observe.PhaseOf(k.pc).Waiting? && LeaseInv(db, k) && RowInv(db, k)
    ensures var (db', k') := Observe.WaitingStep(db, k, in_); LeaseInv(db', k')
  {
  }

  lemma LeadingKeepsLease(db: Db, k: Caller, in_: Observe.Input)
    requires Observe.PhaseOf(k.pc).Leading? && LeaseInv(db, k) && RowInv(db, k)
    ensures var (db', k') := Observe.LeadingStep(db, k, in_); LeaseInv(db', k')
  {
  }

  lemma WritingKeepsLease(codec: Codec, db: Db, k: Caller, in_: Observe.Input)
    requires Observe.PhaseOf(k.pc).Writing? && LeaseInv(db, k) && RowInv(db, k)
    ensures var (db', k') := Observe.WritingStep(codec, db, k, in_); LeaseInv(db', k')
  {
  }

  lemma ClosingKeepsLease(codec: Codec, db: Db, k: Caller, in_: Observe.Input)
    requires Observe.PhaseOf(k.pc).Closing? && LeaseInv(db, k) && RowInv(db, k)
    ensures var (db', k') := Observe.ClosingStep(codec, db, k, in_); LeaseInv(db', k')
  {
  }

  lemma ProbeStepKeepsRows(db: Db, k: Caller, in_: Observe.Input)
    requires (k.pc.StartQuick? && in_.row !in db.probes) || k.pc.QuickFailed?
    requires RowInv(db, k)
    ensures var (db', k') := Observe.StartingStep(db, k, in_); RowInv(db', k')
  {
  }

  lemma EarlyStepKeepsRows(db: Db, k: Caller, in_: Observe.Input)
    requires k.pc.Begin? || k.pc.Probing?
    requires RowInv(db, k)
    ensures var (db', k') := Observe.StartingStep(db, k, in_); RowInv(db', k')
  {
  }

  lemma CheckKeepsRows(codec: Codec, db: Db, k: Caller, in_: Observe.Input)
    requires k.pc.CheckRow? || k.pc.CheckFile?
    requires RowInv(db, k)
    ensures var (db', k') := Observe.CheckingStep(codec, db, k, in_); RowInv(db', k')
  {
  }

  lemma FinishReuseKeepsRows(codec: Codec, db: Db, k: Caller, in_: Observe.Input)
    requires k.pc.FinishReuse?
    requires RowInv(db, k)
    ensures var (db', k') := Observe.CheckingStep(codec, db, k, in_); RowInv(db', k')
  {
  }

  lemma WaitTimedOutKeepsRows(db: Db, k: Caller, in_: Observe.Input)
    requires k.pc.WaitTimedOut?
    requires RowInv(db, k)
    ensures var (db', k') := Observe.WaitingStep(db, k, in_); RowInv(db', k')
  {
  }

  lemma AcquireKeepsRows(db: Db, k: Caller, in_: Observe.Input)
    requires k.pc.Acquire? || k.pc.DirectAcquire?
    requires RowInv(db, k)
    ensures var (db', k') := Observe.WaitingStep(db, k, in_); RowInv(db', k')
  {
  }

  lemma PollKeepsRows(db: Db, k: Caller, in_: Observe.Input)
    requires k.pc.EnterLoop? || k.pc.PollState? || k.pc.PollLease?
    requires RowInv(db, k)
    ensures var (db', k') := Observe.WaitingStep(db, k, in_); RowInv(db', k')
  {
  }

  lemma LeadKeepsRows(db: Db, k: Caller, in_: Observe.Input)
    requires k.pc.LeaseState? || k.pc.ReadPrevious?
    requires RowInv(db, k)
    ensures var (db', k') := Observe.LeadingStep(db, k, in_); RowInv(db', k')
  {
  }

  lemma RenewKeepsRows(db: Db, k: Caller, in_: Observe.Input)
    requires k.pc.Scanning? && in_.scan.RenewTick?
    requires RowInv(db, k)
    ensures var (db', k') := Observe.LeadingStep(db, k, in_); RowInv(db', k')
  {
  }

  lemma ScannedKeepsRows(db: Db, k: Caller, in_: Observe.Input)
    requires k.pc.Scanning? && !in_.scan.RenewTick?
    requires RowInv(db, k)
    ensures RowInv(db, k.(pc := Observe.AfterScan(k, in_.scan, in_)))
  {
  }

  lemma ScanKeepsRows(db: Db, k: Caller, in_: Observe.Input)
    requires k.pc.Scanning?
    requires RowInv(db, k)
    ensures var (db', k') := Observe.LeadingStep(db, k, in_); RowInv(db', k')
  {
    if in_.scan.RenewTick? { RenewKeepsRows(db, k, in_); } else { ScannedKeepsRows(db, k, in_); }
  }

  lemma DirectCheckKeepsRows(db: Db, k: Caller, in_: Observe.Input)
    requires k.pc.DirectCheck?
    requires RowInv(db, k)
    ensures var (db', k') := Observe.LeadingStep(db, k, in_); RowInv(db', k')
  {
  }

  lemma CreateKeepsRows(codec: Codec, db: Db, k: Caller, in_: Observe.Input)
    requires k.pc.CreateTemp?
    requires RowInv(db, k)
    ensures var (db', k') := Observe.WritingStep(codec, db, k, in_); RowInv(db', k')
  {
  }

  lemma RenameKeepsRows(codec: Codec, db: Db, k: Caller, in_: Observe.Input)
    requires k.pc.RenameTemp?
    requires RowInv(db, k)
    ensures var (db', k') := Observe.WritingStep(codec, db, k, in_); RowInv(db', k')
  {
  }

  lemma DropTempKeepsRows(codec: Codec, db: Db, k: Caller, in_: Observe.Input)
    requires k.pc.DropTemp?
    requires RowInv(db, k)
    ensures var (db', k') := Observe.WritingStep(codec, db, k, in_); RowInv(db', k')
  {
  }

  lemma DropReportKeepsRows(codec: Codec, db: Db, k: Caller, in_: Observe.Input)
    requires k.pc.DropReport?
    requires RowInv(db, k)
    ensures var (db', k') := Observe.WritingStep(codec, db, k, in_); RowInv(db', k')
  {
  }

  lemma ReleaseKeepsRows(codec: Codec, db: Db, k: Caller, in_: Observe.Input)
    requires k.pc.ReleaseLease?
    requires RowInv(db, k)
    ensures var (db', k') := Observe.ClosingStep(codec, db, k, in_); RowInv(db', k')
  {
  }

  lemma LoadKeepsRows(codec: Codec, db: Db, k: Caller, in_: Observe.Input)
    requires k.pc.LoadRow? || k.pc.LoadFile?
    requires RowInv(db, k)
    ensures var (db', k') := Observe.ClosingStep(codec, db, k, in_); RowInv(db', k')
  {
  }

  lemma StartFullKeepsRows(db: Db, k: Caller, in_: Observe.Input)
    requires k.pc.StartFull? && RowInv(db, k) && in_.row !in db.probes
    ensures var (db', k') := Observe.LeadingStep(db, k, in_); RowInv(db', k')
  {
  }

  lemma CommittedKeepsRows(codec: Codec, db: Db, k: Caller, in_: Observe.Input)
    requires k.pc.Commit? && RowInv(db, k) && in_.ok
    requires PublishTransaction(codec, db, k.pc.pub, k.fullRow, k.owner, in_.now).Committed?
    ensures var (db', k') := Observe.CommitStep(codec, db, k, in_, k.pc.pub); RowInv(db', k')
  {
    var db' := Published(codec, db, k.pc.pub, k.fullRow);
    assert db'.lease == db.lease && Owns(db, k.owner);
  }

  lemma UncommittedKeepsRows(codec: Codec, db: Db, k: Caller, in_: Observe.Input)
    requires k.pc.Commit? && RowInv(db, k)
    requires in_.ok ==> !PublishTransaction(codec, db, k.pc.pub, k.fullRow, k.owner, in_.now).Committed?
    ensures var (db', k') := Observe.CommitStep(codec, db, k, in_, k.pc.pub); RowInv(db', k')
  {
  }

  lemma CommitKeepsRows(codec: Codec, db: Db, k: Caller, in_: Observe.Input)
    requires k.pc.Commit? && RowInv(db, k)
    ensures var (db', k') := Observe.CommitStep(codec, db, k, in_, k.pc.pub); RowInv(db', k')
  {
    if in_.ok && PublishTransaction(codec, db, k.pc.pub, k.fullRow, k.owner, in_.now).Committed? {
      CommittedKeepsRows(codec, db, k, in_);
    } else {
      UncommittedKeepsRows(codec, db, k, in_);
    }
  }

  lemma FailFullKeepsRows(db: Db, k: Caller, ok: bool)
    requires k.pc.FailFull? && RowInv(db, k)
    ensures var (db', k') := Observe.FailFullStep(db, k, ok, k.pc.error); RowInv(db', k')
  {
  }

  lemma ConcludeKeepsRows(db: Db, k: Caller, ok: bool)
    requires k.pc.Conclude? && RowInv(db, k)
    ensures var (db', k') := Observe.ConcludeStep(db, k, ok, k.pc.result); RowInv(db', k')
  {
  }

  lemma StepKeepsRows(codec: Codec, db: Db, k: Caller, in_: Observe.Input)
    requires RowInv(db, k) && in_.row !in db.probes
    ensures var (db', k') := Observe.Step(codec, db, k, in_); RowInv(db', k')
  {
    match k.pc
    case Begin | Probing => EarlyStepKeepsRows(db, k, in_);
    case StartQuick | QuickFailed => ProbeStepKeepsRows(db, k, in_);
    case CheckRow(_, _) | CheckFile(_, _, _) => CheckKeepsRows(codec, db, k, in_);
    case FinishReuse(_) => FinishReuseKeepsRows(codec, db, k, in_);
    case WaitTimedOut => WaitTimedOutKeepsRows(db, k, in_);
    case Acquire | DirectAcquire => AcquireKeepsRows(db, k, in_);
    case EnterLoop | PollState | PollLease => PollKeepsRows(db, k, in_);
    case LeaseState | ReadPrevious => LeadKeepsRows(db, k, in_);
    case StartFull => StartFullKeepsRows(db, k, in_);
    case Scanning => ScanKeepsRows(db, k, in_);
    case DirectCheck => DirectCheckKeepsRows(db, k, in_);
    case CreateTemp(_) => CreateKeepsRows(codec, db, k, in_);
    case RenameTemp(_) => RenameKeepsRows(codec, db, k, in_);
    case DropTemp(_) => DropTempKeepsRows(codec, db, k, in_);
    case DropReport(_, _) => DropReportKeepsRows(codec, db, k, in_);
    case Commit(_) => CommitKeepsRows(codec, db, k, in_);
    case FailFull(_) => FailFullKeepsRows(db, k, in_.ok);
    case Conclude(_) => ConcludeKeepsRows(db, k, in_.ok);
    case ReleaseLease(_, _) => ReleaseKeepsRows(codec, db, k, in_);
    case LoadRow(_) | LoadFile(_, _) => LoadKeepsRows(codec, db, k, in_);
    case Done(_) =>
  }

  lemma StepKeepsLease(codec: Codec, db: Db, k: Caller, in_: Observe.Input)
    requires LeaseInv(db, k) && RowInv(db, k)
    ensures var (db', k') := Observe.Step(codec, db, k, in_); LeaseInv(db', k')
  {
    match Observe.PhaseOf(k.pc)
    case Starting => StartingKeepsLease(db, k, in_);
    case Checking => CheckingKeepsLease(codec, db, k, in_);
    case Waiting => WaitingKeepsLease(db, k, in_);
    case Leading => LeadingKeepsLease(db, k, in_);
    case Writing => WritingKeepsLease(codec, db, k, in_);
    case Closing => ClosingKeepsLease(codec, db, k, in_);
    case Over =>
  }

  /** One step of a caller keeps the database invariant and the caller's own. */
  lemma StepKeepsInvariants(codec: Codec, db: Db, k: Caller, in_: Observe.Input)
    requires DbInv(db) && CallerInv(codec, db, k) && in_.row !in db.probes && !InHistory(db.history, in_.id)
    ensures var (db', k') := Observe.Step(codec, db, k, in_);
      DbInv(db') && CallerInv(codec, db', k') && CallerEffect(codec, db, k, in_.row, db')
  {
    StepHasEffect(codec, db, k, in_);
    EffectKeepsDb(codec, db, k, in_.row, Observe.Step(codec, db, k, in_).0);
    StepKeepsLease(codec, db, k, in_);
    StepKeepsRows(codec, db, k, in_);
    if ReadsCatalog(k.pc) { CatalogStepKeepsAnswer(codec, db, k, in_); } else { OtherStepKeepsAnswer(codec, db, k, in_); }
  }
}
