/** What happens when nothing goes wrong: a good scan is published and answered, and a call
    that finds the answer of another one waiting for it takes that. */
module Progress {
  import opened Wrappers
  import opened Store
  import opened Effects
  import opened Invariants
  import opened System
  import opened Safety
  import opened Artifacts
  import opened Theorems
  import opened Acceptance
  import Observe
  import SteadyState
  import Preservation

  /** From the end of a scan to the answer; or from an attempt to take the lease, that fails or
      succeeds, to the reuse of the snapshot current then; or the whole of a direct publication. */
  datatype Route = Scan(id: Uuid) | Waiting(id: Uuid) | Leading(id: Uuid) | Direct(id: Uuid)

  function Length(route: Route): nat {
    match route
    case Scan(_) => 8
    case Waiting(_) => 7
    case Leading(_) => 8
    case Direct(_) => 6
  }

  function Answer(route: Route): Observe.Outcome {
    if route.Scan? then Observe.NewScan(route.id) else Observe.Reused(route.id)
  }

  predicate OnScan(pc: Observe.Pc, id: Uuid, stage: nat) {
    match stage
    case 0 => pc.Scanning?
    case 1 => pc.CreateTemp? && pc.pub.id == id
    case 2 => pc.RenameTemp? && pc.pub.id == id
    case 3 => pc.Commit? && pc.pub.id == id
    case 4 => pc == Observe.Conclude(Ok(Observe.NewScan(id)))
    case 5 => pc == Observe.ReleaseLease(Ok(Observe.NewScan(id)), true)
    case 6 => pc == Observe.LoadRow(Observe.NewScan(id))
    case 7 => pc.LoadFile? && pc.answer == Observe.NewScan(id)
    case _ => stage == 8 && pc == Observe.Done(Ok(Observe.NewScan(id)))
  }

  predicate OnWait(pc: Observe.Pc, id: Uuid, stage: nat) {
    match stage
    case 0 => pc.Acquire?
    case 1 => pc.PollState?
    case 2 => pc == Observe.CheckRow(Observe.WhileWaiting, id)
    case 3 => pc.CheckFile? && pc.why.WhileWaiting? && pc.id == id
    case 4 => pc == Observe.FinishReuse(id)
    case 5 => pc == Observe.LoadRow(Observe.Reused(id))
    case 6 => pc.LoadFile? && pc.answer == Observe.Reused(id)
    case _ => stage == 7 && pc == Observe.Done(Ok(Observe.Reused(id)))
  }

  predicate OnLease(pc: Observe.Pc, id: Uuid, stage: nat) {
    match stage
    case 0 => pc.Acquire?
    case 1 => pc.LeaseState?
    case 2 => pc == Observe.CheckRow(Observe.UnderLease, id)
    case 3 => pc.CheckFile? && pc.why.UnderLease? && pc.id == id
    case 4 => pc == Observe.Conclude(Ok(Observe.Reused(id)))
    case 5 => pc == Observe.ReleaseLease(Ok(Observe.Reused(id)), true)
    case 6 => pc == Observe.LoadRow(Observe.Reused(id))
    case 7 => pc.LoadFile? && pc.answer == Observe.Reused(id)
    case _ => stage == 8 && pc == Observe.Done(Ok(Observe.Reused(id)))
  }

  predicate OnDirect(pc: Observe.Pc, id: Uuid, stage: nat) {
    match stage
    case 0 => pc.DirectAcquire?
    case 1 => pc.DirectCheck?
    case 2 => pc.CreateTemp? && pc.pub.id == id
    case 3 => pc.RenameTemp? && pc.pub.id == id
    case 4 => pc.Commit? && pc.pub.id == id
    case 5 => pc == Observe.ReleaseLease(Ok(Observe.NewScan(id)), true)
    case _ => stage == 6 && pc == Observe.Done(Ok(Observe.NewScan(id)))
  }

  predicate OnRoute(k: Caller, route: Route, stage: nat) {
    (Observe.IsDirect(k) <==> route.Direct?)
    && match route
       case Scan(id) => OnScan(k.pc, id, stage)
       case Waiting(id) => OnWait(k.pc, id, stage)
       case Leading(id) => OnLease(k.pc, id, stage)
       case Direct(id) => OnDirect(k.pc, id, stage)
  }

  /** The state row records exactly what the call's quick probe saw, of a snapshot that is young
      enough; and the call is not forced, or somebody published since its first read. */
  predicate MayReuse(db: Db, k: Caller, wall: real, forced: bool) {
    k.quick.Some?
    && db.state.machine == Some(k.quick.value.machine) && db.state.fingerprint == Some(k.quick.value.fingerprint)
    && db.state.version == Some(k.quick.value.version)
    && Observe.WithinAge(Observe.ReadState(db).created, k.opts.maxAge, wall)
    && (db.state.current == k.initial.state.current ==> !forced)
  }

  predicate InForce(db: Db, now: real) { db.lease.Some? && now < db.lease.value.expires }

  /** The step goes well: no store call or file operation fails, the report is acceptable, the
      temporary file is still there, and the commit comes before the expiry of the call's own
      lease. */
  predicate GoesWell(db: Db, k: Caller, in_: Observe.Input, route: Route) {
    && in_.ok
    && (k.pc.Scanning? || k.pc.DirectCheck? ==> in_.scan.ScanDone? && Acceptable(k, in_.scan.report) && in_.id == route.id)
    && (k.pc.DirectAcquire? ==> !InForce(db, in_.now))
    && (k.pc.RenameTemp? ==> ReportTemp(k.pc.pub.id, k.pc.pub.pid) in db.files)
    && (k.pc.Commit? ==> Owns(db, k.owner) && in_.now < db.lease.value.expires)
    && (k.pc.Acquire? ==> k.quick.Some? && (route.Waiting? <==> InForce(db, in_.now)))
    && (k.pc.PollState? ==> MayReuse(db, k, in_.wall, k.opts.force))
    && (k.pc.LeaseState? ==> MayReuse(db, k, in_.wall, true))
  }

  /** No report is in hand yet. */
  predicate ToScan(pc: Observe.Pc) { pc.Scanning? || pc.DirectAcquire? || pc.DirectCheck? }

  /** The snapshot to answer with is there and its report can be read. */
  predicate Loads(codec: Codec, db: Db, k: Caller, id: Uuid) {
    && (k.pc.Commit? ==> id !in db.snapshots)
    && (!ToScan(k.pc) && Publishing(k.pc).None? ==> db.state.current == Some(id) && id in db.snapshots)
    && (k.pc.CheckFile? || k.pc.LoadFile? ==> Verifies(codec, db.files, k.pc.meta))
  }

  lemma ScanIsWritten(codec: Codec, db: Db, k: Caller, in_: Observe.Input, id: Uuid, stage: nat)
    requires !Observe.IsDirect(k) && OnScan(k.pc, id, stage) && 1 <= stage < 4
    requires GoesWell(db, k, in_, Scan(id)) && Loads(codec, db, k, id)
    ensures var (db', k') := Observe.WritingStep(codec, db, k, in_);
      && OnScan(k'.pc, id, stage + 1) && k'.quickRow == k.quickRow
      && (if stage == 3 then db'.state.current == Some(id) else db'.state == db.state)
  {
  }

  lemma ScanIsClosed(codec: Codec, db: Db, k: Caller, in_: Observe.Input, id: Uuid, stage: nat)
    requires !Observe.IsDirect(k) && OnScan(k.pc, id, stage) && 4 <= stage < 8
    requires GoesWell(db, k, in_, Scan(id)) && Loads(codec, db, k, id)
    ensures var (db', k') := Observe.ClosingStep(codec, db, k, in_);
      OnScan(k'.pc, id, stage + 1) && k'.quickRow == k.quickRow && db'.state == db.state
  {
  }

  lemma ScanAdvances(codec: Codec, db: Db, k: Caller, in_: Observe.Input, id: Uuid, stage: nat)
    requires !Observe.IsDirect(k) && OnScan(k.pc, id, stage) && stage < 8
    requires GoesWell(db, k, in_, Scan(id)) && Loads(codec, db, k, id)
    ensures var (db', k') := Observe.Step(codec, db, k, in_);
      && OnScan(k'.pc, id, stage + 1) && k'.quickRow == k.quickRow
      && (if stage == 3 then db'.state.current == Some(id) else db'.state == db.state)
  {
    if stage == 0 {
      assert Observe.Step(codec, db, k, in_) == Observe.LeadingStep(db, k, in_);
    } else if stage < 4 {
      assert Observe.Step(codec, db, k, in_) == Observe.WritingStep(codec, db, k, in_);
      ScanIsWritten(codec, db, k, in_, id, stage);
    } else {
      assert Observe.Step(codec, db, k, in_) == Observe.ClosingStep(codec, db, k, in_);
      ScanIsClosed(codec, db, k, in_, id, stage);
    }
  }

  lemma WaitAdvances(codec: Codec, db: Db, k: Caller, in_: Observe.Input, id: Uuid, stage: nat)
    requires !Observe.IsDirect(k) && OnWait(k.pc, id, stage) && stage < 7
    requires GoesWell(db, k, in_, Waiting(id)) && Loads(codec, db, k, id)
    ensures var (db', k') := Observe.Step(codec, db, k, in_);
      OnWait(k'.pc, id, stage + 1) && k'.quickRow == k.quickRow && db'.state == db.state
  {
    if stage < 2 {
      assert Observe.Step(codec, db, k, in_) == Observe.WaitingStep(db, k, in_);
    } else if stage < 5 {
      assert Observe.Step(codec, db, k, in_) == Observe.CheckingStep(codec, db, k, in_);
    } else {
      assert Observe.Step(codec, db, k, in_) == Observe.ClosingStep(codec, db, k, in_);
    }
  }

  lemma LeaseAdvances(codec: Codec, db: Db, k: Caller, in_: Observe.Input, id: Uuid, stage: nat)
    requires !Observe.IsDirect(k) && OnLease(k.pc, id, stage) && stage < 8
    requires GoesWell(db, k, in_, Leading(id)) && Loads(codec, db, k, id)
    ensures var (db', k') := Observe.Step(codec, db, k, in_);
      OnLease(k'.pc, id, stage + 1) && k'.quickRow == k.quickRow && db'.state == db.state
  {
    if stage == 0 {
      assert Observe.Step(codec, db, k, in_) == Observe.WaitingStep(db, k, in_);
    } else if stage == 1 {
      assert Observe.Step(codec, db, k, in_) == Observe.LeadingStep(db, k, in_);
    } else if stage < 4 {
      assert Observe.Step(codec, db, k, in_) == Observe.CheckingStep(codec, db, k, in_);
    } else {
      assert Observe.Step(codec, db, k, in_) == Observe.ClosingStep(codec, db, k, in_);
    }
  }

  lemma DirectAdvances(codec: Codec, db: Db, k: Caller, in_: Observe.Input, id: Uuid, stage: nat)
    requires Observe.IsDirect(k) && OnDirect(k.pc, id, stage) && stage < 6
    requires GoesWell(db, k, in_, Direct(id)) && Loads(codec, db, k, id)
    ensures var (db', k') := Observe.Step(codec, db, k, in_);
      && OnDirect(k'.pc, id, stage + 1) && k'.quickRow == k.quickRow
      && (if stage == 4 then db'.state.current == Some(id) else db'.state == db.state)
  {
    if stage == 0 {
      assert Observe.Step(codec, db, k, in_) == Observe.WaitingStep(db, k, in_);
    } else if stage == 1 {
      assert Observe.Step(codec, db, k, in_) == Observe.LeadingStep(db, k, in_);
    } else if stage < 5 {
      assert Observe.Step(codec, db, k, in_) == Observe.WritingStep(codec, db, k, in_);
    } else {
      assert Observe.Step(codec, db, k, in_) == Observe.ClosingStep(codec, db, k, in_);
    }
  }

  /** The stage from which on the snapshot of the answer is the current one. */
  function Since(route: Route): nat {
    match route
    case Scan(_) => 4
    case Direct(_) => 5
    case _ => 0
  }

  predicate Arrived(db: Db, k: Caller, route: Route, stage: nat) {
    OnRoute(k, route, stage) && (stage >= Since(route) ==> db.state.current == Some(route.id))
  }

  lemma RouteAdvances(codec: Codec, db: Db, k: Caller, in_: Observe.Input, route: Route, stage: nat)
    requires Arrived(db, k, route, stage) && stage < Length(route)
    requires GoesWell(db, k, in_, route) && Loads(codec, db, k, route.id)
    ensures var (db', k') := Observe.Step(codec, db, k, in_); Arrived(db', k', route, stage + 1)
  {
    match route
    case Scan(id) => ScanAdvances(codec, db, k, in_, id, stage);
    case Waiting(id) => WaitAdvances(codec, db, k, in_, id, stage);
    case Leading(id) => LeaseAdvances(codec, db, k, in_, id, stage);
    case Direct(id) => DirectAdvances(codec, db, k, in_, id, stage);
  }

  // ----- in every run -----

  /** Nobody else publishes at step m, and the call's own step goes well. */
  predicate Quiet(trace: seq<Sys>, steps: seq<Step>, m: nat, a: nat, route: Route) {
    m < |steps| && m + 1 < |trace|
    && if StepOf(steps, m, a) && HasCaller(trace[m], a)
       then GoesWell(trace[m].db, trace[m].actors[a].k, steps[m].observe, route)
       else trace[m + 1].db.history == trace[m].db.history
  }

  lemma DrawnIsFree(codec: Codec, db: Db, k: Caller)
    requires CatalogInv(db.state, db.snapshots, db.history) && AnswerInv(codec, db.history, k) && k.pc.Commit?
    ensures k.pc.pub.id !in db.snapshots
  {
  }

  lemma ReportLoads(codec: Codec, db: Db, k: Caller, id: Uuid)
    requires CatalogInv(db.state, db.snapshots, db.history) && AnswerInv(codec, db.history, k) && LiveVerified(codec, db)
    requires id in db.snapshots && ((k.pc.CheckFile? && k.pc.id == id) || (k.pc.LoadFile? && k.pc.answer.id == id))
    ensures Verifies(codec, db.files, k.pc.meta)
  {
    SteadyState.CurrentVerifies(codec, db, id, k.pc.meta);
  }

  /** Where the route stands, the snapshot to answer with is the current one or not yet there. */
  lemma RoutePc(db: Db, k: Caller, route: Route, stage: nat)
    requires Arrived(db, k, route, stage) && stage < Length(route)
    ensures k.pc.Commit? ==> k.pc.pub.id == route.id
    ensures k.pc.CheckFile? ==> k.pc.id == route.id
    ensures k.pc.LoadFile? ==> k.pc.answer.id == route.id
    ensures !ToScan(k.pc) && Publishing(k.pc).None? ==> db.state.current == Some(route.id)
    ensures k.pc.CheckFile? || k.pc.LoadFile? ==> !ToScan(k.pc) && Publishing(k.pc).None?
  {
  }

  lemma RouteLoads(codec: Codec, trace: seq<Sys>, steps: seq<Step>, m: nat, a: nat, route: Route, stage: nat)
    requires Behaviour(codec, trace, steps) && NeverExposed(trace, m) && m < |trace| && HasCaller(trace[m], a)
    requires Arrived(trace[m].db, trace[m].actors[a].k, route, stage) && stage < Length(route)
    ensures Loads(codec, trace[m].db, trace[m].actors[a].k, route.id)
  {
    AlwaysInv(codec, trace, steps, m);
    CallerAlwaysInv(codec, trace, steps, m, a);
    ArtifactsConserved(codec, trace, steps, m);
    var db, k := trace[m].db, trace[m].actors[a].k;
    RoutePc(db, k, route, stage);
    if k.pc.Commit? { DrawnIsFree(codec, db, k); }
    if k.pc.CheckFile? || k.pc.LoadFile? { ReportLoads(codec, db, k, route.id); }
  }

  lemma OwnRouteStep(codec: Codec, trace: seq<Sys>, steps: seq<Step>, m: nat, a: nat, route: Route, stage: nat)
    requires Behaviour(codec, trace, steps) && NeverExposed(trace, m) && m < |steps| && HasCaller(trace[m], a) && StepOf(steps, m, a)
    requires GoesWell(trace[m].db, trace[m].actors[a].k, steps[m].observe, route)
    requires Arrived(trace[m].db, trace[m].actors[a].k, route, stage) && stage < Length(route)
    ensures HasCaller(trace[m + 1], a) && Arrived(trace[m + 1].db, trace[m + 1].actors[a].k, route, stage + 1)
  {
    assert Follows(codec, trace, steps, m);
    RouteLoads(codec, trace, steps, m, a, route, stage);
    RouteAdvances(codec, trace[m].db, trace[m].actors[a].k, steps[m].observe, route, stage);
  }

  lemma OtherRouteStep(codec: Codec, trace: seq<Sys>, steps: seq<Step>, m: nat, a: nat, route: Route, stage: nat)
    requires Behaviour(codec, trace, steps) && m < |steps| && HasCaller(trace[m], a) && HasCaller(trace[m + 1], a)
    requires trace[m + 1].actors[a] == trace[m].actors[a] && trace[m + 1].db.history == trace[m].db.history
    requires Arrived(trace[m].db, trace[m].actors[a].k, route, stage)
    ensures Arrived(trace[m + 1].db, trace[m + 1].actors[a].k, route, stage)
  {
    CurrentIsInHistory(codec, trace, steps, m);
    CurrentIsInHistory(codec, trace, steps, m + 1);
  }

  /** A call that has answered takes no further step that changes anything. */
  lemma AnsweredStays(codec: Codec, db: Db, k: Caller, in_: Observe.Input, route: Route)
    requires Arrived(db, k, route, Length(route))
    ensures Observe.Step(codec, db, k, in_) == (db, k)
  {
  }

  lemma RouteStep(codec: Codec, trace: seq<Sys>, steps: seq<Step>, m: nat, a: nat, owner: Uuid, route: Route, stage: nat)
    requires Behaviour(codec, trace, steps) && NeverExposed(trace, m) && m < |steps|
    requires Is(trace, m, a, owner) && Is(trace, m + 1, a, owner) && Quiet(trace, steps, m, a, route)
    requires Arrived(trace[m].db, trace[m].actors[a].k, route, stage) && stage <= Length(route)
    ensures Arrived(trace[m + 1].db, trace[m + 1].actors[a].k, route, if StepOf(steps, m, a) && stage < Length(route) then stage + 1 else stage)
  {
    if StepOf(steps, m, a) && stage < Length(route) {
      OwnRouteStep(codec, trace, steps, m, a, route, stage);
    } else {
      assert Follows(codec, trace, steps, m);
      if StepOf(steps, m, a) {
        AnsweredStays(codec, trace[m].db, trace[m].actors[a].k, steps[m].observe, route);
      } else {
        OtherRouteStep(codec, trace, steps, m, a, route, stage);
      }
    }
  }

  lemma {:induction false} RouteIsTaken(codec: Codec, trace: seq<Sys>, steps: seq<Step>, b: nat, n: nat, a: nat, owner: Uuid,
                                        route: Route)
    requires Behaviour(codec, trace, steps) && NeverExposed(trace, n) && b <= n < |trace|
    requires forall m :: b <= m < n ==> Quiet(trace, steps, m, a, route)
    requires Is(trace, b, a, owner) && Is(trace, n, a, owner) && Arrived(trace[b].db, trace[b].actors[a].k, route, 0)
    ensures var done := OwnSteps(steps, b, n, a);
      Arrived(trace[n].db, trace[n].actors[a].k, route, if done <= Length(route) then done else Length(route))
  {
    if n > b {
      OwnerIdentifiesActor(codec, trace, steps, b, a, n, a, owner);
      assert Is(trace, n - 1, a, owner);
      RouteIsTaken(codec, trace, steps, b, n - 1, a, owner, route);
      var done := OwnSteps(steps, b, n - 1, a);
      RouteStep(codec, trace, steps, n - 1, a, owner, route, if done <= Length(route) then done else Length(route));
    }
  }

  /** A good scan is published and answered: from the end of a scan with an acceptable report,
      if nothing fails, nobody else publishes and the commit is in time, the call has answered
      after exactly eight steps of its own with the new snapshot, which is the current one. */
  lemma GoodScanIsAnswered(codec: Codec, trace: seq<Sys>, steps: seq<Step>, b: nat, n: nat, a: nat, owner: Uuid, id: Uuid)
    requires Behaviour(codec, trace, steps) && NeverExposed(trace, n) && b <= n < |trace|
    requires forall m :: b <= m < n ==> Quiet(trace, steps, m, a, Scan(id))
    requires Is(trace, b, a, owner) && Is(trace, n, a, owner)
    requires trace[b].actors[a].k.pc.Scanning? && OwnSteps(steps, b, n, a) >= 8
    ensures trace[n].actors[a].k.pc == Observe.Done(Ok(Observe.NewScan(id))) && trace[n].db.state.current == Some(id)
  {
    CallerAlwaysInv(codec, trace, steps, b, a);
    RouteIsTaken(codec, trace, steps, b, n, a, owner, Scan(id));
  }

  /** A direct publication of an acceptable report, if the lease is free, nothing fails, nobody else
      publishes and the commit is in time, is done after exactly six steps of its own, with the
      new snapshot as the current one. */
  lemma DirectReportIsPublished(codec: Codec, trace: seq<Sys>, steps: seq<Step>, b: nat, n: nat, a: nat, owner: Uuid, id: Uuid)
    requires Behaviour(codec, trace, steps) && NeverExposed(trace, n) && b <= n < |trace|
    requires forall m :: b <= m < n ==> Quiet(trace, steps, m, a, Direct(id))
    requires Is(trace, b, a, owner) && Is(trace, n, a, owner)
    requires trace[b].actors[a].k.pc.DirectAcquire? && OwnSteps(steps, b, n, a) >= 6
    ensures trace[n].actors[a].k.pc == Observe.Done(Ok(Observe.NewScan(id))) && trace[n].db.state.current == Some(id)
  {
    CallerAlwaysInv(codec, trace, steps, b, a);
    RouteIsTaken(codec, trace, steps, b, n, a, owner, Direct(id));
  }

  /** A call that is kept from the lease, or that gets it only after somebody else has published,
      takes that snapshot, forced or not, if it records what the call's own quick probe saw: it
      answers after seven steps of its own from the attempt to take the lease, or eight if that
      succeeds, and does not scan. A call that is kept waiting and is not forced takes any such
      snapshot. */
  lemma PeersSnapshotIsReused(codec: Codec, trace: seq<Sys>, steps: seq<Step>, b: nat, n: nat, a: nat, owner: Uuid, route: Route)
    requires Behaviour(codec, trace, steps) && NeverExposed(trace, n) && b <= n < |trace| && (route.Waiting? || route.Leading?)
    requires forall m :: b <= m < n ==> Quiet(trace, steps, m, a, route)
    requires Is(trace, b, a, owner) && Is(trace, n, a, owner) && trace[b].actors[a].k.pc.Acquire?
    requires trace[b].db.state.current == Some(route.id) && OwnSteps(steps, b, n, a) >= if route.Waiting? then 7 else 8
    ensures trace[n].actors[a].k.pc == Observe.Done(Ok(Observe.Reused(route.id)))
  {
    CallerAlwaysInv(codec, trace, steps, b, a);
    RouteIsTaken(codec, trace, steps, b, n, a, owner, route);
  }

  // ----- from the first step to the scan -----

  /** The way to a full scan, after a quick probe that reports something or that fails. */
  predicate OnStart(pc: Observe.Pc, failed: bool, stage: nat) {
    match stage
    case 0 => pc.Begin?
    case 1 => pc.StartQuick?
    case 2 => pc.Probing?
    case 3 => if failed then pc.QuickFailed? else pc.EnterLoop?
    case 4 => if failed then pc.EnterLoop? else pc.Acquire?
    case 5 => if failed then pc.Acquire? else pc.LeaseState?
    case 6 => pc.ReadPrevious?
    case 7 => pc.StartFull?
    case _ => stage == 8 && pc.Scanning?
  }

  /** On the way nothing has been published since the first state read. */
  predicate Starting(db: Db, k: Caller, failed: bool, stage: nat) {
    && OnStart(k.pc, failed, stage)
    && (stage >= 1 ==> k.initial.state == db.state)
    && (if stage <= 2 then k.quick.None? else (k.quick.None? <==> failed))
    && (stage == 7 ==> k.previous == db.state.current)
    && (stage == 8 ==> k.fullRow.Some?)
  }

  /** There is nothing to reuse: no snapshot, or a forced scan, or other hardware than the state
      row records, or a snapshot that is too old. */
  predicate NeedsScan(db: Db, k: Caller, q: QuickReport, wall: real) {
    || db.state.current.None? || k.opts.force
    || db.state.machine != Some(q.machine) || db.state.fingerprint != Some(q.fingerprint) || db.state.version != Some(q.version)
    || !Observe.WithinAge(Observe.ReadState(db).created, k.opts.maxAge, wall)
  }

  predicate StartsWell(db: Db, k: Caller, in_: Observe.Input, failed: bool) {
    && in_.ok
    && (k.pc.Probing? ==> if failed then in_.quick.None? else in_.quick.Some? && NeedsScan(db, k, in_.quick.value, in_.wall))
    && (k.pc.Acquire? ==> !InForce(db, in_.now))
  }

  lemma StartAdvances(codec: Codec, db: Db, k: Caller, in_: Observe.Input, failed: bool, stage: nat)
    requires Starting(db, k, failed, stage) && stage < 8 && StartsWell(db, k, in_, failed)
    requires stage == 2 ==> k.initial == Observe.ReadState(db)
    requires Present(db, db.state.current) && (stage == 3 && failed ==> k.quickRow.Some?)
    ensures var (db', k') := Observe.Step(codec, db, k, in_);
      Starting(db', k', failed, stage + 1) && db'.state == db.state
  {
    if stage <= 2 || (stage == 3 && failed) {
      assert Observe.Step(codec, db, k, in_) == Observe.StartingStep(db, k, in_);
    } else if stage == 3 || stage == 4 || (stage == 5 && failed) {
      assert Observe.Step(codec, db, k, in_) == Observe.WaitingStep(db, k, in_);
    } else {
      assert Observe.Step(codec, db, k, in_) == Observe.LeadingStep(db, k, in_);
    }
  }

  /** Nobody publishes at step m, and the call's own step goes well. */
  predicate QuietStart(trace: seq<Sys>, steps: seq<Step>, m: nat, a: nat, failed: bool) {
    m < |steps| && m + 1 < |trace| && trace[m + 1].db.history == trace[m].db.history
    && (StepOf(steps, m, a) && HasCaller(trace[m], a) ==> StartsWell(trace[m].db, trace[m].actors[a].k, steps[m].observe, failed))
  }

  lemma StartFacts(codec: Codec, trace: seq<Sys>, steps: seq<Step>, m: nat, a: nat, failed: bool, stage: nat)
    requires Behaviour(codec, trace, steps) && m < |trace| && HasCaller(trace[m], a)
    requires Starting(trace[m].db, trace[m].actors[a].k, failed, stage)
    ensures Present(trace[m].db, trace[m].db.state.current)
    ensures stage == 3 && failed ==> trace[m].actors[a].k.quickRow.Some?
  {
    AlwaysInv(codec, trace, steps, m);
    CallerAlwaysInv(codec, trace, steps, m, a);
  }

  /** The state that the call read first is still there. */
  lemma SameViewSinceStart(codec: Codec, trace: seq<Sys>, steps: seq<Step>, m: nat, a: nat, failed: bool)
    requires Behaviour(codec, trace, steps) && m < |trace| && HasCaller(trace[m], a)
    requires Starting(trace[m].db, trace[m].actors[a].k, failed, 2)
    requires trace[m].actors[a].k.mark == |trace[m].db.history|
    ensures trace[m].actors[a].k.initial == Observe.ReadState(trace[m].db)
  {
    AlwaysInv(codec, trace, steps, m);
    CallerAlwaysInv(codec, trace, steps, m, a);
    Preservation.ReadStateMirrorsHistory(trace[m].db);
    assert trace[m].db.history[..|trace[m].db.history|] == trace[m].db.history;
  }

  lemma StartStep(codec: Codec, trace: seq<Sys>, steps: seq<Step>, b: nat, m: nat, a: nat, owner: Uuid, failed: bool, stage: nat)
    requires Behaviour(codec, trace, steps) && b <= m < |steps| && trace[m].db.history == trace[b].db.history
    requires Is(trace, b, a, owner) && Is(trace, m, a, owner) && Is(trace, m + 1, a, owner) && QuietStart(trace, steps, m, a, failed)
    requires Starting(trace[m].db, trace[m].actors[a].k, failed, stage) && (StepOf(steps, m, a) ==> stage < 8)
    requires stage == 2 ==> trace[m].actors[a].k.mark == |trace[m].db.history|
    ensures Starting(trace[m + 1].db, trace[m + 1].actors[a].k, failed, if StepOf(steps, m, a) then stage + 1 else stage)
  {
    assert Follows(codec, trace, steps, m);
    if StepOf(steps, m, a) {
      StartFacts(codec, trace, steps, m, a, failed, stage);
      if stage == 2 { SameViewSinceStart(codec, trace, steps, m, a, failed); }
      StartAdvances(codec, trace[m].db, trace[m].actors[a].k, steps[m].observe, failed, stage);
    } else {
      CurrentIsInHistory(codec, trace, steps, m);
      CurrentIsInHistory(codec, trace, steps, m + 1);
    }
  }

  /** The mark of a call that has begun: nothing was published since. */
  predicate Marked(trace: seq<Sys>, b: nat, n: nat, a: nat, stage: nat) {
    b < |trace| && n < |trace| && HasCaller(trace[n], a) && trace[n].db.history == trace[b].db.history
    && (stage >= 1 ==> trace[n].actors[a].k.mark == |trace[n].db.history|)
  }

  lemma MarkStep(codec: Codec, trace: seq<Sys>, steps: seq<Step>, b: nat, m: nat, a: nat, owner: Uuid, failed: bool, stage: nat)
    requires Behaviour(codec, trace, steps) && b <= m < |steps| && Marked(trace, b, m, a, stage)
    requires Is(trace, m, a, owner) && Is(trace, m + 1, a, owner) && QuietStart(trace, steps, m, a, failed)
    requires OnStart(trace[m].actors[a].k.pc, failed, stage)
    ensures Marked(trace, b, m + 1, a, if StepOf(steps, m, a) then stage + 1 else stage)
  {
    assert Follows(codec, trace, steps, m);
    if StepOf(steps, m, a) && stage > 0 {
      MarkIsKept(codec, trace[m].db, trace[m].actors[a].k, steps[m].observe);
    }
  }

  /** A scan that is needed is started: if the call's quick probe fails or finds nothing to
      reuse, nobody publishes, nothing fails and the lease is free when the call asks for it,
      then after exactly eight steps of its own it scans, with a probe row of its own. */
  lemma {:induction false} NeededScanIsStarted(codec: Codec, trace: seq<Sys>, steps: seq<Step>, b: nat, n: nat, a: nat, owner: Uuid,
                                               failed: bool)
    requires Behaviour(codec, trace, steps) && b <= n < |trace|
    requires forall m :: b <= m < n ==> QuietStart(trace, steps, m, a, failed)
    requires Is(trace, b, a, owner) && Is(trace, n, a, owner) && trace[b].actors[a].k.pc.Begin? && OwnSteps(steps, b, n, a) <= 8
    ensures Starting(trace[n].db, trace[n].actors[a].k, failed, OwnSteps(steps, b, n, a))
    ensures Marked(trace, b, n, a, OwnSteps(steps, b, n, a))
  {
    if n > b {
      OwnerIdentifiesActor(codec, trace, steps, b, a, n, a, owner);
      assert Is(trace, n - 1, a, owner);
      NeededScanIsStarted(codec, trace, steps, b, n - 1, a, owner, failed);
      var stage := OwnSteps(steps, b, n - 1, a);
      StartStep(codec, trace, steps, b, n - 1, a, owner, failed, stage);
      MarkStep(codec, trace, steps, b, n - 1, a, owner, failed, stage);
    } else {
      CallerAlwaysInv(codec, trace, steps, b, a);
    }
  }
}
