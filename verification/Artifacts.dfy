/** Crash-safe conservation of report files. Orphan recovery does not look at the lease, so it
    can meet a report that is written but not yet committed. `Exposes` says exactly when, and
    conservation holds for every run in which that never happens. */
module Artifacts {
  import opened Wrappers
  import opened Store
  import opened Effects
  import opened Invariants
  import opened System
  import opened Safety
  import Observe
  import Retention
  import Opening

  /** Every committed snapshot row has its report on disk, as recorded. */
  ghost predicate LiveVerified(codec: Codec, db: Db) {
    forall id :: id in db.snapshots ==>
      db.snapshots[id].artifact.file == ReportJson(id) && Verifies(codec, db.files, db.snapshots[id].artifact)
  }

  /** In plain terms: a file under the snapshot's own name, which its row names, has the length,
      the digest and the schema version of the row. */
  predicate HasReport(codec: Codec, db: Db, id: Uuid)
    requires id in db.snapshots
  {
    var meta := db.snapshots[id].artifact;
    meta.file == ReportJson(id) && ReportJson(id) in db.files
    && |db.files[ReportJson(id)]| == meta.size && codec.sha(db.files[ReportJson(id)]) == meta.sha256
    && codec.schemaOf(db.files[ReportJson(id)]) == Some(meta.schema)
  }

  /** The report of a snapshot that was committed and has been deleted since. */
  ghost predicate Dead(db: Db, n: FileName) {
    n.ReportJson? && n.id !in db.snapshots && InHistory(db.history, n.id)
  }

  ghost predicate QueueDead(db: Db) {
    forall n :: n in db.queue ==> Dead(db, n)
  }

  // ----- the window -----

  /** Left alone, the sweep over `todo` gets as far as this file and removes it: it is there, it
      is not known, and no removable file before it is missing, which would end the sweep. */
  predicate WillSweep(known: set<FileName>, todo: seq<FileName>, there: set<FileName>, n: FileName) {
    n !in known && todo != []
    && if todo[0] == n then n in there
       else (Removable(todo[0], known) ==> todo[0] in there)
            && WillSweep(known, todo[1..], if Removable(todo[0], known) then there - {todo[0]} else there, n)
  }

  /** This opening, or this call of orphan recovery, is on its way to remove the file. */
  predicate Exposes(db: Db, o: Opening.Pc, n: FileName) {
    match o
    case ReadDirectory(known) => n !in known
    case Sweep(known, todo) => WillSweep(known, todo, db.files.Keys, n)
    case _ => false
  }

  /** A publisher that owns the lease stands between its file write and its commit, and a sweep
      is on its way to remove the file. */
  predicate Dangerous(s: Sys, a: nat, b: nat) {
    && HasCaller(s, a) && s.actors[a].k.pc.Commit? && Owns(s.db, s.actors[a].k.owner)
    && b in s.actors && s.actors[b].OpeningStore? && Exposes(s.db, s.actors[b].o, ReportJson(s.actors[a].k.pc.pub.id))
  }

  ghost predicate Unexposed(s: Sys) {
    forall a, b :: !Dangerous(s, a, b)
  }

  lemma {:induction false} FewerFiles(known: set<FileName>, todo: seq<FileName>, there: set<FileName>, fewer: set<FileName>, n: FileName)
    requires fewer <= there && WillSweep(known, todo, fewer, n)
    ensures WillSweep(known, todo, there, n)
  {
    if todo[0] != n {
      var r := Removable(todo[0], known);
      FewerFiles(known, todo[1..], if r then there - {todo[0]} else there, if r then fewer - {todo[0]} else fewer, n);
    }
  }

  /** A file that is not listed makes no difference. */
  lemma {:induction false} UnlistedFile(known: set<FileName>, todo: seq<FileName>, there: set<FileName>, extra: FileName, n: FileName)
    requires extra !in todo && WillSweep(known, todo, there + {extra}, n)
    ensures WillSweep(known, todo, there, n)
  {
    if todo[0] != n {
      var r := Removable(todo[0], known);
      assert (there + {extra}) - {todo[0]} == (there - {todo[0]}) + {extra};
      UnlistedFile(known, todo[1..], if r then there - {todo[0]} else there, extra, n);
    }
  }

  // ----- the invariant -----

  /** A publisher about to commit under its lease has its bytes in place. */
  ghost predicate Ready(codec: Codec, db: Db, k: Caller) {
    && (k.pc.CreateTemp? || k.pc.RenameTemp? || k.pc.Commit? ==> codec.schemaOf(k.pc.pub.bytes) == Some(k.pc.pub.schema))
    && (k.pc.Commit? && Owns(db, k.owner) ==>
          ReportJson(k.pc.pub.id) in db.files && db.files[ReportJson(k.pc.pub.id)] == k.pc.pub.bytes)
  }

  ghost predicate RetainerInv(db: Db, r: Retention.Retainer) {
    && (r.pc.DrainFile? || r.pc.DrainRow? ==> forall n :: n in r.pc.todo ==> Dead(db, n))
    && (r.pc.Delete? ==>
          forall c :: c in r.pc.eligible ==> c.artifact.file == ReportJson(c.id) && InHistory(db.history, c.id))
  }

  /** No sweep is on its way to remove the report of a live row. */
  ghost predicate SparesLive(db: Db, o: Opening.Pc) {
    forall id :: id in db.snapshots ==> !Exposes(db, o, ReportJson(id))
  }

  ghost predicate ActorInv(codec: Codec, db: Db, actor: Actor) {
    match actor
    case Observer(k) => Ready(codec, db, k)
    case Retaining(r) => RetainerInv(db, r)
    case OpeningStore(o) => SparesLive(db, o)
  }

  /** A name that is in the directory or that some sweep has listed. */
  ghost predicate Mentioned(s: Sys, n: FileName) {
    n in s.db.files || exists b :: ListedBy(s, b, n)
  }

  predicate ListedBy(s: Sys, b: nat, n: FileName) {
    b in s.actors && s.actors[b].OpeningStore? && s.actors[b].o.Sweep? && n in s.actors[b].o.todo
  }

  predicate IsReport(n: FileName) { n.ReportJson? || n.ReportTemp? }

  /** The names that a publication will create are new when it creates them. */
  ghost predicate NamesInv(s: Sys) {
    && (forall n :: Mentioned(s, n) && IsReport(n) ==> n.id in s.issued)
    && (forall a :: HasCaller(s, a) ==> NewNames(s, s.actors[a].k.pc))
  }

  ghost predicate NewNames(s: Sys, pc: Observe.Pc) {
    && (pc.CreateTemp? ==> !Mentioned(s, ReportTemp(pc.pub.id, pc.pub.pid)))
    && (pc.CreateTemp? || pc.RenameTemp? ==> !Mentioned(s, ReportJson(pc.pub.id)))
  }

  ghost predicate FilesInv(codec: Codec, s: Sys) {
    LiveVerified(codec, s.db) && QueueDead(s.db) && NamesInv(s)
    && forall a :: a in s.actors ==> ActorInv(codec, s.db, s.actors[a])
  }

  // ----- names -----

  /** The one file that a caller's step may create. */
  function Created(pc: Observe.Pc): Option<FileName> {
    match pc
    case CreateTemp(pub) => Some(ReportTemp(pub.id, pub.pid))
    case RenameTemp(pub) => Some(ReportJson(pub.id))
    case _ => None
  }

  lemma StepCreates(codec: Codec, db: Db, k: Caller, in_: Observe.Input)
    ensures forall n :: n in Observe.Step(codec, db, k, in_).0.files ==> n in db.files || Created(k.pc) == Some(n)
  {
    if !Observe.PhaseOf(k.pc).Writing? { OnlyWritingTouchesFiles(codec, db, k, in_); }
  }

  lemma OnlyWritingTouchesFiles(codec: Codec, db: Db, k: Caller, in_: Observe.Input)
    requires !Observe.PhaseOf(k.pc).Writing?
    ensures Observe.Step(codec, db, k, in_).0.files == db.files
  {
    match Observe.PhaseOf(k.pc)
    case Starting =>
    case Checking =>
    case Waiting =>
    case Leading =>
    case Closing => ClosingKeepsFiles(codec, db, k, in_);
    case Over =>
  }

  lemma ClosingKeepsFiles(codec: Codec, db: Db, k: Caller, in_: Observe.Input)
    requires Observe.PhaseOf(k.pc).Closing?
    ensures Observe.ClosingStep(codec, db, k, in_).0.files == db.files
  {
  }

  /** Where a caller that will create a file comes from. */
  lemma CreatorsAreNew(codec: Codec, db: Db, k: Caller, in_: Observe.Input)
    ensures var k' := Observe.Step(codec, db, k, in_).1;
      && (k'.pc.CreateTemp? ==> k'.pc.pub.id == in_.id && !k.pc.CreateTemp?)
      && (k'.pc.RenameTemp? ==> k.pc == Observe.CreateTemp(k'.pc.pub))
  {
    StepPublication(codec, db, k, in_);
    if Observe.PhaseOf(k.pc).Writing? { WritingKeepsPublication(codec, db, k, in_); }
  }

  /** Steps that list nothing new and create nothing. */
  lemma FewerNames(s: Sys, s': Sys)
    requires NamesInv(s) && s.issued <= s'.issued
    requires forall n :: Mentioned(s', n) ==> Mentioned(s, n)
    requires forall a :: HasCaller(s', a) ==> (HasCaller(s, a) && s'.actors[a] == s.actors[a]) || Created(s'.actors[a].k.pc).None?
    ensures NamesInv(s')
  {
    forall a | HasCaller(s', a) ensures NewNames(s', s'.actors[a].k.pc) {
      if Created(s'.actors[a].k.pc).Some? { assert NewNames(s, s.actors[a].k.pc); }
    }
  }

  lemma ObserveMentions(codec: Codec, s: Sys, a: nat, in_: Observe.Input, n: FileName)
    requires HasCaller(s, a) && Mentioned(Do(codec, s, ObserveStep(a, in_)), n)
    ensures Mentioned(s, n) || Created(s.actors[a].k.pc) == Some(n)
  {
    var s' := Do(codec, s, ObserveStep(a, in_));
    StepCreates(codec, s.db, s.actors[a].k, in_);
    if n !in s'.db.files {
      var b :| ListedBy(s', b, n);
      assert ListedBy(s, b, n);
    }
  }

  lemma ObserveKeepsNames(codec: Codec, s: Sys, a: nat, in_: Observe.Input)
    requires SysInv(codec, s) && NamesInv(s) && HasCaller(s, a) && FreshInput(codec, s, in_)
    ensures NamesInv(Do(codec, s, ObserveStep(a, in_)))
  {
    var s' := Do(codec, s, ObserveStep(a, in_));
    var k := s.actors[a].k;
    CreatedIsIssued(codec, s, a);
    forall n | Mentioned(s', n) && IsReport(n) ensures n.id in s'.issued { ObserveMentions(codec, s, a, in_, n); }
    forall b | HasCaller(s', b) ensures NewNames(s', s'.actors[b].k.pc) {
      if b == a { OwnNamesStayNew(codec, s, a, in_); } else { OtherNamesStayNew(codec, s, a, in_, b); }
    }
  }

  lemma CreatedIsIssued(codec: Codec, s: Sys, a: nat)
    requires SysInv(codec, s) && HasCaller(s, a)
    ensures Created(s.actors[a].k.pc).Some? ==> Created(s.actors[a].k.pc).value.id in s.issued
  {
  }

  lemma OwnNamesStayNew(codec: Codec, s: Sys, a: nat, in_: Observe.Input)
    requires SysInv(codec, s) && NamesInv(s) && HasCaller(s, a) && FreshInput(codec, s, in_)
    ensures var s' := Do(codec, s, ObserveStep(a, in_)); NewNames(s', s'.actors[a].k.pc)
  {
    var s' := Do(codec, s, ObserveStep(a, in_));
    var pc, pc' := s.actors[a].k.pc, s'.actors[a].k.pc;
    CreatorsAreNew(codec, s.db, s.actors[a].k, in_);
    CreatedIsIssued(codec, s, a);
    if pc'.CreateTemp? || pc'.RenameTemp? {
      var json := ReportJson(pc'.pub.id);
      if Mentioned(s', json) { ObserveMentions(codec, s, a, in_, json); }
    }
    if pc'.CreateTemp? {
      var temp := ReportTemp(pc'.pub.id, pc'.pub.pid);
      if Mentioned(s', temp) { ObserveMentions(codec, s, a, in_, temp); }
    }
    assert NewNames(s, pc);
  }

  lemma OtherNamesStayNew(codec: Codec, s: Sys, a: nat, in_: Observe.Input, b: nat)
    requires SysInv(codec, s) && NamesInv(s) && HasCaller(s, a) && FreshInput(codec, s, in_) && HasCaller(s, b) && b != a
    ensures NewNames(Do(codec, s, ObserveStep(a, in_)), s.actors[b].k.pc)
  {
    var s' := Do(codec, s, ObserveStep(a, in_));
    var pc := s.actors[b].k.pc;
    assert NewNames(s, pc);
    assert Apart(s.actors[b].k, s.actors[a].k);
    if pc.CreateTemp? || pc.RenameTemp? {
      var json := ReportJson(pc.pub.id);
      if Mentioned(s', json) { ObserveMentions(codec, s, a, in_, json); }
    }
    if pc.CreateTemp? {
      var temp := ReportTemp(pc.pub.id, pc.pub.pid);
      if Mentioned(s', temp) { ObserveMentions(codec, s, a, in_, temp); }
    }
  }

  lemma RetentionShrinks(db: Db, r: Retention.Retainer, in_: Retention.Input)
    ensures forall n :: n in Retention.Step(db, r, in_).0.files ==> n in db.files
  {
  }

  lemma OpeningShrinks(db: Db, o: Opening.Pc, in_: Opening.Input)
    requires Opening.Answers(db, o, in_)
    ensures var (db', o') := Opening.Step(db, o, in_);
      && (forall n :: n in db'.files ==> n in db.files)
      && (o'.Sweep? ==> forall n :: n in o'.todo ==> n in db.files || (o.Sweep? && n in o.todo))
  {
  }

  lemma MaintenanceKeepsNames(codec: Codec, s: Sys, step: Step)
    requires NamesInv(s) && Can(codec, s, step) && !step.ObserveStep?
    ensures NamesInv(Do(codec, s, step))
  {
    var s' := Do(codec, s, step);
    match step {
      case RetainStep(a, in_) => RetentionShrinks(s.db, s.actors[a].r, in_);
      case OpenStep(a, in_) => OpeningShrinks(s.db, s.actors[a].o, in_);
      case _ =>
    }
    forall n | Mentioned(s', n) ensures Mentioned(s, n) {
      if n !in s'.db.files {
        var b :| ListedBy(s', b, n);
        if !ListedBy(s, b, n) { assert step.OpenStep? && step.a == b; }
      }
    }
    FewerNames(s, s');
  }

  // ----- callers -----

  lemma CallerKeepsLive(codec: Codec, db: Db, k: Caller, row: nat, db': Db)
    requires LiveVerified(codec, db) && Ready(codec, db, k) && CallerEffect(codec, db, k, row, db')
    requires CatalogInv(db.state, db.snapshots, db.history)
    requires Pending(k.pc).Some? ==> !InHistory(db.history, Pending(k.pc).value)
    ensures LiveVerified(codec, db')
  {
    forall id | id in db'.snapshots
      ensures db'.snapshots[id].artifact.file == ReportJson(id) && Verifies(codec, db'.files, db'.snapshots[id].artifact)
    {
      if id in db.snapshots {
        assert InHistory(db.history, id);
        assert SameFile(db, db', ReportJson(id));
      }
    }
  }

  lemma CallerKeepsDead(codec: Codec, db: Db, k: Caller, row: nat, db': Db, n: FileName)
    requires CallerEffect(codec, db, k, row, db') && Dead(db, n)
    requires Pending(k.pc).Some? ==> !InHistory(db.history, Pending(k.pc).value)
    ensures Dead(db', n)
  {
    var i :| 0 <= i < |db.history| && db.history[i].id == n.id;
    assert db'.history[i] == db.history[i];
  }

  lemma StepKeepsReady(codec: Codec, db: Db, k: Caller, in_: Observe.Input)
    requires Ready(codec, db, k)
    requires in_.scan.ScanDone? ==> codec.schemaOf(in_.scan.report.bytes) == Some(in_.scan.report.schema)
    ensures var (db', k') := Observe.Step(codec, db, k, in_); Ready(codec, db', k')
  {
    StepPublication(codec, db, k, in_);
    var (db', k') := Observe.Step(codec, db, k, in_);
    if k'.pc.Commit? { assert k.pc.RenameTemp?; }
  }

  /** What another caller's step does to a retention call. */
  lemma CallerKeepsRetainer(codec: Codec, db: Db, k: Caller, row: nat, db': Db, r: Retention.Retainer)
    requires CallerEffect(codec, db, k, row, db') && RetainerInv(db, r)
    requires Pending(k.pc).Some? ==> !InHistory(db.history, Pending(k.pc).value)
    ensures RetainerInv(db', r)
  {
    if r.pc.DrainFile? || r.pc.DrainRow? {
      forall n | n in r.pc.todo ensures Dead(db', n) { CallerKeepsDead(codec, db, k, row, db', n); }
    }
    if r.pc.Delete? {
      forall c | c in r.pc.eligible ensures InHistory(db'.history, c.id) {
        var i :| 0 <= i < |db.history| && db.history[i].id == c.id;
        assert db'.history[i] == db.history[i];
      }
    }
  }

  lemma CallerKeepsReady(codec: Codec, db: Db, k: Caller, row: nat, db': Db, other: Caller)
    requires CallerEffect(codec, db, k, row, db') && Ready(codec, db, other) && Apart(other, k)
    ensures Ready(codec, db', other)
  {
    if other.pc.Commit? {
      assert !OwnFile(k, ReportJson(other.pc.pub.id));
      assert SameFile(db, db', ReportJson(other.pc.pub.id));
    }
  }

  /** A caller's step brings no live row into the way of a sweep. */
  lemma CallerKeepsSparing(codec: Codec, s: Sys, a: nat, in_: Observe.Input, b: nat, id: Uuid)
    requires SysInv(codec, s) && FilesInv(codec, s) && Unexposed(s) && HasCaller(s, a) && FreshInput(codec, s, in_)
    requires b in s.actors && s.actors[b].OpeningStore? && id in Do(codec, s, ObserveStep(a, in_)).db.snapshots
    ensures !Exposes(Do(codec, s, ObserveStep(a, in_)).db, s.actors[b].o, ReportJson(id))
  {
    var k, o, db' := s.actors[a].k, s.actors[b].o, Do(codec, s, ObserveStep(a, in_)).db;
    StepHasEffect(codec, s.db, k, in_);
    assert ActorInv(codec, s.db, s.actors[b]);
    if id in s.db.snapshots {
      assert !Exposes(s.db, o, ReportJson(id));
    } else {
      assert k.pc.Commit? && k.pc.pub.id == id && Owns(s.db, k.owner);
      assert !Dangerous(s, a, b);
    }
    if o.Sweep? && WillSweep(o.known, o.todo, db'.files.Keys, ReportJson(id)) {
      SweepUnchanged(codec, s, a, in_, b, ReportJson(id));
    }
  }

  /** What a caller creates was not listed, so it helps no sweep along. */
  lemma SweepUnchanged(codec: Codec, s: Sys, a: nat, in_: Observe.Input, b: nat, n: FileName)
    requires NamesInv(s) && HasCaller(s, a) && b in s.actors && s.actors[b].OpeningStore? && s.actors[b].o.Sweep?
    requires WillSweep(s.actors[b].o.known, s.actors[b].o.todo, Observe.Step(codec, s.db, s.actors[a].k, in_).0.files.Keys, n)
    ensures WillSweep(s.actors[b].o.known, s.actors[b].o.todo, s.db.files.Keys, n)
  {
    var k, o := s.actors[a].k, s.actors[b].o;
    var files' := Observe.Step(codec, s.db, k, in_).0.files.Keys;
    StepCreates(codec, s.db, k, in_);
    assert NewNames(s, k.pc);
    if Created(k.pc).Some? {
      var extra := Created(k.pc).value;
      assert !ListedBy(s, b, extra);
      FewerFiles(o.known, o.todo, s.db.files.Keys + {extra}, files', n);
      UnlistedFile(o.known, o.todo, s.db.files.Keys, extra, n);
    } else {
      FewerFiles(o.known, o.todo, s.db.files.Keys, files', n);
    }
  }

  /** The steps of caller a do not disturb another actor. */
  lemma CallerKeepsActor(codec: Codec, s: Sys, a: nat, in_: Observe.Input, b: nat)
    requires SysInv(codec, s) && FilesInv(codec, s) && Unexposed(s) && HasCaller(s, a) && FreshInput(codec, s, in_)
    requires b in s.actors && b != a
    ensures ActorInv(codec, Do(codec, s, ObserveStep(a, in_)).db, s.actors[b])
  {
    var k, db' := s.actors[a].k, Do(codec, s, ObserveStep(a, in_)).db;
    StepHasEffect(codec, s.db, k, in_);
    assert ActorInv(codec, s.db, s.actors[b]);
    match s.actors[b]
    case Observer(other) =>
      assert HasCaller(s, b) && Apart(other, k);
      CallerKeepsReady(codec, s.db, k, in_.row, db', other);
    case Retaining(r) => CallerKeepsRetainer(codec, s.db, k, in_.row, db', r);
    case OpeningStore(o) =>
      forall id | id in db'.snapshots ensures !Exposes(db', o, ReportJson(id)) {
        CallerKeepsSparing(codec, s, a, in_, b, id);
      }
  }

  lemma ObserveKeepsFiles(codec: Codec, s: Sys, a: nat, in_: Observe.Input)
    requires SysInv(codec, s) && FilesInv(codec, s) && Unexposed(s) && HasCaller(s, a) && FreshInput(codec, s, in_)
    ensures FilesInv(codec, Do(codec, s, ObserveStep(a, in_)))
  {
    var k := s.actors[a].k;
    var s' := Do(codec, s, ObserveStep(a, in_));
    OwnStepKeepsFiles(codec, s, a, in_);
    ObserveKeepsNames(codec, s, a, in_);
    forall b | b in s'.actors ensures ActorInv(codec, s'.db, s'.actors[b]) {
      if b != a { CallerKeepsActor(codec, s, a, in_, b); }
    }
  }

  lemma OwnStepKeepsFiles(codec: Codec, s: Sys, a: nat, in_: Observe.Input)
    requires SysInv(codec, s) && FilesInv(codec, s) && HasCaller(s, a) && FreshInput(codec, s, in_)
    ensures var (db', k') := Observe.Step(codec, s.db, s.actors[a].k, in_);
      LiveVerified(codec, db') && QueueDead(db') && Ready(codec, db', k')
  {
    var k, db' := s.actors[a].k, Observe.Step(codec, s.db, s.actors[a].k, in_).0;
    assert ActorInv(codec, s.db, s.actors[a]);
    StepHasEffect(codec, s.db, k, in_);
    CallerKeepsLive(codec, s.db, k, in_.row, db');
    forall n | n in db'.queue ensures Dead(db', n) { CallerKeepsDead(codec, s.db, k, in_.row, db', n); }
    StepKeepsReady(codec, s.db, k, in_);
  }

  // ----- retention -----

  lemma EligibleAreListed(listing: seq<Candidate>, n: nat, current: Option<Uuid>, keep: nat, cutoff: real)
    requires n <= |listing|
    ensures forall c :: c in Retention.Eligible(listing, n, current, keep, cutoff) ==> c in listing
  {
  }

  /** Deleting rows moves their paths to the queue, and only dead paths are ever there. */
  lemma DeleteKeepsLive(codec: Codec, db: Db, gone: seq<Candidate>)
    requires LiveVerified(codec, db) && QueueDead(db)
    requires forall c :: c in gone ==> c.artifact.file == ReportJson(c.id) && InHistory(db.history, c.id)
    ensures var r := DeleteSnapshots(db, gone); r.Some? ==> LiveVerified(codec, r.value) && QueueDead(r.value)
  {
    var r := DeleteSnapshots(db, gone);
    if r.Some? {
      forall n | n in r.value.queue ensures Dead(r.value, n) {
        if n in Files(gone) {
          var c :| c in gone && c.artifact.file == n;
          assert c.id in Ids(gone);
        }
      }
    }
  }

  lemma RetentionKeepsLive(codec: Codec, db: Db, r: Retention.Retainer, in_: Retention.Input)
    requires LiveVerified(codec, db) && QueueDead(db) && RetainerInv(db, r)
    ensures var db' := Retention.Step(db, r, in_).0; LiveVerified(codec, db') && QueueDead(db')
  {
    if r.pc.Delete? {
      DeleteKeepsLive(codec, db, r.pc.eligible);
    } else if r.pc.DrainFile? && r.pc.todo != [] {
      assert Dead(db, r.pc.todo[0]);
    }
  }

  lemma ReadingKeepsRetainer(codec: Codec, db: Db, r: Retention.Retainer, in_: Retention.Input)
    requires r.pc.ReadRows? && LiveVerified(codec, db) && Retention.Answers(db, r, in_) && CatalogInv(db.state, db.snapshots, db.history)
    ensures var (db', r') := Retention.Step(db, r, in_); RetainerInv(db', r')
  {
    ListedAreCommitted(codec, db, in_.listing);
    EligibleAreListed(in_.listing, |in_.listing|, r.pc.current, r.policy.keep, in_.cutoff);
  }

  lemma DrainingKeepsRetainer(db: Db, r: Retention.Retainer, in_: Retention.Input)
    requires QueueDead(db) && RetainerInv(db, r) && Retention.Answers(db, r, in_)
    requires r.pc.DrainList? || r.pc.DrainFile? || r.pc.DrainRow?
    ensures var (db', r') := Retention.Step(db, r, in_); RetainerInv(db', r')
  {
    if r.pc.DrainRow? && r.pc.todo != [] {
      assert forall n :: n in r.pc.todo[1..] ==> n in r.pc.todo;
    }
  }

  lemma RetentionKeepsRetainer(codec: Codec, db: Db, r: Retention.Retainer, in_: Retention.Input)
    requires LiveVerified(codec, db) && QueueDead(db) && RetainerInv(db, r) && Retention.Answers(db, r, in_)
    requires CatalogInv(db.state, db.snapshots, db.history)
    ensures var (db', r') := Retention.Step(db, r, in_); RetainerInv(db', r')
  {
    if r.pc.ReadRows? {
      ReadingKeepsRetainer(codec, db, r, in_);
    } else if r.pc.DrainList? || r.pc.DrainFile? || r.pc.DrainRow? {
      DrainingKeepsRetainer(db, r, in_);
    }
  }

  lemma ListedAreCommitted(codec: Codec, db: Db, listing: seq<Candidate>)
    requires LiveVerified(codec, db) && CatalogInv(db.state, db.snapshots, db.history) && Retention.IsListing(db, listing)
    ensures forall c :: c in listing ==> c.artifact.file == ReportJson(c.id) && InHistory(db.history, c.id)
  {
  }

  lemma RetentionKeepsActor(codec: Codec, db: Db, r: Retention.Retainer, in_: Retention.Input, actor: Actor)
    requires RetainerInv(db, r) && ActorInv(codec, db, actor)
    requires actor.Observer? && Pending(actor.k.pc).Some? ==> !InHistory(db.history, Pending(actor.k.pc).value)
    ensures ActorInv(codec, Retention.Step(db, r, in_).0, actor)
  {
    var db' := Retention.Step(db, r, in_).0;
    assert forall n :: Dead(db, n) ==> Dead(db', n);
    if r.pc.DrainFile? && r.pc.todo != [] {
      assert Dead(db, r.pc.todo[0]);
    }
    if actor.OpeningStore? { RetentionKeepsSparing(db, r, in_, actor.o); }
  }

  lemma RetentionKeepsSparing(db: Db, r: Retention.Retainer, in_: Retention.Input, o: Opening.Pc)
    requires SparesLive(db, o)
    ensures SparesLive(Retention.Step(db, r, in_).0, o)
  {
    var db' := Retention.Step(db, r, in_).0;
    RetentionShrinks(db, r, in_);
    FewerFilesSpare(db, db', o);
  }

  /** With fewer files and fewer rows a sweep does no more harm. */
  lemma FewerFilesSpare(db: Db, db': Db, o: Opening.Pc)
    requires SparesLive(db, o)
    requires (forall n :: n in db'.files ==> n in db.files) && forall id :: id in db'.snapshots ==> id in db.snapshots
    ensures SparesLive(db', o)
  {
    forall id | id in db'.snapshots ensures !Exposes(db', o, ReportJson(id)) {
      assert !Exposes(db, o, ReportJson(id));
      if o.Sweep? && WillSweep(o.known, o.todo, db'.files.Keys, ReportJson(id)) {
        FewerFiles(o.known, o.todo, db.files.Keys, db'.files.Keys, ReportJson(id));
      }
    }
  }

  lemma RetainKeepsFiles(codec: Codec, s: Sys, a: nat, in_: Retention.Input)
    requires SysInv(codec, s) && FilesInv(codec, s) && Can(codec, s, RetainStep(a, in_))
    ensures FilesInv(codec, Do(codec, s, RetainStep(a, in_)))
  {
    var r := s.actors[a].r;
    var s' := Do(codec, s, RetainStep(a, in_));
    assert ActorInv(codec, s.db, s.actors[a]);
    RetentionKeepsLive(codec, s.db, r, in_);
    RetentionKeepsRetainer(codec, s.db, r, in_);
    MaintenanceKeepsNames(codec, s, RetainStep(a, in_));
    forall b | b in s'.actors ensures ActorInv(codec, s'.db, s'.actors[b]) {
      if b != a {
        assert s.actors[b].Observer? ==> HasCaller(s, b);
        RetentionKeepsActor(codec, s.db, r, in_, s.actors[b]);
      }
    }
  }

  // ----- opening and orphan recovery -----

  lemma KnownAreLive(codec: Codec, db: Db)
    requires LiveVerified(codec, db)
    ensures forall n: FileName :: n in KnownPaths(db) <==> n.ReportJson? && n.id in db.snapshots
  {
    forall n: FileName | n.ReportJson? && n.id in db.snapshots ensures n in KnownPaths(db) {
      assert db.snapshots[n.id].artifact.file == n;
    }
  }

  /** The next file of a sweep that goes on is a live report only if the sweep knows it. */
  lemma OpeningKeepsLive(codec: Codec, db: Db, o: Opening.Pc, in_: Opening.Input)
    requires LiveVerified(codec, db) && QueueDead(db) && SparesLive(db, o)
    ensures var db' := Opening.Step(db, o, in_).0; LiveVerified(codec, db') && QueueDead(db')
  {
    var db' := Opening.Step(db, o, in_).0;
    forall id | id in db'.snapshots
      ensures db'.snapshots[id].artifact.file == ReportJson(id) && Verifies(codec, db'.files, db'.snapshots[id].artifact)
    {
      assert !Exposes(db, o, ReportJson(id));
    }
  }

  lemma OpeningKeepsOwnSparing(codec: Codec, db: Db, o: Opening.Pc, in_: Opening.Input)
    requires LiveVerified(codec, db) && SparesLive(db, o)
    ensures var (db', o') := Opening.Step(db, o, in_); SparesLive(db', o')
  {
    var (db', o') := Opening.Step(db, o, in_);
    KnownAreLive(codec, db);
    forall id | id in db'.snapshots ensures !Exposes(db', o', ReportJson(id)) {
      assert !Exposes(db, o, ReportJson(id));
      if o.Sweep? && o'.Sweep? { assert db'.files.Keys == if Removable(o.todo[0], o.known) then db.files.Keys - {o.todo[0]} else db.files.Keys; }
    }
  }

  lemma OpeningKeepsReady(codec: Codec, s: Sys, a: nat, in_: Opening.Input, b: nat)
    requires FilesInv(codec, s) && Unexposed(s) && Can(codec, s, OpenStep(a, in_)) && HasCaller(s, b)
    ensures Ready(codec, Opening.Step(s.db, s.actors[a].o, in_).0, s.actors[b].k)
  {
    assert ActorInv(codec, s.db, s.actors[b]);
    assert !Dangerous(s, b, a);
    OpeningHasEffect(s.db, s.actors[a].o, in_);
  }

  lemma OpenKeepsFiles(codec: Codec, s: Sys, a: nat, in_: Opening.Input)
    requires SysInv(codec, s) && FilesInv(codec, s) && Unexposed(s) && Can(codec, s, OpenStep(a, in_))
    ensures FilesInv(codec, Do(codec, s, OpenStep(a, in_)))
  {
    var s' := Do(codec, s, OpenStep(a, in_));
    assert ActorInv(codec, s.db, s.actors[a]);
    OpeningKeepsLive(codec, s.db, s.actors[a].o, in_);
    OpeningKeepsOwnSparing(codec, s.db, s.actors[a].o, in_);
    MaintenanceKeepsNames(codec, s, OpenStep(a, in_));
    forall b | b in s'.actors ensures ActorInv(codec, s'.db, s'.actors[b]) {
      if b != a {
        assert ActorInv(codec, s.db, s.actors[b]);
        OpenKeepsOther(codec, s, a, in_, b);
      }
    }
  }

  lemma OpenKeepsOther(codec: Codec, s: Sys, a: nat, in_: Opening.Input, b: nat)
    requires FilesInv(codec, s) && Unexposed(s) && Can(codec, s, OpenStep(a, in_)) && b in s.actors && b != a
    ensures ActorInv(codec, Opening.Step(s.db, s.actors[a].o, in_).0, s.actors[b])
  {
    assert ActorInv(codec, s.db, s.actors[b]);
    match s.actors[b]
    case Observer(k) => OpeningKeepsReady(codec, s, a, in_, b);
    case Retaining(r) =>
    case OpeningStore(o) =>
      OpeningShrinks(s.db, s.actors[a].o, in_);
      FewerFilesSpare(s.db, Opening.Step(s.db, s.actors[a].o, in_).0, o);
  }

  // ----- pins, uploads, arrivals -----

  lemma LifecycleKeepsActor(codec: Codec, s: Sys, step: Step, actor: Actor)
    requires (step.Pin? || step.Upload?) && ActorInv(codec, s.db, actor)
    ensures ActorInv(codec, Do(codec, s, step).db, actor)
  {
    var db' := Do(codec, s, step).db;
    assert db' == s.db.(snapshots := db'.snapshots) && db'.snapshots.Keys == s.db.snapshots.Keys;
    assert forall n :: Dead(s.db, n) ==> Dead(db', n);
    if actor.OpeningStore? { FewerFilesSpare(s.db, db', actor.o); }
  }

  lemma LifecycleKeepsFiles(codec: Codec, s: Sys, step: Step)
    requires FilesInv(codec, s) && Can(codec, s, step) && (step.Pin? || step.Upload?)
    ensures FilesInv(codec, Do(codec, s, step))
  {
    var s' := Do(codec, s, step);
    MaintenanceKeepsNames(codec, s, step);
    forall a | a in s'.actors ensures ActorInv(codec, s'.db, s'.actors[a]) {
      LifecycleKeepsActor(codec, s, step, s.actors[a]);
    }
  }

  lemma ArrivalKeepsFiles(codec: Codec, s: Sys, step: Step)
    requires FilesInv(codec, s) && Can(codec, s, step) && (step.Spawn? || step.Vanish? || step.Crash?)
    ensures FilesInv(codec, Do(codec, s, step))
  {
    MaintenanceKeepsNames(codec, s, step);
  }

  lemma DoKeepsFiles(codec: Codec, s: Sys, step: Step)
    requires SysInv(codec, s) && FilesInv(codec, s) && Unexposed(s) && Can(codec, s, step)
    ensures FilesInv(codec, Do(codec, s, step))
  {
    match step
    case ObserveStep(a, in_) => ObserveKeepsFiles(codec, s, a, in_);
    case RetainStep(a, in_) => RetainKeepsFiles(codec, s, a, in_);
    case OpenStep(a, in_) => OpenKeepsFiles(codec, s, a, in_);
    case Pin(_, _) => LifecycleKeepsFiles(codec, s, step);
    case Upload(_) => LifecycleKeepsFiles(codec, s, step);
    case _ => ArrivalKeepsFiles(codec, s, step);
  }

  // ----- every run -----

  /** No state before the n-th is dangerous. */
  ghost predicate NeverExposed(trace: seq<Sys>, n: nat) {
    n <= |trace| && forall i :: 0 <= i < n ==> Unexposed(trace[i])
  }

  /** Conservation: in every state of every run in which no sweep ever meets a written but
      uncommitted report, with any number of openings and recoveries beside publishers and
      retention, with crashes, cancellations and I/O errors anywhere, every committed snapshot
      row has its artifact on disk as recorded, and the delete queue never holds the path of a
      live row. */
  lemma {:induction false} ArtifactsConserved(codec: Codec, trace: seq<Sys>, steps: seq<Step>, n: nat)
    requires Behaviour(codec, trace, steps) && n < |trace| && NeverExposed(trace, n)
    ensures FilesInv(codec, trace[n])
    ensures LiveVerified(codec, trace[n].db)
    ensures forall id :: id in trace[n].db.snapshots ==> HasReport(codec, trace[n].db, id)
    ensures trace[n].db.queue.Keys !! KnownPaths(trace[n].db)
  {
    if n > 0 {
      ArtifactsConserved(codec, trace, steps, n - 1);
      AlwaysInv(codec, trace, steps, n - 1);
      assert Follows(codec, trace, steps, n - 1);
      DoKeepsFiles(codec, trace[n - 1], steps[n - 1]);
    }
    KnownAreLive(codec, trace[n].db);
  }
}
