/** Why conservation has the condition it has: from every state of every run that it excludes,
    there is a way to lose the report; and such states are reached, by a store that opens or by
    `recover_orphan_artifacts` of the very store that publishes. */
module SweepWindow {
  import opened Wrappers
  import opened Store
  import opened Effects
  import opened Invariants
  import opened System
  import opened Safety
  import opened Artifacts
  import Observe
  import Opening

  // ----- continuing a run -----

  /** One run continues another. */
  ghost predicate Continues(trace: seq<Sys>, steps: seq<Step>, trace': seq<Sys>, steps': seq<Step>) {
    trace <= trace' && steps <= steps'
  }

  lemma OneMoreStep(codec: Codec, trace: seq<Sys>, steps: seq<Step>, step: Step)
    requires Behaviour(codec, trace, steps) && Can(codec, trace[|steps|], step)
    ensures Behaviour(codec, trace + [Do(codec, trace[|steps|], step)], steps + [step])
  {
    var trace', steps' := trace + [Do(codec, trace[|steps|], step)], steps + [step];
    forall i: nat {:trigger Follows(codec, trace', steps', i)} | i < |steps'| ensures Follows(codec, trace', steps', i) {
      if i < |steps| { assert Follows(codec, trace, steps, i); }
    }
  }

  lemma FreshNumber(used: set<nat>) returns (x: nat)
    ensures x !in used
  {
    x := Above(used);
  }

  ghost function Above(used: set<nat>): (x: nat)
    ensures forall y :: y in used ==> y < x
  {
    if used == {} then 0
    else
      var y :| y in used;
      var rest := Above(used - {y});
      assert used == (used - {y}) + {y};
      if rest > y then rest else y + 1
  }

  ghost function Listing(files: set<FileName>): (r: seq<FileName>)
    ensures forall n :: n in r <==> n in files
    ensures forall i, j :: 0 <= i < j < |r| ==> r[i] != r[j]
  {
    if files == {} then []
    else
      var n :| n in files;
      var rest := Listing(files - {n});
      assert n !in rest;
      rest + [n]
  }

  /** A sweep over files that are all there gets to each of them. */
  lemma {:induction false} ListedIsSwept(known: set<FileName>, todo: seq<FileName>, there: set<FileName>, n: FileName)
    requires n in todo && n !in known && forall m :: m in todo ==> m in there
    requires forall i, j :: 0 <= i < j < |todo| ==> todo[i] != todo[j]
    ensures WillSweep(known, todo, there, n)
  {
    if todo[0] != n {
      var r := Removable(todo[0], known);
      forall m | m in todo[1..] ensures m in there && m != todo[0] {
        var j :| 1 <= j < |todo| && todo[j] == m;
      }
      ListedIsSwept(known, todo[1..], if r then there - {todo[0]} else there, n);
    }
  }

  // ----- the three parts of a losing continuation -----

  /** A publisher that owns the lease stands before its commit and its file is gone. */
  predicate Doomed(s: Sys, a: nat) {
    && HasCaller(s, a) && s.actors[a].k.pc.Commit? && Owns(s.db, s.actors[a].k.owner)
    && ReportJson(s.actors[a].k.pc.pub.id) !in s.db.files
  }

  /** The commit goes through all the same. */
  lemma CommitLoses(codec: Codec, trace: seq<Sys>, steps: seq<Step>, a: nat) returns (trace': seq<Sys>, steps': seq<Step>)
    requires Behaviour(codec, trace, steps) && Doomed(trace[|steps|], a)
    ensures Behaviour(codec, trace', steps') && Continues(trace, steps, trace', steps')
    ensures !LiveVerified(codec, trace'[|steps'|].db)
  {
    var s := trace[|steps|];
    var k := s.actors[a].k;
    var id := FreshNumber(s.issued);
    var row := FreshNumber(s.db.probes.Keys);
    var in_ := Observe.Input(true, false, s.db.lease.value.expires - 1.0, 0.0, 0.0, 0.0, None, Observe.RenewTick,
                             Timestamp(0.0, None), row, id, 0);
    var step := ObserveStep(a, in_);
    PendingIsFree(codec, trace, steps, a);
    OneMoreStep(codec, trace, steps, step);
    trace', steps' := trace + [Do(codec, s, step)], steps + [step];
    CommitWithoutFile(codec, s.db, k, in_);
    var s' := Do(codec, s, step);
    assert trace'[|steps'|] == s';
    assert s'.db == Observe.Step(codec, s.db, k, in_).0;
    assert k.pc.pub.id in s'.db.snapshots;
  }

  lemma PendingIsFree(codec: Codec, trace: seq<Sys>, steps: seq<Step>, a: nat)
    requires Behaviour(codec, trace, steps) && HasCaller(trace[|steps|], a) && trace[|steps|].actors[a].k.pc.Commit?
    ensures trace[|steps|].actors[a].k.pc.pub.id !in trace[|steps|].db.snapshots
  {
    AlwaysInv(codec, trace, steps, |steps|);
    var s := trace[|steps|];
    assert CallerInv(codec, s.db, s.actors[a].k);
  }

  lemma CommitWithoutFile(codec: Codec, db: Db, k: Observe.Caller, in_: Observe.Input)
    requires k.pc.Commit? && Owns(db, k.owner) && in_.ok && in_.now < db.lease.value.expires && k.pc.pub.id !in db.snapshots
    ensures var db' := Observe.Step(codec, db, k, in_).0;
      k.pc.pub.id in db'.snapshots && db'.files == db.files
      && db'.snapshots[k.pc.pub.id].artifact.file == ReportJson(k.pc.pub.id)
  {
    assert Observe.Step(codec, db, k, in_) == Observe.CommitStep(codec, db, k, in_, k.pc.pub);
  }

  /** The sweep goes on until the file is gone. */
  lemma {:induction false} SweepGoesOn(codec: Codec, trace: seq<Sys>, steps: seq<Step>, a: nat, b: nat)
    returns (trace': seq<Sys>, steps': seq<Step>)
    requires Behaviour(codec, trace, steps) && Dangerous(trace[|steps|], a, b) && trace[|steps|].actors[b].o.Sweep?
    ensures Behaviour(codec, trace', steps') && Continues(trace, steps, trace', steps') && Doomed(trace'[|steps'|], a)
    decreases |trace[|steps|].actors[b].o.todo|
  {
    var s := trace[|steps|];
    var o, n := s.actors[b].o, ReportJson(s.actors[a].k.pc.pub.id);
    var step := OpenStep(b, Opening.Input(true, 0.0, 0.0, []));
    var s' := Do(codec, s, step);
    OneMoreStep(codec, trace, steps, step);
    trace', steps' := trace + [s'], steps + [step];
    SweepOneFile(s.db, o, step.open, n);
    assert s'.actors[a] == s.actors[a] && s'.db.lease == s.db.lease;
    if o.todo[0] != n {
      assert Dangerous(s', a, b);
      assert trace'[|steps'|] == s';
      var trace'', steps'' := SweepGoesOn(codec, trace', steps', a, b);
      trace', steps' := trace'', steps'';
    }
  }

  lemma SweepOneFile(db: Db, o: Opening.Pc, in_: Opening.Input, n: FileName)
    requires o.Sweep? && WillSweep(o.known, o.todo, db.files.Keys, n) && in_.ok && n.ReportJson?
    ensures var (db', o') := Opening.Step(db, o, in_);
      && db' == db.(files := db'.files)
      && (if o.todo[0] == n then n !in db'.files
          else o'.Sweep? && o'.todo == o.todo[1..] && o'.known == o.known && WillSweep(o'.known, o'.todo, db'.files.Keys, n))
  {
    if o.todo[0] != n {
      assert o.todo[1..] != [];
      var db' := Opening.Step(db, o, in_).0;
      assert db'.files.Keys == if Removable(o.todo[0], o.known) then db.files.Keys - {o.todo[0]} else db.files.Keys;
    }
  }

  /** The sweep reads the directory and finds the file there. */
  lemma DirectoryIsRead(codec: Codec, trace: seq<Sys>, steps: seq<Step>, a: nat, b: nat)
    returns (trace': seq<Sys>, steps': seq<Step>)
    requires Behaviour(codec, trace, steps) && Dangerous(trace[|steps|], a, b) && trace[|steps|].actors[b].o.ReadDirectory?
    requires ReportJson(trace[|steps|].actors[a].k.pc.pub.id) in trace[|steps|].db.files
    ensures Behaviour(codec, trace', steps') && Continues(trace, steps, trace', steps')
    ensures Dangerous(trace'[|steps'|], a, b) && trace'[|steps'|].actors[b].o.Sweep?
  {
    var s := trace[|steps|];
    var known, n, entries := s.actors[b].o.known, ReportJson(s.actors[a].k.pc.pub.id), Listing(s.db.files.Keys);
    var step := OpenStep(b, Opening.Input(true, 0.0, 0.0, entries));
    OneMoreStep(codec, trace, steps, step);
    ListedIsSwept(known, entries, s.db.files.Keys, n);
    var s' := Do(codec, s, step);
    assert s'.db == s.db && s'.actors[b] == OpeningStore(Opening.Sweep(known, entries)) && s'.actors[a] == s.actors[a];
    trace', steps' := trace + [s'], steps + [step];
    assert trace'[|steps'|] == s';
  }

  /** The converse of conservation: every state that its condition excludes, in every run, has
      a continuation that ends with a committed snapshot row without its report. */
  lemma DangerLosesReport(codec: Codec, trace: seq<Sys>, steps: seq<Step>, a: nat, b: nat)
    returns (trace': seq<Sys>, steps': seq<Step>)
    requires Behaviour(codec, trace, steps) && Dangerous(trace[|steps|], a, b)
    ensures Behaviour(codec, trace', steps') && Continues(trace, steps, trace', steps')
    ensures !LiveVerified(codec, trace'[|steps'|].db)
  {
    trace', steps' := trace, steps;
    if ReportJson(trace[|steps|].actors[a].k.pc.pub.id) in trace[|steps|].db.files {
      if trace[|steps|].actors[b].o.ReadDirectory? {
        trace', steps' := DirectoryIsRead(codec, trace, steps, a, b);
      }
      trace', steps' := SweepGoesOn(codec, trace', steps', a, b);
    }
    trace', steps' := CommitLoses(codec, trace', steps', a);
  }

  // ----- and such states are reached -----

  const NOW := Timestamp(0.0, Some(0.0))

  /** A report that can be published. */
  predicate Publishable(codec: Codec, r: Observe.ScanReport) {
    r.status.ScanComplete? && r.canonical.coreComplete && codec.schemaOf(r.bytes) == Some(r.schema)
  }

  /** All clocks stand at zero and every lease runs to one. */
  function In(id: Uuid, scan: Observe.ScanEvent): Observe.Input {
    Observe.Input(true, false, 0.0, 1.0, 0.0, 0.0, None, scan, NOW, 0, id, 7)
  }

  function Open(entries: seq<FileName>): Opening.Input { Opening.Input(true, 0.0, 0.0, entries) }

  function Pub(r: Observe.ScanReport): Publication { Observe.PublicationOf(r, In(2, Observe.ScanDone(r)), None) }

  function Publisher(pc: Observe.Pc): Observe.Caller {
    Observe.Caller(Observe.Options(false, None, false, 0.0), 100, pc, Observe.StateView(StateRow(None, None, None, None), None),
                   None, None, None, None, None, 0.0, 0.0, [], 0, 0, 0, false)
  }

  function Steps(r: Observe.ScanReport): seq<Step> {
    var tick := Observe.RenewTick;
    [Spawn(0, Observer(Publisher(Observe.DirectAcquire))),
     ObserveStep(0, In(1, tick)),
     ObserveStep(0, In(2, Observe.ScanDone(r))),
     ObserveStep(0, In(3, tick)),
     ObserveStep(0, In(4, tick)),
     Spawn(1, OpeningStore(Opening.ListKnown)),
     OpenStep(1, Open([])),
     OpenStep(1, Open([ReportJson(2)])),
     OpenStep(1, Open([])),
     ObserveStep(0, In(5, tick))]
  }

  const LEASED := EMPTY_DB.(lease := Some(LeaseRow(100, 1.0)))

  function Written(r: Observe.ScanReport): Db { LEASED.(files := map[ReportJson(2) := r.bytes]) }

  function Alone(db: Db, pc: Observe.Pc, issued: set<Uuid>): Sys { Sys(db, map[0 := Observer(Publisher(pc))], issued) }

  function Both(db: Db, pc: Observe.Pc, o: Opening.Pc, issued: set<Uuid>): Sys {
    Sys(db, map[0 := Observer(Publisher(pc)), 1 := OpeningStore(o)], issued)
  }

  function Trace(codec: Codec, r: Observe.ScanReport): seq<Sys> {
    var pub := Pub(r);
    var commit := Observe.Commit(pub);
    [INITIAL,
     Alone(EMPTY_DB, Observe.DirectAcquire, {100}),
     Alone(LEASED, Observe.DirectCheck, {100, 1}),
     Alone(LEASED, Observe.CreateTemp(pub), {100, 1, 2}),
     Alone(LEASED.(files := map[ReportTemp(2, 7) := []]), Observe.RenameTemp(pub), {100, 1, 2, 3}),
     Alone(Written(r), commit, {100, 1, 2, 3, 4}),
     Both(Written(r), commit, Opening.ListKnown, {100, 1, 2, 3, 4}),
     Both(Written(r), commit, Opening.ReadDirectory({}), {100, 1, 2, 3, 4}),
     Both(Written(r), commit, Opening.Sweep({}, [ReportJson(2)]), {100, 1, 2, 3, 4}),
     Both(LEASED, commit, Opening.Opened(true), {100, 1, 2, 3, 4}),
     Both(Published(codec, LEASED, pub, None), Observe.ReleaseLease(Ok(Observe.NewScan(2)), true), Opening.Opened(true), {100, 1, 2, 3, 4, 5})]
  }

  const TICK := Observe.RenewTick

  ghost predicate Goes(codec: Codec, s: Sys, step: Step, s': Sys) {
    Can(codec, s, step) && s' == Do(codec, s, step)
  }

  lemma Arrives(codec: Codec)
    ensures Goes(codec, INITIAL, Spawn(0, Observer(Publisher(Observe.DirectAcquire))), Alone(EMPTY_DB, Observe.DirectAcquire, {100}))
  {
  }

  lemma Acquires(codec: Codec)
    ensures Goes(codec, Alone(EMPTY_DB, Observe.DirectAcquire, {100}), ObserveStep(0, In(1, TICK)), Alone(LEASED, Observe.DirectCheck, {100, 1}))
  {
  }

  lemma Draws(codec: Codec, r: Observe.ScanReport)
    requires Publishable(codec, r)
    ensures Goes(codec, Alone(LEASED, Observe.DirectCheck, {100, 1}), ObserveStep(0, In(2, Observe.ScanDone(r))),
                 Alone(LEASED, Observe.CreateTemp(Pub(r)), {100, 1, 2}))
  {
  }

  lemma Creates(codec: Codec, r: Observe.ScanReport)
    ensures Goes(codec, Alone(LEASED, Observe.CreateTemp(Pub(r)), {100, 1, 2}), ObserveStep(0, In(3, TICK)),
                 Alone(LEASED.(files := map[ReportTemp(2, 7) := []]), Observe.RenameTemp(Pub(r)), {100, 1, 2, 3}))
  {
  }

  lemma RenameFiles(r: Observe.ScanReport)
    ensures RenameReport(LEASED.(files := map[ReportTemp(2, 7) := []]), Pub(r)) == Written(r)
  {
  }

  lemma Renames(codec: Codec, r: Observe.ScanReport)
    ensures Goes(codec, Alone(LEASED.(files := map[ReportTemp(2, 7) := []]), Observe.RenameTemp(Pub(r)), {100, 1, 2, 3}),
                 ObserveStep(0, In(4, TICK)), Alone(Written(r), Observe.Commit(Pub(r)), {100, 1, 2, 3, 4}))
  {
    RenameFiles(r);
  }

  lemma Opens(codec: Codec, r: Observe.ScanReport)
    ensures Goes(codec, Alone(Written(r), Observe.Commit(Pub(r)), {100, 1, 2, 3, 4}), Spawn(1, OpeningStore(Opening.ListKnown)),
                 Both(Written(r), Observe.Commit(Pub(r)), Opening.ListKnown, {100, 1, 2, 3, 4}))
  {
  }

  lemma Knows(codec: Codec, r: Observe.ScanReport)
    ensures Goes(codec, Both(Written(r), Observe.Commit(Pub(r)), Opening.ListKnown, {100, 1, 2, 3, 4}), OpenStep(1, Open([])),
                 Both(Written(r), Observe.Commit(Pub(r)), Opening.ReadDirectory({}), {100, 1, 2, 3, 4}))
  {
    assert KnownPaths(Written(r)) == {};
  }

  lemma Lists(codec: Codec, r: Observe.ScanReport)
    ensures Goes(codec, Both(Written(r), Observe.Commit(Pub(r)), Opening.ReadDirectory({}), {100, 1, 2, 3, 4}),
                 OpenStep(1, Open([ReportJson(2)])),
                 Both(Written(r), Observe.Commit(Pub(r)), Opening.Sweep({}, [ReportJson(2)]), {100, 1, 2, 3, 4}))
  {
  }

  lemma Sweeps(codec: Codec, r: Observe.ScanReport)
    ensures Goes(codec, Both(Written(r), Observe.Commit(Pub(r)), Opening.Sweep({}, [ReportJson(2)]), {100, 1, 2, 3, 4}),
                 OpenStep(1, Open([])), Both(LEASED, Observe.Commit(Pub(r)), Opening.Opened(true), {100, 1, 2, 3, 4}))
  {
    assert [ReportJson(2)][1..] == [];
    assert RemoveFile(Written(r), ReportJson(2)) == LEASED;
  }

  lemma CommitStepDone(codec: Codec, r: Observe.ScanReport)
    ensures Observe.CommitStep(codec, LEASED, Publisher(Observe.Commit(Pub(r))), In(5, TICK), Pub(r))
         == (Published(codec, LEASED, Pub(r), None), Publisher(Observe.ReleaseLease(Ok(Observe.NewScan(2)), true)))
  {
  }

  lemma Commits(codec: Codec, r: Observe.ScanReport)
    ensures Goes(codec, Both(LEASED, Observe.Commit(Pub(r)), Opening.Opened(true), {100, 1, 2, 3, 4}), ObserveStep(0, In(5, TICK)),
                 Both(Published(codec, LEASED, Pub(r), None), Observe.ReleaseLease(Ok(Observe.NewScan(2)), true),
                      Opening.Opened(true), {100, 1, 2, 3, 4, 5}))
  {
    CommitStepDone(codec, r);
  }

  lemma FirstStep(codec: Codec, r: Observe.ScanReport)
    ensures Follows(codec, Trace(codec, r), Steps(r), 0)
  {
    Arrives(codec);
  }

  lemma SecondStep(codec: Codec, r: Observe.ScanReport)
    ensures Follows(codec, Trace(codec, r), Steps(r), 1)
  {
    Acquires(codec);
  }

  lemma ThirdStep(codec: Codec, r: Observe.ScanReport)
    requires Publishable(codec, r)
    ensures Follows(codec, Trace(codec, r), Steps(r), 2)
  {
    Draws(codec, r);
  }

  lemma FourthStep(codec: Codec, r: Observe.ScanReport)
    ensures Follows(codec, Trace(codec, r), Steps(r), 3)
  {
    Creates(codec, r);
  }

  lemma MiddleSteps(codec: Codec, r: Observe.ScanReport, i: nat)
    requires 4 <= i < 7
    ensures Follows(codec, Trace(codec, r), Steps(r), i)
  {
    if i == 4 { Renames(codec, r); }
    if i == 5 { Opens(codec, r); }
    if i == 6 { Knows(codec, r); }
  }

  lemma LastSteps(codec: Codec, r: Observe.ScanReport, i: nat)
    requires 7 <= i < 10
    ensures Follows(codec, Trace(codec, r), Steps(r), i)
  {
    if i == 7 { Lists(codec, r); }
    if i == 8 { Sweeps(codec, r); }
    if i == 9 { Commits(codec, r); }
  }

  /** Orphan recovery during a publication, by the same store or by another one: every step of
      the run can happen, it passes a dangerous state, and it ends with a committed snapshot
      whose report is gone. */
  lemma RecoveryDuringPublication(codec: Codec, r: Observe.ScanReport)
    requires Publishable(codec, r)
    ensures Behaviour(codec, Trace(codec, r), Steps(r))
    ensures Dangerous(Trace(codec, r)[7], 0, 1) && !LiveVerified(codec, Trace(codec, r)[10].db)
  {
    var trace, steps := Trace(codec, r), Steps(r);
    forall i: nat {:trigger Follows(codec, trace, steps, i)} | i < |steps| ensures Follows(codec, trace, steps, i) {
      if i == 0 { FirstStep(codec, r); }
      if i == 1 { SecondStep(codec, r); }
      if i == 2 { ThirdStep(codec, r); }
      if i == 3 { FourthStep(codec, r); }
      if 4 <= i < 7 { MiddleSteps(codec, r, i); }
      if 7 <= i { LastSteps(codec, r, i); }
    }
    assert 2 in trace[10].db.snapshots;
    assert trace[7] == Both(Written(r), Observe.Commit(Pub(r)), Opening.ReadDirectory({}), {100, 1, 2, 3, 4});
  }
}
