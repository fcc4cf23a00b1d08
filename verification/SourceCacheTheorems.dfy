/** What the cache and the semaphore promise in every interleaving. */
module SourceCacheTheorems {
  import opened Wrappers
  import opened SourceCache

  // ----- the command limit -----

  predicate Holds(stage: Stage) { stage.HoldsPermit? || stage.Counted? || stage.Running? || stage.Stopped? }

  predicate Counts(stage: Stage) { stage.Counted? || stage.Running? }

  ghost predicate HoldersInv(jobs: map<nat, Job>, holding: set<nat>, counted: set<nat>) {
    && (forall id :: id in holding <==> id in jobs && Holds(jobs[id].stage))
    && (forall id :: id in counted <==> id in jobs && Counts(jobs[id].stage))
  }

  ghost predicate PermitInv(c: Config, s: State) {
    && HoldersInv(s.jobs, s.holding, s.counted)
    && s.permits + |s.holding| == Limit(c)
    && s.active == |s.counted|
    && s.peak <= Limit(c)
    && (forall id :: id in s.jobs && s.jobs[id].stage.Counted? ==> s.jobs[id].stage.active <= Limit(c))
    && (forall id :: id in s.jobs ==> id in s.issued)
  }

  lemma {:induction false} SubsetSize(a: set<nat>, b: set<nat>)
    requires a <= b
    ensures |a| <= |b|
  {
    if a != {} {
      var x :| x in a;
      SubsetSize(a - {x}, b - {x});
    }
  }

  lemma CountedHold(s: State)
    requires HoldersInv(s.jobs, s.holding, s.counted)
    ensures |s.counted| <= |s.holding|
  {
    SubsetSize(s.counted, s.holding);
  }

  predicate SamePermits(s: State, s': State) {
    s'.permits == s.permits && s'.holding == s.holding && s'.active == s.active && s'.counted == s.counted
    && s'.peak == s.peak && s.issued <= s'.issued
  }

  /** Steps that neither take nor give a permit, for a request that holds none. */
  lemma UpdateKeepsPermits(c: Config, s: State, s': State, id: nat, job: Job)
    requires PermitInv(c, s) && SamePermits(s, s') && id in s'.issued
    requires s'.jobs == s.jobs[id := job] && !Holds(job.stage)
    requires id in s.jobs ==> !Holds(s.jobs[id].stage)
    ensures PermitInv(c, s')
  {
  }

  lemma RemovalKeepsPermits(c: Config, s: State, s': State, id: nat)
    requires PermitInv(c, s) && SamePermits(s, s')
    requires s'.jobs == s.jobs - {id}
    requires id in s.jobs ==> !Holds(s.jobs[id].stage)
    ensures PermitInv(c, s')
  {
  }

  predicate Quiet(step: Step) {
    step.Arrive? || step.LookUp? || step.Await? || step.Begin? || step.FinishRead? || step.Observe?
  }

  lemma QuietShape(c: Config, s: State, step: Step)
    requires Can(c, s, step) && Quiet(step)
    ensures var s' := Do(c, s, step);
      SamePermits(s, s') && step.id in s'.jobs && s'.jobs == s.jobs[step.id := s'.jobs[step.id]]
      && !Holds(s'.jobs[step.id].stage) && (step.Arrive? || !Holds(s.jobs[step.id].stage))
  {
  }

  lemma QuietKeepsPermits(c: Config, s: State, step: Step)
    requires PermitInv(c, s) && Can(c, s, step) && Quiet(step)
    ensures PermitInv(c, Do(c, s, step))
  {
    var s' := Do(c, s, step);
    QuietShape(c, s, step);
    UpdateKeepsPermits(c, s, s', step.id, s'.jobs[step.id]);
  }

  lemma OneFewer(a: set<nat>, x: nat)
    requires x in a
    ensures |a - {x}| == |a| - 1
  {
  }

  /** A permit goes back when its request is through with it. */
  lemma PermitBack(c: Config, s: State, id: nat) returns (s': State)
    requires PermitInv(c, s) && At(s, id) && (s.jobs[id].stage.HoldsPermit? || s.jobs[id].stage.Stopped?)
    ensures s' == s.(permits := s.permits + 1, holding := s.holding - {id}, jobs := s.jobs[id := s.jobs[id].(stage := Starting)])
    ensures PermitInv(c, s')
  {
    assert id in s.holding;
    OneFewer(s.holding, id);
    s' := s.(permits := s.permits + 1, holding := s.holding - {id}, jobs := s.jobs[id := s.jobs[id].(stage := Starting)]);
  }

  lemma TakeKeepsPermits(c: Config, s: State, id: nat)
    requires PermitInv(c, s) && Can(c, s, TakePermit(id))
    ensures PermitInv(c, Do(c, s, TakePermit(id)))
  {
    assert id !in s.holding;
  }

  lemma CountKeepsPermits(c: Config, s: State, id: nat)
    requires PermitInv(c, s) && Can(c, s, Count(id))
    ensures PermitInv(c, Do(c, s, Count(id)))
  {
    assert id !in s.counted && id in s.holding;
    SubsetSize(s.counted + {id}, s.holding);
  }

  lemma PeakKeepsPermits(c: Config, s: State, id: nat)
    requires PermitInv(c, s) && Can(c, s, RecordPeak(id))
    ensures PermitInv(c, Do(c, s, RecordPeak(id)))
  {
  }

  lemma StopKeepsPermits(c: Config, s: State, id: nat, outcome: Option<Answer>)
    requires PermitInv(c, s) && At(s, id) && Counts(s.jobs[id].stage)
    ensures PermitInv(c, StopStep(s, id, outcome))
  {
    assert id in s.counted;
    assert s.counted == (s.counted - {id}) + {id};
  }

  lemma GiveShape(c: Config, s: State, mid: State, id: nat)
    requires Can(c, s, GivePermit(id))
    requires mid == s.(permits := s.permits + 1, holding := s.holding - {id}, jobs := s.jobs[id := s.jobs[id].(stage := Starting)])
    ensures var s' := Do(c, s, GivePermit(id));
      SamePermits(mid, s')
      && if s.jobs[id].stage.outcome.Some? then At(s', id) && s'.jobs == mid.jobs[id := s'.jobs[id]] && !Holds(s'.jobs[id].stage)
         else s'.jobs == mid.jobs - {id}
  {
  }

  lemma GiveKeepsPermits(c: Config, s: State, id: nat)
    requires PermitInv(c, s) && Can(c, s, GivePermit(id))
    ensures PermitInv(c, Do(c, s, GivePermit(id)))
  {
    var mid := PermitBack(c, s, id);
    var s' := Do(c, s, GivePermit(id));
    GiveShape(c, s, mid, id);
    if s.jobs[id].stage.outcome.Some? {
      UpdateKeepsPermits(c, mid, s', id, s'.jobs[id]);
    } else {
      RemovalKeepsPermits(c, mid, s', id);
    }
  }

  lemma UnheldDropShape(s: State, id: nat)
    requires At(s, id) && !Holds(s.jobs[id].stage)
    ensures var s' := DropStep(s, id); SamePermits(s, s') && s'.jobs == s.jobs - {id}
  {
  }

  lemma HeldDropShape(s: State, mid: State, id: nat)
    requires At(s, id) && s.jobs[id].stage.HoldsPermit?
    requires mid == s.(permits := s.permits + 1, holding := s.holding - {id}, jobs := s.jobs[id := s.jobs[id].(stage := Starting)])
    ensures var s' := DropStep(s, id); SamePermits(mid, s') && s'.jobs == mid.jobs - {id}
  {
  }

  lemma DropKeepsPermits(c: Config, s: State, id: nat)
    requires PermitInv(c, s) && Can(c, s, Drop(id)) && !Counts(s.jobs[id].stage)
    ensures PermitInv(c, Do(c, s, Drop(id)))
  {
    if s.jobs[id].stage.HoldsPermit? {
      var mid := PermitBack(c, s, id);
      HeldDropShape(s, mid, id);
      RemovalKeepsPermits(c, mid, DropStep(s, id), id);
    } else {
      UnheldDropShape(s, id);
      RemovalKeepsPermits(c, s, DropStep(s, id), id);
    }
  }

  lemma PermitStep(c: Config, s: State, step: Step)
    requires PermitInv(c, s) && Can(c, s, step)
    ensures PermitInv(c, Do(c, s, step))
  {
    match step
    case TakePermit(id) => TakeKeepsPermits(c, s, id);
    case Count(id) => CountKeepsPermits(c, s, id);
    case RecordPeak(id) => PeakKeepsPermits(c, s, id);
    case Stop(id) =>
      StopKeepsPermits(c, s, id, Some(c.inner.run(s.jobs[id].request.command, Millis(s.jobs[id].stage.nanos))));
    case GivePermit(id) => GiveKeepsPermits(c, s, id);
    case Drop(id) => if Counts(s.jobs[id].stage) { StopKeepsPermits(c, s, id, None); } else { DropKeepsPermits(c, s, id); }
    case _ => QuietKeepsPermits(c, s, step);
  }

  lemma {:induction false} PermitsAlways(c: Config, trace: seq<State>, steps: seq<Step>, n: nat)
    requires Run(c, trace, steps) && n < |trace|
    ensures PermitInv(c, trace[n])
  {
    if n > 0 {
      PermitsAlways(c, trace, steps, n - 1);
      assert Follows(c, trace, steps, n - 1);
      PermitStep(c, trace[n - 1], steps[n - 1]);
    }
  }

  predicate AtRest(s: State) {
    forall id :: id in s.jobs ==> s.jobs[id].stage.Returned?
  }

  /** The command limit, in every interleaving and with futures dropped anywhere: what is
      counted as active never exceeds the permits that are held, so the peak never exceeds the
      limit; and with no request in flight every permit is back and nothing is active. */
  lemma CommandLimit(c: Config, trace: seq<State>, steps: seq<Step>, n: nat)
    requires Run(c, trace, steps) && n < |trace|
    ensures var s := trace[n];
      && s.active <= Limit(c) - s.permits && s.peak <= Limit(c)
      && Limit(c) >= 1 && (c.maxCommands >= 1 ==> Limit(c) == c.maxCommands)
      && (AtRest(s) ==> s.permits == Limit(c) && s.active == 0)
  {
    PermitsAlways(c, trace, steps, n);
    CountedHold(trace[n]);
    if AtRest(trace[n]) {
      assert trace[n].holding == {};
    }
  }

  // ----- one flight per key; executions and flagged hits -----

  predicate CellSet(cells: map<Key, Cell>, key: Key) { key in cells && cells[key].Set? }

  predicate LedBy(cells: map<Key, Cell>, key: Key, id: nat) { key in cells && cells[key] == Empty(Some(id)) }

  /** A set cell stays set, with its answer, and nobody else's flight is disturbed. */
  ghost predicate CellsMove(cells: map<Key, Cell>, cells': map<Key, Cell>, id: nat) {
    forall key :: key in cells ==>
      key in cells' && (cells[key].Set? || (cells[key].leader.Some? && cells[key].leader.value != id) ==> cells'[key] == cells[key])
  }

  predicate Executing(stage: Stage) {
    stage.Starting? || stage.WantPermit? || stage.HoldsPermit? || stage.Counted? || stage.Running? || stage.Stopped? || stage.Reading?
  }

  predicate BeforeExecution(stage: Stage) {
    stage.Arrived? || stage.AtCell? || stage.Starting? || stage.WantPermit? || stage.HoldsPermit? || stage.Counted?
  }

  /** A cached execution leads the flight of its key; a request that was flagged as a hit
      found its cell set and never executes. */
  predicate JobOk(c: Config, cells: map<Key, Cell>, executed: set<nat>, id: nat, job: Job) {
    && (Executing(job.stage) && Cached(c, job.request) ==> LedBy(cells, KeyOf(job.request), id))
    && (job.stage.AtCell? ==> Cached(c, job.request) && KeyOf(job.request) in cells)
    && (BeforeExecution(job.stage) ==> id !in executed)
    && (job.stage.Arrived? ==> !job.hit)
    && (job.hit && c.enabled ==>
          Cached(c, job.request) && id !in executed && CellSet(cells, KeyOf(job.request))
          && (job.stage.AtCell? || job.stage.Delivered? || job.stage.Returned?))
  }

  /** What one step of request id does to the cache and the execution count. */
  ghost predicate Moves(c: Config, s: State, s': State, id: nat) {
    && CellsMove(s.cells, s'.cells, id)
    && (s'.jobs == s.jobs - {id}
        || (id in s'.jobs && s'.jobs == s.jobs[id := s'.jobs[id]] && JobOk(c, s'.cells, s'.executed, id, s'.jobs[id])))
    && ((s'.executed == s.executed && s'.executions == s.executions)
        || (s'.executed == s.executed + {id} && s'.executions == s.executions + 1 && id !in s.executed))
  }

  predicate Ready(c: Config, s: State, step: Step) {
    Can(c, s, step) && (!step.Arrive? ==> At(s, step.id) && JobOk(c, s.cells, s.executed, step.id, s.jobs[step.id]))
  }

  lemma LookUpMoves(c: Config, s: State, id: nat)
    requires Ready(c, s, LookUp(id))
    ensures Moves(c, s, Do(c, s, LookUp(id)), id)
  {
  }

  lemma AwaitMoves(c: Config, s: State, id: nat)
    requires Ready(c, s, Await(id))
    ensures Moves(c, s, Do(c, s, Await(id)), id)
  {
  }

  lemma DeliverMoves(c: Config, s: State, id: nat, answer: Answer)
    requires At(s, id) && JobOk(c, s.cells, s.executed, id, s.jobs[id]) && Executing(s.jobs[id].stage)
    ensures Moves(c, s, Deliver(c, s, id, answer), id)
  {
  }

  lemma BeginMoves(c: Config, s: State, id: nat, remaining: Option<nat>)
    requires Ready(c, s, Begin(id, remaining))
    ensures Moves(c, s, Do(c, s, Begin(id, remaining)), id)
  {
    var q := s.jobs[id].request;
    if q.RunCommand? && EffectiveTimeout(q.nanos, remaining) == 0 {
      DeliverMoves(c, s, id, ExpiredAnswer(c.inner, q));
    }
  }

  lemma CommandMoves(c: Config, s: State, step: Step)
    requires Ready(c, s, step) && (step.TakePermit? || step.Count? || step.RecordPeak? || step.Stop?)
    ensures Moves(c, s, Do(c, s, step), step.id)
  {
  }

  lemma GiveMoves(c: Config, s: State, id: nat)
    requires Ready(c, s, GivePermit(id))
    ensures Moves(c, s, Do(c, s, GivePermit(id)), id)
  {
    if s.jobs[id].stage.outcome.Some? {
      DeliverMoves(c, s, id, s.jobs[id].stage.outcome.value);
    } else {
      ForgetMoves(c, s, id);
    }
  }

  lemma ForgetMoves(c: Config, s: State, id: nat)
    requires At(s, id)
    ensures Moves(c, s, Forget(s, id), id)
  {
  }

  lemma DropMoves(c: Config, s: State, id: nat)
    requires Ready(c, s, Drop(id))
    ensures Moves(c, s, Do(c, s, Drop(id)), id)
  {
    if !Counts(s.jobs[id].stage) { ForgetMoves(c, s, id); }
  }

  lemma FinishReadMoves(c: Config, s: State, id: nat, late: bool)
    requires Ready(c, s, FinishRead(id, late))
    ensures Moves(c, s, Do(c, s, FinishRead(id, late)), id)
  {
    var q, remaining := s.jobs[id].request, s.jobs[id].stage.remaining;
    var expired := remaining.Some? && (remaining.value == 0 || late);
    DeliverMoves(c, s, id, if expired then ExpiredAnswer(c.inner, q) else c.inner.read(q.kind, q.path));
  }

  lemma ObserveMoves(c: Config, s: State, id: nat)
    requires Ready(c, s, Observe(id))
    ensures Moves(c, s, Do(c, s, Observe(id)), id)
  {
  }

  lemma ArriveMoves(c: Config, s: State, id: nat, q: Request)
    requires Can(c, s, Arrive(id, q)) && id !in s.executed
    ensures Moves(c, s, Do(c, s, Arrive(id, q)), id)
  {
  }

  ghost predicate FlightInv(c: Config, s: State) {
    && (forall id {:trigger At(s, id)} :: At(s, id) ==> id in s.issued && JobOk(c, s.cells, s.executed, id, s.jobs[id]))
    && s.executed <= s.issued
    && s.executions == |s.executed|
    && s.requests == |s.issued|
  }

  lemma StepMoves(c: Config, s: State, step: Step)
    requires FlightInv(c, s) && Can(c, s, step)
    ensures Moves(c, s, Do(c, s, step), step.id)
  {
    assert !step.Arrive? ==> At(s, step.id);
    match step
    case Arrive(id, q) => ArriveMoves(c, s, id, q);
    case LookUp(id) => LookUpMoves(c, s, id);
    case Await(id) => AwaitMoves(c, s, id);
    case Begin(id, remaining) => BeginMoves(c, s, id, remaining);
    case GivePermit(id) => GiveMoves(c, s, id);
    case FinishRead(id, late) => FinishReadMoves(c, s, id, late);
    case Observe(id) => ObserveMoves(c, s, id);
    case Drop(id) => DropMoves(c, s, id);
    case _ => CommandMoves(c, s, step);
  }

  lemma OtherStaysOk(c: Config, cells: map<Key, Cell>, cells': map<Key, Cell>, executed: set<nat>, executed': set<nat>,
                     id: nat, other: nat, job: Job)
    requires JobOk(c, cells, executed, other, job) && other != id
    requires CellsMove(cells, cells', id) && (executed' == executed || executed' == executed + {id})
    ensures JobOk(c, cells', executed', other, job)
  {
  }

  lemma StepIssues(c: Config, s: State, step: Step)
    requires Can(c, s, step)
    ensures var s' := Do(c, s, step);
      if step.Arrive? then s'.issued == s.issued + {step.id} && step.id !in s.issued && s'.requests == s.requests + 1
      else s'.issued == s.issued && s'.requests == s.requests
  {
  }

  lemma FlightStep(c: Config, s: State, step: Step)
    requires FlightInv(c, s) && Can(c, s, step)
    ensures FlightInv(c, Do(c, s, step))
  {
    var s' := Do(c, s, step);
    StepMoves(c, s, step);
    StepIssues(c, s, step);
    assert !step.Arrive? ==> At(s, step.id);
    forall id {:trigger At(s', id)} | At(s', id) ensures id in s'.issued && JobOk(c, s'.cells, s'.executed, id, s'.jobs[id]) {
      if id != step.id {
        assert At(s, id);
        OtherStaysOk(c, s.cells, s'.cells, s.executed, s'.executed, step.id, id, s.jobs[id]);
      }
    }
  }

  lemma {:induction false} FlightAlways(c: Config, trace: seq<State>, steps: seq<Step>, n: nat)
    requires Run(c, trace, steps) && n < |trace|
    ensures FlightInv(c, trace[n])
  {
    if n > 0 {
      FlightAlways(c, trace, steps, n - 1);
      assert Follows(c, trace, steps, n - 1);
      FlightStep(c, trace[n - 1], steps[n - 1]);
    }
  }

  // ----- the metrics -----

  /** The requests observed as hits. */
  ghost function Flagged(observations: seq<(nat, bool)>): set<nat> {
    set i | 0 <= i < |observations| && observations[i].1 :: observations[i].0
  }

  ghost predicate DistinctIds(observations: seq<(nat, bool)>) {
    forall i, j :: 0 <= i < j < |observations| ==> observations[i].0 != observations[j].0
  }

  lemma FlaggedMore(observations: seq<(nat, bool)>, last: (nat, bool))
    ensures Flagged(observations + [last]) == Flagged(observations) + (if last.1 then {last.0} else {})
  {
    var all := observations + [last];
    assert forall i :: 0 <= i < |observations| ==> all[i] == observations[i];
    assert all[|observations|] == last;
  }

  lemma LastIsNew(observations: seq<(nat, bool)>)
    requires observations != [] && DistinctIds(observations)
    ensures observations[|observations| - 1].0 !in Flagged(observations[..|observations| - 1])
  {
  }

  lemma {:induction false} HitsAreFlagged(observations: seq<(nat, bool)>)
    requires DistinctIds(observations)
    ensures CountHits(observations) == |Flagged(observations)|
  {
    if observations != [] {
      var rest, last := observations[..|observations| - 1], observations[|observations| - 1];
      HitsAreFlagged(rest);
      FlaggedMore(rest, last);
      assert observations == rest + [last];
      LastIsNew(observations);
    }
  }

  /** Each request is observed at most once, when it returns, with its own flag. */
  ghost predicate ObservedInv(c: Config, s: State) {
    && DistinctIds(s.observations)
    && forall i :: 0 <= i < |s.observations| ==>
         At(s, s.observations[i].0) && s.jobs[s.observations[i].0].stage.Returned?
         && (s.observations[i].1 ==> s.jobs[s.observations[i].0].hit && c.enabled)
  }

  lemma OthersStay(c: Config, s: State, step: Step, other: nat)
    requires Can(c, s, step) && other != step.id
    ensures At(Do(c, s, step), other) <==> At(s, other)
    ensures At(s, other) ==> Do(c, s, step).jobs[other] == s.jobs[other]
  {
  }

  lemma ObservationsMove(c: Config, s: State, step: Step)
    requires Can(c, s, step) && !step.Observe?
    ensures Do(c, s, step).observations == s.observations
    ensures step.Arrive? || !s.jobs[step.id].stage.Returned?
  {
  }

  lemma ObservedStep(c: Config, s: State, step: Step)
    requires ObservedInv(c, s) && Can(c, s, step) && (forall id {:trigger At(s, id)} :: At(s, id) ==> id in s.issued)
    ensures ObservedInv(c, Do(c, s, step))
  {
    var s' := Do(c, s, step);
    if !step.Observe? { ObservationsMove(c, s, step); }
    forall i | 0 <= i < |s.observations| ensures s.observations[i].0 != step.id && s'.jobs.Keys >= {s.observations[i].0}
                                                 && s'.jobs[s.observations[i].0] == s.jobs[s.observations[i].0]
    {
      assert At(s, s.observations[i].0);
      OthersStay(c, s, step, s.observations[i].0);
    }
  }

  lemma {:induction false} ObservedAlways(c: Config, trace: seq<State>, steps: seq<Step>, n: nat)
    requires Run(c, trace, steps) && n < |trace|
    ensures ObservedInv(c, trace[n])
  {
    if n > 0 {
      ObservedAlways(c, trace, steps, n - 1);
      FlightAlways(c, trace, steps, n - 1);
      assert Follows(c, trace, steps, n - 1);
      ObservedStep(c, trace[n - 1], steps[n - 1]);
    }
  }

  /** In every run, with futures dropped anywhere: a request that executes is never flagged as
      a hit, so executions and flagged hits together never exceed the requests, and the
      reported `cache_hits` is at least the flagged ones. */
  lemma ExecutionsAndHits(c: Config, trace: seq<State>, steps: seq<Step>, n: nat)
    requires Run(c, trace, steps) && n < |trace|
    ensures trace[n].executions + CountHits(trace[n].observations) <= trace[n].requests
  {
    var s := trace[n];
    FlightAlways(c, trace, steps, n);
    ObservedAlways(c, trace, steps, n);
    HitsAreFlagged(s.observations);
    forall id | id in Flagged(s.observations) ensures id in s.issued && id !in s.executed {
      assert At(s, id);
    }
    SubsetSize(s.executed + Flagged(s.observations), s.issued);
  }

  // ----- each key once -----

  ghost predicate AskedInv(s: State) {
    s.asked.Keys == s.issued
    && forall id {:trigger At(s, id)} :: At(s, id) ==> id in s.asked && s.asked[id] == s.jobs[id].request
  }

  lemma AskedStep(c: Config, s: State, step: Step)
    requires AskedInv(s) && Can(c, s, step)
    ensures AskedInv(Do(c, s, step)) && (forall id :: id in s.asked ==> Do(c, s, step).asked[id] == s.asked[id])
  {
    var s' := Do(c, s, step);
    assert !step.Arrive? ==> At(s, step.id);
    RequestStays(c, s, step);
    forall id {:trigger At(s', id)} | At(s', id) ensures id in s'.asked && s'.asked[id] == s'.jobs[id].request {
      if id != step.id { OthersStay(c, s, step, id); }
    }
  }

  lemma RequestStays(c: Config, s: State, step: Step)
    requires Can(c, s, step)
    ensures var s' := Do(c, s, step);
      if step.Arrive? then s'.asked == s.asked[step.id := step.request] && At(s', step.id) && s'.jobs[step.id].request == step.request
      else s'.asked == s.asked && s'.issued == s.issued && (At(s', step.id) ==> s'.jobs[step.id].request == s.jobs[step.id].request)
    ensures s.dropped <= Do(c, s, step).dropped
    ensures step.Arrive? ==> Do(c, s, step).issued == s.issued + {step.id}
  {
  }

  predicate CachedExecution(c: Config, s: State, id: nat) {
    id in s.executed && id in s.asked && Cached(c, s.asked[id])
  }

  predicate Accounted(cells: map<Key, Cell>, key: Key, id: nat) { CellSet(cells, key) || LedBy(cells, key, id) }

  /** While nothing was dropped, an executed key is in flight or answered for good, and no
      second request has executed it. */
  ghost predicate OnceInv(c: Config, s: State) {
    && (forall id :: CachedExecution(c, s, id) ==> Accounted(s.cells, KeyOf(s.asked[id]), id))
    && (forall id, other :: CachedExecution(c, s, id) && CachedExecution(c, s, other) && KeyOf(s.asked[id]) == KeyOf(s.asked[other]) ==>
          id == other)
  }

  /** A flight ends only by an answer or by its request being dropped. */
  lemma FlightGoesOn(c: Config, s: State, step: Step, key: Key)
    requires Ready(c, s, step) && LedBy(s.cells, key, step.id)
    ensures var s' := Do(c, s, step); LedBy(s'.cells, key, step.id) || CellSet(s'.cells, key) || step.id in s'.dropped
  {
  }

  /** What executes is in flight. */
  lemma ExecutesInFlight(c: Config, s: State, step: Step)
    requires Ready(c, s, step) && Do(c, s, step).executed != s.executed
    ensures !step.Arrive? && Executing(s.jobs[step.id].stage)
    ensures var s' := Do(c, s, step); At(s', step.id) && Executing(s'.jobs[step.id].stage)
  {
  }

  lemma ExecutionsStayAccounted(c: Config, s: State, step: Step, id: nat)
    requires FlightInv(c, s) && AskedInv(s) && OnceInv(c, s) && Can(c, s, step) && Do(c, s, step).dropped == {}
    requires CachedExecution(c, Do(c, s, step), id)
    ensures var s' := Do(c, s, step); Accounted(s'.cells, KeyOf(s'.asked[id]), id)
  {
    assert !step.Arrive? ==> At(s, step.id);
    StepMoves(c, s, step);
    RequestStays(c, s, step);
    if id !in s.executed {
      ExecutesInFlight(c, s, step);
    } else if id == step.id && LedBy(s.cells, KeyOf(s.asked[id]), id) {
      FlightGoesOn(c, s, step, KeyOf(s.asked[id]));
    }
  }

  lemma ExecutionsStayUnique(c: Config, s: State, step: Step, id: nat, other: nat)
    requires FlightInv(c, s) && AskedInv(s) && OnceInv(c, s) && Can(c, s, step)
    requires var s' := Do(c, s, step);
      CachedExecution(c, s', id) && CachedExecution(c, s', other) && KeyOf(s'.asked[id]) == KeyOf(s'.asked[other])
    requires id !in s.executed
    ensures id == other
  {
    assert !step.Arrive? ==> At(s, step.id);
    StepMoves(c, s, step);
    RequestStays(c, s, step);
    ExecutesInFlight(c, s, step);
    if id != other {
      assert CachedExecution(c, s, other);
    }
  }

  lemma OnceStep(c: Config, s: State, step: Step)
    requires FlightInv(c, s) && AskedInv(s) && OnceInv(c, s) && Can(c, s, step) && Do(c, s, step).dropped == {}
    ensures OnceInv(c, Do(c, s, step))
  {
    var s' := Do(c, s, step);
    forall id | CachedExecution(c, s', id) ensures Accounted(s'.cells, KeyOf(s'.asked[id]), id) {
      ExecutionsStayAccounted(c, s, step, id);
    }
    forall id, other | CachedExecution(c, s', id) && CachedExecution(c, s', other) && KeyOf(s'.asked[id]) == KeyOf(s'.asked[other])
      ensures id == other
    {
      if id !in s.executed {
        ExecutionsStayUnique(c, s, step, id, other);
      } else if other !in s.executed {
        ExecutionsStayUnique(c, s, step, other, id);
      } else {
        AskedStep(c, s, step);
        assert CachedExecution(c, s, id) && CachedExecution(c, s, other);
      }
    }
  }

  lemma {:induction false} OnceAlways(c: Config, trace: seq<State>, steps: seq<Step>, n: nat)
    requires Run(c, trace, steps) && n < |trace| && trace[n].dropped == {}
    ensures AskedInv(trace[n]) && OnceInv(c, trace[n])
  {
    if n > 0 {
      assert Follows(c, trace, steps, n - 1);
      RequestStays(c, trace[n - 1], steps[n - 1]);
      OnceAlways(c, trace, steps, n - 1);
      FlightAlways(c, trace, steps, n - 1);
      AskedStep(c, trace[n - 1], steps[n - 1]);
      OnceStep(c, trace[n - 1], steps[n - 1]);
    }
  }

  /** Without cancellation each cacheable key is executed at most once. */
  lemma EachKeyOnce(c: Config, trace: seq<State>, steps: seq<Step>, n: nat, id: nat, other: nat)
    requires Run(c, trace, steps) && n < |trace| && trace[n].dropped == {}
    requires CachedExecution(c, trace[n], id) && CachedExecution(c, trace[n], other)
    requires KeyOf(trace[n].asked[id]) == KeyOf(trace[n].asked[other])
    ensures id == other
  {
    OnceAlways(c, trace, steps, n);
  }
}
