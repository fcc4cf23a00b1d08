/** What is cached and what is not: which requests run, and which are answered as hits. */
module SourceCacheHits {
  import opened Wrappers
  import opened SourceCache
  import opened SourceCacheTheorems
  import opened SourceCacheAnswers

  const NANOS_PER_MILLI := 1_000_000
  const MAX_MILLIS := 0xFFFF_FFFF_FFFF_FFFF

  /** The same read, or the same command with timeouts of equally many whole milliseconds, where
      all that exceed a `u64` count as equal. */
  predicate SameSource(q: Request, other: Request) {
    match q
    case Read(_, _) => q == other
    case RunCommand(command, nanos) =>
      other.RunCommand? && other.command == command
      && (nanos / NANOS_PER_MILLI == other.nanos / NANOS_PER_MILLI
          || (nanos / NANOS_PER_MILLI >= MAX_MILLIS && other.nanos / NANOS_PER_MILLI >= MAX_MILLIS))
  }

  lemma KeyIsSource(q: Request, other: Request)
    ensures KeyOf(q) == KeyOf(other) <==> SameSource(q, other)
  {
  }

  // ----- each source once -----

  predicate Executed(s: State, id: nat, q: Request) { id in s.executed && id in s.asked && s.asked[id] == q }

  /** With the cache enabled and nothing dropped, two requests that both executed and want the
      same source, a read or a command on the list of cacheable ones, are the same request. */
  lemma EachSourceOnce(c: Config, trace: seq<State>, steps: seq<Step>, n: nat, id: nat, q: Request, other: nat, q': Request)
    requires Run(c, trace, steps) && n < |trace| && trace[n].dropped == {} && c.enabled
    requires Executed(trace[n], id, q) && Executed(trace[n], other, q') && SameSource(q, q')
    requires q.RunCommand? ==> c.inner.cacheable(q.command)
    ensures id == other
  {
    KeyIsSource(q, q');
    EachKeyOnce(c, trace, steps, n, id, other);
  }

  // ----- what is not cached runs -----

  /** Nothing serves this request from the cache: it is switched off, or the command is not on
      the list. */
  predicate Unserved(c: Config, q: Request) {
    !c.enabled || (q.RunCommand? && !c.inner.cacheable(q.command))
  }

  predicate HasTime(q: Request) { q.RunCommand? ==> q.nanos > 0 }

  predicate Ran(stage: Stage) {
    stage.Running? || (stage.Stopped? && stage.outcome.Some?) || stage.Reading? || stage.Delivered? || stage.Returned?
  }

  predicate RanOk(c: Config, executed: set<nat>, id: nat, job: Job) {
    Unserved(c, job.request) && HasTime(job.request) && Ran(job.stage) ==> id in executed
  }

  ghost predicate RanInv(c: Config, s: State) {
    forall id {:trigger At(s, id)} :: At(s, id) ==> RanOk(c, s.executed, id, s.jobs[id])
  }

  lemma OwnStepRan(c: Config, s: State, step: Step)
    requires Ready(c, s, step) && (step.Begin? ==> step.remaining.None?)
    requires !step.Arrive? ==> RanOk(c, s.executed, step.id, s.jobs[step.id]) && JobRight(c, s.asked, s.jobs[step.id])
    ensures var s' := Do(c, s, step); At(s', step.id) ==> RanOk(c, s'.executed, step.id, s'.jobs[step.id])
  {
  }

  lemma ExecutedGrows(c: Config, s: State, step: Step)
    requires Can(c, s, step)
    ensures s.executed <= Do(c, s, step).executed
  {
  }

  lemma RanStep(c: Config, s: State, step: Step)
    requires FlightInv(c, s) && AnswersInv(c, s) && RanInv(c, s) && Can(c, s, step) && (step.Begin? ==> step.remaining.None?)
    ensures RanInv(c, Do(c, s, step))
  {
    var s' := Do(c, s, step);
    assert !step.Arrive? ==> At(s, step.id);
    OwnStepRan(c, s, step);
    ExecutedGrows(c, s, step);
    forall id {:trigger At(s', id)} | At(s', id) ensures RanOk(c, s'.executed, id, s'.jobs[id]) {
      if id != step.id { OthersStay(c, s, step, id); }
    }
  }

  lemma {:induction false} RanAlways(c: Config, trace: seq<State>, steps: seq<Step>, n: nat)
    requires Run(c, trace, steps) && NoDeadline(steps) && n < |trace|
    ensures RanInv(c, trace[n])
  {
    if n > 0 {
      RanAlways(c, trace, steps, n - 1);
      FlightAlways(c, trace, steps, n - 1);
      AnswersAlways(c, trace, steps, n - 1);
      assert Follows(c, trace, steps, n - 1);
      RanStep(c, trace[n - 1], steps[n - 1]);
    }
  }

  /** In every run: a request that nothing serves from the cache is never flagged as a hit; and
      without a deadline, once it has returned it has executed itself, unless it is a command
      without time. */
  lemma UnservedExecute(c: Config, trace: seq<State>, steps: seq<Step>, n: nat, id: nat)
    requires Run(c, trace, steps) && n < |trace| && HasReturned(trace[n], id) && Unserved(c, trace[n].jobs[id].request)
    ensures (id, true) !in trace[n].observations
    ensures NoDeadline(steps) && HasTime(trace[n].jobs[id].request) ==> id in trace[n].executed
  {
    FlightAlways(c, trace, steps, n);
    ObservedAlways(c, trace, steps, n);
    assert At(trace[n], id);
    if NoDeadline(steps) { RanAlways(c, trace, steps, n); }
  }

  // ----- what is cached is a hit -----

  predicate Served(c: Config, q: Request) {
    c.enabled && (q.RunCommand? ==> c.inner.cacheable(q.command))
  }

  /** A served request has its answer from the cell, and what has returned was observed. */
  predicate ServedOk(c: Config, cells: map<Key, Cell>, job: Job) {
    Served(c, job.request) ==>
      match job.stage
      case Delivered(answer) => CellSet(cells, KeyOf(job.request)) && cells[KeyOf(job.request)].answer == answer
      case Returned(answer) => CellSet(cells, KeyOf(job.request)) && cells[KeyOf(job.request)].answer == answer
      case _ => true
  }

  predicate Noted(c: Config, observations: seq<(nat, bool)>, id: nat, job: Job) {
    job.stage.Returned? ==> (id, job.hit && c.enabled) in observations
  }

  ghost predicate ServedInv(c: Config, s: State) {
    forall id {:trigger At(s, id)} :: At(s, id) ==> ServedOk(c, s.cells, s.jobs[id]) && Noted(c, s.observations, id, s.jobs[id])
  }

  lemma OwnStepServed(c: Config, s: State, step: Step)
    requires Ready(c, s, step)
    requires !step.Arrive? ==> ServedOk(c, s.cells, s.jobs[step.id]) && Noted(c, s.observations, step.id, s.jobs[step.id])
    ensures var s' := Do(c, s, step);
      At(s', step.id) ==> ServedOk(c, s'.cells, s'.jobs[step.id]) && Noted(c, s'.observations, step.id, s'.jobs[step.id])
  {
  }

  lemma ObservationsGrow(c: Config, s: State, step: Step)
    requires Can(c, s, step)
    ensures s.observations <= Do(c, s, step).observations
  {
  }

  lemma ServedStep(c: Config, s: State, step: Step)
    requires FlightInv(c, s) && ServedInv(c, s) && Can(c, s, step)
    ensures ServedInv(c, Do(c, s, step))
  {
    var s' := Do(c, s, step);
    assert !step.Arrive? ==> At(s, step.id);
    StepMoves(c, s, step);
    OwnStepServed(c, s, step);
    ObservationsGrow(c, s, step);
    forall id {:trigger At(s', id)} | At(s', id)
      ensures ServedOk(c, s'.cells, s'.jobs[id]) && Noted(c, s'.observations, id, s'.jobs[id])
    {
      if id != step.id {
        OthersStay(c, s, step, id);
        assert At(s, id);
      }
    }
  }

  lemma {:induction false} ServedAlways(c: Config, trace: seq<State>, steps: seq<Step>, n: nat)
    requires Run(c, trace, steps) && n < |trace|
    ensures ServedInv(c, trace[n])
  {
    if n > 0 {
      ServedAlways(c, trace, steps, n - 1);
      FlightAlways(c, trace, steps, n - 1);
      assert Follows(c, trace, steps, n - 1);
      ServedStep(c, trace[n - 1], steps[n - 1]);
    }
  }

  /** The request looked up after its source was answered. */
  predicate Late(s: State, id: nat, key: Key, answer: Answer) {
    && id in s.issued && id !in s.executed
    && CellSet(s.cells, key) && s.cells[key].answer == answer
    && (At(s, id) ==> s.jobs[id].hit && KeyOf(s.jobs[id].request) == key)
  }

  lemma LateStep(c: Config, s: State, step: Step, id: nat, key: Key, answer: Answer)
    requires FlightInv(c, s) && Late(s, id, key, answer) && Can(c, s, step) && c.enabled
    requires At(s, id) ==> !s.jobs[id].stage.Arrived?
    ensures Late(Do(c, s, step), id, key, answer)
    ensures At(Do(c, s, step), id) ==> !Do(c, s, step).jobs[id].stage.Arrived?
  {
    assert !step.Arrive? ==> At(s, step.id);
    StepMoves(c, s, step);
    if step.id == id { LateOwnStep(c, s, step, id); } else { OthersStay(c, s, step, id); }
  }

  lemma LateOwnStep(c: Config, s: State, step: Step, id: nat)
    requires Ready(c, s, step) && step.id == id && !step.Arrive? && s.jobs[id].hit && c.enabled && !s.jobs[id].stage.Arrived?
    ensures var s' := Do(c, s, step);
      && s'.executed == s.executed && s'.issued == s.issued
      && (At(s', id) ==> s'.jobs[id].hit && s'.jobs[id].request == s.jobs[id].request && !s'.jobs[id].stage.Arrived?)
  {
  }

  lemma {:induction false} LateAlways(c: Config, trace: seq<State>, steps: seq<Step>, m: nat, n: nat, id: nat, key: Key, answer: Answer)
    requires Run(c, trace, steps) && m <= n < |trace| && c.enabled && Late(trace[m], id, key, answer)
    requires At(trace[m], id) && !trace[m].jobs[id].stage.Arrived?
    ensures Late(trace[n], id, key, answer) && (At(trace[n], id) ==> !trace[n].jobs[id].stage.Arrived?)
  {
    if m < n {
      LateAlways(c, trace, steps, m, n - 1, id, key, answer);
      FlightAlways(c, trace, steps, n - 1);
      assert Follows(c, trace, steps, n - 1);
      LateStep(c, trace[n - 1], steps[n - 1], id, key, answer);
    }
  }

  /** With the cache enabled, a read or a cacheable command that is looked up (step m) after
      some request for the same source has returned never executes; when it returns it was
      observed as a hit, and it has the very same answer. In every interleaving. */
  lemma ServedIsHit(c: Config, trace: seq<State>, steps: seq<Step>, m: nat, n: nat, first: nat, id: nat)
    requires Run(c, trace, steps) && m < n < |trace| && c.enabled && steps[m] == LookUp(id)
    requires HasReturned(trace[m], first) && At(trace[m], id) && SameSource(trace[m].jobs[first].request, trace[m].jobs[id].request)
    requires var q := trace[m].jobs[id].request; q.RunCommand? ==> c.inner.cacheable(q.command)
    ensures id !in trace[n].executed
    ensures HasReturned(trace[n], id) ==>
      (id, true) in trace[n].observations && trace[n].jobs[id].stage.answer == trace[m].jobs[first].stage.answer
  {
    assert Follows(c, trace, steps, m);
    KeyIsSource(trace[m].jobs[first].request, trace[m].jobs[id].request);
    FlightAlways(c, trace, steps, m);
    ServedAlways(c, trace, steps, m);
    assert At(trace[m], first);
    LateAlways(c, trace, steps, m + 1, n, id, KeyOf(trace[m].jobs[id].request), trace[m].jobs[first].stage.answer);
    ServedAlways(c, trace, steps, n);
    FlightAlways(c, trace, steps, n);
    if HasReturned(trace[n], id) { assert At(trace[n], id); }
  }

  // ----- after the deadline -----

  /** The command found no time left, and has the answer that says so. */
  predicate Expired(c: Config, s: State, id: nat, q: Request) {
    && id in s.issued && id !in s.executed
    && (At(s, id) ==>
          s.jobs[id].request == q
          && (s.jobs[id].stage == Delivered(ExpiredAnswer(c.inner, q)) || s.jobs[id].stage == Returned(ExpiredAnswer(c.inner, q))))
  }

  lemma ExpiredStep(c: Config, s: State, step: Step, id: nat, q: Request)
    requires FlightInv(c, s) && Expired(c, s, id, q) && Can(c, s, step)
    ensures Expired(c, Do(c, s, step), id, q)
  {
    assert !step.Arrive? ==> At(s, step.id);
    StepMoves(c, s, step);
    if step.id == id { ExpiredOwnStep(c, s, step, q); } else { OthersStay(c, s, step, id); }
  }

  lemma ExpiredOwnStep(c: Config, s: State, step: Step, q: Request)
    requires Can(c, s, step) && !step.Arrive? && Expired(c, s, step.id, q)
    ensures Expired(c, Do(c, s, step), step.id, q)
  {
  }

  lemma {:induction false} ExpiredAlways(c: Config, trace: seq<State>, steps: seq<Step>, m: nat, n: nat, id: nat, q: Request)
    requires Run(c, trace, steps) && m <= n < |trace| && Expired(c, trace[m], id, q)
    ensures Expired(c, trace[n], id, q)
  {
    if m < n {
      ExpiredAlways(c, trace, steps, m, n - 1, id, q);
      FlightAlways(c, trace, steps, n - 1);
      assert Follows(c, trace, steps, n - 1);
      ExpiredStep(c, trace[n - 1], steps[n - 1], id, q);
    }
  }

  /** A command that begins (step m) when the deadline has passed, or without any time of its
      own, never starts, takes no permit, and its only answer is the timeout. */
  lemma ExpiredNeverStarts(c: Config, trace: seq<State>, steps: seq<Step>, m: nat, n: nat, id: nat, remaining: Option<nat>)
    requires Run(c, trace, steps) && m < n < |trace| && steps[m] == Begin(id, remaining)
    requires At(trace[m], id) && trace[m].jobs[id].request.RunCommand?
    requires remaining == Some(0) || trace[m].jobs[id].request.nanos == 0
    ensures id !in trace[n].executed && id !in trace[n].holding
    ensures HasReturned(trace[n], id) ==> trace[n].jobs[id].stage.answer == ExpiredAnswer(c.inner, trace[m].jobs[id].request)
  {
    assert Follows(c, trace, steps, m);
    FlightAlways(c, trace, steps, m);
    ExpiredAlways(c, trace, steps, m + 1, n, id, trace[m].jobs[id].request);
    PermitsAlways(c, trace, steps, n);
    if HasReturned(trace[n], id) { assert At(trace[n], id); }
  }

  /** A command runs with what is left to the deadline when it begins, if that is less than its
      own timeout, and with its own timeout otherwise. */
  lemma TimeIsCut(c: Config, s: State, id: nat, remaining: Option<nat>)
    requires Can(c, s, Begin(id, remaining)) && s.jobs[id].request.RunCommand?
    ensures var s', q := Do(c, s, Begin(id, remaining)), s.jobs[id].request;
      s'.jobs[id].stage.WantPermit? ==>
        && 0 < s'.jobs[id].stage.nanos <= q.nanos && (remaining.Some? ==> s'.jobs[id].stage.nanos <= remaining.value)
        && (s'.jobs[id].stage.nanos == q.nanos || Some(s'.jobs[id].stage.nanos) == remaining)
  {
  }

  /** The read found no time left. */
  predicate ReadExpired(c: Config, s: State, id: nat, q: Request) {
    && id in s.issued
    && (At(s, id) ==>
          s.jobs[id].request == q
          && (s.jobs[id].stage == Reading(Some(0)) || s.jobs[id].stage == Delivered(ExpiredAnswer(c.inner, q))
              || s.jobs[id].stage == Returned(ExpiredAnswer(c.inner, q))))
  }

  lemma ReadExpiredStep(c: Config, s: State, step: Step, id: nat, q: Request)
    requires ReadExpired(c, s, id, q) && Can(c, s, step)
    ensures ReadExpired(c, Do(c, s, step), id, q)
  {
    if step.id != id { OthersStay(c, s, step, id); }
  }

  /** A read that begins (step m) when the deadline has passed answers with the timeout. */
  lemma {:induction false} LateReadExpires(c: Config, trace: seq<State>, steps: seq<Step>, m: nat, n: nat, id: nat)
    requires Run(c, trace, steps) && m < n < |trace| && steps[m] == Begin(id, Some(0))
    requires At(trace[m], id) && trace[m].jobs[id].request.Read?
    ensures ReadExpired(c, trace[n], id, trace[m].jobs[id].request)
  {
    assert Follows(c, trace, steps, n - 1);
    FlightAlways(c, trace, steps, m);
    if m + 1 < n {
      LateReadExpires(c, trace, steps, m, n - 1, id);
      ReadExpiredStep(c, trace[n - 1], steps[n - 1], id, trace[m].jobs[id].request);
    }
  }

  // ----- the peak -----

  /** At step m a command starts, and this many are active by then. */
  predicate StartsAs(trace: seq<State>, steps: seq<Step>, m: nat, active: nat) {
    m < |steps| && m < |trace| && steps[m].RecordPeak? && At(trace[m], steps[m].id)
    && trace[m].jobs[steps[m].id].stage.Counted? && trace[m].jobs[steps[m].id].stage.active == active
  }

  lemma PeakMoves(c: Config, s: State, step: Step)
    requires Can(c, s, step)
    ensures var s' := Do(c, s, step);
      if step.RecordPeak? then
        s'.peak == if s.jobs[step.id].stage.active > s.peak then s.jobs[step.id].stage.active else s.peak
      else s'.peak == s.peak
  {
  }

  /** The reported peak is the greatest number of active commands that any command saw when it
      started, itself included, and zero if none has started. */
  lemma {:induction false} PeakIsGreatest(c: Config, trace: seq<State>, steps: seq<Step>, n: nat)
    requires Run(c, trace, steps) && n < |trace|
    ensures forall m: nat, active: nat :: m < n && StartsAs(trace, steps, m, active) ==> active <= trace[n].peak
    ensures trace[n].peak == 0 || exists m: nat :: m < n && StartsAs(trace, steps, m, trace[n].peak)
  {
    if n > 0 {
      PeakIsGreatest(c, trace, steps, n - 1);
      assert Follows(c, trace, steps, n - 1);
      PeakMoves(c, trace[n - 1], steps[n - 1]);
      if trace[n].peak == trace[n - 1].peak && trace[n].peak != 0 {
        var m: nat :| m < n - 1 && StartsAs(trace, steps, m, trace[n - 1].peak);
        assert StartsAs(trace, steps, m, trace[n].peak);
      } else if trace[n].peak != 0 {
        assert StartsAs(trace, steps, n - 1, trace[n].peak);
      }
    }
  }

  /** What a command sees when it is counted: the active ones before it and itself. */
  lemma CountedSeesAll(c: Config, s: State, id: nat)
    requires PermitInv(c, s) && Can(c, s, Count(id))
    ensures var s' := Do(c, s, Count(id)); s'.jobs[id].stage.Counted? && s'.jobs[id].stage.active == |s.counted| + 1 == |s'.counted|
  {
  }
}
