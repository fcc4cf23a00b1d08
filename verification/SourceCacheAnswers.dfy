/** The cache answers as no cache would, and exactly when. */
module SourceCacheAnswers {
  import opened Wrappers
  import opened SourceCache
  import opened SourceCacheTheorems

  /** Runs without a deadline. */
  ghost predicate NoDeadline(steps: seq<Step>) {
    forall i :: 0 <= i < |steps| && steps[i].Begin? ==> steps[i].remaining.None?
  }

  predicate Differs(c: Config, q: Request, other: Request) {
    && q.RunCommand? && other.RunCommand? && q.command == other.command && c.enabled && c.inner.cacheable(q.command)
    && q.nanos == 0 && 0 < other.nanos < 1_000_000
    && ExpiredAnswer(c.inner, q) != c.inner.run(other.command, 0)
  }

  /** No cacheable command is asked for both with no time at all and with less than a whole
      millisecond, unless the inner runner gives the same answer to both. */
  ghost predicate Compatible(c: Config, queries: set<Request>) {
    forall q, other :: q in queries && other in queries ==> !Differs(c, q, other)
  }

  /** Key and answer: where the whole-millisecond key forgets too much. */
  lemma SameKeySameAnswer(c: Config, q: Request, other: Request)
    requires KeyOf(q) == KeyOf(other) && Cached(c, q)
    ensures Uncached(c.inner, q) == Uncached(c.inner, other) || Differs(c, q, other) || Differs(c, other, q)
  {
    if q.RunCommand? && (q.nanos == 0 || other.nanos == 0) {
      assert Millis(0) == 0;
      assert Millis(q.nanos) == 0 ==> q.nanos < 1_000_000;
      assert Millis(other.nanos) == 0 ==> other.nanos < 1_000_000;
    }
  }

  /** The answer that some earlier request with this key would have got without a cache. */
  ghost predicate Borrowed(c: Config, asked: map<nat, Request>, key: Key, answer: Answer) {
    exists id :: id in asked && Cached(c, asked[id]) && KeyOf(asked[id]) == key && answer == Uncached(c.inner, asked[id])
  }

  ghost predicate Right(c: Config, asked: map<nat, Request>, q: Request, answer: Answer) {
    if Cached(c, q) then Borrowed(c, asked, KeyOf(q), answer) else answer == Uncached(c.inner, q)
  }

  ghost predicate JobRight(c: Config, asked: map<nat, Request>, job: Job) {
    match job.stage
    case WantPermit(nanos) => job.request.RunCommand? && nanos == job.request.nanos && nanos > 0
    case HoldsPermit(nanos) => job.request.RunCommand? && nanos == job.request.nanos && nanos > 0
    case Counted(nanos, _) => job.request.RunCommand? && nanos == job.request.nanos && nanos > 0
    case Running(nanos) => job.request.RunCommand? && nanos == job.request.nanos && nanos > 0
    case Stopped(outcome) => outcome.Some? ==> Right(c, asked, job.request, outcome.value)
    case Reading(remaining) => job.request.Read? && remaining.None?
    case Delivered(answer) => Right(c, asked, job.request, answer)
    case Returned(answer) => Right(c, asked, job.request, answer)
    case _ => true
  }

  ghost predicate AnswersInv(c: Config, s: State) {
    && AskedInv(s)
    && (forall key {:trigger CellSet(s.cells, key)} :: CellSet(s.cells, key) ==> Borrowed(c, s.asked, key, s.cells[key].answer))
    && (forall id {:trigger At(s, id)} :: At(s, id) ==> JobRight(c, s.asked, s.jobs[id]))
  }

  lemma OwnAnswerIsRight(c: Config, s: State, id: nat, answer: Answer)
    requires id in s.asked && answer == Uncached(c.inner, s.asked[id])
    ensures Right(c, s.asked, s.asked[id], answer)
  {
  }

  lemma BorrowedStays(c: Config, asked: map<nat, Request>, asked': map<nat, Request>, key: Key, answer: Answer)
    requires Borrowed(c, asked, key, answer)
    requires forall id :: id in asked ==> id in asked' && asked'[id] == asked[id]
    ensures Borrowed(c, asked', key, answer)
  {
    var id :| id in asked && Cached(c, asked[id]) && KeyOf(asked[id]) == key && answer == Uncached(c.inner, asked[id]);
    assert id in asked' && asked'[id] == asked[id];
  }

  lemma JobStaysRight(c: Config, asked: map<nat, Request>, asked': map<nat, Request>, job: Job)
    requires JobRight(c, asked, job)
    requires forall id :: id in asked ==> id in asked' && asked'[id] == asked[id]
    ensures JobRight(c, asked', job)
  {
    if (job.stage.Delivered? || job.stage.Returned?) && Cached(c, job.request) {
      BorrowedStays(c, asked, asked', KeyOf(job.request), job.stage.answer);
    }
    if job.stage.Stopped? && job.stage.outcome.Some? && Cached(c, job.request) {
      BorrowedStays(c, asked, asked', KeyOf(job.request), job.stage.outcome.value);
    }
  }

  /** The request's own step. */
  lemma OwnStepRight(c: Config, s: State, step: Step)
    requires AnswersInv(c, s) && Can(c, s, step) && (step.Begin? ==> step.remaining.None?)
    requires !step.Arrive? ==> At(s, step.id) && JobRight(c, s.asked, s.jobs[step.id])
    ensures var s' := Do(c, s, step);
      At(s', step.id) ==> JobRight(c, s'.asked, s'.jobs[step.id])
  {
    if !step.Arrive? {
      var q := s.jobs[step.id].request;
      OwnAnswerIsRight(c, s, step.id, Uncached(c.inner, q));
      if step.Await? && CellSet(s.cells, KeyOf(q)) {
        assert Borrowed(c, s.asked, KeyOf(q), s.cells[KeyOf(q)].answer);
      }
    }
  }

  /** A cell is set only by the delivery of its own key's answer. */
  lemma CellsAreDelivered(c: Config, s: State, step: Step, key: Key)
    requires Can(c, s, step)
    ensures var s' := Do(c, s, step);
      CellSet(s'.cells, key) ==>
        (CellSet(s.cells, key) && s'.cells[key] == s.cells[key])
        || (At(s', step.id) && Cached(c, s'.jobs[step.id].request) && KeyOf(s'.jobs[step.id].request) == key
            && s'.jobs[step.id].stage == Delivered(s'.cells[key].answer))
  {
  }

  lemma AnswersStep(c: Config, s: State, step: Step)
    requires AnswersInv(c, s) && Can(c, s, step) && (step.Begin? ==> step.remaining.None?)
    ensures AnswersInv(c, Do(c, s, step))
  {
    var s' := Do(c, s, step);
    assert !step.Arrive? ==> At(s, step.id);
    AskedStep(c, s, step);
    RequestStays(c, s, step);
    OwnStepRight(c, s, step);
    forall id {:trigger At(s', id)} | At(s', id) ensures JobRight(c, s'.asked, s'.jobs[id]) {
      if id != step.id {
        OthersStay(c, s, step, id);
        JobStaysRight(c, s.asked, s'.asked, s.jobs[id]);
      }
    }
    forall key {:trigger CellSet(s'.cells, key)} | CellSet(s'.cells, key) ensures Borrowed(c, s'.asked, key, s'.cells[key].answer) {
      CellsAreDelivered(c, s, step, key);
      if CellSet(s.cells, key) && s'.cells[key] == s.cells[key] {
        BorrowedStays(c, s.asked, s'.asked, key, s.cells[key].answer);
      }
    }
  }

  lemma {:induction false} AnswersAlways(c: Config, trace: seq<State>, steps: seq<Step>, n: nat)
    requires Run(c, trace, steps) && NoDeadline(steps) && n < |trace|
    ensures AnswersInv(c, trace[n])
  {
    if n > 0 {
      AnswersAlways(c, trace, steps, n - 1);
      assert Follows(c, trace, steps, n - 1);
      AnswersStep(c, trace[n - 1], steps[n - 1]);
    }
  }

  predicate HasReturned(s: State, id: nat) { At(s, id) && s.jobs[id].stage.Returned? }

  /** Every answer given in the run is the one that an uncached runner gives. */
  ghost predicate Agrees(c: Config, s: State) {
    forall id {:trigger HasReturned(s, id)} :: HasReturned(s, id) ==> s.jobs[id].stage.answer == Uncached(c.inner, s.jobs[id].request)
  }

  ghost function Asked(s: State): set<Request> { s.asked.Values }

  /** With compatible requests the cache agrees with no cache, in every interleaving and with
      cancellation. */
  lemma CacheAgrees(c: Config, trace: seq<State>, steps: seq<Step>, n: nat)
    requires Run(c, trace, steps) && NoDeadline(steps) && n < |trace| && Compatible(c, Asked(trace[n]))
    ensures Agrees(c, trace[n])
  {
    AnswersAlways(c, trace, steps, n);
    var s := trace[n];
    forall id {:trigger HasReturned(s, id)} | HasReturned(s, id)
      ensures s.jobs[id].stage.answer == Uncached(c.inner, s.jobs[id].request)
    {
      var q := s.jobs[id].request;
      assert At(s, id) && q == s.asked[id] && q in Asked(s);
      if Cached(c, q) {
        var other :| other in s.asked && Cached(c, s.asked[other]) && KeyOf(s.asked[other]) == KeyOf(q)
                     && s.jobs[id].stage.answer == Uncached(c.inner, s.asked[other]);
        assert s.asked[other] in Asked(s);
        SameKeySameAnswer(c, q, s.asked[other]);
      }
    }
  }

  // ----- and only then -----

  function Steps(q: Request, other: Request): seq<Step> {
    [Arrive(0, q), LookUp(0), Await(0), Begin(0, None), Observe(0),
     Arrive(1, other), LookUp(1), Await(1), Observe(1)]
  }

  /** While only the first request is there. */
  function First(c: Config, q: Request, cells: map<Key, Cell>, stage: Stage, observations: seq<(nat, bool)>): State {
    State(cells, map[0 := Job(q, false, stage)], Limit(c), 0, 0, 1, 0, observations, {0}, {}, {}, {}, {}, map[0 := q])
  }

  /** After the first request has returned with answer a. */
  function Second(c: Config, q: Request, other: Request, a: Answer, hit: bool, stage: Stage,
                  observations: seq<(nat, bool)>): State {
    State(map[KeyOf(q) := Set(a)], map[0 := Job(q, false, Returned(a)), 1 := Job(other, hit, stage)], Limit(c), 0, 0, 2, 0,
          observations, {0, 1}, {}, {}, {}, {}, map[0 := q, 1 := other])
  }

  /** The run in which the command without time comes first and the other one takes its answer
      from the cell. */
  function Script(c: Config, q: Request, other: Request): seq<State> {
    var a, key := ExpiredAnswer(c.inner, q), KeyOf(q);
    [Initial(c),
     First(c, q, map[], Arrived, []),
     First(c, q, map[key := Empty(None)], AtCell, []),
     First(c, q, map[key := Empty(Some(0))], Starting, []),
     First(c, q, map[key := Set(a)], Delivered(a), []),
     First(c, q, map[key := Set(a)], Returned(a), [(0, false)]),
     Second(c, q, other, a, false, Arrived, [(0, false)]),
     Second(c, q, other, a, true, AtCell, [(0, false)]),
     Second(c, q, other, a, true, Delivered(a), [(0, false)]),
     Second(c, q, other, a, true, Returned(a), [(0, false), (1, true)])]
  }

  lemma FirstStarts(c: Config, q: Request, other: Request, i: nat)
    requires Differs(c, q, other) && i < 3
    ensures Follows(c, Script(c, q, other), Steps(q, other), i)
  {
  }

  lemma FirstReturns(c: Config, q: Request, other: Request, i: nat)
    requires Differs(c, q, other) && 3 <= i < 5
    ensures Follows(c, Script(c, q, other), Steps(q, other), i)
  {
  }

  lemma SecondFollows(c: Config, q: Request, other: Request, i: nat)
    requires Differs(c, q, other) && 5 <= i < 9
    ensures Follows(c, Script(c, q, other), Steps(q, other), i)
  {
    assert Millis(other.nanos) == Millis(0) == 0;
    assert KeyOf(other) == KeyOf(q);
  }

  lemma TwoValues(m: map<nat, Request>, q: Request, other: Request)
    requires m == map[0 := q, 1 := other]
    ensures m.Values == {q, other}
  {
    assert m[0] == q && m[1] == other;
  }

  lemma MixedTimeoutsDisagree(c: Config, q: Request, other: Request)
    requires Differs(c, q, other)
    ensures var trace := Script(c, q, other);
      Run(c, trace, Steps(q, other)) && NoDeadline(Steps(q, other)) && Asked(trace[9]) == {q, other} && !Agrees(c, trace[9])
  {
    var trace, steps := Script(c, q, other), Steps(q, other);
    forall i: nat {:trigger Follows(c, trace, steps, i)} | i < |steps| ensures Follows(c, trace, steps, i) {
      if i < 3 { FirstStarts(c, q, other, i); } else if i < 5 { FirstReturns(c, q, other, i); } else { SecondFollows(c, q, other, i); }
    }
    TwoValues(trace[9].asked, q, other);
    assert HasReturned(trace[9], 1);
    assert Millis(other.nanos) == 0;
  }

  /** The exact condition: on a set of requests the cache gives the uncached answers in every
      run without a deadline if and only if the requests are compatible. */
  lemma AgreementExactly(c: Config, queries: set<Request>)
    ensures Compatible(c, queries) <==>
      forall trace, steps, n: nat :: Run(c, trace, steps) && NoDeadline(steps) && n < |trace| && Asked(trace[n]) <= queries ==>
        Agrees(c, trace[n])
  {
    if Compatible(c, queries) {
      forall trace, steps, n: nat | Run(c, trace, steps) && NoDeadline(steps) && n < |trace| && Asked(trace[n]) <= queries
        ensures Agrees(c, trace[n])
      {
        CacheAgrees(c, trace, steps, n);
      }
    } else {
      var q, other :| q in queries && other in queries && Differs(c, q, other);
      MixedTimeoutsDisagree(c, q, other);
      var trace := Script(c, q, other);
      assert Run(c, trace, Steps(q, other)) && Asked(trace[9]) <= queries && !Agrees(c, trace[9]);
    }
  }
}
