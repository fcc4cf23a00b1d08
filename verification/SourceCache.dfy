/** `CachedSourceRunner`: the single-flight cache and the command semaphore as a state machine.
    One step is one atomic operation of one request; requests interleave freely, and a
    request's future may be dropped at any point. */
module SourceCache {
  import opened Wrappers

  type Name = int
  type Answer = int

  datatype ReadKind = ReadFile | ReadBytes | Canonicalize | Glob

  /** The timeout of a command is a duration in nanoseconds. */
  datatype Request = RunCommand(command: Name, nanos: nat) | Read(kind: ReadKind, path: Name)

  datatype Key = CommandKey(command: Name, millis: nat) | ReadKey(kind: ReadKind, path: Name)

  /** The inner runner: a function of the command and the whole milliseconds of its timeout,
      or of what is read. `expired` is the answer given in its place when no time is left. */
  datatype Inner = Inner(
    run: (Name, nat) -> Answer,
    read: (ReadKind, Name) -> Answer,
    expired: Key -> Answer,
    cacheable: Name -> bool)

  datatype Config = Config(inner: Inner, maxCommands: nat, enabled: bool)

  const U64_MAX := 0xFFFF_FFFF_FFFF_FFFF

  function Millis(nanos: nat): nat {
    var ms := nanos / 1_000_000;
    if ms <= U64_MAX then ms else U64_MAX
  }

  function KeyOf(q: Request): Key {
    match q
    case RunCommand(command, nanos) => CommandKey(command, Millis(nanos))
    case Read(kind, path) => ReadKey(kind, path)
  }

  /** Without the time: the key under which an expired command answers. */
  function ExpiredAnswer(inner: Inner, q: Request): Answer {
    inner.expired(if q.RunCommand? then CommandKey(q.command, 0) else KeyOf(q))
  }

  predicate Cached(c: Config, q: Request) {
    c.enabled && (q.RunCommand? ==> c.inner.cacheable(q.command))
  }

  /** What the runner answers with the cache switched off and no deadline. */
  function Uncached(inner: Inner, q: Request): Answer {
    match q
    case RunCommand(command, nanos) => if nanos == 0 then ExpiredAnswer(inner, q) else inner.run(command, Millis(nanos))
    case Read(kind, path) => inner.read(kind, path)
  }

  // ----- state -----

  /** A once-cell: empty, perhaps with a request that is filling it, or set for good. */
  datatype Cell = Empty(leader: Option<nat>) | Set(answer: Answer)

  datatype Stage =
    | Arrived
    | AtCell
    | Starting
    | WantPermit(nanos: nat)
    | HoldsPermit(nanos: nat)
    | Counted(nanos: nat, active: nat)
    | Running(nanos: nat)
    | Stopped(outcome: Option<Answer>)
    | Reading(remaining: Option<nat>)
    | Delivered(answer: Answer)
    | Returned(answer: Answer)

  datatype Job = Job(request: Request, hit: bool, stage: Stage)

  /** The fields of the runner, then history variables: every request id so far, the ids that
      hold a permit, that are counted as active, that have executed, that were dropped, and
      the requests themselves. */
  datatype State = State(
    cells: map<Key, Cell>,
    jobs: map<nat, Job>,
    permits: nat,
    active: nat,
    peak: nat,
    requests: nat,
    executions: nat,
    observations: seq<(nat, bool)>,
    issued: set<nat>,
    holding: set<nat>,
    counted: set<nat>,
    executed: set<nat>,
    dropped: set<nat>,
    asked: map<nat, Request>)

  function Limit(c: Config): nat { if c.maxCommands >= 1 then c.maxCommands else 1 }

  function Initial(c: Config): State {
    State(map[], map[], Limit(c), 0, 0, 0, 0, [], {}, {}, {}, {}, {}, map[])
  }

  // ----- steps -----

  /** `remaining` is the time to the deadline, if there is one. */
  datatype Step =
    | Arrive(id: nat, request: Request)
    | LookUp(id: nat)
    | Await(id: nat)
    | Begin(id: nat, remaining: Option<nat>)
    | TakePermit(id: nat)
    | Count(id: nat)
    | RecordPeak(id: nat)
    | Stop(id: nat)
    | GivePermit(id: nat)
    | FinishRead(id: nat, late: bool)
    | Observe(id: nat)
    | Drop(id: nat)

  predicate At(s: State, id: nat) { id in s.jobs }

  predicate Can(c: Config, s: State, step: Step) {
    match step
    case Arrive(id, _) => id !in s.issued
    case LookUp(id) => At(s, id) && s.jobs[id].stage.Arrived?
    case Await(id) => At(s, id) && s.jobs[id].stage.AtCell? && KeyOf(s.jobs[id].request) in s.cells
                      && !(s.cells[KeyOf(s.jobs[id].request)].Empty? && s.cells[KeyOf(s.jobs[id].request)].leader.Some?)
    case Begin(id, _) => At(s, id) && s.jobs[id].stage.Starting?
    case TakePermit(id) => At(s, id) && s.jobs[id].stage.WantPermit? && s.permits > 0
    case Count(id) => At(s, id) && s.jobs[id].stage.HoldsPermit?
    case RecordPeak(id) => At(s, id) && s.jobs[id].stage.Counted?
    case Stop(id) => At(s, id) && s.jobs[id].stage.Running? && s.jobs[id].request.RunCommand?
    case GivePermit(id) => At(s, id) && s.jobs[id].stage.Stopped?
    case FinishRead(id, _) => At(s, id) && s.jobs[id].stage.Reading? && s.jobs[id].request.Read?
    case Observe(id) => At(s, id) && s.jobs[id].stage.Delivered?
    case Drop(id) => At(s, id) && !s.jobs[id].stage.Returned? && !s.jobs[id].stage.Stopped?
  }

  function Move(s: State, id: nat, stage: Stage): State
    requires At(s, id)
  {
    s.(jobs := s.jobs[id := s.jobs[id].(stage := stage)])
  }

  /** The execution has an answer: a cached one sets the cell. */
  function Deliver(c: Config, s: State, id: nat, answer: Answer): State
    requires At(s, id)
  {
    var q := s.jobs[id].request;
    var s' := Move(s, id, Delivered(answer));
    if Cached(c, q) then s'.(cells := s.cells[KeyOf(q) := Set(answer)]) else s'
  }

  /** The future is gone: a cell that it was filling can be filled by another. */
  function Forget(s: State, id: nat): State
    requires At(s, id)
  {
    var key := KeyOf(s.jobs[id].request);
    s.(jobs := s.jobs - {id},
       dropped := s.dropped + {id},
       cells := if key in s.cells && s.cells[key] == Empty(Some(id)) then s.cells[key := Empty(None)] else s.cells)
  }

  /** Guards drop in reverse order: the active count first, then the permit. */
  function DropStep(s: State, id: nat): State
    requires At(s, id)
  {
    match s.jobs[id].stage
    case Counted(_, _) => StopStep(s, id, None)
    case Running(_) => StopStep(s, id, None)
    case HoldsPermit(_) => Forget(s.(permits := s.permits + 1, holding := s.holding - {id}), id)
    case _ => Forget(s, id)
  }

  function StopStep(s: State, id: nat, answer: Option<Answer>): State
    requires At(s, id)
  {
    Move(s, id, Stopped(answer)).(active := if s.active > 0 then s.active - 1 else 0, counted := s.counted - {id})
  }

  function LookUpStep(c: Config, s: State, id: nat): State
    requires At(s, id)
  {
    var q := s.jobs[id].request;
    var key := KeyOf(q);
    var s' := if (q.Read? || Cached(c, q)) && key !in s.cells then s.(cells := s.cells[key := Empty(None)]) else s;
    var hit := (q.Read? || Cached(c, q)) && s'.cells[key].Set?;
    s'.(jobs := s.jobs[id := Job(q, hit, if Cached(c, q) then AtCell else Starting)])
  }

  function AwaitStep(s: State, id: nat): State
    requires At(s, id) && KeyOf(s.jobs[id].request) in s.cells
  {
    var key := KeyOf(s.jobs[id].request);
    match s.cells[key]
    case Set(answer) => Move(s, id, Delivered(answer))
    case Empty(_) => Move(s, id, Starting).(cells := s.cells[key := Empty(Some(id))])
  }

  function EffectiveTimeout(nanos: nat, remaining: Option<nat>): nat {
    if remaining.Some? && remaining.value < nanos then remaining.value else nanos
  }

  function BeginStep(c: Config, s: State, id: nat, remaining: Option<nat>): State
    requires At(s, id)
  {
    match s.jobs[id].request
    case RunCommand(_, nanos) =>
      var time := EffectiveTimeout(nanos, remaining);
      if time == 0 then Deliver(c, s, id, ExpiredAnswer(c.inner, s.jobs[id].request)) else Move(s, id, WantPermit(time))
    case Read(_, _) =>
      Move(s, id, Reading(remaining)).(executions := s.executions + 1, executed := s.executed + {id})
  }

  function FinishReadStep(c: Config, s: State, id: nat, late: bool): State
    requires At(s, id) && s.jobs[id].stage.Reading? && s.jobs[id].request.Read?
  {
    var q, remaining := s.jobs[id].request, s.jobs[id].stage.remaining;
    var expired := remaining.Some? && (remaining.value == 0 || late);
    Deliver(c, s, id, if expired then ExpiredAnswer(c.inner, q) else c.inner.read(q.kind, q.path))
  }

  function Do(c: Config, s: State, step: Step): State
    requires Can(c, s, step)
  {
    match step
    case Arrive(id, q) =>
      s.(jobs := s.jobs[id := Job(q, false, Arrived)], requests := s.requests + 1, issued := s.issued + {id},
         asked := s.asked[id := q])
    case LookUp(id) => LookUpStep(c, s, id)
    case Await(id) => AwaitStep(s, id)
    case Begin(id, remaining) => BeginStep(c, s, id, remaining)
    case TakePermit(id) =>
      Move(s, id, HoldsPermit(s.jobs[id].stage.nanos)).(permits := s.permits - 1, holding := s.holding + {id})
    case Count(id) =>
      Move(s, id, Counted(s.jobs[id].stage.nanos, s.active + 1)).(active := s.active + 1, counted := s.counted + {id})
    case RecordPeak(id) =>
      var mine := s.jobs[id].stage.active;
      Move(s, id, Running(s.jobs[id].stage.nanos)).(
        peak := if mine > s.peak then mine else s.peak, executions := s.executions + 1, executed := s.executed + {id})
    case Stop(id) => StopStep(s, id, Some(c.inner.run(s.jobs[id].request.command, Millis(s.jobs[id].stage.nanos))))
    case GivePermit(id) =>
      var s' := s.(permits := s.permits + 1, holding := s.holding - {id});
      if s.jobs[id].stage.outcome.Some? then Deliver(c, s', id, s.jobs[id].stage.outcome.value) else Forget(s', id)
    case FinishRead(id, late) => FinishReadStep(c, s, id, late)
    case Observe(id) =>
      Move(s, id, Returned(s.jobs[id].stage.answer)).(
        observations := s.observations + [(id, s.jobs[id].hit && c.enabled)])
    case Drop(id) => DropStep(s, id)
  }

  ghost predicate Follows(c: Config, trace: seq<State>, steps: seq<Step>, i: nat)
    requires i < |steps| && |trace| == |steps| + 1
  {
    Can(c, trace[i], steps[i]) && trace[i + 1] == Do(c, trace[i], steps[i])
  }

  ghost predicate Run(c: Config, trace: seq<State>, steps: seq<Step>) {
    |trace| == |steps| + 1 && trace[0] == Initial(c)
    && forall i: nat {:trigger Follows(c, trace, steps, i)} :: i < |steps| ==> Follows(c, trace, steps, i)
  }

  // ----- the metrics -----

  function CountHits(observations: seq<(nat, bool)>): nat {
    if observations == [] then 0
    else CountHits(observations[..|observations| - 1]) + (if observations[|observations| - 1].1 then 1 else 0)
  }
}
