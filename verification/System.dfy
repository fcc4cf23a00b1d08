/** Any number of callers, retention calls and store openings on one store, interleaved at
    every store call and file operation, with cancellations and crashes between any two. */
module System {
  import opened Wrappers
  import opened Store
  import Observe
  import Retention
  import Opening

  type Caller = Observe.Caller

  datatype Actor =
    | Observer(k: Caller)
    | Retaining(r: Retention.Retainer)
    | OpeningStore(o: Opening.Pc)

  /** `issued` holds every UUID drawn so far, by anyone. */
  datatype Sys = Sys(db: Db, actors: map<nat, Actor>, issued: set<Uuid>)

  datatype Step =
    | Spawn(a: nat, actor: Actor)
    | ObserveStep(a: nat, observe: Observe.Input)
    | RetainStep(a: nat, retain: Retention.Input)
    | OpenStep(a: nat, open: Opening.Input)
    | Vanish(a: nat)
    | Crash
    | Pin(id: Uuid, pinned: bool)
    | Upload(id: Uuid)

  const INITIAL := Sys(EMPTY_DB, map[], {})

  predicate FreshCaller(k: Caller) {
    (k.pc.Begin? || k.pc.DirectAcquire?) && k.quick.None? && k.quickRow.None? && k.fullRow.None?
    && k.quickFinishes == k.fullFinishes == 0 && !k.failed && k.mark == 0
  }

  predicate FreshActor(s: Sys, actor: Actor) {
    match actor
    case Observer(k) => FreshCaller(k) && k.owner !in s.issued
    case Retaining(r) => r == Retention.Start(r.policy)
    case OpeningStore(o) => o.Recover? || o.ListKnown?
  }

  predicate HasCaller(s: Sys, a: nat) { a in s.actors && s.actors[a].Observer? }

  /** UUIDs and row ids are fresh when drawn, and a serialized report parses back. */
  predicate FreshInput(codec: Codec, s: Sys, in_: Observe.Input) {
    in_.id !in s.issued && in_.row !in s.db.probes
    && (in_.scan.ScanDone? ==> codec.schemaOf(in_.scan.report.bytes) == Some(in_.scan.report.schema))
  }

  ghost predicate Can(codec: Codec, s: Sys, step: Step) {
    match step
    case Spawn(a, actor) => a !in s.actors && FreshActor(s, actor)
    case ObserveStep(a, in_) => HasCaller(s, a) && FreshInput(codec, s, in_)
    case RetainStep(a, in_) => a in s.actors && s.actors[a].Retaining? && Retention.Answers(s.db, s.actors[a].r, in_)
    case OpenStep(a, in_) => a in s.actors && s.actors[a].OpeningStore? && Opening.Answers(s.db, s.actors[a].o, in_)
    case Vanish(a) => a in s.actors
    case _ => true
  }

  function Do(codec: Codec, s: Sys, step: Step): Sys {
    match step
    case Spawn(a, actor) =>
      s.(actors := s.actors[a := actor], issued := if actor.Observer? then s.issued + {actor.k.owner} else s.issued)
    case ObserveStep(a, in_) =>
      if HasCaller(s, a) then
        var (db, k) := Observe.Step(codec, s.db, s.actors[a].k, in_);
        Sys(db, s.actors[a := Observer(k)], s.issued + {in_.id})
      else s
    case RetainStep(a, in_) =>
      if a in s.actors && s.actors[a].Retaining? then
        var (db, r) := Retention.Step(s.db, s.actors[a].r, in_);
        s.(db := db, actors := s.actors[a := Retaining(r)])
      else s
    case OpenStep(a, in_) =>
      if a in s.actors && s.actors[a].OpeningStore? then
        var (db, o) := Opening.Step(s.db, s.actors[a].o, in_);
        s.(db := db, actors := s.actors[a := OpeningStore(o)])
      else s
    case Vanish(a) => s.(actors := s.actors - {a})
    case Crash => s.(actors := map[])
    case Pin(id, pinned) => s.(db := Or(SetPinned(s.db, id, pinned), s.db))
    case Upload(id) => s.(db := Or(MarkUploaded(s.db, id), s.db))
  }

  function Or(r: Option<Db>, db: Db): Db { if r.Some? then r.value else db }

  ghost predicate Follows(codec: Codec, trace: seq<Sys>, steps: seq<Step>, i: nat)
    requires i < |steps| && |trace| == |steps| + 1
  {
    Can(codec, trace[i], steps[i]) && trace[i + 1] == Do(codec, trace[i], steps[i])
  }

  /** A behaviour: `trace[i+1]` follows from `trace[i]` by `steps[i]`. */
  ghost predicate Behaviour(codec: Codec, trace: seq<Sys>, steps: seq<Step>) {
    |trace| == |steps| + 1 && trace[0] == INITIAL
    && forall i: nat {:trigger Follows(codec, trace, steps, i)} :: i < |steps| ==> Follows(codec, trace, steps, i)
  }
}
