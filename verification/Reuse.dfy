/** Where an answer comes from: the reads of the call on which a reused snapshot rests. */
module Reuse {
  import opened Wrappers
  import opened Store
  import opened Effects
  import opened Invariants
  import opened System
  import opened Safety
  import opened Theorems
  import Observe

  /** The snapshot that the call is about to answer with, if it is an old one. */
  function Reusing(pc: Observe.Pc): Option<Uuid> {
    if Chosen(pc).Some? && Chosen(pc).value.Reused? then Some(Chosen(pc).value.id) else None
  }

  predicate Awaits(pc: Observe.Pc) { pc.StartQuick? || pc.Probing? }

  /** What one step may do to the choice of an old snapshot: leave it, or make it from the
      state row read first or read just now. */
  predicate ChoiceMoves(db: Db, k: Caller, in_: Observe.Input, k': Caller) {
    && k'.owner == k.owner
    && (Awaits(k'.pc) ==>
          if k.pc.Begin? then k'.initial == Observe.ReadState(db) else Awaits(k.pc) && k'.initial == k.initial)
    && (Reusing(k'.pc).Some? ==>
          || (Reusing(k'.pc) == Reusing(k.pc) && k'.quick == k.quick && k'.checkedAt == k.checkedAt && k'.opts == k.opts)
          || (k.pc.Probing? && ChoosesFrom(k.initial, in_, k'))
          || ((k.pc.PollState? || k.pc.LeaseState?) && ChoosesFrom(Observe.ReadState(db), in_, k')))
  }

  /** k chose the snapshot current in this view, which has the identity of its quick probe and
      was young enough by the wall clock of this step. */
  predicate ChoosesFrom(view: Observe.StateView, in_: Observe.Input, k: Caller) {
    && Reusing(k.pc).Some? && view.state.current == Reusing(k.pc) && k.checkedAt == in_.wall
    && k.quick.Some? && Observe.SameHardware(view.state, k.quick.value)
    && Observe.WithinAge(view.created, k.opts.maxAge, in_.wall)
  }

  lemma StepMovesChoice(codec: Codec, db: Db, k: Caller, in_: Observe.Input)
    ensures ChoiceMoves(db, k, in_, Observe.Step(codec, db, k, in_).1)
  {
    match Observe.PhaseOf(k.pc)
    case Starting => StartingMovesChoice(db, k, in_);
    case Checking => CheckingMovesChoice(codec, db, k, in_);
    case Waiting => WaitingMovesChoice(db, k, in_);
    case Leading => LeadingMovesChoice(db, k, in_);
    case Writing => WritingMovesChoice(codec, db, k, in_);
    case Closing => ClosingMovesChoice(codec, db, k, in_);
    case Over =>
  }

  lemma StartingMovesChoice(db: Db, k: Caller, in_: Observe.Input)
    requires Observe.PhaseOf(k.pc).Starting?
    ensures ChoiceMoves(db, k, in_, Observe.StartingStep(db, k, in_).1)
  {
  }

  lemma CheckingMovesChoice(codec: Codec, db: Db, k: Caller, in_: Observe.Input)
    requires Observe.PhaseOf(k.pc).Checking?
    ensures ChoiceMoves(db, k, in_, Observe.CheckingStep(codec, db, k, in_).1)
  {
  }

  lemma WaitingMovesChoice(db: Db, k: Caller, in_: Observe.Input)
    requires Observe.PhaseOf(k.pc).Waiting?
    ensures ChoiceMoves(db, k, in_, Observe.WaitingStep(db, k, in_).1)
  {
  }

  lemma LeadingMovesChoice(db: Db, k: Caller, in_: Observe.Input)
    requires Observe.PhaseOf(k.pc).Leading?
    ensures ChoiceMoves(db, k, in_, Observe.LeadingStep(db, k, in_).1)
  {
  }

  lemma WritingMovesChoice(codec: Codec, db: Db, k: Caller, in_: Observe.Input)
    requires Observe.PhaseOf(k.pc).Writing?
    ensures ChoiceMoves(db, k, in_, Observe.WritingStep(codec, db, k, in_).1)
  {
  }

  lemma ClosingMovesChoice(codec: Codec, db: Db, k: Caller, in_: Observe.Input)
    requires Observe.PhaseOf(k.pc).Closing?
    ensures ChoiceMoves(db, k, in_, Observe.ClosingStep(codec, db, k, in_).1)
  {
  }

  // ----- in every run -----

  /** At step r the call read this view of the state row. */
  ghost predicate Reads(trace: seq<Sys>, steps: seq<Step>, r: nat, a: nat, owner: Uuid, view: Observe.StateView) {
    StepOf(steps, r, a) && Is(trace, r, a, owner) && view == Observe.ReadState(trace[r].db)
  }

  /** The view in a call's hands before its quick probe was read by the call itself. */
  lemma {:induction false} BaselineRead(codec: Codec, trace: seq<Sys>, steps: seq<Step>, n: nat, a: nat, owner: Uuid) returns (r: nat)
    requires Behaviour(codec, trace, steps) && Is(trace, n, a, owner) && Awaits(trace[n].actors[a].k.pc)
    ensures r < n && Reads(trace, steps, r, a, owner, trace[n].actors[a].k.initial) && trace[r].actors[a].k.pc.Begin?
  {
    assert n > 0;
    assert Follows(codec, trace, steps, n - 1);
    if StepOf(steps, n - 1, a) {
      StepMovesChoice(codec, trace[n - 1].db, trace[n - 1].actors[a].k, steps[n - 1].observe);
    }
    if StepOf(steps, n - 1, a) && trace[n - 1].actors[a].k.pc.Begin? {
      r := n - 1;
    } else {
      r := BaselineRead(codec, trace, steps, n - 1, a, owner);
    }
  }

  /** k's choice was made at step m of the call, by that step's wall clock, from the state row
      as the call read it at step r: its first read, for the check right after the quick
      probe, or that very step, for the checks while waiting and under the lease. */
  ghost predicate RestsOn(trace: seq<Sys>, steps: seq<Step>, r: nat, m: nat, a: nat, k: Caller) {
    && r <= m && m < |trace| && r < |trace|
    && Reads(trace, steps, r, a, k.owner, Observe.ReadState(trace[r].db))
    && Reads(trace, steps, m, a, k.owner, Observe.ReadState(trace[m].db))
    && (if r == m then trace[m].actors[a].k.pc.PollState? || trace[m].actors[a].k.pc.LeaseState?
        else trace[r].actors[a].k.pc.Begin? && trace[m].actors[a].k.pc.Probing?)
    && ChoosesFrom(Observe.ReadState(trace[r].db), steps[m].observe, k)
  }

  lemma {:induction false} ChoiceRests(codec: Codec, trace: seq<Sys>, steps: seq<Step>, n: nat, a: nat) returns (r: nat, m: nat)
    requires Behaviour(codec, trace, steps) && n < |trace| && HasCaller(trace[n], a) && Reusing(trace[n].actors[a].k.pc).Some?
    ensures m < n && RestsOn(trace, steps, r, m, a, trace[n].actors[a].k)
  {
    assert n > 0;
    assert Follows(codec, trace, steps, n - 1);
    if StepOf(steps, n - 1, a) {
      var k, k' := trace[n - 1].actors[a].k, trace[n].actors[a].k;
      StepMovesChoice(codec, trace[n - 1].db, k, steps[n - 1].observe);
      if Reusing(k'.pc) == Reusing(k.pc) && k'.quick == k.quick && k'.checkedAt == k.checkedAt && k'.opts == k.opts {
        r, m := ChoiceRests(codec, trace, steps, n - 1, a);
      } else {
        m := n - 1;
        if k.pc.Probing? { r := BaselineRead(codec, trace, steps, n - 1, a, k.owner); } else { r := m; }
      }
    } else {
      r, m := ChoiceRests(codec, trace, steps, n - 1, a);
    }
  }

  /** By this clock the snapshot was created no longer ago than the bound allows. */
  predicate YoungEnough(db: Db, id: Uuid, maxAge: Option<Observe.Seconds>, wall: real) {
    id in db.snapshots
    && (maxAge.Some? ==>
          && db.snapshots[id].created.instant.Some?
          && var created := db.snapshots[id].created.instant.value;
             if maxAge.value < 0x8000_0000_0000_0000 then wall - created <= maxAge.value as real else wall < created)
  }

  /** Reuse is sound. An answer `ReusedSnapshot` names the snapshot that was current when the
      call read the state row at step r; the row then recorded exactly the bind id, fingerprint
      and version of the call's quick probe, and at step m of the call the snapshot was within
      the age bound. It is a committed snapshot, and the bytes of every answer, reused or new,
      are those recorded at its commit. */
  lemma ReuseIsSound(codec: Codec, trace: seq<Sys>, steps: seq<Step>, n: nat, a: nat) returns (r: nat, m: nat)
    requires Behaviour(codec, trace, steps) && n < |trace| && HasCaller(trace[n], a)
    requires var k := trace[n].actors[a].k; !Observe.IsDirect(k) && k.pc.Done? && k.pc.result.Ok?
    ensures var k, h := trace[n].actors[a].k, trace[n].db.history; var outcome := k.pc.result.value;
      && HoldsReport(codec, h, k.report, outcome.id)
      && (outcome.Reused? ==>
            && ReuseSound(h, k.quick, k.opts.maxAge, k.checkedAt, outcome.id)
            && m < n && RestsOn(trace, steps, r, m, a, k)
            && trace[r].db.state.current == Some(outcome.id) && steps[m].observe.wall == k.checkedAt
            && YoungEnough(trace[r].db, outcome.id, k.opts.maxAge, steps[m].observe.wall))
  {
    CallerAlwaysInv(codec, trace, steps, n, a);
    if trace[n].actors[a].k.pc.result.value.Reused? {
      r, m := ChoiceRests(codec, trace, steps, n, a);
      AlwaysInv(codec, trace, steps, r);
    } else {
      r, m := 0, 0;
    }
  }
}
