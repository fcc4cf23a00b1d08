/** What the probe rows say of where they come from: their kind, and the snapshot that was current
    before them. */
module Origins {
  import opened Wrappers
  import opened Store
  import opened Effects
  import opened Invariants
  import opened System
  import opened Safety
  import opened Theorems
  import Closing
  import Observe
  import Retention
  import Opening

  /** Row r is of this kind and names this snapshot as its predecessor, unless that was deleted. */
  ghost predicate From(db: Db, r: nat, kind: ProbeKind, previous: Option<Uuid>) {
    && r in db.probes && db.probes[r].kind == kind
    && (previous.Some? ==> InHistory(db.history, previous.value))
    && (db.probes[r].previous == previous
        || (previous.Some? && db.probes[r].previous.None? && previous.value !in db.snapshots))
  }

  ghost predicate OriginInv(db: Db, k: Caller) {
    && (k.quickRow.Some? ==> From(db, k.quickRow.value, Quick, k.initial.state.current))
    && (k.fullRow.Some? ==> From(db, k.fullRow.value, Full, k.previous))
  }

  // ----- rows keep their origin -----

  predicate OriginKept(db: Db, db': Db, r: nat) {
    r in db.probes ==>
      r in db'.probes && db'.probes[r].kind == db.probes[r].kind
      && (db'.probes[r].previous == db.probes[r].previous
          || (db'.probes[r].previous.None? && db.probes[r].previous.value !in db'.snapshots))
  }

  lemma FromStable(db: Db, db': Db, r: nat, kind: ProbeKind, previous: Option<Uuid>)
    requires From(db, r, kind, previous) && OriginKept(db, db', r) && Closing.NoneReturns(db, db')
    ensures From(db', r, kind, previous)
  {
    if previous.Some? { Closing.InHistoryStable(db, db', previous.value); }
  }

  lemma RetentionKeepsOrigin(db: Db, r: Retention.Retainer, in_: Retention.Input, row: nat)
    ensures OriginKept(db, Retention.Step(db, r, in_).0, row)
  {
  }

  lemma OpeningKeepsOrigin(db: Db, o: Opening.Pc, in_: Opening.Input, row: nat)
    ensures OriginKept(db, Opening.Step(db, o, in_).0, row)
  {
  }

  /** A caller's step changes the origin of no row that is there. */
  lemma CallerKeepsOrigin(codec: Codec, db: Db, k: Caller, in_: Observe.Input, row: nat)
    requires in_.row !in db.probes
    ensures OriginKept(db, Observe.Step(codec, db, k, in_).0, row)
  {
    match Observe.PhaseOf(k.pc)
    case Starting =>
    case Checking =>
    case Waiting =>
    case Leading =>
    case Writing =>
    case Closing => ClosingKeepsOrigin(codec, db, k, in_, row);
    case Over =>
  }

  lemma ClosingKeepsOrigin(codec: Codec, db: Db, k: Caller, in_: Observe.Input, row: nat)
    requires Observe.PhaseOf(k.pc).Closing?
    ensures OriginKept(db, Observe.ClosingStep(codec, db, k, in_).0, row)
  {
  }

  // ----- the call's own steps -----

  /** The rows that a call has, and what they were started with. */
  predicate SameStart(k: Caller, k': Caller) {
    && k'.quickRow == k.quickRow && k'.fullRow == k.fullRow
    && (k.quickRow.Some? ==> k'.initial == k.initial) && (k.fullRow.Some? ==> k'.previous == k.previous)
  }

  lemma MostStartNothing(codec: Codec, db: Db, k: Caller, in_: Observe.Input)
    requires RowInv(db, k) && !k.pc.StartQuick? && !k.pc.StartFull?
    ensures SameStart(k, Observe.Step(codec, db, k, in_).1)
  {
    match Observe.PhaseOf(k.pc)
    case Starting =>
    case Checking =>
    case Waiting =>
    case Leading =>
    case Writing => WritingStartsNothing(codec, db, k, in_);
    case Closing => ClosingStartsNothing(codec, db, k, in_);
    case Over =>
  }

  lemma WritingStartsNothing(codec: Codec, db: Db, k: Caller, in_: Observe.Input)
    requires Observe.PhaseOf(k.pc).Writing?
    ensures SameStart(k, Observe.WritingStep(codec, db, k, in_).1)
  {
  }

  lemma ClosingStartsNothing(codec: Codec, db: Db, k: Caller, in_: Observe.Input)
    requires Observe.PhaseOf(k.pc).Closing?
    ensures SameStart(k, Observe.ClosingStep(codec, db, k, in_).1)
  {
  }

  lemma StartKeepsOrigins(codec: Codec, db: Db, k: Caller, in_: Observe.Input)
    requires (k.pc.StartQuick? || k.pc.StartFull?) && RowInv(db, k) && OriginInv(db, k) && in_.row !in db.probes
    requires CatalogInv(db.state, db.snapshots, db.history)
    ensures var (db', k') := Observe.Step(codec, db, k, in_); OriginInv(db', k')
  {
    assert forall id :: id in db.snapshots ==> InHistory(db.history, id);
  }

  lemma OwnStepKeepsOrigins(codec: Codec, s: Sys, a: nat, in_: Observe.Input)
    requires SysInv(codec, s) && HasCaller(s, a) && FreshInput(codec, s, in_) && OriginInv(s.db, s.actors[a].k)
    ensures var (db', k') := Observe.Step(codec, s.db, s.actors[a].k, in_); OriginInv(db', k')
  {
    var k := s.actors[a].k;
    assert CallerInv(codec, s.db, k);
    if k.pc.StartQuick? || k.pc.StartFull? {
      StartKeepsOrigins(codec, s.db, k, in_);
    } else {
      MostStartNothing(codec, s.db, k, in_);
      StepKeepsFrom(codec, s, a, in_, k);
    }
  }

  /** The step of caller a keeps the origin of the rows of any caller k. */
  lemma StepKeepsFrom(codec: Codec, s: Sys, a: nat, in_: Observe.Input, k: Caller)
    requires SysInv(codec, s) && HasCaller(s, a) && FreshInput(codec, s, in_) && OriginInv(s.db, k)
    ensures OriginInv(Observe.Step(codec, s.db, s.actors[a].k, in_).0, k)
  {
    var db' := Observe.Step(codec, s.db, s.actors[a].k, in_).0;
    CallerReturnsNone(codec, s, a, in_);
    if k.quickRow.Some? {
      CallerKeepsOrigin(codec, s.db, s.actors[a].k, in_, k.quickRow.value);
      FromStable(s.db, db', k.quickRow.value, Quick, k.initial.state.current);
    }
    if k.fullRow.Some? {
      CallerKeepsOrigin(codec, s.db, s.actors[a].k, in_, k.fullRow.value);
      FromStable(s.db, db', k.fullRow.value, Full, k.previous);
    }
  }

  lemma CallerReturnsNone(codec: Codec, s: Sys, a: nat, in_: Observe.Input)
    requires SysInv(codec, s) && HasCaller(s, a) && FreshInput(codec, s, in_)
    ensures Closing.NoneReturns(s.db, Observe.Step(codec, s.db, s.actors[a].k, in_).0)
  {
    StepHasEffect(codec, s.db, s.actors[a].k, in_);
    assert CallerInv(codec, s.db, s.actors[a].k);
  }

  // ----- every run -----

  lemma MaintenanceKeepsFrom(codec: Codec, s: Sys, step: Step, k: Caller)
    requires Can(codec, s, step) && !step.ObserveStep? && OriginInv(s.db, k)
    ensures OriginInv(Do(codec, s, step).db, k)
  {
    var db' := Do(codec, s, step).db;
    forall r ensures OriginKept(s.db, db', r) && Closing.NoneReturns(s.db, db') {
      match step
      case RetainStep(b, in_) =>
        RetentionKeepsOrigin(s.db, s.actors[b].r, in_, r);
        Closing.RetentionKeepsTold(s.db, s.actors[b].r, in_, r);
      case OpenStep(b, in_) =>
        OpeningKeepsOrigin(s.db, s.actors[b].o, in_, r);
        Closing.OpeningKeepsTold(s.db, s.actors[b].o, in_, r);
      case _ =>
    }
    if k.quickRow.Some? { FromStable(s.db, db', k.quickRow.value, Quick, k.initial.state.current); }
    if k.fullRow.Some? { FromStable(s.db, db', k.fullRow.value, Full, k.previous); }
  }

  /** At every time the quick row of a call says that it is one and names the snapshot that was
      current at the call's first read, and its full row the one read under the lease, unless
      these have been deleted since. */
  lemma {:induction false} RowsNameTheirOrigin(codec: Codec, trace: seq<Sys>, steps: seq<Step>, n: nat, a: nat)
    requires Behaviour(codec, trace, steps) && n < |trace| && HasCaller(trace[n], a)
    ensures OriginInv(trace[n].db, trace[n].actors[a].k)
  {
    if n > 0 {
      assert Follows(codec, trace, steps, n - 1);
      if HasCaller(trace[n - 1], a) {
        RowsNameTheirOrigin(codec, trace, steps, n - 1, a);
        AlwaysInv(codec, trace, steps, n - 1);
        match steps[n - 1]
        case ObserveStep(b, in_) =>
          if b == a { OwnStepKeepsOrigins(codec, trace[n - 1], a, in_); } else { StepKeepsFrom(codec, trace[n - 1], b, in_, trace[n - 1].actors[a].k); }
        case Crash =>
        case _ => MaintenanceKeepsFrom(codec, trace[n - 1], steps[n - 1], trace[n - 1].actors[a].k);
      }
    }
  }
}
