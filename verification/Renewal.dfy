/** A scan that renews in time keeps its lease. */
module Renewal {
  import opened Wrappers
  import opened Store
  import opened Effects
  import opened System
  import opened Safety
  import opened Theorems
  import Observe

  // ----- clock readings -----

  predicate RenewsNow(k: Caller, in_: Observe.Input) { k.pc.Scanning? && in_.scan.RenewTick? && in_.ok }

  /** The clock that a caller's step compares the expiry with, if it does. */
  function CallerClock(k: Caller, in_: Observe.Input): Option<real> {
    if in_.ok && (k.pc.Acquire? || k.pc.DirectAcquire? || k.pc.PollLease? || k.pc.Commit? || RenewsNow(k, in_))
    then Some(in_.now) else None
  }

  /** The same for every step of the system: taking, reading, renewing and fencing by the lease,
      and stale recovery. */
  function ClockOf(s: Sys, step: Step): Option<real> {
    match step
    case ObserveStep(a, in_) => if HasCaller(s, a) then CallerClock(s.actors[a].k, in_) else None
    case OpenStep(a, in_) =>
      if a in s.actors && s.actors[a].OpeningStore? && s.actors[a].o.Recover? && in_.ok then Some(in_.now) else None
    case _ => None
  }

  /** The only ways a lease row changes: somebody's clock has reached its expiry, or its owner
      releases or renews it. */
  predicate RowMoves(db: Db, k: Caller, in_: Observe.Input, db': Db)
    requires db.lease.Some?
  {
    || db'.lease == db.lease
    || (CallerClock(k, in_).Some? && CallerClock(k, in_).value >= db.lease.value.expires)
    || (k.owner == db.lease.value.owner && (k.pc.ReleaseLease? || RenewsNow(k, in_)))
  }

  lemma CallerMovesRow(codec: Codec, db: Db, k: Caller, in_: Observe.Input)
    requires db.lease.Some?
    ensures RowMoves(db, k, in_, Observe.Step(codec, db, k, in_).0)
  {
    match Observe.PhaseOf(k.pc)
    case Starting => StartingKeepsRow(db, k, in_);
    case Checking =>
    case Waiting => WaitingMovesRow(db, k, in_);
    case Leading =>
    case Writing =>
    case Closing => ClosingMovesRow(codec, db, k, in_);
    case Over =>
  }

  lemma StartingKeepsRow(db: Db, k: Caller, in_: Observe.Input)
    requires Observe.PhaseOf(k.pc).Starting?
    ensures Observe.StartingStep(db, k, in_).0.lease == db.lease
  {
  }

  lemma WaitingMovesRow(db: Db, k: Caller, in_: Observe.Input)
    requires Observe.PhaseOf(k.pc).Waiting? && db.lease.Some?
    ensures RowMoves(db, k, in_, Observe.WaitingStep(db, k, in_).0)
  {
  }

  lemma ClosingMovesRow(codec: Codec, db: Db, k: Caller, in_: Observe.Input)
    requires Observe.PhaseOf(k.pc).Closing? && db.lease.Some?
    ensures RowMoves(db, k, in_, Observe.ClosingStep(codec, db, k, in_).0)
  {
  }

  // ----- in every run -----

  function ClockAt(trace: seq<Sys>, steps: seq<Step>, m: nat): Option<real> {
    if m < |steps| && m < |trace| then ClockOf(trace[m], steps[m]) else None
  }

  /** The clocks that are compared with the lease never go back from one such step to a later
      one, whoever takes them. */
  ghost predicate ClocksOrdered(trace: seq<Sys>, steps: seq<Step>, j: nat, i: nat) {
    forall m: nat, n: nat :: j <= m < n <= i && ClockAt(trace, steps, m).Some? && ClockAt(trace, steps, n).Some? ==>
      ClockAt(trace, steps, m).value <= ClockAt(trace, steps, n).value
  }

  /** Step j gives a the lease. */
  predicate Acquires(trace: seq<Sys>, steps: seq<Step>, j: nat, a: nat, owner: Uuid) {
    StepOf(steps, j, a) && Is(trace, j, a, owner) && j + 1 < |trace| && Owns(trace[j + 1].db, owner)
    && (trace[j].actors[a].k.pc.Acquire? || trace[j].actors[a].k.pc.DirectAcquire?)
  }

  predicate Renews(trace: seq<Sys>, steps: seq<Step>, m: nat, a: nat) {
    m < |trace| && StepOf(steps, m, a) && HasCaller(trace[m], a) && RenewsNow(trace[m].actors[a].k, steps[m].observe)
  }

  predicate FencesCommit(trace: seq<Sys>, steps: seq<Step>, m: nat, a: nat) {
    m < |trace| && StepOf(steps, m, a) && HasCaller(trace[m], a) && trace[m].actors[a].k.pc.Commit? && steps[m].observe.ok
  }

  /** The expiry that a wrote last before step m: at its acquisition j or at a renewal since. */
  function Deadline(trace: seq<Sys>, steps: seq<Step>, j: nat, m: nat, a: nat): real
    requires StepOf(steps, j, a) && j < m <= |steps|
  {
    if Renews(trace, steps, m - 1, a) then steps[m - 1].observe.expires
    else if m == j + 1 then steps[j].observe.expires
    else Deadline(trace, steps, j, m - 1, a)
  }

  /** a's own checks are in time: it renews and commits before the expiry it wrote last. */
  predicate InTime(trace: seq<Sys>, steps: seq<Step>, j: nat, m: nat, a: nat)
    requires StepOf(steps, j, a) && j < m < |steps|
  {
    Renews(trace, steps, m, a) || FencesCommit(trace, steps, m, a) ==> steps[m].observe.now < Deadline(trace, steps, j, m, a)
  }

  /** Some clock since the acquisition has reached a deadline. */
  ghost predicate Reached(trace: seq<Sys>, steps: seq<Step>, j: nat, m: nat, deadline: real) {
    exists n: nat :: j < n < m && ClockAt(trace, steps, n).Some? && ClockAt(trace, steps, n).value >= deadline
  }

  predicate HeldUntil(db: Db, owner: Uuid, deadline: real) {
    Owns(db, owner) && db.lease.value.expires == deadline
  }

  /** One step of the run on a lease that is held until the deadline. */
  lemma HeldStep(codec: Codec, trace: seq<Sys>, steps: seq<Step>, m: nat, a: nat, owner: Uuid, deadline: real)
    requires Behaviour(codec, trace, steps) && m < |steps| && Is(trace, m, a, owner) && HeldUntil(trace[m].db, owner, deadline)
    requires !trace[m].actors[a].k.pc.ReleaseLease? && !Renews(trace, steps, m, a)
    ensures HeldUntil(trace[m + 1].db, owner, deadline)
         || (ClockAt(trace, steps, m).Some? && ClockAt(trace, steps, m).value >= deadline)
  {
    assert Follows(codec, trace, steps, m);
    match steps[m]
    case ObserveStep(b, in_) =>
      if b != a && trace[m].actors[b].k.owner == owner { OwnersDiffer(codec, trace, steps, m, a, b); }
      CallerMovesRow(codec, trace[m].db, trace[m].actors[b].k, in_);
    case _ =>
  }

  /** A renewal or a commit of a before its deadline finds the lease. */
  lemma NotReached(trace: seq<Sys>, steps: seq<Step>, j: nat, m: nat, deadline: real)
    requires ClocksOrdered(trace, steps, j, m) && ClockAt(trace, steps, m).Some? && ClockAt(trace, steps, m).value < deadline
    ensures !Reached(trace, steps, j, m, deadline)
  {
  }

  lemma ReachedLater(trace: seq<Sys>, steps: seq<Step>, j: nat, m: nat, deadline: real)
    requires Reached(trace, steps, j, m, deadline)
    ensures Reached(trace, steps, j, m + 1, deadline)
  {
  }

  lemma AcquiredUntil(codec: Codec, trace: seq<Sys>, steps: seq<Step>, j: nat, a: nat, owner: Uuid)
    requires Behaviour(codec, trace, steps) && j < |steps| && Acquires(trace, steps, j, a, owner)
    ensures HeldUntil(trace[j + 1].db, owner, steps[j].observe.expires) && !Renews(trace, steps, j, a)
  {
    assert Follows(codec, trace, steps, j);
    CallerAlwaysInv(codec, trace, steps, j, a);
  }

  lemma RenewedUntil(codec: Codec, trace: seq<Sys>, steps: seq<Step>, m: nat, a: nat, owner: Uuid, deadline: real)
    requires Behaviour(codec, trace, steps) && m < |steps| && Is(trace, m, a, owner) && Renews(trace, steps, m, a)
    requires HeldUntil(trace[m].db, owner, deadline) && steps[m].observe.now < deadline
    ensures HeldUntil(trace[m + 1].db, owner, steps[m].observe.expires)
  {
    assert Follows(codec, trace, steps, m);
  }

  lemma NotPastBefore(codec: Codec, trace: seq<Sys>, steps: seq<Step>, m: nat, i: nat, a: nat, owner: Uuid)
    requires Behaviour(codec, trace, steps) && m <= i < |trace| && Is(trace, m, a, owner) && Is(trace, i, a, owner)
    requires !Past(trace[i].actors[a].k.pc)
    ensures !Past(trace[m].actors[a].k.pc)
  {
    if Past(trace[m].actors[a].k.pc) { OncePast(codec, trace, steps, m, i, a, owner); }
  }

  /** Since its acquisition, a holds the lease until its deadline, or somebody's clock has
      reached the deadline. */
  lemma {:induction false} HeldOrReached(codec: Codec, trace: seq<Sys>, steps: seq<Step>, j: nat, m: nat, i: nat, a: nat, owner: Uuid)
    requires Behaviour(codec, trace, steps) && j < m <= i < |steps| && Acquires(trace, steps, j, a, owner)
    requires Is(trace, i, a, owner) && !Past(trace[i].actors[a].k.pc) && ClocksOrdered(trace, steps, j, i)
    requires forall n: nat :: j < n < i ==> InTime(trace, steps, j, n, a)
    ensures HeldUntil(trace[m].db, owner, Deadline(trace, steps, j, m, a))
         || Reached(trace, steps, j, m, Deadline(trace, steps, j, m, a))
  {
    AcquiredUntil(codec, trace, steps, j, a, owner);
    if m > j + 1 {
      HeldOrReached(codec, trace, steps, j, m - 1, i, a, owner);
      OwnerIdentifiesActor(codec, trace, steps, j, a, i, a, owner);
      assert Is(trace, m - 1, a, owner);
      NotPastBefore(codec, trace, steps, m - 1, i, a, owner);
      var deadline := Deadline(trace, steps, j, m - 1, a);
      assert InTime(trace, steps, j, m - 1, a);
      if Renews(trace, steps, m - 1, a) {
        NotReached(trace, steps, j, m - 1, deadline);
        RenewedUntil(codec, trace, steps, m - 1, a, owner, deadline);
      } else if Reached(trace, steps, j, m - 1, deadline) {
        ReachedLater(trace, steps, j, m - 1, deadline);
      } else {
        HeldStep(codec, trace, steps, m - 1, a, owner, deadline);
      }
    }
  }

  /** A scan whose renewals each come before the expiry it wrote last keeps the lease, as long
      as the clocks that anybody compares with it do not go back: at every such renewal and at
      such a commit the lease row is still its own with that expiry, the renewal succeeds, and
      the publication is not turned away as stale. Other callers and stale recovery may run at
      any time and with any clock readings in order. */
  lemma TimelyScanKeepsLease(codec: Codec, trace: seq<Sys>, steps: seq<Step>, j: nat, i: nat, a: nat, owner: Uuid)
    requires Behaviour(codec, trace, steps) && j < i < |steps| && Acquires(trace, steps, j, a, owner) && Is(trace, i, a, owner)
    requires Renews(trace, steps, i, a) || FencesCommit(trace, steps, i, a)
    requires ClocksOrdered(trace, steps, j, i)
    requires forall n: nat :: j < n <= i ==> InTime(trace, steps, j, n, a)
    ensures HeldUntil(trace[i].db, owner, Deadline(trace, steps, j, i, a))
    ensures var k, k' := trace[i].actors[a].k, Observe.Step(codec, trace[i].db, trace[i].actors[a].k, steps[i].observe).1;
      && (k.pc.Scanning? ==> k'.pc.Scanning?)
      && (k.pc.Commit? ==> k'.pc != Observe.DropReport(k.pc.pub, Observe.LeaseLost))
  {
    HeldOrReached(codec, trace, steps, j, i, i, a, owner);
    assert InTime(trace, steps, j, i, a);
    NotReached(trace, steps, j, i, Deadline(trace, steps, j, i, a));
  }

  // ----- and the lease itself -----

  /** Nobody's clock has reached the expiry of the row, and its owner does not release it. */
  predicate Unexpired(s: Sys, step: Step, owner: Uuid) {
    Owns(s.db, owner) ==>
      (ClockOf(s, step).Some? ==> ClockOf(s, step).value < s.db.lease.value.expires)
      && !(step.ObserveStep? && HasCaller(s, step.a) && s.actors[step.a].k.owner == owner && s.actors[step.a].k.pc.ReleaseLease?)
  }

  lemma UnexpiredKeepsLease(codec: Codec, s: Sys, step: Step, owner: Uuid)
    requires Can(codec, s, step) && Owns(s.db, owner) && Unexpired(s, step, owner)
    ensures Owns(Do(codec, s, step).db, owner)
  {
    match step
    case ObserveStep(a, in_) =>
      CallerMovesRow(codec, s.db, s.actors[a].k, in_);
      if RenewsNow(s.actors[a].k, in_) { RenewalKeepsOwner(codec, s.db, s.actors[a].k, in_); }
    case _ =>
  }

  lemma RenewalKeepsOwner(codec: Codec, db: Db, k: Caller, in_: Observe.Input)
    requires RenewsNow(k, in_) && db.lease.Some?
    ensures Owns(Observe.Step(codec, db, k, in_).0, db.lease.value.owner)
  {
  }

  /** A lease that no clock has reached and that is not released stays with its owner. */
  lemma {:induction false} LeaseKept(codec: Codec, trace: seq<Sys>, steps: seq<Step>, j: nat, i: nat, owner: Uuid)
    requires Behaviour(codec, trace, steps) && j <= i < |trace| && Owns(trace[j].db, owner)
    requires forall m :: j <= m < i ==> Unexpired(trace[m], steps[m], owner)
    ensures forall m :: j <= m <= i ==> Owns(trace[m].db, owner)
  {
    if j < i {
      LeaseKept(codec, trace, steps, j, i - 1, owner);
      assert Follows(codec, trace, steps, i - 1);
      UnexpiredKeepsLease(codec, trace[i - 1], steps[i - 1], owner);
    }
  }
}
