/** Waiting for the scan lease: when the wait times out, and that it ends. */
module LeaseWait {
  import opened Wrappers
  import opened Store
  import opened Effects
  import opened System
  import opened Safety
  import opened Theorems
  import Observe

  // ----- in every run: a timeout means that nothing moved for that long -----

  /** Step m is a's turn at the loop that reads the lease. */
  predicate Polls(trace: seq<Sys>, steps: seq<Step>, m: nat, a: nat) {
    m < |steps| && m < |trace| && StepOf(steps, m, a) && HasCaller(trace[m], a) && trace[m].actors[a].k.pc.PollLease?
  }

  function Seen(trace: seq<Sys>, steps: seq<Step>, m: nat, a: nat): Option<LeaseRow>
    requires Polls(trace, steps, m, a)
  {
    ActiveLease(trace[m].db, steps[m].observe.now)
  }

  /** From a's step j on, every poll before n saw the same lease, and j is the poll that saw
      it first, or the step that entered the loop if that was no lease at all. */
  ghost predicate Unchanged(trace: seq<Sys>, steps: seq<Step>, j: nat, n: nat, a: nat, lease: Option<LeaseRow>) {
    && j < n <= |steps| && j < |trace| && StepOf(steps, j, a) && HasCaller(trace[j], a)
    && (trace[j].actors[a].k.pc.PollLease? || (trace[j].actors[a].k.pc.EnterLoop? && lease.None?))
    && forall m: nat {:trigger Polls(trace, steps, m, a)} :: j <= m < n && Polls(trace, steps, m, a) ==>
         Seen(trace, steps, m, a) == lease
  }

  predicate InLoop(pc: Observe.Pc) {
    pc.Acquire? || pc.PollState? || pc.PollLease? || ((pc.CheckRow? || pc.CheckFile?) && pc.why.WhileWaiting?)
  }

  /** One step of the caller, as far as the wait is concerned. */
  lemma LoopStep(codec: Codec, db: Db, k: Caller, in_: Observe.Input)
    ensures var k' := Observe.Step(codec, db, k, in_).1;
      InLoop(k'.pc) ==>
        if k.pc.EnterLoop? then k'.observed.None? && k'.progress == in_.clock
        else InLoop(k.pc)
             && (if k.pc.PollLease? then
                   var seen := ActiveLease(db, in_.now);
                   k'.observed == seen && k'.progress == if seen == k.observed then k.progress else in_.clock
                 else k'.observed == k.observed && k'.progress == k.progress)
  {
    match Observe.PhaseOf(k.pc)
    case Starting => StartingEntersNoLoop(db, k, in_);
    case Checking =>
    case Waiting =>
    case Leading => LeadingEntersNoLoop(db, k, in_);
    case Writing => WritingEntersNoLoop(codec, db, k, in_);
    case Closing => ClosingEntersNoLoop(codec, db, k, in_);
    case Over =>
  }

  lemma StartingEntersNoLoop(db: Db, k: Caller, in_: Observe.Input)
    requires Observe.PhaseOf(k.pc).Starting?
    ensures !InLoop(Observe.StartingStep(db, k, in_).1.pc)
  {
  }

  lemma LeadingEntersNoLoop(db: Db, k: Caller, in_: Observe.Input)
    requires Observe.PhaseOf(k.pc).Leading?
    ensures !InLoop(Observe.LeadingStep(db, k, in_).1.pc)
  {
  }

  lemma WritingEntersNoLoop(codec: Codec, db: Db, k: Caller, in_: Observe.Input)
    requires Observe.PhaseOf(k.pc).Writing?
    ensures !InLoop(Observe.WritingStep(codec, db, k, in_).1.pc)
  {
  }

  lemma ClosingEntersNoLoop(codec: Codec, db: Db, k: Caller, in_: Observe.Input)
    requires Observe.PhaseOf(k.pc).Closing?
    ensures !InLoop(Observe.ClosingStep(codec, db, k, in_).1.pc)
  {
  }

  /** While a call waits, its progress clock is the time of the step since which nothing changed. */
  lemma {:induction false} WaitHistory(codec: Codec, trace: seq<Sys>, steps: seq<Step>, n: nat, a: nat) returns (j: nat)
    requires Behaviour(codec, trace, steps) && n < |trace| && HasCaller(trace[n], a) && InLoop(trace[n].actors[a].k.pc)
    ensures Unchanged(trace, steps, j, n, a, trace[n].actors[a].k.observed)
    ensures trace[n].actors[a].k.progress == steps[j].observe.clock
  {
    assert n > 0;
    assert Follows(codec, trace, steps, n - 1);
    if StepOf(steps, n - 1, a) {
      var k := trace[n - 1].actors[a].k;
      LoopStep(codec, trace[n - 1].db, k, steps[n - 1].observe);
      if k.pc.EnterLoop? || (k.pc.PollLease? && ActiveLease(trace[n - 1].db, steps[n - 1].observe.now) != k.observed) {
        j := n - 1;
      } else {
        j := WaitHistory(codec, trace, steps, n - 1, a);
      }
    } else {
      j := WaitHistory(codec, trace, steps, n - 1, a);
    }
  }

  /** The step that gives up: the same lease owner and expiry (or the same absence of a
      lease) were seen by every poll since step j, and by the caller's clock that was at
      least the wait timeout ago. */
  lemma TimeoutOnlyAfterStall(codec: Codec, trace: seq<Sys>, steps: seq<Step>, n: nat, a: nat) returns (j: nat)
    requires Behaviour(codec, trace, steps) && Polls(trace, steps, n, a) && steps[n].observe.ok
    ensures j <= n && StepOf(steps, j, a)
    ensures Unchanged(trace, steps, j, n + 1, a, Seen(trace, steps, n, a))
    ensures var k, k' := trace[n].actors[a].k, Observe.Step(codec, trace[n].db, trace[n].actors[a].k, steps[n].observe).1;
      && (!k'.pc.Acquire? <==> steps[n].observe.clock - steps[j].observe.clock >= k.opts.waitTimeout)
      && (!k'.pc.Acquire? <==> k'.pc.WaitTimedOut? || k'.pc == Observe.Done(Err(Observe.LeaseTimeout)))
  {
    if Seen(trace, steps, n, a) == trace[n].actors[a].k.observed {
      j := WaitHistory(codec, trace, steps, n, a);
    } else {
      j := n;
    }
  }

  // ----- in every run: the wait ends -----

  /** How often in the stretch a's poll saw another lease than the poll before it. */
  function Changes(trace: seq<Sys>, steps: seq<Step>, b: nat, n: nat, a: nat): nat
    requires b <= n <= |steps|
  {
    if n == b then 0
    else Changes(trace, steps, b, n - 1, a)
         + (if Polls(trace, steps, n - 1, a) && Seen(trace, steps, n - 1, a) != trace[n - 1].actors[a].k.observed then 1 else 0)
  }

  /** The clock that a's next poll must have reached: the start of the loop, or one interval
      after its last poll. */
  function NextPoll(trace: seq<Sys>, steps: seq<Step>, b: nat, n: nat, a: nat, start: real, interval: real): real
    requires b <= n <= |steps|
  {
    if n == b then start
    else if Polls(trace, steps, n - 1, a) then steps[n - 1].observe.clock + interval
    else NextPoll(trace, steps, b, n - 1, a, start, interval)
  }

  predicate OnPace(trace: seq<Sys>, steps: seq<Step>, b: nat, m: nat, a: nat, start: real, interval: real)
    requires b <= m < |steps|
  {
    Polls(trace, steps, m, a) ==> steps[m].observe.clock >= NextPoll(trace, steps, b, m, a, start, interval)
  }

  /** The sleep between two polls lasts at least the interval. */
  ghost predicate Paced(trace: seq<Sys>, steps: seq<Step>, b: nat, n: nat, a: nat, start: real, interval: real) {
    n <= |steps| && forall m: nat :: b <= m < n ==> OnPace(trace, steps, b, m, a, start, interval)
  }

  /** How far a turn of the loop has come, in own steps. */
  function Stage(pc: Observe.Pc): nat {
    match pc
    case PollState => 1
    case CheckRow(_, _) => 2
    case CheckFile(_, _, _) => 3
    case PollLease => 4
    case _ => 0
  }

  /** A step within the loop: a poll ends the turn with the timeout not reached, any other
      step moves on. */
  predicate TurnsOn(k: Caller, in_: Observe.Input, k': Caller) {
    k'.opts == k.opts
    && if k.pc.PollLease? then Stage(k'.pc) == 0 && in_.clock - k'.progress < k.opts.waitTimeout
       else Stage(k'.pc) > Stage(k.pc)
  }

  lemma LoopAdvances(codec: Codec, db: Db, k: Caller, in_: Observe.Input)
    requires InLoop(k.pc) && InLoop(Observe.Step(codec, db, k, in_).1.pc)
    ensures TurnsOn(k, in_, Observe.Step(codec, db, k, in_).1)
  {
    if Observe.PhaseOf(k.pc).Checking? { CheckAdvances(codec, db, k, in_); } else { WaitAdvances(db, k, in_); }
  }

  lemma CheckAdvances(codec: Codec, db: Db, k: Caller, in_: Observe.Input)
    requires InLoop(k.pc) && Observe.PhaseOf(k.pc).Checking?
    ensures var k' := Observe.CheckingStep(codec, db, k, in_).1; InLoop(k'.pc) ==> TurnsOn(k, in_, k')
  {
  }

  lemma WaitAdvances(db: Db, k: Caller, in_: Observe.Input)
    requires InLoop(k.pc) && Observe.PhaseOf(k.pc).Waiting?
    ensures var k' := Observe.WaitingStep(db, k, in_).1; InLoop(k'.pc) ==> TurnsOn(k, in_, k')
  {
  }

  /** How many intervals fit into the time that is left. */
  function TurnsLeft(remaining: real, interval: real): nat
    requires interval > 0.0
  {
    if remaining <= 0.0 then 0 else (remaining / interval).Floor + 1
  }

  lemma TurnsLeftShrinks(remaining: real, next: real, interval: real)
    requires interval > 0.0 && remaining > 0.0 && next <= remaining - interval
    ensures TurnsLeft(next, interval) < TurnsLeft(remaining, interval)
  {
    if next > 0.0 {
      QuotientsApart(next / interval, remaining / interval, next, remaining, interval);
    }
  }

  lemma QuotientsApart(p: real, q: real, next: real, remaining: real, interval: real)
    requires interval > 0.0 && p * interval == next && q * interval == remaining && next <= remaining - interval
    ensures p <= q - 1.0
  {
    var d := p - q + 1.0;
    assert d * interval == p * interval - q * interval + interval;
    if d > 0.0 { ProductPositive(d, interval); }
  }

  lemma ProductPositive(x: real, y: real)
    requires x > 0.0 && y > 0.0
    ensures x * y > 0.0
  {
  }

  /** The turns that fit into the time left when the next poll comes at `next`. */
  function TimeLeft(k: Caller, next: real, interval: real): nat
    requires interval > 0.0
  {
    TurnsLeft(k.opts.waitTimeout - (next - k.progress), interval)
  }

  /** Five own steps for each turn that is left, out of five for each turn that the timeout
      allows after the start and after each change. */
  predicate WithinBudget(k: Caller, own: nat, changes: nat, next: real, interval: real)
    requires interval > 0.0
  {
    own + 5 * TimeLeft(k, next, interval) <= 5 * (changes + 1) * TurnsLeft(k.opts.waitTimeout, interval) + Stage(k.pc)
  }

  /** A poll that goes on has used up one turn, unless it saw a change and starts afresh. */
  lemma PollUsesTurn(k: Caller, k': Caller, in_: Observe.Input, own: nat, changes: nat, next: real, interval: real)
    requires interval > 0.0 && WithinBudget(k, own, changes, next, interval)
    requires k.pc.PollLease? && TurnsOn(k, in_, k') && in_.clock >= next && k'.progress == k.progress
    ensures WithinBudget(k', own + 1, changes, in_.clock + interval, interval)
  {
    var timeout := k.opts.waitTimeout;
    TurnsLeftShrinks(timeout - (next - k.progress), timeout - (in_.clock + interval - k.progress), interval);
  }

  lemma ChangeRestarts(k: Caller, k': Caller, in_: Observe.Input, own: nat, changes: nat, next: real, interval: real)
    requires interval > 0.0 && WithinBudget(k, own, changes, next, interval)
    requires k.pc.PollLease? && TurnsOn(k, in_, k') && k'.progress == in_.clock
    ensures WithinBudget(k', own + 1, changes + 1, in_.clock + interval, interval)
  {
    var timeout := k.opts.waitTimeout;
    TurnsLeftShrinks(timeout, timeout - interval, interval);
    var turns := TurnsLeft(timeout, interval);
    assert 5 * (changes + 2) * turns == 5 * (changes + 1) * turns + 5 * turns;
  }

  predicate WaitsAt(trace: seq<Sys>, m: nat, a: nat, owner: Uuid) {
    Is(trace, m, a, owner) && InLoop(trace[m].actors[a].k.pc)
  }

  /** a entered the loop with step b - 1 and has been in it since. */
  ghost predicate Waits(trace: seq<Sys>, steps: seq<Step>, b: nat, n: nat, a: nat, owner: Uuid) {
    0 < b <= n < |trace| && n <= |steps| && StepOf(steps, b - 1, a)
    && Is(trace, b - 1, a, owner) && trace[b - 1].actors[a].k.pc.EnterLoop?
    && forall m: nat :: b <= m <= n ==> WaitsAt(trace, m, a, owner)
  }

  predicate BudgetAt(trace: seq<Sys>, steps: seq<Step>, b: nat, m: nat, a: nat, start: real, interval: real)
    requires interval > 0.0
  {
    b <= m <= |steps| && m < |trace| && HasCaller(trace[m], a)
    && WithinBudget(trace[m].actors[a].k, OwnSteps(steps, b, m, a), Changes(trace, steps, b, m, a),
                    NextPoll(trace, steps, b, m, a, start, interval), interval)
  }

  lemma BudgetStep(codec: Codec, trace: seq<Sys>, steps: seq<Step>, b: nat, m: nat, a: nat, owner: Uuid, start: real, interval: real)
    requires Behaviour(codec, trace, steps) && b <= m < |steps| && interval > 0.0
    requires WaitsAt(trace, m, a, owner) && WaitsAt(trace, m + 1, a, owner)
    requires OnPace(trace, steps, b, m, a, start, interval) && BudgetAt(trace, steps, b, m, a, start, interval)
    ensures BudgetAt(trace, steps, b, m + 1, a, start, interval)
  {
    assert Follows(codec, trace, steps, m);
    if StepOf(steps, m, a) {
      var k, k', in_ := trace[m].actors[a].k, trace[m + 1].actors[a].k, steps[m].observe;
      LoopStep(codec, trace[m].db, k, in_);
      LoopAdvances(codec, trace[m].db, k, in_);
      if k.pc.PollLease? {
        var own, changes := OwnSteps(steps, b, m, a), Changes(trace, steps, b, m, a);
        var next := NextPoll(trace, steps, b, m, a, start, interval);
        if Seen(trace, steps, m, a) == k.observed {
          PollUsesTurn(k, k', in_, own, changes, next, interval);
        } else {
          ChangeRestarts(k, k', in_, own, changes, next, interval);
        }
      }
    }
  }

  lemma {:induction false} WaitKeepsBudget(codec: Codec, trace: seq<Sys>, steps: seq<Step>, b: nat, n: nat, a: nat,
                                           owner: Uuid, start: real, interval: real)
    requires Behaviour(codec, trace, steps) && Waits(trace, steps, b, n, a, owner) && interval > 0.0
    requires start == steps[b - 1].observe.clock && Paced(trace, steps, b, n, a, start, interval)
    ensures BudgetAt(trace, steps, b, n, a, start, interval)
  {
    if n > b {
      WaitKeepsBudget(codec, trace, steps, b, n - 1, a, owner, start, interval);
      BudgetStep(codec, trace, steps, b, n - 1, a, owner, start, interval);
    } else {
      assert WaitsAt(trace, b, a, owner);
      assert Follows(codec, trace, steps, b - 1);
      LoopStep(codec, trace[b - 1].db, trace[b - 1].actors[a].k, steps[b - 1].observe);
    }
  }

  /** The wait ends: a call whose polls are at least an interval apart takes at most five own
      steps for each turn that the timeout allows, anew after each change of the lease that
      it sees. So it waits for ever only if the lease it sees changes for ever, whatever the
      others do in between. */
  lemma WaitEnds(codec: Codec, trace: seq<Sys>, steps: seq<Step>, b: nat, n: nat, a: nat, owner: Uuid, interval: real)
    requires Behaviour(codec, trace, steps) && Waits(trace, steps, b, n, a, owner) && interval > 0.0
    requires Paced(trace, steps, b, n, a, steps[b - 1].observe.clock, interval)
    ensures HasCaller(trace[n], a)
    ensures OwnSteps(steps, b, n, a)
         <= 5 * (Changes(trace, steps, b, n, a) + 1) * TurnsLeft(trace[n].actors[a].k.opts.waitTimeout, interval) + 4
  {
    WaitKeepsBudget(codec, trace, steps, b, n, a, owner, steps[b - 1].observe.clock, interval);
  }

  // ----- the loop by itself -----

  /** What one turn of the loop meets. */
  datatype Turn = Turn(acquired: bool, reusable: bool, active: Option<LeaseRow>, clock: real)

  datatype Ending = Acquired(turn: nat) | Reusable(turn: nat) | TimedOut(turn: nat)

  /** The clock of the last turn up to n at which the lease looked different from the turn
      before; before the first turn there is none, seen at `start`. */
  ghost function ChangedAt(turns: nat -> Turn, start: real, n: nat): real {
    var before := if n == 0 then None else turns(n - 1).active;
    if turns(n).active != before then turns(n).clock else if n == 0 then start else ChangedAt(turns, start, n - 1)
  }

  ghost predicate Stalls(turns: nat -> Turn, start: real, timeout: real, n: nat) {
    turns(n).clock - ChangedAt(turns, start, n) >= timeout
  }

  ghost predicate Goes(turns: nat -> Turn, start: real, timeout: real, n: nat) {
    !turns(n).acquired && !turns(n).reusable && !Stalls(turns, start, timeout, n)
  }

  /** The turn of this loop is the step of a call that polls. */
  lemma TurnIsPoll(turns: nat -> Turn, start: real, n: nat, k: Caller)
    requires k.observed == (if n == 0 then None else turns(n - 1).active)
    requires k.progress == if n == 0 then start else ChangedAt(turns, start, n - 1)
    ensures var k' := Observe.AfterPoll(k, turns(n).active, turns(n).clock);
      && k'.observed == turns(n).active && k'.progress == ChangedAt(turns, start, n)
      && (k'.pc.Acquire? <==> !Stalls(turns, start, k.opts.waitTimeout, n))
  {
  }

  /** From turn `last` on the lease does not change, and each turn takes at least `interval`. */
  ghost predicate Settles(turns: nat -> Turn, last: nat, interval: real) {
    && interval > 0.0
    && (forall n: nat :: turns(n + 1).clock >= turns(n).clock + interval)
    && (forall n: nat :: n >= last ==> turns(n + 1).active == turns(n).active)
  }

  /** The wait loop of `observe_inventory_with_scanner`. If the lease changes only finitely
      often, it ends, and it ends at the first turn that acquires, finds a reusable snapshot,
      or has seen one and the same lease for the timeout. The measure is the number of turns
      left until the last change, then the intervals left in the timeout. */
  method WaitForLease(turns: nat -> Turn, start: real, timeout: real, ghost last: nat,
                      ghost interval: real) returns (e: Ending)
    requires Settles(turns, last, interval)
    ensures forall n: nat :: n < e.turn ==> Goes(turns, start, timeout, n)
    ensures match e
      case Acquired(n) => turns(n).acquired
      case Reusable(n) => !turns(n).acquired && turns(n).reusable
      case TimedOut(n) => !turns(n).acquired && !turns(n).reusable && Stalls(turns, start, timeout, n)
  {
    var observed: Option<LeaseRow> := None;
    var progress := start;
    var n: nat := 0;
    while true
      invariant forall m: nat :: m < n ==> Goes(turns, start, timeout, m)
      invariant observed == if n == 0 then None else turns(n - 1).active
      invariant progress == if n == 0 then start else ChangedAt(turns, start, n - 1)
      decreases if n <= last then last + 1 - n else 0, TurnsLeft(progress + timeout - turns(n).clock, interval)
    {
      if turns(n).acquired {
        return Acquired(n);
      }
      if turns(n).reusable {
        return Reusable(n);
      }
      if turns(n).active != observed {
        observed := turns(n).active;
        progress := turns(n).clock;
      }
      if turns(n).clock - progress >= timeout {
        return TimedOut(n);
      }
      TurnsLeftShrinks(progress + timeout - turns(n).clock, progress + timeout - turns(n + 1).clock, interval);
      n := n + 1;
    }
  }
}
