/** `apply_retention_sync` with its two queue drains: the classification of the candidate
    rows, and the whole call as a state machine over its store calls and file removals. */
module Retention {
  import opened Wrappers
  import opened Store

  datatype Policy = Policy(keep: nat, dryRun: bool)

  datatype Verdict = IsCurrent | IsPinned | NotUploaded | IsRecent | IsEligible

  datatype Report = Report(
    examined: nat,
    current: nat,
    pinned: nat,
    unuploaded: nat,
    recent: nat,
    eligible: nat)

  /** ORDER BY machine_bind_id, created_at DESC, snapshot_id DESC. */
  predicate Before(a: Candidate, b: Candidate) {
    a.machine < b.machine
    || (a.machine == b.machine
        && (a.created.rank > b.created.rank || (a.created.rank == b.created.rank && a.id > b.id)))
  }

  function CandidateOf(db: Db, id: Uuid): Candidate
    requires id in db.snapshots
  {
    var row := db.snapshots[id];
    Candidate(id, row.machine, row.created, row.pinned, row.uploaded, row.artifact)
  }

  /** The result of the candidate query: every snapshot once, in the stored order. */
  ghost predicate IsListing(db: Db, listing: seq<Candidate>) {
    (forall i, j :: 0 <= i < j < |listing| ==> Before(listing[i], listing[j]))
    && (forall c :: c in listing ==> c.id in db.snapshots && c == CandidateOf(db, c.id))
    && (forall id :: id in db.snapshots ==> CandidateOf(db, id) in listing)
  }

  /** How many of the first n candidates belong to a machine. */
  function CountMachine(listing: seq<Candidate>, n: nat, machine: Token): nat
    requires n <= |listing|
  {
    if n == 0 then 0
    else CountMachine(listing, n - 1, machine) + (if listing[n - 1].machine == machine then 1 else 0)
  }

  /** The rank of a candidate within its machine, counted from 1. */
  function RankAt(listing: seq<Candidate>, i: nat): nat
    requires i < |listing|
  {
    CountMachine(listing, i, listing[i].machine) + 1
  }

  function Judge(c: Candidate, rank: nat, current: Option<Uuid>, keep: nat, cutoff: real): Verdict {
    if current == Some(c.id) then IsCurrent
    else if c.pinned then IsPinned
    else if !c.uploaded then NotUploaded
    else if rank <= keep then IsRecent
    else if c.created.instant.Some? && c.created.instant.value <= cutoff then IsEligible
    else IsRecent
  }

  function VerdictAt(listing: seq<Candidate>, i: nat, current: Option<Uuid>, keep: nat, cutoff: real): Verdict
    requires i < |listing|
  {
    Judge(listing[i], RankAt(listing, i), current, keep, cutoff)
  }

  /** The eligible candidates among the first n, in order. */
  function Eligible(listing: seq<Candidate>, n: nat, current: Option<Uuid>, keep: nat, cutoff: real): seq<Candidate>
    requires n <= |listing|
  {
    if n == 0 then []
    else Eligible(listing, n - 1, current, keep, cutoff)
         + (if VerdictAt(listing, n - 1, current, keep, cutoff).IsEligible? then [listing[n - 1]] else [])
  }

  /** How many of the first n candidates get a verdict. */
  function VerdictCount(listing: seq<Candidate>, n: nat, v: Verdict, current: Option<Uuid>, keep: nat,
                        cutoff: real): nat
    requires n <= |listing|
  {
    if n == 0 then 0
    else VerdictCount(listing, n - 1, v, current, keep, cutoff)
         + (if VerdictAt(listing, n - 1, current, keep, cutoff) == v then 1 else 0)
  }

  /** Each counter of the report counts its verdict among the first n candidates. */
  ghost predicate Tallies(report: Report, listing: seq<Candidate>, n: nat, current: Option<Uuid>, keep: nat,
                          cutoff: real)
    requires n <= |listing|
  {
    report.current == VerdictCount(listing, n, IsCurrent, current, keep, cutoff)
    && report.pinned == VerdictCount(listing, n, IsPinned, current, keep, cutoff)
    && report.unuploaded == VerdictCount(listing, n, NotUploaded, current, keep, cutoff)
    && report.recent == VerdictCount(listing, n, IsRecent, current, keep, cutoff)
    && report.eligible == VerdictCount(listing, n, IsEligible, current, keep, cutoff)
  }

  /** The `ranks` map of the loop: absent means zero. */
  ghost predicate RanksAgree(ranks: map<Token, nat>, listing: seq<Candidate>, n: nat)
    requires n <= |listing|
  {
    forall m :: (if m in ranks then ranks[m] else 0) == CountMachine(listing, n, m)
  }

  /** The classification loop of `apply_retention_sync`. */
  method Classify(listing: seq<Candidate>, current: Option<Uuid>, keep: nat, cutoff: real)
    returns (report: Report, eligible: seq<Candidate>)
    ensures eligible == Eligible(listing, |listing|, current, keep, cutoff)
    ensures Tallies(report, listing, |listing|, current, keep, cutoff)
    ensures report.current + report.pinned + report.unuploaded + report.recent + report.eligible
         == report.examined == |listing|
    ensures report.eligible == |eligible|
  {
    report := Report(|listing|, 0, 0, 0, 0, 0);
    eligible := [];
    var ranks: map<Token, nat> := map[];
    var i := 0;
    while i < |listing|
      invariant 0 <= i <= |listing|
      invariant RanksAgree(ranks, listing, i)
      invariant eligible == Eligible(listing, i, current, keep, cutoff)
      invariant Tallies(report, listing, i, current, keep, cutoff)
      invariant report.examined == |listing| && report.eligible == |eligible|
      invariant report.current + report.pinned + report.unuploaded + report.recent + report.eligible == i
    {
      var c := listing[i];
      var rank := (if c.machine in ranks then ranks[c.machine] else 0) + 1;
      ranks := ranks[c.machine := rank];
      if current == Some(c.id) {
        report := report.(current := report.current + 1);
      } else if c.pinned {
        report := report.(pinned := report.pinned + 1);
      } else if !c.uploaded {
        report := report.(unuploaded := report.unuploaded + 1);
      } else if rank <= keep {
        report := report.(recent := report.recent + 1);
      } else if c.created.instant.Some? && c.created.instant.value <= cutoff {
        report := report.(eligible := report.eligible + 1);
        eligible := eligible + [c];
      } else {
        report := report.(recent := report.recent + 1);
      }
      i := i + 1;
    }
  }

  // ----- the whole call, one store call or file removal at a time -----

  datatype Pc =
    | DrainList(again: bool)
    | DrainFile(todo: seq<FileName>, again: bool)
    | DrainRow(todo: seq<FileName>, again: bool, removed: bool)
    | ReadCurrent
    | ReadRows(current: Option<Uuid>)
    | Delete(eligible: seq<Candidate>)
    | Finished(ok: bool)

  datatype Retainer = Retainer(policy: Policy, pc: Pc)

  /** `listing` is the answer of the query being run: the queued paths or the candidates. */
  datatype Input = Input(ok: bool, cutoff: real, paths: seq<FileName>, listing: seq<Candidate>)

  function Start(policy: Policy): Retainer {
    Retainer(policy, if policy.dryRun then ReadCurrent else DrainList(true))
  }

  function AfterDrain(again: bool): Pc { if again then ReadCurrent else Finished(true) }

  function DrainFrom(todo: seq<FileName>, again: bool): Pc {
    if todo == [] then AfterDrain(again) else DrainFile(todo, again)
  }

  /** `ok` is false when a statement fails, which ends the call with an error; a file
      removal that fails is recorded in the queue row and the drain goes on. */
  function Step(db: Db, r: Retainer, in_: Input): (Db, Retainer) {
    if !in_.ok && !r.pc.DrainFile? && !r.pc.Finished? then (db, r.(pc := Finished(false)))
    else match r.pc
      case DrainList(again) => (db, r.(pc := DrainFrom(in_.paths, again)))
      case DrainFile(todo, again) =>
        if todo == [] then (db, r.(pc := AfterDrain(again)))
        else if in_.ok then (RemoveFile(db, todo[0]), r.(pc := DrainRow(todo, again, true)))
        else (db, r.(pc := DrainRow(todo, again, false)))
      case DrainRow(todo, again, removed) =>
        if todo == [] then (db, r.(pc := AfterDrain(again)))
        else (if removed then Dequeue(db, todo[0]) else RecordDeleteFailure(db, todo[0]),
              r.(pc := DrainFrom(todo[1..], again)))
      case ReadCurrent => (db, r.(pc := ReadRows(db.state.current)))
      case ReadRows(current) =>
        var eligible := Eligible(in_.listing, |in_.listing|, current, r.policy.keep, in_.cutoff);
        (db, r.(pc := if r.policy.dryRun || eligible == [] then Finished(true) else Delete(eligible)))
      case Delete(eligible) =>
        var result := DeleteSnapshots(db, eligible);
        if result.Some? then (result.value, r.(pc := DrainList(false)))
        else (db, r.(pc := Finished(false)))
      case Finished(_) => (db, r)
  }

  /** The answers that the queries can give. */
  ghost predicate Answers(db: Db, r: Retainer, in_: Input) {
    (r.pc.DrainList? ==>
       (forall n :: n in in_.paths <==> n in db.queue)
       && (forall i, j :: 0 <= i < j < |in_.paths| ==> in_.paths[i] != in_.paths[j]))
    && (r.pc.ReadRows? ==> IsListing(db, in_.listing))
  }
}
