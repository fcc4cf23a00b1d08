/** The collector: running the probes in parallel or one after the other, and merging what
    they found into the report. */
module Collector {
  import opened Wrappers
  import opened Strings
  import opened Merge

  /** A selected probe with its place in the full list of probes. */
  datatype Probe = Probe(index: nat, name: string)

  datatype ScanWarning = Reported(code: Token) | ProbeDeadline(probe: string)

  datatype ProbeResult = ProbeResult(devices: seq<Device>, warnings: seq<ScanWarning>, consumed: seq<string>)

  /** Without the duration, which is a measurement. */
  datatype Metric = Metric(name: string, devices: nat, warnings: nat, timedOut: bool)

  type Run = nat -> ProbeResult

  type Slots = seq<Option<ProbeResult>>

  // ----- what a run of the probes should give -----

  ghost predicate DistinctIndices(probes: seq<Probe>) {
    forall i, j :: 0 <= i < j < |probes| ==> probes[i].index != probes[j].index
  }

  function ResultLength(probes: seq<Probe>): (n: nat)
    ensures forall p :: p in probes ==> p.index < n
    ensures n > 0 ==> exists p :: p in probes && p.index + 1 == n
  {
    if probes == [] then 0
    else
      var so, last := ResultLength(probes[..|probes| - 1]), probes[|probes| - 1];
      assert forall p :: p in probes <==> p == last || p in probes[..|probes| - 1];
      if last.index >= so then last.index + 1 else so
  }

  /** The result of each probe that finished, at its index. */
  ghost predicate Fills(slots: Slots, probes: seq<Probe>, done: set<nat>, run: Run) {
    |slots| == ResultLength(probes) && forall i :: 0 <= i < |slots| ==> slots[i] == if i in done then Some(run(i)) else None
  }

  function DoneMetric(p: Probe, run: Run): Metric {
    Metric(p.name, |run(p.index).devices|, |run(p.index).warnings|, false)
  }

  function TimeoutMetric(p: Probe): Metric { Metric(p.name, 0, 1, true) }

  function DoneMetrics(probes: seq<Probe>, run: Run): (r: seq<Metric>)
    ensures |r| == |probes| && forall i :: 0 <= i < |probes| ==> r[i] == DoneMetric(probes[i], run)
  {
    seq(|probes|, i requires 0 <= i < |probes| => DoneMetric(probes[i], run))
  }

  function TimeoutMetrics(probes: seq<Probe>): (r: seq<Metric>)
    ensures |r| == |probes| && forall i :: 0 <= i < |probes| ==> r[i] == TimeoutMetric(probes[i])
  {
    seq(|probes|, i requires 0 <= i < |probes| => TimeoutMetric(probes[i]))
  }

  /** The probes that have not finished, in their order. */
  function NotDone(probes: seq<Probe>, done: set<nat>): (r: seq<Probe>)
    ensures forall p :: p in r <==> p in probes && p.index !in done
  {
    if probes == [] then []
    else
      var last := probes[|probes| - 1];
      assert forall p :: p in probes <==> p == last || p in probes[..|probes| - 1];
      NotDone(probes[..|probes| - 1], done) + (if last.index in done then [] else [last])
  }

  function IndexSet(probes: seq<Probe>): set<nat> { set p | p in probes :: p.index }

  /** The outcome when exactly `finished` finish, in that order: every probe has one metric,
      as finished or as timed out, and the deadline counts as exceeded exactly if some did not
      finish. */
  ghost predicate IsOutcome(probes: seq<Probe>, finished: seq<Probe>, run: Run, slots: Slots, metrics: seq<Metric>,
                            exceeded: bool) {
    && Fills(slots, probes, IndexSet(finished), run)
    && metrics == DoneMetrics(finished, run) + TimeoutMetrics(NotDone(probes, IndexSet(finished)))
    && |metrics| == |probes|
    && (exceeded <==> NotDone(probes, IndexSet(finished)) != [])
  }

  // ----- the two ways to run them -----

  /** `finished` are distinct probes of the selection. */
  ghost predicate Among(finished: seq<Probe>, probes: seq<Probe>) {
    DistinctIndices(finished) && forall p :: p in finished ==> p in probes
  }

  lemma {:induction false} OneFewer(probes: seq<Probe>, done: set<nat>, p: Probe)
    requires DistinctIndices(probes) && p in probes && p.index !in done
    ensures |NotDone(probes, done + {p.index})| == |NotDone(probes, done)| - 1
  {
    var rest, last := probes[..|probes| - 1], probes[|probes| - 1];
    if last == p {
      OthersAlike(rest, done, p.index);
    } else {
      OneFewer(rest, done, p);
      assert p in rest;
      assert last.index != p.index;
    }
  }

  lemma {:induction false} OthersAlike(probes: seq<Probe>, done: set<nat>, index: nat)
    requires forall p :: p in probes ==> p.index != index
    ensures NotDone(probes, done + {index}) == NotDone(probes, done)
  {
    if probes != [] { OthersAlike(probes[..|probes| - 1], done, index); }
  }

  lemma {:induction false} AllPending(probes: seq<Probe>)
    ensures NotDone(probes, {}) == probes
  {
    if probes != [] {
      AllPending(probes[..|probes| - 1]);
      assert probes == probes[..|probes| - 1] + [probes[|probes| - 1]];
    }
  }

  lemma IndexSetMore(finished: seq<Probe>, i: nat)
    requires i < |finished|
    ensures IndexSet(finished[..i + 1]) == IndexSet(finished[..i]) + {finished[i].index}
  {
    assert finished[..i + 1] == finished[..i] + [finished[i]];
    assert forall p :: p in finished[..i + 1] <==> p == finished[i] || p in finished[..i];
  }

  lemma NextIsNew(finished: seq<Probe>, i: nat)
    requires DistinctIndices(finished) && i < |finished|
    ensures finished[i].index !in IndexSet(finished[..i])
  {
    forall p | p in finished[..i] ensures p.index != finished[i].index {
      var j :| 0 <= j < i && finished[j] == p;
    }
  }

  /** `pending.retain`. */
  lemma RetainIsNotDone(probes: seq<Probe>, done: set<nat>, index: nat)
    ensures NotDone(NotDone(probes, done), {index}) == NotDone(probes, done + {index})
  {
    if probes != [] { RetainIsNotDone(probes[..|probes| - 1], done, index); NotDoneConcat(probes, done, index); }
  }

  lemma NotDoneConcat(probes: seq<Probe>, done: set<nat>, index: nat)
    requires probes != []
    ensures var rest, last := probes[..|probes| - 1], probes[|probes| - 1];
      NotDone(NotDone(probes, done), {index})
      == NotDone(NotDone(rest, done), {index}) + (if last.index in done || last.index == index then [] else [last])
  {
    var rest, last := probes[..|probes| - 1], probes[|probes| - 1];
    var so := NotDone(rest, done);
    if last.index !in done {
      assert (so + [last])[..|so|] == so;
    } else {
      assert NotDone(probes, done) == so;
    }
  }

  /** One more probe finishes: its slot, and one pending probe fewer. */
  lemma FillsMore(slots: Slots, probes: seq<Probe>, finished: seq<Probe>, i: nat, run: Run)
    requires Among(finished, probes) && i < |finished| && Fills(slots, probes, IndexSet(finished[..i]), run)
    ensures finished[i].index < |slots|
    ensures Fills(slots[finished[i].index := Some(run(finished[i].index))], probes, IndexSet(finished[..i + 1]), run)
  {
    assert finished[i] in finished;
    IndexSetMore(finished, i);
  }

  lemma PendingMore(probes: seq<Probe>, finished: seq<Probe>, i: nat)
    requires DistinctIndices(probes) && Among(finished, probes) && i < |finished|
    requires |NotDone(probes, IndexSet(finished[..i]))| == |probes| - i
    ensures NotDone(NotDone(probes, IndexSet(finished[..i])), {finished[i].index}) == NotDone(probes, IndexSet(finished[..i + 1]))
    ensures |NotDone(probes, IndexSet(finished[..i + 1]))| == |probes| - i - 1
  {
    assert finished[i] in finished;
    IndexSetMore(finished, i);
    NextIsNew(finished, i);
    RetainIsNotDone(probes, IndexSet(finished[..i]), finished[i].index);
    OneFewer(probes, IndexSet(finished[..i]), finished[i]);
  }

  lemma MetricsMore(finished: seq<Probe>, i: nat, run: Run)
    requires i < |finished|
    ensures DoneMetrics(finished[..i + 1], run) == DoneMetrics(finished[..i], run) + [DoneMetric(finished[i], run)]
  {
  }

  lemma NothingDone(probes: seq<Probe>, run: Run)
    ensures IndexSet([]) == {} && NotDone(probes, IndexSet([])) == probes
  {
    AllPending(probes);
  }

  /** No more probes finish than there are. */
  lemma AmongIsShort(probes: seq<Probe>, finished: seq<Probe>)
    requires DistinctIndices(probes) && Among(finished, probes)
    ensures |finished| <= |probes|
  {
    StillPending(probes, finished, |finished|);
  }

  lemma {:induction false} StillPending(probes: seq<Probe>, finished: seq<Probe>, i: nat)
    requires DistinctIndices(probes) && Among(finished, probes) && i <= |finished|
    ensures |NotDone(probes, IndexSet(finished[..i]))| == |probes| - i
  {
    if i == 0 {
      assert finished[..0] == [] && IndexSet([]) == {};
      AllPending(probes);
    } else {
      StillPending(probes, finished, i - 1);
      PendingMore(probes, finished, i - 1);
    }
  }

  /** `run_parallel`: `finished` lists the probes whose futures complete before the deadline,
      in the order of completion, which may be any. While futures are left, the next event is
      a completion or, after the last of them, the deadline. */
  method RunParallel(probes: seq<Probe>, run: Run, finished: seq<Probe>) returns (slots: Slots, metrics: seq<Metric>,
                     exceeded: bool)
    requires DistinctIndices(probes) && Among(finished, probes)
    ensures IsOutcome(probes, finished, run, slots, metrics, exceeded)
  {
    var pending := probes;
    slots := seq(ResultLength(probes), _ => None);
    metrics := [];
    NothingDone(probes, run);
    assert finished[..0] == [];
    var i := 0;
    exceeded := false;
    AmongIsShort(probes, finished);
    while i < |probes|
      invariant 0 <= i <= |finished| <= |probes| && !exceeded
      invariant Fills(slots, probes, IndexSet(finished[..i]), run)
      invariant pending == NotDone(probes, IndexSet(finished[..i])) && |pending| == |probes| - i
      invariant metrics == DoneMetrics(finished[..i], run)
    {
      if i == |finished| {
        exceeded := true;
        break;
      }
      var p := finished[i];
      FillsMore(slots, probes, finished, i, run);
      PendingMore(probes, finished, i);
      MetricsMore(finished, i, run);
      pending := NotDone(pending, {p.index});
      metrics := metrics + [DoneMetric(p, run)];
      slots := slots[p.index := Some(run(p.index))];
      i := i + 1;
    }
    assert finished[..i] == finished;
    metrics := metrics + TimeoutMetrics(pending);
  }

  lemma {:induction false} AllDone(probes: seq<Probe>, done: set<nat>)
    requires forall p :: p in probes ==> p.index in done
    ensures NotDone(probes, done) == []
  {
    if probes != [] { AllDone(probes[..|probes| - 1], done); }
  }

  lemma LastIsNew(probes: seq<Probe>, n: nat)
    requires DistinctIndices(probes) && n < |probes|
    ensures probes[|probes| - 1].index !in IndexSet(probes[..n])
  {
    forall p | p in probes[..n] ensures p.index != probes[|probes| - 1].index {
      var j :| 0 <= j < n && probes[j] == p;
    }
  }

  lemma AllInIndexSet(probes: seq<Probe>)
    ensures forall p :: p in probes ==> p.index in IndexSet(probes)
  {
  }

  lemma LastPending(probes: seq<Probe>, done: set<nat>)
    requires probes != [] && probes[|probes| - 1].index !in done
    ensures NotDone(probes, done) == NotDone(probes[..|probes| - 1], done) + [probes[|probes| - 1]]
  {
  }

  lemma NonePending(probes: seq<Probe>)
    ensures NotDone(probes, IndexSet(probes)) == []
  {
    AllInIndexSet(probes);
    AllDone(probes, IndexSet(probes));
  }

  lemma PendingAtLast(probes: seq<Probe>, n: nat)
    requires DistinctIndices(probes) && n < |probes|
    ensures var rest := probes[..|probes| - 1];
      NotDone(probes, IndexSet(probes[..n])) == NotDone(rest, IndexSet(rest[..n])) + [probes[|probes| - 1]]
  {
    assert probes[..|probes| - 1][..n] == probes[..n];
    LastIsNew(probes, n);
    LastPending(probes, IndexSet(probes[..n]));
  }

  /** What is not done after the first n is the rest. */
  lemma {:induction false} RestIsPending(probes: seq<Probe>, n: nat)
    requires DistinctIndices(probes) && n <= |probes|
    ensures NotDone(probes, IndexSet(probes[..n])) == probes[n..]
  {
    if n < |probes| {
      var rest, last := probes[..|probes| - 1], probes[|probes| - 1];
      RestIsPending(rest, n);
      PendingAtLast(probes, n);
      assert probes[n..] == rest[n..] + [last];
    } else {
      assert probes[..n] == probes && probes[n..] == [];
      NonePending(probes);
    }
  }

  lemma FirstAmong(probes: seq<Probe>, cut: nat)
    requires DistinctIndices(probes) && cut <= |probes|
    ensures Among(probes[..cut], probes)
  {
  }

  lemma TimeoutsFrom(probes: seq<Probe>, i: nat)
    requires i < |probes|
    ensures TimeoutMetrics(probes[i..]) == [TimeoutMetric(probes[i])] + TimeoutMetrics(probes[i + 1..])
  {
  }

  lemma SerialOutcome(probes: seq<Probe>, cut: nat, run: Run, slots: Slots, metrics: seq<Metric>)
    requires DistinctIndices(probes) && cut <= |probes| && Fills(slots, probes, IndexSet(probes[..cut]), run)
    requires metrics == DoneMetrics(probes[..cut], run) + TimeoutMetrics(probes[cut..])
    ensures IsOutcome(probes, probes[..cut], run, slots, metrics, cut < |probes|)
  {
    RestIsPending(probes, cut);
  }

  /** `run_serial`: the deadline passes before the probe at `cut` starts, if there is one. */
  method RunSerial(probes: seq<Probe>, run: Run, cut: nat) returns (slots: Slots, metrics: seq<Metric>, exceeded: bool)
    requires DistinctIndices(probes) && cut <= |probes|
    ensures IsOutcome(probes, probes[..cut], run, slots, metrics, exceeded)
  {
    slots := seq(ResultLength(probes), _ => None);
    metrics := [];
    exceeded := false;
    NothingDone(probes, run);
    assert probes[..0] == [];
    FirstAmong(probes, |probes|);
    assert probes[..|probes|] == probes;
    var i := 0;
    while i < |probes|
      invariant 0 <= i <= cut && !exceeded
      invariant Fills(slots, probes, IndexSet(probes[..i]), run)
      invariant metrics == DoneMetrics(probes[..i], run)
    {
      if i == cut {
        exceeded := true;
        TimeoutsFrom(probes, i);
        metrics := metrics + ([TimeoutMetric(probes[i])] + TimeoutMetrics(probes[i + 1..]));
        break;
      }
      var p := probes[i];
      FillsMore(slots, probes, probes, i, run);
      MetricsMore(probes, i, run);
      metrics := metrics + [DoneMetric(p, run)];
      slots := slots[p.index := Some(run(p.index))];
      i := i + 1;
    }
    if !exceeded {
      assert probes[i..] == [];
    }
    SerialOutcome(probes, cut, run, slots, metrics);
  }

  // ----- the report -----

  datatype Status = Failed | Complete | Partial

  datatype Options = Options(allKinds: bool, includeSources: bool, includeWarnings: bool)

  datatype Report = Report(status: Status, devices: seq<Device>, warnings: seq<ScanWarning>)

  datatype Found = Found(devices: seq<Device>, warnings: seq<ScanWarning>, consumed: seq<string>)

  /** The results in index order, flattened. */
  function Gathered(slots: Slots): Found {
    if slots == [] then Found([], [], [])
    else
      var so, last := Gathered(slots[..|slots| - 1]), slots[|slots| - 1];
      match last
      case None => so
      case Some(r) => Found(so.devices + r.devices, so.warnings + r.warnings, so.consumed + r.consumed)
  }

  /** One warning for each metric that timed out. */
  function DeadlineWarnings(metrics: seq<Metric>): (r: seq<ScanWarning>)
    ensures r == [] <==> forall m :: m in metrics ==> !m.timedOut
  {
    if metrics == [] then []
    else
      var last := metrics[|metrics| - 1];
      assert forall m :: m in metrics <==> m == last || m in metrics[..|metrics| - 1];
      DeadlineWarnings(metrics[..|metrics| - 1]) + (if last.timedOut then [ProbeDeadline(last.name)] else [])
  }

  function StatusOf(warnings: seq<ScanWarning>, devices: nat): Status {
    if devices == 0 then Failed else if warnings == [] then Complete else Partial
  }

  function WithoutSources(devices: seq<Device>): (r: seq<Device>)
    ensures |r| == |devices| && forall i :: 0 <= i < |devices| ==> r[i] == devices[i].(sources := [])
  {
    seq(|devices|, i requires 0 <= i < |devices| => devices[i].(sources := []))
  }

  function DevicesOf(found: Found, options: Options): seq<Device> {
    var devices := Deduplicated(found.devices);
    if options.allKinds then FoldPci(devices, ConsumedIds(devices, set id | id in found.consumed)) else devices
  }

  function WarningsOf(found: Found, metrics: seq<Metric>, exceeded: bool): seq<ScanWarning> {
    found.warnings + (if exceeded then DeadlineWarnings(metrics) else [])
  }

  function ReportOf(slots: Slots, metrics: seq<Metric>, exceeded: bool, options: Options): Report {
    var found := Gathered(slots);
    var devices, warnings := DevicesOf(found, options), WarningsOf(found, metrics, exceeded);
    Report(StatusOf(warnings, |devices|),
           if options.includeSources then devices else WithoutSources(devices),
           if options.includeWarnings then warnings else [])
  }

  method Gather(slots: Slots) returns (found: Found)
    ensures found == Gathered(slots)
  {
    var devices, warnings, consumed := [], [], [];
    var i := 0;
    while i < |slots|
      invariant 0 <= i <= |slots| && Found(devices, warnings, consumed) == Gathered(slots[..i])
    {
      assert slots[..i + 1][..i] == slots[..i];
      if slots[i].Some? {
        devices := devices + slots[i].value.devices;
        warnings := warnings + slots[i].value.warnings;
        consumed := consumed + slots[i].value.consumed;
      }
      i := i + 1;
    }
    assert slots[..i] == slots;
    found := Found(devices, warnings, consumed);
  }

  /** The merge in `collect_scan_report_with_runner_and_options`, after the probes have run. */
  method MergeResults(slots: Slots, metrics: seq<Metric>, exceeded: bool, options: Options) returns (report: Report)
    ensures report == ReportOf(slots, metrics, exceeded, options)
  {
    var found := Gather(slots);
    var warnings := found.warnings;
    if exceeded {
      warnings := warnings + DeadlineWarnings(metrics);
    }
    var devices := DedupDevices(found.devices);
    if options.allKinds {
      devices := FoldPciDevices(devices, set id | id in found.consumed);
    }
    var status := StatusOf(warnings, |devices|);
    if !options.includeSources {
      devices := WithoutSources(devices);
    }
    report := Report(status, devices, if options.includeWarnings then warnings else []);
  }

  // ----- parallel refines serial -----

  lemma SlotsAgree(slots: Slots, slots': Slots, probes: seq<Probe>, done: set<nat>, run: Run)
    requires Fills(slots, probes, done, run) && Fills(slots', probes, done, run)
    ensures slots == slots'
  {
  }

  /** With no deadline every probe finishes: parallel execution gives, for every order of
      completion, the indexed results of serial execution, and so the same report. */
  lemma ParallelRefinesSerial(probes: seq<Probe>, run: Run, finished: seq<Probe>, options: Options,
                              parallel: Slots, parallelMetrics: seq<Metric>, serial: Slots, serialMetrics: seq<Metric>)
    requires DistinctIndices(probes) && Among(finished, probes) && Among(probes, finished)
    requires IsOutcome(probes, finished, run, parallel, parallelMetrics, false)
    requires IsOutcome(probes, probes, run, serial, serialMetrics, false)
    ensures parallel == serial
    ensures ReportOf(parallel, parallelMetrics, false, options) == ReportOf(serial, serialMetrics, false, options)
  {
    assert IndexSet(finished) == IndexSet(probes);
    SlotsAgree(parallel, serial, probes, IndexSet(probes), run);
  }

  /** Under a deadline too, the indexed results depend only on which probes finished. */
  lemma OrderNeverMatters(probes: seq<Probe>, run: Run, finished: seq<Probe>, finished': seq<Probe>,
                          slots: Slots, metrics: seq<Metric>, exceeded: bool, slots': Slots, metrics': seq<Metric>, exceeded': bool)
    requires IsOutcome(probes, finished, run, slots, metrics, exceeded)
    requires IsOutcome(probes, finished', run, slots', metrics', exceeded')
    requires forall p :: p in finished <==> p in finished'
    ensures slots == slots' && exceeded == exceeded'
  {
    assert IndexSet(finished) == IndexSet(finished');
    SlotsAgree(slots, slots', probes, IndexSet(finished), run);
  }

  lemma TimedOutExactly(probes: seq<Probe>, finished: seq<Probe>, run: Run, slots: Slots, metrics: seq<Metric>,
                        exceeded: bool)
    requires IsOutcome(probes, finished, run, slots, metrics, exceeded)
    ensures exceeded <==> exists m :: m in metrics && m.timedOut
  {
    var pending := NotDone(probes, IndexSet(finished));
    if exceeded {
      assert metrics[|finished|] == TimeoutMetric(pending[0]);
    }
    forall m | m in metrics && m.timedOut ensures exceeded {
      var i :| 0 <= i < |metrics| && metrics[i] == m;
      if i < |finished| { assert metrics[i] == DoneMetric(finished[i], run); }
    }
  }

  /** A timed-out probe keeps the report from being complete; and a report is complete exactly
      when all probes finished without a warning and some device is left. */
  lemma StatusExactly(probes: seq<Probe>, finished: seq<Probe>, run: Run, options: Options, slots: Slots,
                      metrics: seq<Metric>, exceeded: bool)
    requires IsOutcome(probes, finished, run, slots, metrics, exceeded)
    ensures ReportOf(slots, metrics, exceeded, options).status.Complete? <==>
      !exceeded && Gathered(slots).warnings == [] && |DevicesOf(Gathered(slots), options)| > 0
    ensures var report := ReportOf(slots, metrics, exceeded, options);
      && (report.status.Failed? <==> report.devices == [])
      && (report.status.Partial? <==> report.devices != [] && (exceeded || Gathered(slots).warnings != []))
  {
    TimedOutExactly(probes, finished, run, slots, metrics, exceeded);
    var found := Gathered(slots);
    var devices := DevicesOf(found, options);
    assert ReportOf(slots, metrics, exceeded, options).status == StatusOf(WarningsOf(found, metrics, exceeded), |devices|);
  }

  lemma {:induction false} GatheredWarnings(slots: Slots, w: ScanWarning)
    ensures w in Gathered(slots).warnings <==> exists i :: 0 <= i < |slots| && slots[i].Some? && w in slots[i].value.warnings
  {
    if slots != [] {
      var n := |slots| - 1;
      GatheredWarnings(slots[..n], w);
      assert forall i :: 0 <= i < n ==> slots[..n][i] == slots[i];
    }
  }

  lemma {:induction false} DeadlineMembers(metrics: seq<Metric>, w: ScanWarning)
    ensures w in DeadlineWarnings(metrics) <==> exists m :: m in metrics && m.timedOut && w == ProbeDeadline(m.name)
  {
    if metrics != [] {
      var n := |metrics| - 1;
      DeadlineMembers(metrics[..n], w);
      assert forall m :: m in metrics <==> m == metrics[n] || m in metrics[..n];
    }
  }

  lemma TimedOutMembers(finished: seq<Probe>, run: Run, pending: seq<Probe>, name: string)
    ensures (exists m :: m in DoneMetrics(finished, run) + TimeoutMetrics(pending) && m.timedOut && m.name == name)
       <==> exists p :: p in pending && p.name == name
  {
    var metrics := DoneMetrics(finished, run) + TimeoutMetrics(pending);
    forall m | m in metrics && m.timedOut && m.name == name ensures exists p :: p in pending && p.name == name {
      var i :| 0 <= i < |metrics| && metrics[i] == m;
      assert i >= |finished|;
      assert pending[i - |finished|] in pending;
    }
    forall p | p in pending && p.name == name ensures exists m :: m in metrics && m.timedOut && m.name == name {
      var j :| 0 <= j < |pending| && pending[j] == p;
      assert metrics[|finished| + j] == TimeoutMetric(p);
    }
  }

  /** The report warns of exactly what the finished probes reported, and of each probe that did
      not finish by name; or of nothing if no warnings are wanted. */
  lemma WarningsExactly(probes: seq<Probe>, finished: seq<Probe>, run: Run, options: Options, slots: Slots,
                        metrics: seq<Metric>, exceeded: bool, w: ScanWarning)
    requires IsOutcome(probes, finished, run, slots, metrics, exceeded)
    ensures w in ReportOf(slots, metrics, exceeded, options).warnings <==>
      options.includeWarnings
      && ((exists i :: 0 <= i < |slots| && slots[i].Some? && w in slots[i].value.warnings)
          || (exists p :: p in probes && p.index !in IndexSet(finished) && w == ProbeDeadline(p.name)))
  {
    GatheredWarnings(slots, w);
    DeadlineMembers(metrics, w);
    TimedOutExactly(probes, finished, run, slots, metrics, exceeded);
    if w.ProbeDeadline? { TimedOutMembers(finished, run, NotDone(probes, IndexSet(finished)), w.probe); }
  }
}
