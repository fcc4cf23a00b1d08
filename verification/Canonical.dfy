/** `canonicalize_devices`: the identity and configuration records behind the machine bind id
    and the configuration fingerprint, and the coverage of the core identity groups. */
module Canonical {
  import opened Wrappers
  import opened Strings
  import opened Records
  import Key

  // ----- values -----

  function Normalize(value: string): Option<string> {
    var collapsed := Collapse(value);
    if collapsed == "" || Lower(collapsed) in Key.PLACEHOLDERS then None else Some(Lower(collapsed))
  }

  lemma NormalizeIdempotent(value: string)
    ensures Normalize(value).Some? ==> Normalize(Normalize(value).value) == Normalize(value)
    ensures Normalize(value).Some? ==> Lower(Normalize(value).value) == Normalize(value).value
  {
    CollapseLowered(value);
    LowerIdempotent(Collapse(value));
  }

  /** Spelling in another case or with other whitespace gives the same value, and the
      placeholders give none. */
  lemma NormalizeForgetsSpelling(value: string, other: string)
    requires Lower(Collapse(value)) == Lower(Collapse(other))
    ensures Normalize(value) == Normalize(other)
    ensures Normalize(value).None? <==> Collapse(value) == "" || Lower(Collapse(value)) in Key.PLACEHOLDERS
  {
    assert |Collapse(value)| == |Lower(Collapse(value))|;
  }

  function NormalizeField(name: string, value: string): Option<string> { Normalize(value) }

  // ----- record lists -----

  /** `normalize_records`: sort, then drop repetitions. */
  function NormalizeRecords(records: seq<string>): seq<string> { SortedSet(records) }

  /** `joined`: a list field as one value. */
  function Joined(values: seq<string>): Option<string> {
    Listed(NormalizeRecords(NormalizedAll(values)))
  }

  function Listed(records: seq<string>): Option<string> {
    if records == [] then None else Some(Join(records, ","))
  }

  function NormalizedAll(values: seq<string>): (r: seq<string>)
    ensures forall x :: x in r <==> exists v :: v in values && Normalize(v) == Some(x)
  {
    if values == [] then []
    else
      assert forall v :: v in values <==> v == values[0] || v in values[1..];
      (if Normalize(values[0]).Some? then [Normalize(values[0]).value] else []) + NormalizedAll(values[1..])
  }

  lemma JoinedIgnoresOrder(values: seq<string>, values': seq<string>)
    requires forall v :: v in values <==> v in values'
    ensures Joined(values) == Joined(values')
  {
    SortedSetExactly(NormalizedAll(values), NormalizedAll(values'));
  }

  predicate CommaFree(values: seq<string>) { forall v :: v in values ==> ',' !in v }

  ghost predicate SameValues(xs: seq<string>, ys: seq<string>) { forall x :: x in xs <==> x in ys }

  /** Lists without commas in their values are told apart: the joined texts are equal if and only
      if the sets of normalized values are. */
  lemma JoinedExactly(values: seq<string>, values': seq<string>)
    requires CommaFree(NormalizedAll(values)) && CommaFree(NormalizedAll(values'))
    ensures Joined(values) == Joined(values') <==> SameValues(NormalizedAll(values), NormalizedAll(values'))
  {
    NoneIsEmpty(values);
    NoneIsEmpty(values');
    ListedExactly(NormalizedAll(values), NormalizedAll(values'));
  }

  lemma NoneIsEmpty(values: seq<string>)
    ensures "" !in NormalizedAll(values)
  {
    forall v | Normalize(v).Some? ensures Normalize(v).value != "" {
      assert |Lower(Collapse(v))| == |Collapse(v)|;
    }
  }

  lemma ListedExactly(xs: seq<string>, ys: seq<string>)
    requires CommaFree(xs) && CommaFree(ys) && "" !in xs && "" !in ys
    ensures Listed(NormalizeRecords(xs)) == Listed(NormalizeRecords(ys)) <==> SameValues(xs, ys)
  {
    SortedSetExactly(xs, ys);
    PartsWithoutCommas(xs);
    PartsWithoutCommas(ys);
    if Listed(NormalizeRecords(xs)) == Listed(NormalizeRecords(ys)) && NormalizeRecords(xs) != [] {
      JoinInjective(NormalizeRecords(xs), NormalizeRecords(ys), ",");
    }
  }

  lemma PartsWithoutCommas(xs: seq<string>)
    requires CommaFree(xs) && "" !in xs
    ensures Parts(NormalizeRecords(xs), ",")
  {
    var sorted := NormalizeRecords(xs);
    SortedSetExactly(xs, xs);
    forall i | 0 <= i < |sorted| ensures sorted[i] != "" && Apart(sorted[i], ",") {
      assert sorted[i] in sorted && sorted[i] in xs;
      CharApart(sorted[i], ',');
    }
  }

  lemma OneRecord(x: string)
    ensures NormalizeRecords([x]) == [x]
  {
    SortedSetExactly([x], [x]);
    StrictlySortedUnique(NormalizeRecords([x]), [x]);
  }

  lemma TwoRecords(a: string, b: string)
    requires a != b && Leq(a, b)
    ensures NormalizeRecords([a, b]) == [a, b]
  {
    SortedSetExactly([a, b], [a, b]);
    StrictlySortedUnique(NormalizeRecords([a, b]), [a, b]);
  }

  lemma NormalizedOnes(a: string, b: string)
    requires Normalize(a) == Some(a) && Normalize(b) == Some(b)
    ensures NormalizedAll([a]) == [a] && NormalizedAll([a, b]) == [a, b]
  {
    assert [a, b][1..] == [b] && [b][1..] == [] && [a][1..] == [];
    assert NormalizedAll([b]) == [b];
  }

  /** The condition is needed: a list of two values, and the one value that joins them with a
      comma, give the same text, unless that is a placeholder. */
  lemma CommaCollides(a: string, b: string)
    requires Normalize(a) == Some(a) && Normalize(b) == Some(b) && Normalize(a + "," + b) == Some(a + "," + b)
    requires a != b && Leq(a, b)
    ensures Joined([a, b]) == Joined([a + "," + b]) == Some(a + "," + b)
    ensures a in NormalizedAll([a, b]) && a !in NormalizedAll([a + "," + b])
  {
    var both := a + "," + b;
    NormalizedOnes(a, b);
    NormalizedOnes(both, both);
    OneRecord(both);
    TwoRecords(a, b);
    ListedPair(a, b);
    assert |a| < |both|;
  }

  lemma ListedPair(a: string, b: string)
    ensures Listed([a, b]) == Some(a + "," + b) && Listed([a + "," + b]) == Some(a + "," + b)
  {
    assert Join([b], ",") == b && [a, b][1..] == [b];
    assert Join([a, b], ",") == a + "," + Join([b], ",");
  }

  // ----- devices -----

  /** One call of `push_record`. */
  datatype Source = Source(kind: string, fields: seq<RawField>)

  /** What `collect_device_records` pushes for one device. */
  datatype Device = Device(identity: seq<Source>, configuration: seq<Source>)

  function Fields(s: Source): seq<Field> { NormalizedFields(s.fields, NormalizeField) }

  function Text(s: Source): string { RecordText(LOWER, s.kind, Fields(s)) }

  /** A record without any field left is not pushed. */
  predicate Pushes(s: Source) { Fields(s) != [] }

  /** What one call pushes. */
  function TextOf(s: Source): Option<string> { if Pushes(s) then Some(Text(s)) else None }

  function Pushed(sources: seq<Source>): seq<string> { Present(Each(sources, TextOf)) }

  /** A record is pushed exactly if some field keeps a value after normalization. */
  lemma PushesExactly(s: Source)
    requires DistinctNames(s.fields)
    ensures Pushes(s) <==> exists name :: ValueOf(s.fields, NormalizeField, name).Some?
  {
    var kept := Kept(s.fields, NormalizeField);
    SortSorts(kept, NameOf);
    if Pushes(s) {
      var f := Fields(s)[0];
      assert f in multiset(Fields(s)) && f in kept;
      KeptIsMap(s.fields, NormalizeField, f);
    }
    forall name | ValueOf(s.fields, NormalizeField, name).Some? ensures Pushes(s) {
      KeptIsMap(s.fields, NormalizeField, (name, ValueOf(s.fields, NormalizeField, name).value));
      assert kept[0] in multiset(Fields(s));
    }
  }

  ghost predicate PushedFrom(sources: seq<Source>, x: string) {
    exists s :: s in sources && Pushes(s) && Text(s) == x
  }

  lemma PushedMembers(sources: seq<Source>, x: string)
    ensures x in Pushed(sources) <==> PushedFrom(sources, x)
  {
    EachPresent(sources, TextOf, x);
  }

  function IdentityOf(devices: seq<Device>): seq<Source> {
    if devices == [] then [] else IdentityOf(devices[..|devices| - 1]) + devices[|devices| - 1].identity
  }

  function ConfigurationOf(devices: seq<Device>): seq<Source> {
    if devices == [] then [] else ConfigurationOf(devices[..|devices| - 1]) + devices[|devices| - 1].configuration
  }

  method PushRecord(output: seq<string>, source: Source) returns (output': seq<string>)
    ensures output' == output + One(TextOf(source))
  {
    var fields := NormalizedFields(source.fields, NormalizeField);
    if fields == [] {
      return output;
    }
    output' := output + [RecordText(LOWER, source.kind, fields)];
  }

  /** The records of one device, pushed in turn; `textOf` stands for `push_record`. */
  method PushAll(output: seq<string>, sources: seq<Source>,
                 textOf: Source -> Option<string>) returns (output': seq<string>)
    ensures output' == output + Present(Each(sources, textOf))
  {
    output' := output;
    var i := 0;
    while i < |sources|
      invariant 0 <= i <= |sources|
      invariant output' == output + PresentTo(Each(sources, textOf), i)
    {
      var text := textOf(sources[i]);
      if text.Some? {
        output' := output' + [text.value];
      }
      i := i + 1;
    }
  }

  lemma PushedMore(a: seq<Source>, b: seq<Source>)
    ensures Pushed(a + b) == Pushed(a) + Pushed(b)
  {
    EachMore(a, b, TextOf);
  }

  // ----- groups -----

  datatype Group = Platform | Cpu | Memory | Storage | PhysicalNetwork | Gpu

  const REQUIRED := [Platform, Cpu, Memory, Storage, PhysicalNetwork]
  const GROUPS := [Platform, Cpu, Memory, Storage, PhysicalNetwork, Gpu]

  function GroupName(g: Group): string {
    match g
    case Platform => "platform"
    case Cpu => "cpu"
    case Memory => "memory"
    case Storage => "storage"
    case PhysicalNetwork => "physical_network"
    case Gpu => "gpu"
  }

  function GroupNamed(kind: string): Option<Group> {
    if kind == "platform" then Some(Platform)
    else if kind == "cpu" then Some(Cpu)
    else if kind == "memory" then Some(Memory)
    else if kind == "storage" then Some(Storage)
    else if kind == "physical_network" then Some(PhysicalNetwork)
    else if kind == "gpu" then Some(Gpu)
    else None
  }

  function AbsenceText(g: Group): string { "absence" + ":" + ("group=" + GroupName(g)) }

  /** The absence records of the first n groups, in the order of the set. */
  function Absences(trusted: set<Group>, n: nat): (r: seq<string>)
    requires n <= |GROUPS|
    ensures forall x :: x in r <==> exists i :: 0 <= i < n && GROUPS[i] in trusted && AbsenceText(GROUPS[i]) == x
  {
    if n == 0 then []
    else Absences(trusted, n - 1) + (if GROUPS[n - 1] in trusted then [AbsenceText(GROUPS[n - 1])] else [])
  }

  /** `split_once(':')`, the part before. */
  function KindOf(record: string): Option<string> {
    if record == "" then None
    else if record[0] == ':' then Some("")
    else
      var rest := KindOf(record[1..]);
      if rest.None? then None else Some([record[0]] + rest.value)
  }

  lemma {:induction false} KindOfRecord(kind: string, rest: string)
    requires ':' !in kind
    ensures KindOf(kind + ":" + rest) == Some(kind)
  {
    if kind != "" {
      assert (kind + ":" + rest)[1..] == kind[1..] + ":" + rest;
      KindOfRecord(kind[1..], rest);
      assert kind == [kind[0]] + kind[1..];
    }
  }

  function GroupOf(record: string): Option<Group> {
    if KindOf(record).None? then None else GroupNamed(KindOf(record).value)
  }

  function CoveredGroups(records: seq<string>): (r: set<Group>)
    ensures forall g :: g in r <==> exists x :: x in records && GroupOf(x) == Some(g)
  {
    if records == [] then {}
    else
      assert forall x :: x in records <==> x == records[0] || x in records[1..];
      (if GroupOf(records[0]).Some? then {GroupOf(records[0]).value} else {}) + CoveredGroups(records[1..])
  }

  function Missing(covered: set<Group>, trusted: set<Group>, n: nat): (r: seq<Group>)
    requires n <= |REQUIRED|
    ensures forall g :: g in r <==> (exists i :: 0 <= i < n && REQUIRED[i] == g) && g !in covered && g !in trusted
  {
    if n == 0 then []
    else Missing(covered, trusted, n - 1)
         + (if REQUIRED[n - 1] !in covered && REQUIRED[n - 1] !in trusted then [REQUIRED[n - 1]] else [])
  }

  // ----- the report -----

  datatype Report = Report(
    identity: seq<string>,
    configuration: seq<string>,
    covered: set<Group>,
    missing: seq<Group>,
    trusted: set<Group>)

  predicate CoreComplete(covered: set<Group>, trusted: set<Group>) {
    forall i :: 0 <= i < |REQUIRED| ==> REQUIRED[i] in covered || REQUIRED[i] in trusted
  }

  function ReportOf(devices: seq<Device>, trusted: set<Group>): Report {
    var identity := NormalizeRecords(Pushed(IdentityOf(devices)) + Absences(trusted, |GROUPS|));
    var covered := CoveredGroups(identity);
    Report(identity, NormalizeRecords(Pushed(ConfigurationOf(devices))), covered, Missing(covered, trusted, |REQUIRED|), trusted)
  }

  /** The loop over the devices. */
  method CollectRecords(devices: seq<Device>) returns (identity: seq<string>, configuration: seq<string>)
    ensures identity == Pushed(IdentityOf(devices)) && configuration == Pushed(ConfigurationOf(devices))
  {
    identity, configuration := [], [];
    var i := 0;
    while i < |devices|
      invariant 0 <= i <= |devices|
      invariant identity == Pushed(IdentityOf(devices[..i]))
      invariant configuration == Pushed(ConfigurationOf(devices[..i]))
    {
      assert devices[..i + 1][..i] == devices[..i];
      PushedMore(IdentityOf(devices[..i]), devices[i].identity);
      PushedMore(ConfigurationOf(devices[..i]), devices[i].configuration);
      identity := PushAll(identity, devices[i].identity, TextOf);
      configuration := PushAll(configuration, devices[i].configuration, TextOf);
      i := i + 1;
    }
    assert devices[..i] == devices;
  }

  /** The loop over the trusted absent groups. */
  method PushAbsences(output: seq<string>, trusted: set<Group>) returns (output': seq<string>)
    ensures output' == output + Absences(trusted, |GROUPS|)
  {
    output' := output;
    var i := 0;
    while i < |GROUPS|
      invariant 0 <= i <= |GROUPS|
      invariant output' == output + Absences(trusted, i)
    {
      if GROUPS[i] in trusted {
        output' := output' + [AbsenceText(GROUPS[i])];
      }
      i := i + 1;
    }
  }

  method CanonicalizeDevices(devices: seq<Device>, trusted: set<Group>) returns (report: Report)
    ensures report == ReportOf(devices, trusted)
    ensures report.missing == [] <==> CoreComplete(report.covered, trusted)
  {
    var identity, configuration := CollectRecords(devices);
    identity := PushAbsences(identity, trusted);
    identity := NormalizeRecords(identity);
    configuration := NormalizeRecords(configuration);
    var covered := CoveredGroups(identity);
    report := Report(identity, configuration, covered, Missing(covered, trusted, |REQUIRED|), trusted);
    MissingExactly(covered, trusted);
  }

  // ----- what the report means -----

  /** All groups but graphics are required. Every required group is missing, or covered or
      trusted absent, and not both; so nothing is missing exactly when the identity is
      core-complete. */
  lemma MissingExactly(covered: set<Group>, trusted: set<Group>)
    ensures forall g :: g in REQUIRED <==> !g.Gpu?
    ensures var missing := Missing(covered, trusted, |REQUIRED|);
      && (forall g :: g in REQUIRED ==> (g in missing <==> !(g in covered || g in trusted)))
      && (missing == [] <==> CoreComplete(covered, trusted))
  {
    var missing := Missing(covered, trusted, |REQUIRED|);
    forall g: Group ensures g in REQUIRED <==> !g.Gpu? {
      if !g.Gpu? { assert REQUIRED[0].Platform? && REQUIRED[1].Cpu? && REQUIRED[2].Memory? && REQUIRED[3].Storage? && REQUIRED[4].PhysicalNetwork?; }
    }
    forall g | g in REQUIRED ensures g in missing <==> !(g in covered || g in trusted) {
      var i :| 0 <= i < |REQUIRED| && REQUIRED[i] == g;
    }
    if missing == [] {
      forall i | 0 <= i < |REQUIRED| ensures REQUIRED[i] in covered || REQUIRED[i] in trusted {
        assert REQUIRED[i] in REQUIRED;
      }
    } else {
      assert missing[0] in missing;
    }
  }

  /** The kinds and names that `collect_device_records` uses. */
  ghost predicate RegularSource(s: Source) {
    PlainKind(s.kind) && s.kind != "absence" && PlainRaw(s.fields) && DistinctNames(s.fields)
  }

  ghost predicate RegularDevice(d: Device) {
    (forall s :: s in d.identity ==> RegularSource(s)) && (forall s :: s in d.configuration ==> RegularSource(s))
  }

  /** A record text determines its kind and its normalized fields, whatever their order. */
  lemma TextExactly(s: Source, s': Source)
    requires RegularSource(s) && RegularSource(s')
    ensures Text(s) == Text(s') <==> s.kind == s'.kind && SameMap(s.fields, s'.fields, NormalizeField)
  {
    NormalizedArePlain(s.fields, NormalizeField);
    NormalizedArePlain(s'.fields, NormalizeField);
    FieldsAreMap(s.fields, s'.fields, NormalizeField);
    if Text(s) == Text(s') {
      RecordInjective(LOWER, s.kind, Fields(s), s'.kind, Fields(s'));
    }
  }

  lemma {:induction false} IdentityOfDevices(devices: seq<Device>, s: Source)
    ensures s in IdentityOf(devices) <==> exists d :: d in devices && s in d.identity
    ensures s in ConfigurationOf(devices) <==> exists d :: d in devices && s in d.configuration
  {
    if devices != [] {
      var n := |devices| - 1;
      IdentityOfDevices(devices[..n], s);
      assert forall d :: d in devices <==> d == devices[n] || d in devices[..n];
    }
  }

  lemma SameSources(devices: seq<Device>, devices': seq<Device>)
    requires forall d :: d in devices <==> d in devices'
    ensures forall s :: (s in IdentityOf(devices) <==> s in IdentityOf(devices'))
                        && (s in ConfigurationOf(devices) <==> s in ConfigurationOf(devices'))
  {
    forall s ensures (s in IdentityOf(devices) <==> s in IdentityOf(devices'))
                     && (s in ConfigurationOf(devices) <==> s in ConfigurationOf(devices'))
    {
      IdentityOfDevices(devices, s);
      IdentityOfDevices(devices', s);
    }
  }

  /** Permuting or repeating devices changes nothing in the report, so neither of the two
      payloads that are hashed. */
  lemma ReportIgnoresOrder(devices: seq<Device>, devices': seq<Device>, trusted: set<Group>)
    requires forall d :: d in devices <==> d in devices'
    ensures ReportOf(devices, trusted) == ReportOf(devices', trusted)
  {
    SameSources(devices, devices');
    forall x ensures (x in Pushed(IdentityOf(devices)) <==> x in Pushed(IdentityOf(devices')))
                     && (x in Pushed(ConfigurationOf(devices)) <==> x in Pushed(ConfigurationOf(devices')))
    {
      PushedMembers(IdentityOf(devices), x);
      PushedMembers(IdentityOf(devices'), x);
      PushedMembers(ConfigurationOf(devices), x);
      PushedMembers(ConfigurationOf(devices'), x);
    }
    SortedSetExactly(Pushed(IdentityOf(devices)) + Absences(trusted, |GROUPS|),
                   Pushed(IdentityOf(devices')) + Absences(trusted, |GROUPS|));
    SortedSetExactly(Pushed(ConfigurationOf(devices)), Pushed(ConfigurationOf(devices')));
  }

  /** One of the sources makes a record of this kind with this field map. */
  ghost predicate HasRecord(sources: seq<Source>, s: Source) {
    exists own :: own in sources && Pushes(own) && own.kind == s.kind && SameMap(own.fields, s.fields, NormalizeField)
  }

  lemma AbsenceKind(g: Group)
    ensures KindOf(AbsenceText(g)) == Some("absence") && GroupNamed("absence").None?
  {
    KindOfRecord("absence", "group=" + GroupName(g));
  }

  lemma AbsenceInjective(g: Group, h: Group)
    requires AbsenceText(g) == AbsenceText(h)
    ensures g == h
  {
    var prefix := "absence" + ":" + "group=";
    assert AbsenceText(g) == prefix + GroupName(g) && AbsenceText(h) == prefix + GroupName(h);
    assert AbsenceText(g)[|prefix|..] == GroupName(g) && AbsenceText(h)[|prefix|..] == GroupName(h);
    GroupNamedOnly(GroupName(g), g);
    GroupNamedOnly(GroupName(g), h);
  }

  lemma GroupNamedOnly(kind: string, g: Group)
    ensures GroupNamed(kind) == Some(g) <==> kind == GroupName(g)
  {
  }

  lemma KindOfText(s: Source)
    requires RegularSource(s)
    ensures KindOf(Text(s)) == Some(s.kind)
  {
    KindOfRecord(s.kind, Join(FieldTexts(LOWER, Fields(s)), "|"));
  }

  ghost predicate RegularDevices(devices: seq<Device>) {
    forall d :: d in devices ==> RegularDevice(d)
  }

  ghost predicate RegularSources(sources: seq<Source>) {
    forall s :: s in sources ==> RegularSource(s)
  }

  lemma SourcesAreRegular(devices: seq<Device>)
    requires RegularDevices(devices)
    ensures RegularSources(IdentityOf(devices)) && RegularSources(ConfigurationOf(devices))
  {
    forall s | s in IdentityOf(devices) || s in ConfigurationOf(devices) ensures RegularSource(s) {
      IdentityOfDevices(devices, s);
    }
  }

  /** The records before they are sorted. */
  function RawIdentity(devices: seq<Device>, trusted: set<Group>): seq<string> {
    Pushed(IdentityOf(devices)) + Absences(trusted, |GROUPS|)
  }

  /** A record is the text of a pushed source, or an absence, and never both. */
  lemma IdentityMembers(devices: seq<Device>, trusted: set<Group>, x: string)
    requires RegularDevices(devices)
    ensures x in ReportOf(devices, trusted).identity <==> x in RawIdentity(devices, trusted)
    ensures x in RawIdentity(devices, trusted) <==> x in Pushed(IdentityOf(devices)) || x in Absences(trusted, |GROUPS|)
    ensures x in Pushed(IdentityOf(devices)) ==> KindOf(x).Some? && KindOf(x) != Some("absence")
    ensures x in Absences(trusted, |GROUPS|) ==> KindOf(x) == Some("absence") && GroupOf(x).None?
  {
    SortedSetExactly(RawIdentity(devices, trusted), RawIdentity(devices, trusted));
    PushedMembers(IdentityOf(devices), x);
    if x in Pushed(IdentityOf(devices)) {
      var s :| s in IdentityOf(devices) && Pushes(s) && Text(s) == x;
      IdentityOfDevices(devices, s);
      KindOfText(s);
    }
    if x in Absences(trusted, |GROUPS|) {
      var i :| 0 <= i < |GROUPS| && AbsenceText(GROUPS[i]) == x;
      AbsenceKind(GROUPS[i]);
    }
  }

  lemma AbsenceMembers(trusted: set<Group>, g: Group)
    ensures AbsenceText(g) in Absences(trusted, |GROUPS|) <==> g in trusted
  {
    if AbsenceText(g) in Absences(trusted, |GROUPS|) {
      var i :| 0 <= i < |GROUPS| && GROUPS[i] in trusted && AbsenceText(GROUPS[i]) == AbsenceText(g);
      AbsenceInjective(GROUPS[i], g);
    }
    if g in trusted {
      assert g in GROUPS;
      var i :| 0 <= i < |GROUPS| && GROUPS[i] == g;
    }
  }

  lemma TextMembers(sources: seq<Source>, s: Source)
    requires RegularSources(sources) && RegularSource(s) && Pushes(s)
    ensures Text(s) in Pushed(sources) <==> HasRecord(sources, s)
  {
    PushedMembers(sources, Text(s));
    if Text(s) in Pushed(sources) {
      var own :| own in sources && Pushes(own) && Text(own) == Text(s);
      TextExactly(own, s);
    }
    if HasRecord(sources, s) {
      var own :| own in sources && Pushes(own) && own.kind == s.kind && SameMap(own.fields, s.fields, NormalizeField);
      TextExactly(own, s);
    }
  }

  ghost predicate SameRecords(sources: seq<Source>, sources': seq<Source>) {
    forall s :: RegularSource(s) && Pushes(s) ==> (HasRecord(sources, s) <==> HasRecord(sources', s))
  }

  lemma SameRecordsPushed(sources: seq<Source>, sources': seq<Source>, x: string)
    requires RegularSources(sources) && RegularSources(sources') && SameRecords(sources, sources') && x in Pushed(sources)
    ensures x in Pushed(sources')
  {
    PushedMembers(sources, x);
    var s :| s in sources && Pushes(s) && Text(s) == x;
    TextMembers(sources, s);
    TextMembers(sources', s);
  }

  /** The same texts are pushed if and only if the records are the same. */
  lemma PushedExactly(sources: seq<Source>, sources': seq<Source>)
    requires RegularSources(sources) && RegularSources(sources')
    ensures SameRecords(sources, sources') <==> forall x :: x in Pushed(sources) <==> x in Pushed(sources')
  {
    if SameRecords(sources, sources') {
      forall x ensures x in Pushed(sources) <==> x in Pushed(sources') {
        if x in Pushed(sources) { SameRecordsPushed(sources, sources', x); }
        if x in Pushed(sources') { SameRecordsPushed(sources', sources, x); }
      }
    }
    if forall x :: x in Pushed(sources) <==> x in Pushed(sources') {
      forall s | RegularSource(s) && Pushes(s) ensures HasRecord(sources, s) <==> HasRecord(sources', s) {
        TextMembers(sources, s);
        TextMembers(sources', s);
      }
    }
  }

  /** The list that the machine bind id is computed from is the same for two scans if and only
      if they have the same records, each a kind with a field map, and trust the same groups
      to be absent. */
  lemma IdentityExactly(devices: seq<Device>, trusted: set<Group>, devices': seq<Device>, trusted': set<Group>)
    requires RegularDevices(devices) && RegularDevices(devices')
    ensures ReportOf(devices, trusted).identity == ReportOf(devices', trusted').identity
       <==> trusted == trusted' && SameRecords(IdentityOf(devices), IdentityOf(devices'))
  {
    SourcesAreRegular(devices);
    SourcesAreRegular(devices');
    PushedExactly(IdentityOf(devices), IdentityOf(devices'));
    if ReportOf(devices, trusted).identity == ReportOf(devices', trusted').identity {
      SameListSameMeaning(devices, trusted, devices', trusted');
    }
    if trusted == trusted' && SameRecords(IdentityOf(devices), IdentityOf(devices')) {
      SortedSetExactly(RawIdentity(devices, trusted), RawIdentity(devices', trusted));
    }
  }

  lemma SameListSameMeaning(devices: seq<Device>, trusted: set<Group>, devices': seq<Device>, trusted': set<Group>)
    requires RegularDevices(devices) && RegularDevices(devices')
    requires ReportOf(devices, trusted).identity == ReportOf(devices', trusted').identity
    ensures trusted == trusted' && forall x :: x in Pushed(IdentityOf(devices)) <==> x in Pushed(IdentityOf(devices'))
  {
    forall g ensures g in trusted <==> g in trusted' {
      AbsenceMembers(trusted, g);
      AbsenceMembers(trusted', g);
      AbsenceKind(g);
      IdentityMembers(devices, trusted, AbsenceText(g));
      IdentityMembers(devices', trusted', AbsenceText(g));
    }
    forall x ensures x in Pushed(IdentityOf(devices)) <==> x in Pushed(IdentityOf(devices')) {
      IdentityMembers(devices, trusted, x);
      IdentityMembers(devices', trusted', x);
    }
  }

  /** The configuration list is the same if and only if the configuration records are. */
  lemma ConfigurationExactly(devices: seq<Device>, trusted: set<Group>, devices': seq<Device>, trusted': set<Group>)
    requires RegularDevices(devices) && RegularDevices(devices')
    ensures ReportOf(devices, trusted).configuration == ReportOf(devices', trusted').configuration
       <==> SameRecords(ConfigurationOf(devices), ConfigurationOf(devices'))
  {
    SourcesAreRegular(devices);
    SourcesAreRegular(devices');
    PushedExactly(ConfigurationOf(devices), ConfigurationOf(devices'));
    SortedSetExactly(Pushed(ConfigurationOf(devices)), Pushed(ConfigurationOf(devices')));
  }

  /** What the configuration fingerprint is computed from; the version is a constant. */
  datatype Payload = Payload(configuration: seq<string>, version: nat, identity: seq<string>)

  const FINGERPRINT_VERSION: nat := 2

  function PayloadOf(report: Report): Payload {
    Payload(report.configuration, FINGERPRINT_VERSION, report.identity)
  }

  /** The payload behind the fingerprint is the same for two scans if and only if they have the
      same configuration records and the same identity records and trust the same groups to be
      absent. So a driver or firmware change, and nothing else, changes the fingerprint of a
      machine whose bind id stays. */
  lemma PayloadExactly(devices: seq<Device>, trusted: set<Group>, devices': seq<Device>, trusted': set<Group>)
    requires RegularDevices(devices) && RegularDevices(devices')
    ensures PayloadOf(ReportOf(devices, trusted)) == PayloadOf(ReportOf(devices', trusted'))
       <==> trusted == trusted' && SameRecords(IdentityOf(devices), IdentityOf(devices'))
            && SameRecords(ConfigurationOf(devices), ConfigurationOf(devices'))
  {
    IdentityExactly(devices, trusted, devices', trusted');
    ConfigurationExactly(devices, trusted, devices', trusted');
  }

  /** A group is covered exactly when some device has an identity record of its kind with at
      least one field left after normalization; an absence record covers nothing. */
  lemma CoveredExactly(devices: seq<Device>, trusted: set<Group>, g: Group)
    requires RegularDevices(devices)
    ensures g in ReportOf(devices, trusted).covered <==>
      exists s :: s in IdentityOf(devices) && Pushes(s) && s.kind == GroupName(g)
  {
    var identity := ReportOf(devices, trusted).identity;
    if g in ReportOf(devices, trusted).covered {
      var x :| x in identity && GroupOf(x) == Some(g);
      IdentityMembers(devices, trusted, x);
      PushedMembers(IdentityOf(devices), x);
      var s :| s in IdentityOf(devices) && Pushes(s) && Text(s) == x;
      IdentityOfDevices(devices, s);
      KindOfText(s);
      GroupNamedOnly(s.kind, g);
    }
    forall s | s in IdentityOf(devices) && Pushes(s) && s.kind == GroupName(g) ensures g in ReportOf(devices, trusted).covered {
      IdentityOfDevices(devices, s);
      KindOfText(s);
      GroupNamedOnly(s.kind, g);
      PushedMembers(IdentityOf(devices), Text(s));
      IdentityMembers(devices, trusted, Text(s));
    }
  }
}
