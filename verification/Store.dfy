/** The snapshot database and the report directory as one value, and one function
    for each transaction or single statement that the store runs on them. */
module Store {
  import opened Wrappers

  /** Text that the store only ever compares for equality: digests, versions, names. */
  type Token = int

  /** A UUIDv7. Only its identity matters, and new ones are fresh. */
  type Uuid = nat

  type Bytes = seq<int>

  /** A stored timestamp. SQL compares the text, so `rank` is the place of the text in
      the text order (any countable total order embeds in the reals); `instant` is what
      parsing the text gives. Nothing links the two. */
  datatype Timestamp = Timestamp(rank: real, instant: Option<real>)

  /** A name inside the `reports` directory, by what orphan recovery makes of it. */
  datatype FileName =
    | ReportJson(id: Uuid)
    | ReportTemp(id: Uuid, pid: nat)
    | StrayJson(name: Token)
    | StrayTemp(name: Token)
    | OtherFile(name: Token)
  {
    predicate IsTemp() { ReportTemp? || StrayTemp? }

    predicate IsJson() { ReportJson? || StrayJson? }
  }

  datatype Artifact = Artifact(file: FileName, sha256: Token, size: nat, schema: Token)

  /** A `hardware_snapshot` row with the artifact and lifecycle rows that are inserted
      with it and cascade with it. */
  datatype SnapshotRow = SnapshotRow(
    created: Timestamp,
    machine: Token,
    fingerprint: Token,
    complete: bool,
    artifact: Artifact,
    pinned: bool,
    uploaded: bool)

  datatype LeaseRow = LeaseRow(owner: Uuid, expires: real)

  datatype StateRow = StateRow(
    current: Option<Uuid>,
    machine: Option<Token>,
    fingerprint: Option<Token>,
    version: Option<nat>)

  datatype ProbeKind = Quick | Full

  datatype ProbeStatus = Running | Succeeded | Partial | Failed

  datatype ProbeRow = ProbeRow(
    kind: ProbeKind,
    started: real,
    status: ProbeStatus,
    snapshot: Option<Uuid>,
    previous: Option<Uuid>)

  datatype QueueRow = QueueRow(sha256: Token, attempts: nat)

  /** One committed publication: the snapshot row as inserted and the identity that the
      state row took from it. */
  datatype Entry = Entry(id: Uuid, row: SnapshotRow, probe: QuickReport)

  /** `history` is a history variable, not a table: the publications in commit order. */
  datatype Db = Db(
    lease: Option<LeaseRow>,
    state: StateRow,
    snapshots: map<Uuid, SnapshotRow>,
    probes: map<nat, ProbeRow>,
    queue: map<FileName, QueueRow>,
    files: map<FileName, Bytes>,
    history: seq<Entry>)

  const EMPTY_DB := Db(None, StateRow(None, None, None, None), map[], map[], map[], map[], [])

  /** The digest, and the schema version found by parsing a report (None: unparsable). */
  datatype Codec = Codec(sha: Bytes -> Token, schemaOf: Bytes -> Option<Token>)

  datatype QuickReport = QuickReport(machine: Token, fingerprint: Token, version: nat, coreComplete: bool)

  /** What `publish_sync` hands to the transaction. `canonical` fills the snapshot row,
      `stateProbe` the state row. */
  datatype Publication = Publication(
    id: Uuid,
    pid: nat,
    created: Timestamp,
    bytes: Bytes,
    schema: Token,
    complete: bool,
    canonical: QuickReport,
    stateProbe: QuickReport)

  // ----- scan lease -----

  function TryAcquire(db: Db, owner: Uuid, now: real, expires: real): (r: (Db, bool)) {
    if db.lease.None? || db.lease.value.expires <= now
    then (db.(lease := Some(LeaseRow(owner, expires))), true)
    else (db, false)
  }

  function Renew(db: Db, owner: Uuid, now: real, expires: real): (r: (Db, bool)) {
    if db.lease.Some? && db.lease.value.owner == owner && db.lease.value.expires > now
    then (db.(lease := Some(LeaseRow(owner, expires))), true)
    else (db, false)
  }

  function Release(db: Db, owner: Uuid): Db {
    if Owns(db, owner) then db.(lease := None) else db
  }

  function ActiveLease(db: Db, now: real): Option<LeaseRow> {
    if db.lease.Some? && db.lease.value.expires > now then db.lease else None
  }

  predicate Owns(db: Db, owner: Uuid) {
    db.lease.Some? && db.lease.value.owner == owner
  }

  // ----- probe history -----

  predicate Present(db: Db, id: Option<Uuid>) {
    id.Some? ==> id.value in db.snapshots
  }

  /** None: the foreign key on `previous_snapshot_id` rejects the row. */
  function StartProbe(db: Db, row: nat, kind: ProbeKind, started: real, previous: Option<Uuid>): Option<Db> {
    if Present(db, previous)
    then Some(db.(probes := db.probes[row := ProbeRow(kind, started, Running, None, previous)]))
    else None
  }

  /** None: the foreign key on `snapshot_id` rejects the update. */
  function FinishProbe(db: Db, row: nat, status: ProbeStatus, snapshot: Option<Uuid>): Option<Db> {
    if row !in db.probes then Some(db)
    else if Present(db, snapshot)
    then Some(db.(probes := db.probes[row := db.probes[row].(status := status, snapshot := snapshot)]))
    else None
  }

  /** Runs at open: drops an expired lease and, if none survives, fails old running rows. */
  function RecoverStale(db: Db, now: real, cutoff: real): Db {
    var lease := if db.lease.Some? && db.lease.value.expires <= now then None else db.lease;
    var probes := if lease.Some? then db.probes else FailOld(db.probes, cutoff);
    db.(lease := lease, probes := probes)
  }

  function FailOld(probes: map<nat, ProbeRow>, cutoff: real): map<nat, ProbeRow> {
    map r | r in probes ::
      if probes[r].status.Running? && probes[r].started < cutoff
      then probes[r].(status := Failed) else probes[r]
  }

  // ----- publication -----

  function ArtifactOf(codec: Codec, pub: Publication): Artifact {
    Artifact(ReportJson(pub.id), codec.sha(pub.bytes), |pub.bytes|, pub.schema)
  }

  function SnapshotOf(codec: Codec, pub: Publication): SnapshotRow {
    SnapshotRow(pub.created, pub.canonical.machine, pub.canonical.fingerprint, pub.complete,
                ArtifactOf(codec, pub), false, false)
  }

  /** The publication transaction after the lease check passed. */
  function Published(codec: Codec, db: Db, pub: Publication, row: Option<nat>): Db {
    db.(snapshots := db.snapshots[pub.id := SnapshotOf(codec, pub)],
        state := StateOf(pub.id, pub.stateProbe),
        probes := ClosedByPublish(db.probes, pub, row),
        history := db.history + [Entry(pub.id, SnapshotOf(codec, pub), pub.stateProbe)])
  }

  function StateOf(id: Uuid, probe: QuickReport): StateRow {
    StateRow(Some(id), Some(probe.machine), Some(probe.fingerprint), Some(probe.version))
  }

  function ClosedByPublish(probes: map<nat, ProbeRow>, pub: Publication, row: Option<nat>): map<nat, ProbeRow> {
    if row.Some? && row.value in probes && probes[row.value].status.Running?
    then probes[row.value := probes[row.value].(status := if pub.complete then Succeeded else Partial,
                                                snapshot := Some(pub.id))]
    else probes
  }

  datatype PublishResult = Committed(db: Db) | StaleLease | ConstraintFailed

  /** The fenced transaction: nothing is written unless the owner still holds the lease
      and the primary key is free. */
  function PublishTransaction(codec: Codec, db: Db, pub: Publication, row: Option<nat>, owner: Uuid,
                              now: real): PublishResult {
    if !(Owns(db, owner) && db.lease.value.expires > now) then StaleLease
    else if pub.id in db.snapshots then ConstraintFailed
    else Committed(Published(codec, db, pub, row))
  }

  // ----- report files -----

  function WriteFile(db: Db, name: FileName, bytes: Bytes): Db {
    db.(files := db.files[name := bytes])
  }

  function RemoveFile(db: Db, name: FileName): Db {
    db.(files := db.files - {name})
  }

  function RenameReport(db: Db, pub: Publication): Db {
    db.(files := (db.files - {ReportTemp(pub.id, pub.pid)})[ReportJson(pub.id) := pub.bytes])
  }

  /** `read_report` succeeds. */
  predicate Verifies(codec: Codec, files: map<FileName, Bytes>, meta: Artifact) {
    meta.file in files && |files[meta.file]| == meta.size && codec.sha(files[meta.file]) == meta.sha256
    && codec.schemaOf(files[meta.file]) == Some(meta.schema)
  }

  predicate Removable(name: FileName, known: set<FileName>) {
    name.IsTemp() || (name.IsJson() && name !in known)
  }

  function KnownPaths(db: Db): set<FileName> {
    set id | id in db.snapshots :: db.snapshots[id].artifact.file
  }

  // ----- retention -----

  function WithoutSnapshot(r: ProbeRow, gone: set<Uuid>): ProbeRow {
    r.(snapshot := if r.snapshot.Some? && r.snapshot.value in gone then None else r.snapshot,
       previous := if r.previous.Some? && r.previous.value in gone then None else r.previous)
  }

  /** One row of retention's candidate query. */
  datatype Candidate = Candidate(
    id: Uuid,
    machine: Token,
    created: Timestamp,
    pinned: bool,
    uploaded: bool,
    artifact: Artifact)

  function Ids(candidates: seq<Candidate>): set<Uuid> {
    set c | c in candidates :: c.id
  }

  function Files(candidates: seq<Candidate>): set<FileName> {
    set c | c in candidates :: c.artifact.file
  }

  /** The delete transaction. None: the foreign key from `inventory_state` to its
      current snapshot aborts it, and everything is rolled back. */
  function DeleteSnapshots(db: Db, gone: seq<Candidate>): Option<Db> {
    if db.state.current.Some? && db.state.current.value in Ids(gone) * db.snapshots.Keys then None
    else Some(db.(snapshots := db.snapshots - Ids(gone),
                  probes := map r | r in db.probes :: WithoutSnapshot(db.probes[r], Ids(gone)),
                  queue := Enqueue(db.queue, gone)))
  }

  /** `INSERT OR REPLACE` for each candidate in turn. */
  function Enqueue(queue: map<FileName, QueueRow>, gone: seq<Candidate>): (r: map<FileName, QueueRow>)
    ensures r.Keys == queue.Keys + Files(gone)
  {
    if gone == [] then queue
    else
      var last := gone[|gone| - 1];
      assert gone == gone[..|gone| - 1] + [last];
      Enqueue(queue, gone[..|gone| - 1])[last.artifact.file := QueueRow(last.artifact.sha256, 0)]
  }

  function Dequeue(db: Db, name: FileName): Db {
    db.(queue := db.queue - {name})
  }

  function RecordDeleteFailure(db: Db, name: FileName): Db {
    if name in db.queue
    then db.(queue := db.queue[name := db.queue[name].(attempts := db.queue[name].attempts + 1)])
    else db
  }

  function SetPinned(db: Db, id: Uuid, pinned: bool): Option<Db> {
    if id in db.snapshots
    then Some(db.(snapshots := db.snapshots[id := db.snapshots[id].(pinned := pinned)]))
    else None
  }

  function MarkUploaded(db: Db, id: Uuid): Option<Db> {
    if id in db.snapshots
    then Some(db.(snapshots := db.snapshots[id := db.snapshots[id].(uploaded := true)]))
    else None
  }
}
