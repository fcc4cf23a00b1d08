/** `InventoryStore`: the tables and the report directory as fields, and the store's methods
    as they update them. `View` joins the tables into the database value of `Store`, and
    every method is proved against the function of `Store` that the runs of `System` use. */
module InventoryStore {
  import opened Wrappers
  import opened Store
  import opened Retention
  import opened RetentionChoice

  /** The immutable columns of `hardware_snapshot`. */
  datatype HardwareRow = HardwareRow(created: Timestamp, machine: Token, fingerprint: Token, complete: bool)

  datatype LifecycleRow = LifecycleRow(pinned: bool, uploaded: bool)

  datatype Error = LeaseLost | Constraint | InvalidReport | Io | NotFound

  /** Which file operations of a publication fail; `renamed` says whether a failing rename
      had taken effect (the directory sync after it may be what failed). */
  datatype Faults = Faults(create: bool, rename: bool, renamed: bool, cleanup: bool, commit: bool)

  /** One row of the join of the three snapshot tables. */
  function Join(h: HardwareRow, a: Artifact, l: LifecycleRow): SnapshotRow {
    SnapshotRow(h.created, h.machine, h.fingerprint, h.complete, a, l.pinned, l.uploaded)
  }

  ghost predicate SameKeys(hardware: map<Uuid, HardwareRow>, artifacts: map<Uuid, Artifact>,
                           lifecycles: map<Uuid, LifecycleRow>) {
    artifacts.Keys == hardware.Keys && lifecycles.Keys == hardware.Keys
  }

  /** The join of the three snapshot tables. */
  ghost function Joined(hardware: map<Uuid, HardwareRow>, artifacts: map<Uuid, Artifact>,
                        lifecycles: map<Uuid, LifecycleRow>)
    : map<Uuid, SnapshotRow>
    requires SameKeys(hardware, artifacts, lifecycles)
  {
    map id | id in hardware :: Join(hardware[id], artifacts[id], lifecycles[id])
  }

  lemma JoinedInsert(hardware: map<Uuid, HardwareRow>, artifacts: map<Uuid, Artifact>,
                     lifecycles: map<Uuid, LifecycleRow>,
                     id: Uuid, h: HardwareRow, a: Artifact, l: LifecycleRow)
    requires SameKeys(hardware, artifacts, lifecycles)
    ensures SameKeys(hardware[id := h], artifacts[id := a], lifecycles[id := l])
    ensures Joined(hardware[id := h], artifacts[id := a], lifecycles[id := l])
         == Joined(hardware, artifacts, lifecycles)[id := Join(h, a, l)]
  {
  }

  /** Deleting a snapshot cascades to its dependent rows. */
  lemma JoinedDelete(hardware: map<Uuid, HardwareRow>, artifacts: map<Uuid, Artifact>,
                     lifecycles: map<Uuid, LifecycleRow>, id: Uuid)
    requires SameKeys(hardware, artifacts, lifecycles)
    ensures SameKeys(hardware - {id}, artifacts - {id}, lifecycles - {id})
    ensures Joined(hardware - {id}, artifacts - {id}, lifecycles - {id}) == Joined(hardware, artifacts, lifecycles) - {id}
  {
  }

  lemma KnownAreJoined(hardware: map<Uuid, HardwareRow>, artifacts: map<Uuid, Artifact>,
                       lifecycles: map<Uuid, LifecycleRow>)
    requires SameKeys(hardware, artifacts, lifecycles)
    ensures var rows := Joined(hardware, artifacts, lifecycles);
      (set id | id in artifacts :: artifacts[id].file) == (set id | id in rows :: rows[id].artifact.file)
  {
    var rows := Joined(hardware, artifacts, lifecycles);
    assert forall id :: id in rows ==> id in artifacts && rows[id].artifact == artifacts[id];
    assert forall id :: id in artifacts ==> id in rows;
  }

  /** The removals of a drain that succeed, one by one, in the order of the query. */
  function Drained(db: Db, paths: seq<FileName>, removable: set<FileName>): Db {
    if paths == [] then db
    else DrainedOne(Drained(db, paths[..|paths| - 1], removable), paths[|paths| - 1], removable)
  }

  function DrainedOne(db: Db, path: FileName, removable: set<FileName>): Db {
    if path in removable then Dequeue(RemoveFile(db, path), path) else RecordDeleteFailure(db, path)
  }

  /** What a drain leaves: exactly the paths whose removal failed stay queued, with one more
      attempt on record, and exactly the files of the others are gone. */
  ghost predicate IsDrained(db: Db, paths: seq<FileName>, removable: set<FileName>, db': Db) {
    && db' == db.(queue := db'.queue, files := db'.files)
    && (forall n :: n in db'.files <==> n in db.files && !(n in paths && n in removable))
    && (forall n :: n in db'.files ==> db'.files[n] == db.files[n])
    && (forall n :: n in db'.queue <==> n in db.queue && !(n in paths && n in removable))
    && (forall n :: n in db'.queue ==>
          db'.queue[n] == if n in paths then db.queue[n].(attempts := db.queue[n].attempts + 1) else db.queue[n])
  }

  lemma DrainedPrefix(db: Db, paths: seq<FileName>, i: nat, removable: set<FileName>)
    requires i < |paths|
    ensures Drained(db, paths[..i + 1], removable) == DrainedOne(Drained(db, paths[..i], removable), paths[i], removable)
  {
    assert paths[..i + 1][..i] == paths[..i];
  }

  lemma DrainedOneIs(db: Db, paths: seq<FileName>, removable: set<FileName>, mid: Db, last: FileName)
    requires IsDrained(db, paths, removable, mid) && last !in paths
    ensures IsDrained(db, paths + [last], removable, DrainedOne(mid, last, removable))
  {
  }

  /** The outcome of a drain, in whatever order the query lists the paths. */
  lemma {:induction false} DrainedIs(db: Db, paths: seq<FileName>, removable: set<FileName>)
    requires forall i, j :: 0 <= i < j < |paths| ==> paths[i] != paths[j]
    ensures IsDrained(db, paths, removable, Drained(db, paths, removable))
  {
    if paths != [] {
      var rest, last := paths[..|paths| - 1], paths[|paths| - 1];
      DrainedIs(db, rest, removable);
      DrainedOneIs(db, rest, removable, Drained(db, rest, removable), last);
      assert paths == rest + [last];
    }
  }

  /** How many of the first n paths can be removed. */
  function CountRemovable(paths: seq<FileName>, n: nat, removable: set<FileName>): nat
    requires n <= |paths|
  {
    if n == 0 then 0 else CountRemovable(paths, n - 1, removable) + (if paths[n - 1] in removable then 1 else 0)
  }

  /** Counting along a listing is counting the set. */
  lemma {:induction false} ListingCounts(paths: seq<FileName>, n: nat, removable: set<FileName>, seen: set<FileName>)
    requires n <= |paths| && forall i, j :: 0 <= i < j < |paths| ==> paths[i] != paths[j]
    requires forall x :: x in seen <==> x in paths[..n]
    ensures CountRemovable(paths, n, removable) == |seen * removable| && n == |seen|
  {
    if n == 0 {
      assert seen == {} && seen * removable == {};
    } else {
      var last, rest := paths[n - 1], seen - {paths[n - 1]};
      assert last in paths[..n] && last !in paths[..n - 1];
      assert forall x :: x in paths[..n] <==> x == last || x in paths[..n - 1];
      ListingCounts(paths, n - 1, removable, rest);
      assert seen == rest + {last};
      if last in removable {
        assert seen * removable == (rest * removable) + {last};
      } else {
        assert seen * removable == rest * removable;
      }
    }
  }

  lemma QueueCounts(paths: seq<FileName>, removable: set<FileName>, before: set<FileName>, after: set<FileName>)
    requires forall i, j :: 0 <= i < j < |paths| ==> paths[i] != paths[j]
    requires forall x :: x in before <==> x in paths
    requires forall x :: x in after <==> x in before && x !in removable
    ensures CountRemovable(paths, |paths|, removable) == |before * removable|
    ensures |paths| - CountRemovable(paths, |paths|, removable) == |after|
  {
    assert paths[..|paths|] == paths;
    ListingCounts(paths, |paths|, removable, before);
    assert before == (before * removable) + after && (before * removable) !! after;
  }

  // ----- the delete transaction, one candidate at a time -----

  function DeleteOne(db: Db, c: Candidate): Db {
    db.(snapshots := db.snapshots - {c.id},
        probes := map r | r in db.probes :: WithoutSnapshot(db.probes[r], {c.id}),
        queue := db.queue[c.artifact.file := QueueRow(c.artifact.sha256, 0)])
  }

  lemma DeleteOneMore(db: Db, gone: seq<Candidate>, c: Candidate)
    requires DeleteSnapshots(db, gone + [c]).Some?
    ensures DeleteSnapshots(db, gone).Some?
    ensures DeleteSnapshots(db, gone + [c]).value == DeleteOne(DeleteSnapshots(db, gone).value, c)
  {
    IdsOfMore(gone, c);
    var once, twice := DeleteSnapshots(db, gone + [c]).value, DeleteOne(DeleteSnapshots(db, gone).value, c);
    assert once.snapshots == twice.snapshots;
    ProbesOfMore(db.probes, Ids(gone), c.id);
    assert once.probes == twice.probes;
    assert once.queue == twice.queue by { assert (gone + [c])[..|gone|] == gone; }
  }

  lemma ProbesOfMore(probes: map<nat, ProbeRow>, gone: set<Uuid>, id: Uuid)
    ensures forall r :: r in probes ==>
      WithoutSnapshot(WithoutSnapshot(probes[r], gone), {id}) == WithoutSnapshot(probes[r], gone + {id})
  {
  }

  lemma IdsOfMore(gone: seq<Candidate>, c: Candidate)
    ensures Ids(gone + [c]) == Ids(gone) + {c.id}
  {
    assert forall x :: x in gone + [c] <==> x in gone || x == c;
  }

  /** What a sweep that has looked at the first i entries leaves. */
  ghost predicate SweptTo(files: map<FileName, Bytes>, before: map<FileName, Bytes>, entries: seq<FileName>, i: nat,
                          known: set<FileName>)
    requires i <= |entries|
  {
    && (forall n :: n in files <==> n in before && !(n in entries[..i] && Removable(n, known)))
    && (forall n :: n in files ==> files[n] == before[n])
  }

  lemma SweptMore(files: map<FileName, Bytes>, before: map<FileName, Bytes>, entries: seq<FileName>, i: nat, known: set<FileName>)
    requires i < |entries| && SweptTo(files, before, entries, i, known)
    ensures SweptTo(if Removable(entries[i], known) then files - {entries[i]} else files, before, entries, i + 1, known)
  {
    assert entries[..i + 1] == entries[..i] + [entries[i]];
  }

  lemma NotYetSwept(files: map<FileName, Bytes>, before: map<FileName, Bytes>, entries: seq<FileName>, i: nat, known: set<FileName>)
    requires i < |entries| && SweptTo(files, before, entries, i, known) && entries[i] in before
    requires forall a, b :: 0 <= a < b < |entries| ==> entries[a] != entries[b]
    ensures entries[i] in files
  {
    assert entries[i] !in entries[..i];
  }

  lemma OneFewer(files: map<FileName, Bytes>, name: FileName)
    requires name in files
    ensures |files - {name}| == |files| - 1
  {
    assert (files - {name}).Keys == files.Keys - {name};
  }

  lemma NothingDeleted(db: Db)
    ensures DeleteSnapshots(db, []) == Some(db)
  {
    assert DeleteSnapshots(db, []).value.snapshots == db.snapshots;
    assert DeleteSnapshots(db, []).value.probes == db.probes;
  }

  lemma SomeOfFewer(db: Db, gone: seq<Candidate>, n: nat)
    requires n <= |gone| && DeleteSnapshots(db, gone).Some?
    ensures DeleteSnapshots(db, gone[..n]).Some?
  {
    assert forall c :: c in gone[..n] ==> c in gone;
  }

  /** Exactly the chosen snapshots are gone, and only references to them are cleared. */
  ghost predicate Retained(db: Db, keep: nat, cutoff: real, db': Db) {
    && db'.lease == db.lease && db'.state == db.state && db'.history == db.history
    && (forall id :: id in db'.snapshots <==> id in db.snapshots && !MayGo(db, db.state.current, keep, cutoff, id))
    && (forall id :: id in db'.snapshots ==> db'.snapshots[id] == db.snapshots[id])
    && (forall r :: r in db'.probes <==> r in db.probes)
    && (forall r :: r in db'.probes ==> db'.probes[r] == WithoutSnapshot(db.probes[r], db.snapshots.Keys - db'.snapshots.Keys))
  }

  ghost predicate Goes(db: Db, keep: nat, cutoff: real, n: FileName) {
    n in db.queue || exists id :: MayGo(db, db.state.current, keep, cutoff, id) && db.snapshots[id].artifact.file == n
  }

  ghost predicate Swept(db: Db, keep: nat, cutoff: real, removable: set<FileName>, db': Db) {
    && (forall n :: n in db'.queue <==> n !in removable && Goes(db, keep, cutoff, n))
    && (forall n :: n in db'.files <==> n in db.files && !(n in removable && Goes(db, keep, cutoff, n)))
    && (forall n :: n in db'.files ==> db'.files[n] == db.files[n])
  }

  /** What one drain of the whole queue does. */
  ghost predicate Emptied(db: Db, removable: set<FileName>, db': Db) {
    && db' == db.(queue := db'.queue, files := db'.files)
    && (forall n :: n in db'.queue <==> n in db.queue && n !in removable)
    && (forall n :: n in db'.queue ==> db'.queue[n] == db.queue[n].(attempts := db.queue[n].attempts + 1))
    && (forall n :: n in db'.files <==> n in db.files && !(n in db.queue && n in removable))
    && (forall n :: n in db'.files ==> db'.files[n] == db.files[n])
  }

  ghost predicate Chosen(db: Db, gone: seq<Candidate>, keep: nat, cutoff: real) {
    && (forall id :: id in Ids(gone) <==> MayGo(db, db.state.current, keep, cutoff, id))
    && (forall c :: c in gone ==> c.id in db.snapshots && c == CandidateOf(db, c.id))
  }

  lemma FilesOfChosen(db: Db, gone: seq<Candidate>, keep: nat, cutoff: real)
    requires Chosen(db, gone, keep, cutoff)
    ensures forall n :: n in db.queue || n in Files(gone) <==> Goes(db, keep, cutoff, n)
  {
    forall n | n in Files(gone) ensures Goes(db, keep, cutoff, n) {
      var c :| c in gone && c.artifact.file == n;
      assert c.id in Ids(gone);
    }
    forall n | Goes(db, keep, cutoff, n) && n !in db.queue ensures n in Files(gone) {
      var id :| MayGo(db, db.state.current, keep, cutoff, id) && db.snapshots[id].artifact.file == n;
      var c :| c in gone && c.id == id;
    }
  }

  lemma ChosenAreDeletable(db: Db, mid: Db, gone: seq<Candidate>, keep: nat, cutoff: real)
    requires Chosen(db, gone, keep, cutoff) && mid.state == db.state
    ensures DeleteSnapshots(mid, gone).Some?
  {
  }

  lemma DeletedAreRetained(db: Db, mid: Db, gone: seq<Candidate>, keep: nat, cutoff: real, db': Db)
    requires Chosen(db, gone, keep, cutoff)
    requires mid == db.(queue := mid.queue, files := mid.files)
    requires DeleteSnapshots(mid, gone).Some? && db' == DeleteSnapshots(mid, gone).value.(queue := db'.queue, files := db'.files)
    ensures Retained(db, keep, cutoff, db')
  {
    assert db.snapshots.Keys - db'.snapshots.Keys == Ids(gone);
  }

  lemma DeletedAreSwept(db: Db, mid: Db, gone: seq<Candidate>, removable: set<FileName>, keep: nat, cutoff: real,
                        db': Db)
    requires Chosen(db, gone, keep, cutoff) && Emptied(db, removable, mid)
    requires DeleteSnapshots(mid, gone).Some? && Emptied(DeleteSnapshots(mid, gone).value, removable, db')
    ensures Swept(db, keep, cutoff, removable, db')
  {
    FilesOfChosen(db, gone, keep, cutoff);
    assert DeleteSnapshots(mid, gone).value.queue.Keys == mid.queue.Keys + Files(gone);
  }

  /** With nothing to delete, one drain is all. */
  lemma NoneChosen(db: Db, removable: set<FileName>, keep: nat, cutoff: real, db': Db)
    requires Chosen(db, [], keep, cutoff) && Emptied(db, removable, db')
    ensures Retained(db, keep, cutoff, db') && Swept(db, keep, cutoff, removable, db')
  {
    assert forall id :: MayGo(db, db.state.current, keep, cutoff, id) ==> id in Ids([]);
    assert db.snapshots.Keys - db'.snapshots.Keys == {};
  }

  class InventoryStore {
    var lease: Option<LeaseRow>
    var state: StateRow
    var hardware: map<Uuid, HardwareRow>
    var artifacts: map<Uuid, Artifact>
    var lifecycles: map<Uuid, LifecycleRow>
    var probes: map<nat, ProbeRow>
    var lastRow: nat
    var queue: map<FileName, QueueRow>
    var files: map<FileName, Bytes>
    ghost var history: seq<Entry>

    /** Every snapshot has its two dependent rows, and row ids are below the last one given. */
    ghost predicate Valid()
      reads this
    {
      SameKeys(hardware, artifacts, lifecycles) && forall r :: r in probes ==> r <= lastRow
    }

    ghost function View(): Db
      reads this
      requires Valid()
    {
      Db(lease, state, Joined(hardware, artifacts, lifecycles), probes, queue, files, history)
    }

    constructor ()
      ensures Valid() && View() == EMPTY_DB
    {
      lease, state := None, StateRow(None, None, None, None);
      hardware, artifacts, lifecycles := map[], map[], map[];
      probes, lastRow, queue, files, history := map[], 0, map[], map[], [];
    }

    // ----- scan lease -----

    method TryAcquireLease(owner: Uuid, now: real, expires: real) returns (won: bool)
      requires Valid()
      modifies `lease
      ensures Valid() && (View(), won) == TryAcquire(old(View()), owner, now, expires)
    {
      if lease.Some? && lease.value.expires <= now {
        lease := None;
      }
      won := lease.None?;
      if won {
        lease := Some(LeaseRow(owner, expires));
      }
    }

    method RenewLease(owner: Uuid, now: real, expires: real) returns (held: bool)
      requires Valid()
      modifies `lease
      ensures Valid() && (View(), held) == Renew(old(View()), owner, now, expires)
    {
      held := lease.Some? && lease.value.owner == owner && lease.value.expires > now;
      if held {
        lease := Some(lease.value.(expires := expires));
      }
    }

    method ReleaseLease(owner: Uuid)
      requires Valid()
      modifies `lease
      ensures Valid() && View() == Release(old(View()), owner)
    {
      if lease.Some? && lease.value.owner == owner {
        lease := None;
      }
    }

    method ReadActiveLease(now: real) returns (active: Option<LeaseRow>)
      requires Valid()
      ensures active == ActiveLease(View(), now)
    {
      active := if lease.Some? && lease.value.expires > now then lease else None;
    }

    // ----- probe history -----

    method StartProbeRow(kind: ProbeKind, started: real, previous: Option<Uuid>) returns (row: Option<nat>)
      requires Valid()
      modifies `probes, `lastRow
      ensures Valid()
      ensures row.Some? ==> row.value !in old(probes)
                            && Some(View()) == StartProbe(old(View()), row.value, kind, started, previous)
      ensures row.None? ==> View() == old(View()) && !Present(old(View()), previous)
    {
      if previous.Some? && previous.value !in hardware {
        return None;
      }
      lastRow := lastRow + 1;
      probes := probes[lastRow := ProbeRow(kind, started, Running, None, previous)];
      row := Some(lastRow);
    }

    method FinishProbeRow(row: nat, status: ProbeStatus, snapshot: Option<Uuid>) returns (ok: bool)
      requires Valid()
      modifies `probes
      ensures Valid()
      ensures var r := FinishProbe(old(View()), row, status, snapshot);
        ok == r.Some? && View() == if ok then r.value else old(View())
    {
      if row !in probes {
        return true;
      }
      if snapshot.Some? && snapshot.value !in hardware {
        return false;
      }
      probes := probes[row := probes[row].(status := status, snapshot := snapshot)];
      ok := true;
    }

    method RecoverStaleProbes(now: real, cutoff: real)
      requires Valid()
      modifies `lease, `probes
      ensures Valid() && View() == RecoverStale(old(View()), now, cutoff)
    {
      if lease.Some? && lease.value.expires <= now {
        lease := None;
      }
      if lease.None? {
        probes := FailOld(probes, cutoff);
      }
    }

    // ----- publication -----

    method InsertSnapshot(codec: Codec, pub: Publication)
      requires Valid() && pub.id !in hardware
      modifies `hardware, `artifacts, `lifecycles
      ensures Valid() && View() == old(View()).(snapshots := old(View()).snapshots[pub.id := SnapshotOf(codec, pub)])
    {
      var published := HardwareRow(pub.created, pub.canonical.machine, pub.canonical.fingerprint, pub.complete);
      JoinedInsert(hardware, artifacts, lifecycles, pub.id, published, ArtifactOf(codec, pub), LifecycleRow(false, false));
      hardware := hardware[pub.id := published];
      artifacts := artifacts[pub.id := ArtifactOf(codec, pub)];
      lifecycles := lifecycles[pub.id := LifecycleRow(false, false)];
    }

    /** `publish_transaction`: the fence, then one insert per table and the two updates. */
    method PublishRows(codec: Codec, pub: Publication, row: Option<nat>, owner: Uuid,
                       now: real) returns (r: Result<Uuid, Error>)
      requires Valid()
      modifies `hardware, `artifacts, `lifecycles, `state, `probes, `history
      ensures Valid()
      ensures match PublishTransaction(codec, old(View()), pub, row, owner, now)
        case Committed(db) => r == Ok(pub.id) && View() == db
        case StaleLease => r == Err(LeaseLost) && View() == old(View())
        case ConstraintFailed => r == Err(Constraint) && View() == old(View())
    {
      if !(lease.Some? && lease.value.owner == owner && lease.value.expires > now) {
        return Err(LeaseLost);
      }
      if pub.id in hardware {
        return Err(Constraint);
      }
      InsertSnapshot(codec, pub);
      state := StateOf(pub.id, pub.stateProbe);
      if row.Some? && row.value in probes && probes[row.value].status.Running? {
        probes := probes[row.value := probes[row.value].(
          status := if pub.complete then Succeeded else Partial,
          snapshot := Some(pub.id))];
      }
      history := history + [Entry(pub.id, SnapshotOf(codec, pub), pub.stateProbe)];
      r := Ok(pub.id);
    }

    /** `write_report`: a private temporary file, which must not exist yet, renamed into place;
        after a failure the temporary file is removed if that works. */
    method WriteReport(pub: Publication, f: Faults) returns (ok: bool)
      requires Valid()
      modifies `files
      ensures Valid() && View() == old(View()).(files := files)
      ensures ok == !(f.create || f.rename || ReportTemp(pub.id, pub.pid) in old(files))
      ensures ok ==> files == old(files)[ReportJson(pub.id) := pub.bytes]
      ensures !ok ==> forall n :: n != ReportJson(pub.id) && n != ReportTemp(pub.id, pub.pid) ==>
                (n in files <==> n in old(files)) && (n in files ==> files[n] == old(files)[n])
      ensures !ok && !f.cleanup && (f.rename ==> !f.renamed) ==> files == old(files)
    {
      var temp := ReportTemp(pub.id, pub.pid);
      if f.create || temp in files {
        return false;
      }
      files := files[temp := []];
      if !f.rename || f.renamed {
        files := (files - {temp})[ReportJson(pub.id) := pub.bytes];
      }
      if f.rename && !f.cleanup {
        files := files - {temp};
      }
      ok := !f.rename;
    }

    /** `publish_sync`. A publication that fails leaves every table as it was, and the report
        directory too unless a clean-up fails or a failing rename had taken effect. */
    method Publish(codec: Codec, pub: Publication, scanFailed: bool, row: Option<nat>, owner: Uuid, now: real,
                   f: Faults)
      returns (r: Result<Uuid, Error>)
      requires Valid()
      modifies this
      ensures Valid()
      ensures r.Ok? <==> !scanFailed && pub.canonical.coreComplete
                         && !f.create && !f.rename && !f.commit && ReportTemp(pub.id, pub.pid) !in old(files)
                         && PublishTransaction(codec, old(View()), pub, row, owner, now).Committed?
      ensures r.Ok? ==> r.value == pub.id
                        && View() == Published(codec, old(View()), pub, row).(files := old(files)[ReportJson(pub.id) := pub.bytes])
      ensures r.Err? ==> View() == old(View()).(files := files)
      ensures r.Err? && !f.cleanup && (f.rename ==> !f.renamed) && ReportJson(pub.id) !in old(files) ==> files == old(files)
    {
      if scanFailed || !pub.canonical.coreComplete {
        return Err(InvalidReport);
      }
      var written := WriteReport(pub, f);
      if !written {
        return Err(Io);
      }
      if f.commit {
        r := Err(Constraint);
      } else {
        r := PublishRows(codec, pub, row, owner, now);
      }
      if r.Err? && !f.cleanup {
        files := files - {ReportJson(pub.id)};
      }
    }

    // ----- lifecycle flags -----

    method SetPinnedFlag(id: Uuid, pinned: bool) returns (r: Result<(), Error>)
      requires Valid()
      modifies `lifecycles
      ensures Valid()
      ensures match SetPinned(old(View()), id, pinned)
        case Some(db) => r == Ok(()) && View() == db
        case None => r == Err(NotFound) && View() == old(View())
    {
      if id !in lifecycles {
        return Err(NotFound);
      }
      ghost var before := Joined(hardware, artifacts, lifecycles);
      lifecycles := lifecycles[id := lifecycles[id].(pinned := pinned)];
      assert Joined(hardware, artifacts, lifecycles) == before[id := before[id].(pinned := pinned)];
      r := Ok(());
    }

    /** `mark_uploaded`: a given time must parse; without one the current time is taken. */
    method SetUploaded(id: Uuid, uploadedAt: Option<Timestamp>) returns (r: Result<(), Error>)
      requires Valid()
      modifies `lifecycles
      ensures Valid()
      ensures uploadedAt.Some? && uploadedAt.value.instant.None? ==> r == Err(InvalidReport) && View() == old(View())
      ensures !(uploadedAt.Some? && uploadedAt.value.instant.None?) ==>
        match MarkUploaded(old(View()), id)
        case Some(db) => r == Ok(()) && View() == db
        case None => r == Err(NotFound) && View() == old(View())
    {
      if uploadedAt.Some? && uploadedAt.value.instant.None? {
        return Err(InvalidReport);
      }
      if id !in lifecycles {
        return Err(NotFound);
      }
      ghost var before := Joined(hardware, artifacts, lifecycles);
      lifecycles := lifecycles[id := lifecycles[id].(uploaded := true)];
      assert Joined(hardware, artifacts, lifecycles) == before[id := before[id].(uploaded := true)];
      r := Ok(());
    }

    // ----- orphan recovery -----

    /** `recover_orphans` over a directory listing: what stays is exactly what is not
        removable, and every removal is counted. */
    method RecoverOrphans(entries: seq<FileName>) returns (removed: nat)
      requires Valid()
      requires forall n :: n in entries <==> n in files
      requires forall i, j :: 0 <= i < j < |entries| ==> entries[i] != entries[j]
      modifies `files
      ensures Valid() && View() == old(View()).(files := files)
      ensures forall n :: n in files <==> n in old(files) && !Removable(n, KnownPaths(old(View())))
      ensures forall n :: n in files ==> files[n] == old(files)[n]
      ensures removed + |files| == |old(files)|
    {
      var known := set id | id in artifacts :: artifacts[id].file;
      KnownAreJoined(hardware, artifacts, lifecycles);
      removed := 0;
      ghost var before := files;
      var i := 0;
      while i < |entries|
        invariant 0 <= i <= |entries|
        invariant SweptTo(files, before, entries, i, known)
        invariant removed + |files| == |before|
      {
        var name := entries[i];
        NotYetSwept(files, before, entries, i, known);
        SweptMore(files, before, entries, i, known);
        if name.IsTemp() || (name.IsJson() && name !in known) {
          OneFewer(files, name);
          files := files - {name};
          removed := removed + 1;
        }
        i := i + 1;
      }
      assert entries[..i] == entries;
    }

    // ----- the delete queue -----

    /** The paths in the queue, in the order of some query. */
    method QueuedPaths() returns (paths: seq<FileName>)
      requires Valid()
      ensures forall n :: n in paths <==> n in queue
      ensures forall i, j :: 0 <= i < j < |paths| ==> paths[i] != paths[j]
    {
      paths := [];
      var rest := queue.Keys;
      while rest != {}
        invariant forall n :: n in queue <==> n in paths || n in rest
        invariant forall n :: n in paths ==> n !in rest
        invariant forall i, j :: 0 <= i < j < |paths| ==> paths[i] != paths[j]
      {
        var n :| n in rest;
        paths := paths + [n];
        rest := rest - {n};
      }
    }

    /** Removes one file and its queue row, or records the failure. */
    method TryRemove(path: FileName, removable: set<FileName>) returns (removed: bool)
      requires Valid()
      modifies `queue, `files
      ensures Valid() && View() == DrainedOne(old(View()), path, removable)
      ensures removed <==> path in removable
    {
      removed := path in removable;
      if removed {
        files := files - {path};
        queue := queue - {path};
      } else if path in queue {
        queue := queue[path := queue[path].(attempts := queue[path].attempts + 1)];
      }
    }

    /** `process_delete_queue`: try each queued path once; the two counters of the report count
        the removals that succeed and the paths that stay queued. */
    method ProcessDeleteQueue(removable: set<FileName>) returns (deleted: nat, failures: nat)
      requires Valid()
      modifies `queue, `files
      ensures Valid() && Emptied(old(View()), removable, View())
      ensures deleted == |old(queue).Keys * removable| && failures == |queue|
    {
      var paths := QueuedPaths();
      deleted, failures := 0, 0;
      var i := 0;
      while i < |paths|
        invariant 0 <= i <= |paths| && Valid()
        invariant deleted == CountRemovable(paths, i, removable) && deleted + failures == i
        invariant View() == Drained(old(View()), paths[..i], removable)
      {
        DrainedPrefix(old(View()), paths, i, removable);
        var removed := TryRemove(paths[i], removable);
        if removed {
          deleted := deleted + 1;
        } else {
          failures := failures + 1;
        }
        i := i + 1;
      }
      assert paths[..i] == paths;
      DrainedIs(old(View()), paths, removable);
      QueueCounts(paths, removable, old(queue).Keys, queue.Keys);
    }

    // ----- retention -----

    /** The delete transaction: queue the path, clear the references, delete with cascade. */
    method DeleteEligible(eligible: seq<Candidate>)
      requires Valid() && DeleteSnapshots(View(), eligible).Some?
      modifies `queue, `probes, `hardware, `artifacts, `lifecycles
      ensures Valid() && Some(View()) == DeleteSnapshots(old(View()), eligible)
    {
      var i := 0;
      assert eligible[..0] == [];
      NothingDeleted(View());
      while i < |eligible|
        invariant 0 <= i <= |eligible| && Valid()
        invariant Some(View()) == DeleteSnapshots(old(View()), eligible[..i])
      {
        DeleteCandidate(eligible[i]);
        assert eligible[..i + 1] == eligible[..i] + [eligible[i]];
        SomeOfFewer(old(View()), eligible, i + 1);
        DeleteOneMore(old(View()), eligible[..i], eligible[i]);
        i := i + 1;
      }
      assert eligible[..i] == eligible;
    }

    method ClearReferences(id: Uuid)
      requires Valid()
      modifies `probes
      ensures Valid() && probes == map r | r in old(probes) :: WithoutSnapshot(old(probes)[r], {id})
    {
      probes := map r | r in probes :: probes[r].(snapshot := if probes[r].snapshot == Some(id) then None else probes[r].snapshot);
      probes := map r | r in probes :: probes[r].(previous := if probes[r].previous == Some(id) then None else probes[r].previous);
    }

    method DeleteCandidate(c: Candidate)
      requires Valid()
      modifies `queue, `probes, `hardware, `artifacts, `lifecycles
      ensures Valid() && View() == DeleteOne(old(View()), c)
    {
      queue := queue[c.artifact.file := QueueRow(c.artifact.sha256, 0)];
      ClearReferences(c.id);
      JoinedDelete(hardware, artifacts, lifecycles, c.id);
      hardware := hardware - {c.id};
      artifacts := artifacts - {c.id};
      lifecycles := lifecycles - {c.id};
    }

    /** `apply_retention_sync`, run on its own. A dry run changes nothing. Otherwise exactly
        the snapshots that may go are deleted, the oldest of each machine, and of the queued and
        newly deleted paths exactly those whose removal fails stay queued while the other files are gone. */
    method ApplyRetention(policy: Policy, listing: seq<Candidate>, cutoff: real, removable: set<FileName>)
      returns (report: Report, databaseDeleted: nat)
      requires Valid() && IsListing(View(), listing)
      modifies `queue, `files, `probes, `hardware, `artifacts, `lifecycles
      ensures Valid()
      ensures Tallies(report, listing, |listing|, state.current, policy.keep, cutoff) && report.examined == |listing|
      ensures report.current + report.pinned + report.unuploaded + report.recent + report.eligible == report.examined
      ensures policy.dryRun ==> View() == old(View()) && databaseDeleted == 0
      ensures !policy.dryRun ==> databaseDeleted == report.eligible
      ensures !policy.dryRun ==> Retained(old(View()), policy.keep, cutoff, View())
      ensures !policy.dryRun ==> OldestGo(old(View()), state.current, policy.keep, cutoff, View().snapshots.Keys)
      ensures !policy.dryRun ==> Swept(old(View()), policy.keep, cutoff, removable, View())
    {
      ghost var before := View();
      if !policy.dryRun {
        var _, _ := ProcessDeleteQueue(removable);
      }
      var eligible: seq<Candidate>;
      report, eligible := Classify(listing, state.current, policy.keep, cutoff);
      databaseDeleted := 0;
      if policy.dryRun {
        return;
      }
      EligibleIds(before, listing, state.current, policy.keep, cutoff);
      if eligible == [] {
        NoneChosen(before, removable, policy.keep, cutoff, View());
        MayGoAreOldest(before, state.current, policy.keep, cutoff, View().snapshots.Keys);
        return;
      }
      ghost var drained := View();
      ChosenAreDeletable(before, drained, eligible, policy.keep, cutoff);
      DeleteEligible(eligible);
      databaseDeleted := |eligible|;
      var _, _ := ProcessDeleteQueue(removable);
      DeletedAreRetained(before, drained, eligible, policy.keep, cutoff, View());
      DeletedAreSwept(before, drained, eligible, removable, policy.keep, cutoff, View());
      MayGoAreOldest(before, state.current, policy.keep, cutoff, View().snapshots.Keys);
    }
  }
}
