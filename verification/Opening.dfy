/** `InventoryStore::initialize`: stale recovery, then the orphan sweep over `reports`. */
module Opening {
  import opened Wrappers
  import opened Store

  datatype Pc =
    | Recover
    | ListKnown
    | ReadDirectory(known: set<FileName>)
    | Sweep(known: set<FileName>, todo: seq<FileName>)
    | Opened(ok: bool)

  datatype Input = Input(ok: bool, now: real, cutoff: real, entries: seq<FileName>)

  function Step(db: Db, pc: Pc, in_: Input): (Db, Pc) {
    if !in_.ok && !pc.Opened? then (db, Opened(false))
    else match pc
      case Recover => (RecoverStale(db, in_.now, in_.cutoff), ListKnown)
      case ListKnown => (db, ReadDirectory(KnownPaths(db)))
      case ReadDirectory(known) => (db, SweepFrom(known, in_.entries))
      case Sweep(known, todo) =>
        if todo == [] then (db, Opened(true))
        else if !Removable(todo[0], known) then (db, SweepFrom(known, todo[1..]))
        else if todo[0] in db.files then (RemoveFile(db, todo[0]), SweepFrom(known, todo[1..]))
        else (db, Opened(false))
      case Opened(_) => (db, pc)
  }

  function SweepFrom(known: set<FileName>, todo: seq<FileName>): Pc {
    if todo == [] then Opened(true) else Sweep(known, todo)
  }

  /** A directory listing names every file once, in any order. */
  ghost predicate Answers(db: Db, pc: Pc, in_: Input) {
    pc.ReadDirectory? ==>
      (forall n :: n in in_.entries <==> n in db.files)
      && (forall i, j :: 0 <= i < j < |in_.entries| ==> in_.entries[i] != in_.entries[j])
  }
}
