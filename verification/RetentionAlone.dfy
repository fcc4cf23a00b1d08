/** The retention call step by step, with nobody beside it, does what the method of the store does. */
module RetentionAlone {
  import opened Wrappers
  import opened Store
  import opened Retention
  import opened RetentionChoice
  import opened InventoryStore

  /** A run of the call alone, with the files that can be removed and the cutoff it computes. */
  ghost predicate Runs(policy: Policy, removable: set<FileName>, cutoff: real, dbs: seq<Db>, rs: seq<Retainer>, inputs: seq<Input>) {
    |dbs| == |rs| == |inputs| + 1 && rs[0] == Start(policy)
    && forall i: nat {:trigger Follows(removable, cutoff, dbs, rs, inputs, i)} :: i < |inputs| ==>
         Follows(removable, cutoff, dbs, rs, inputs, i)
  }

  ghost predicate Follows(removable: set<FileName>, cutoff: real, dbs: seq<Db>, rs: seq<Retainer>, inputs: seq<Input>, i: nat) {
    i < |inputs| && i + 1 < |dbs| && i + 1 < |rs|
    && Fits(removable, cutoff, dbs[i], rs[i], inputs[i]) && (dbs[i + 1], rs[i + 1]) == Step(dbs[i], rs[i], inputs[i])
  }

  /** What the outside answers: the queries, the clock, and whether a file can be removed. */
  ghost predicate Fits(removable: set<FileName>, cutoff: real, db: Db, r: Retainer, in_: Input) {
    && Answers(db, r, in_)
    && (r.pc.ReadRows? ==> in_.cutoff == cutoff)
    && (r.pc.DrainFile? && r.pc.todo != [] ==> (in_.ok <==> r.pc.todo[0] in removable))
  }

  // ----- a drain -----

  predicate Once(todo: seq<FileName>) { forall i, j :: 0 <= i < j < |todo| ==> todo[i] != todo[j] }

  /** The queue of `base` is drained but for these paths. */
  ghost predicate Partway(base: Db, removable: set<FileName>, left: seq<FileName>, db: Db) {
    && Once(left) && (forall n :: n in left ==> n in base.queue)
    && db == base.(queue := db.queue, files := db.files)
    && (forall n :: n in db.queue <==> n in base.queue && (n in left || n !in removable))
    && (forall n :: n in db.queue ==>
          db.queue[n] == if n in left then base.queue[n] else base.queue[n].(attempts := base.queue[n].attempts + 1))
    && (forall n :: n in db.files <==> n in base.files && !(n in base.queue && n !in left && n in removable))
    && (forall n :: n in db.files ==> db.files[n] == base.files[n])
  }

  /** The first file has been tried, its queue row not yet. */
  ghost predicate Tried(base: Db, removable: set<FileName>, todo: seq<FileName>, removed: bool, db: Db) {
    todo != [] && (removed <==> todo[0] in removable)
    && exists files :: Partway(base, removable, todo, db.(files := files)) && db.files == if removed then files - {todo[0]} else files
  }

  lemma RowMoves(base: Db, removable: set<FileName>, todo: seq<FileName>, removed: bool, db: Db)
    requires Tried(base, removable, todo, removed, db)
    ensures Partway(base, removable, todo[1..], if removed then Dequeue(db, todo[0]) else RecordDeleteFailure(db, todo[0]))
  {
    var files :| Partway(base, removable, todo, db.(files := files)) && db.files == if removed then files - {todo[0]} else files;
    if removed { RemovedRow(base, removable, todo, db, files); } else { FailedRow(base, removable, todo, db); }
  }

  lemma RestOfTodo(todo: seq<FileName>)
    requires todo != [] && Once(todo)
    ensures Once(todo[1..]) && todo[0] !in todo[1..] && forall n :: n in todo <==> n == todo[0] || n in todo[1..]
  {
  }

  lemma RemovedRow(base: Db, removable: set<FileName>, todo: seq<FileName>, db: Db, files: map<FileName, Bytes>)
    requires todo != [] && todo[0] in removable && Partway(base, removable, todo, db.(files := files)) && db.files == files - {todo[0]}
    ensures Partway(base, removable, todo[1..], Dequeue(db, todo[0]))
  {
    RestOfTodo(todo);
  }

  lemma FailedRow(base: Db, removable: set<FileName>, todo: seq<FileName>, db: Db)
    requires todo != [] && todo[0] !in removable && Partway(base, removable, todo, db)
    ensures Partway(base, removable, todo[1..], RecordDeleteFailure(db, todo[0]))
  {
    RestOfTodo(todo);
  }

  lemma DrainStarts(base: Db, removable: set<FileName>, paths: seq<FileName>)
    requires (forall n :: n in paths <==> n in base.queue) && Once(paths)
    ensures Partway(base, removable, paths, base)
  {
  }

  lemma DrainEnds(base: Db, removable: set<FileName>, db: Db)
    requires Partway(base, removable, [], db)
    ensures Emptied(base, removable, db)
  {
  }

  // ----- the whole call -----

  /** What the first drain leaves, and what the deletion makes of it. */
  ghost predicate Deleted(db0: Db, keep: nat, cutoff: real, removable: set<FileName>, base: Db) {
    exists mid, gone :: Emptied(db0, removable, mid) && Chosen(db0, gone, keep, cutoff)
                        && DeleteSnapshots(mid, gone) == Some(base)
  }

  /** The base of the drain that is running. */
  ghost predicate IsBase(db0: Db, keep: nat, cutoff: real, removable: set<FileName>, again: bool, base: Db) {
    if again then base == db0 else Deleted(db0, keep, cutoff, removable, base)
  }

  ghost predicate Goal(db0: Db, keep: nat, cutoff: real, removable: set<FileName>, db: Db) {
    Retained(db0, keep, cutoff, db) && Swept(db0, keep, cutoff, removable, db)
  }

  ghost predicate At(db0: Db, removable: set<FileName>, cutoff: real, db: Db, r: Retainer) {
    !r.policy.dryRun ==>
      match r.pc
      case DrainList(again) => IsBase(db0, r.policy.keep, cutoff, removable, again, db)
      case DrainFile(todo, again) =>
        todo != [] && exists base :: IsBase(db0, r.policy.keep, cutoff, removable, again, base) && Partway(base, removable, todo, db)
      case DrainRow(todo, again, removed) =>
        exists base :: IsBase(db0, r.policy.keep, cutoff, removable, again, base) && Tried(base, removable, todo, removed, db)
      case ReadCurrent => Emptied(db0, removable, db)
      case ReadRows(current) => Emptied(db0, removable, db) && current == db0.state.current
      case Delete(eligible) => Emptied(db0, removable, db) && Chosen(db0, eligible, r.policy.keep, cutoff)
      case Finished(ok) => ok ==> Goal(db0, r.policy.keep, cutoff, removable, db)
  }

  /** A drain that is over: the first goes on to the read, the second is the end. */
  lemma AfterPartway(db0: Db, removable: set<FileName>, cutoff: real, r: Retainer, base: Db, todo: seq<FileName>, again: bool, db: Db)
    requires IsBase(db0, r.policy.keep, cutoff, removable, again, base) && Partway(base, removable, todo, db)
    ensures At(db0, removable, cutoff, db, r.(pc := DrainFrom(todo, again)))
  {
    if todo == [] {
      DrainEnds(base, removable, db);
      if !again {
        var mid, gone :| Emptied(db0, removable, mid) && Chosen(db0, gone, r.policy.keep, cutoff) && DeleteSnapshots(mid, gone) == Some(base);
        DeletedAreRetained(db0, mid, gone, r.policy.keep, cutoff, db);
        DeletedAreSwept(db0, mid, gone, removable, r.policy.keep, cutoff, db);
      }
    }
  }

  lemma ReadRowsStep(db0: Db, removable: set<FileName>, cutoff: real, db: Db, r: Retainer, in_: Input)
    requires r.pc.ReadRows? && At(db0, removable, cutoff, db, r) && Fits(removable, cutoff, db, r, in_) && in_.ok
    ensures var (db', r') := Step(db, r, in_); At(db0, removable, cutoff, db', r')
  {
    if !r.policy.dryRun {
      assert db.snapshots == db0.snapshots;
      assert forall id :: MayGo(db, r.pc.current, r.policy.keep, cutoff, id) <==> MayGo(db0, r.pc.current, r.policy.keep, cutoff, id) by {
        SameChoice(db, db0);
      }
      EligibleIds(db, in_.listing, r.pc.current, r.policy.keep, cutoff);
      if Eligible(in_.listing, |in_.listing|, r.pc.current, r.policy.keep, cutoff) == [] {
        NoneChosen(db0, removable, r.policy.keep, cutoff, db);
      }
    }
  }

  lemma SameChoice(db: Db, db': Db)
    requires db.snapshots == db'.snapshots
    ensures forall id :: id in db.snapshots ==> NewerOnes(db, id) == NewerOnes(db', id)
  {
  }

  lemma StepKeepsAt(db0: Db, removable: set<FileName>, cutoff: real, db: Db, r: Retainer, in_: Input)
    requires At(db0, removable, cutoff, db, r) && Fits(removable, cutoff, db, r, in_)
    ensures var (db', r') := Step(db, r, in_); At(db0, removable, cutoff, db', r')
  {
    if r.policy.dryRun || (!in_.ok && !r.pc.DrainFile?) {
    } else {
      match r.pc
      case DrainList(again) =>
        DrainStarts(db, removable, in_.paths);
        AfterPartway(db0, removable, cutoff, r, db, in_.paths, again, db);
      case DrainFile(todo, again) => FileStep(db0, removable, cutoff, db, r, in_);
      case DrainRow(todo, again, removed) =>
        var base :| IsBase(db0, r.policy.keep, cutoff, removable, again, base) && Tried(base, removable, todo, removed, db);
        RowMoves(base, removable, todo, removed, db);
        var db' := if removed then Dequeue(db, todo[0]) else RecordDeleteFailure(db, todo[0]);
        AfterPartway(db0, removable, cutoff, r, base, todo[1..], again, db');
      case ReadRows(current) => ReadRowsStep(db0, removable, cutoff, db, r, in_);
      case Delete(eligible) =>
        ChosenAreDeletable(db0, db, eligible, r.policy.keep, cutoff);
      case _ =>
    }
  }

  lemma FileStep(db0: Db, removable: set<FileName>, cutoff: real, db: Db, r: Retainer, in_: Input)
    requires r.pc.DrainFile? && !r.policy.dryRun && At(db0, removable, cutoff, db, r) && Fits(removable, cutoff, db, r, in_)
    ensures var (db', r') := Step(db, r, in_); At(db0, removable, cutoff, db', r')
  {
    var todo, again := r.pc.todo, r.pc.again;
    var base :| IsBase(db0, r.policy.keep, cutoff, removable, again, base) && Partway(base, removable, todo, db);
    var db' := Step(db, r, in_).0;
    assert db'.(files := db.files) == db;
    assert Partway(base, removable, todo, db'.(files := db.files));
    assert Tried(base, removable, todo, in_.ok, db');
  }

  /** The call alone refines the method: whatever it is answered, if it ends well then exactly the
      snapshots that may go are deleted, and of the queued and newly deleted paths exactly those
      whose removal fails stay queued while the other files are gone. */
  lemma {:induction false} AloneIsMethod(policy: Policy, removable: set<FileName>, cutoff: real, dbs: seq<Db>, rs: seq<Retainer>,
                                         inputs: seq<Input>, n: nat)
    requires Runs(policy, removable, cutoff, dbs, rs, inputs) && n < |dbs|
    ensures rs[n].policy == policy && At(dbs[0], removable, cutoff, dbs[n], rs[n])
    ensures rs[n].pc == Finished(true) && !policy.dryRun ==>
      && Retained(dbs[0], policy.keep, cutoff, dbs[n]) && Swept(dbs[0], policy.keep, cutoff, removable, dbs[n])
      && OldestGo(dbs[0], dbs[0].state.current, policy.keep, cutoff, dbs[n].snapshots.Keys)
  {
    if n > 0 {
      AloneIsMethod(policy, removable, cutoff, dbs, rs, inputs, n - 1);
      assert Follows(removable, cutoff, dbs, rs, inputs, n - 1);
      StepKeepsAt(dbs[0], removable, cutoff, dbs[n - 1], rs[n - 1], inputs[n - 1]);
    }
    if rs[n].pc == Finished(true) && !policy.dryRun {
      MayGoAreOldest(dbs[0], dbs[0].state.current, policy.keep, cutoff, dbs[n].snapshots.Keys);
    }
  }
}
