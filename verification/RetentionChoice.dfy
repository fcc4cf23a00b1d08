/** Which snapshots retention chooses, stated on the store it read instead of by the loop. */
module RetentionChoice {
  import opened Wrappers
  import opened Store
  import opened Retention

  lemma {:induction false} EligibleWereJudged(listing: seq<Candidate>, n: nat, current: Option<Uuid>, keep: nat,
                                              cutoff: real, c: Candidate)
    returns (i: nat)
    requires n <= |listing| && c in Eligible(listing, n, current, keep, cutoff)
    ensures i < n && listing[i] == c && VerdictAt(listing, i, current, keep, cutoff).IsEligible?
  {
    if VerdictAt(listing, n - 1, current, keep, cutoff).IsEligible? && listing[n - 1] == c {
      i := n - 1;
    } else {
      i := EligibleWereJudged(listing, n - 1, current, keep, cutoff, c);
    }
  }

  /** Conversely nothing that may go is kept. */
  lemma {:induction false} JudgedAreEligible(listing: seq<Candidate>, n: nat, current: Option<Uuid>, keep: nat,
                                             cutoff: real, i: nat)
    requires i < n <= |listing| && VerdictAt(listing, i, current, keep, cutoff).IsEligible?
    ensures listing[i] in Eligible(listing, n, current, keep, cutoff)
  {
    if i < n - 1 {
      JudgedAreEligible(listing, n - 1, current, keep, cutoff, i);
    }
  }

  /** The rank counts the snapshots of the machine that come before in the stored order. */
  lemma {:induction false} CountIsCardinality(listing: seq<Candidate>, n: nat, machine: Token)
    requires n <= |listing|
    ensures CountMachine(listing, n, machine) == |set j: nat | j < n && listing[j].machine == machine|
  {
    if n > 0 {
      CountIsCardinality(listing, n - 1, machine);
      OneMorePlace(listing, n - 1, machine);
    }
  }

  lemma OneMorePlace(listing: seq<Candidate>, n: nat, machine: Token)
    requires n < |listing|
    ensures |set j: nat | j < n + 1 && listing[j].machine == machine|
         == |set j: nat | j < n && listing[j].machine == machine| + (if listing[n].machine == machine then 1 else 0)
  {
    var after := set j: nat | j < n + 1 && listing[j].machine == machine;
    var before := set j: nat | j < n && listing[j].machine == machine;
    assert n !in before;
    if listing[n].machine == machine {
      assert after == before + {n};
    } else {
      assert after == before;
    }
  }

  /** A snapshot of the same machine that was created later by the stored text of its creation
      time, or at the same time with a greater id. */
  predicate Newer(db: Db, other: Uuid, id: Uuid)
    requires other in db.snapshots && id in db.snapshots
  {
    var a, b := db.snapshots[other], db.snapshots[id];
    a.machine == b.machine && (a.created.rank > b.created.rank || (a.created.rank == b.created.rank && other > id))
  }

  ghost function NewerOnes(db: Db, id: Uuid): set<Uuid>
    requires id in db.snapshots
  {
    set other | other in db.snapshots && Newer(db, other, id)
  }

  /** Neither its flags nor its age protect the snapshot. */
  predicate Unprotected(db: Db, current: Option<Uuid>, cutoff: real, id: Uuid) {
    id in db.snapshots && current != Some(id) && !db.snapshots[id].pinned && db.snapshots[id].uploaded
    && db.snapshots[id].created.instant.Some? && db.snapshots[id].created.instant.value <= cutoff
  }

  /** What retention may delete, in terms of the store it read: exactly the unprotected
      snapshots with at least `keep` newer ones of the same machine. */
  ghost predicate MayGo(db: Db, current: Option<Uuid>, keep: nat, cutoff: real, id: Uuid) {
    Unprotected(db, current, cutoff, id) && |NewerOnes(db, id)| >= keep
  }

  lemma BeforeIsStrict(a: Candidate, b: Candidate)
    ensures Before(a, b) ==> !Before(b, a)
  {
  }

  lemma OnlyEarlierAreBefore(listing: seq<Candidate>, j: nat, i: nat)
    requires (forall a, b :: 0 <= a < b < |listing| ==> Before(listing[a], listing[b])) && i < |listing| && j < |listing|
    requires Before(listing[j], listing[i])
    ensures j < i
  {
    if i < j { BeforeIsStrict(listing[i], listing[j]); }
    BeforeIsStrict(listing[j], listing[j]);
  }

  lemma ListedOnce(db: Db, listing: seq<Candidate>, j: nat, k: nat)
    requires IsListing(db, listing) && j < k < |listing|
    ensures listing[j].id != listing[k].id
  {
    assert listing[j] in listing && listing[k] in listing;
    BeforeIsStrict(listing[j], listing[k]);
  }

  /** The rank of a candidate is one more than the number of newer snapshots of its machine: the
      positions before it of the same machine, and those snapshots, are equally many. */
  lemma {:induction false} RankCountsNewer(db: Db, listing: seq<Candidate>, i: nat)
    requires IsListing(db, listing) && i < |listing|
    ensures listing[i].id in db.snapshots && RankAt(listing, i) == |NewerOnes(db, listing[i].id)| + 1
  {
    var id := listing[i].id;
    var places := set j: nat | j < i && listing[j].machine == listing[i].machine;
    CountIsCardinality(listing, i, listing[i].machine);
    forall other | other in NewerOnes(db, id) ensures exists j: nat :: j in places && listing[j].id == other {
      var c := CandidateOf(db, other);
      var j: nat :| j < |listing| && listing[j] == c;
      OnlyEarlierAreBefore(listing, j, i);
      assert j in places;
    }
    forall j | j in places ensures listing[j].id in NewerOnes(db, id) {
      assert Before(listing[j], listing[i]);
    }
    forall j, k | j in places && k in places && j != k ensures listing[j].id != listing[k].id {
      ListedOnce(db, listing, if j < k then j else k, if j < k then k else j);
    }
    SameSize(listing, places, NewerOnes(db, id));
  }

  lemma {:induction false} SameSize(listing: seq<Candidate>, places: set<nat>, ids: set<Uuid>)
    requires forall j :: j in places ==> j < |listing| && listing[j].id in ids
    requires forall other :: other in ids ==> exists j: nat :: j in places && listing[j].id == other
    requires forall j, k :: j in places && k in places && listing[j].id == listing[k].id ==> j == k
    ensures |places| == |ids|
    decreases places
  {
    if places != {} {
      var j :| j in places;
      SameSize(listing, places - {j}, ids - {listing[j].id});
    } else {
      assert forall other :: other !in ids;
    }
  }

  lemma EligibleMayGo(db: Db, listing: seq<Candidate>, current: Option<Uuid>, keep: nat, cutoff: real, c: Candidate)
    requires IsListing(db, listing) && c in Eligible(listing, |listing|, current, keep, cutoff)
    ensures MayGo(db, current, keep, cutoff, c.id)
  {
    var i := EligibleWereJudged(listing, |listing|, current, keep, cutoff, c);
    assert c in listing;
    RankCountsNewer(db, listing, i);
  }

  lemma MayGoIsEligible(db: Db, listing: seq<Candidate>, current: Option<Uuid>, keep: nat, cutoff: real, id: Uuid)
    requires IsListing(db, listing) && MayGo(db, current, keep, cutoff, id)
    ensures CandidateOf(db, id) in Eligible(listing, |listing|, current, keep, cutoff)
  {
    var i: nat :| i < |listing| && listing[i] == CandidateOf(db, id);
    RankCountsNewer(db, listing, i);
    JudgedAreEligible(listing, |listing|, current, keep, cutoff, i);
  }

  /** The loop's answer, without the loop and without the stored order. */
  lemma EligibleExactly(db: Db, listing: seq<Candidate>, current: Option<Uuid>, keep: nat, cutoff: real, id: Uuid)
    requires IsListing(db, listing)
    ensures id in Ids(Eligible(listing, |listing|, current, keep, cutoff)) <==> MayGo(db, current, keep, cutoff, id)
  {
    var eligible := Eligible(listing, |listing|, current, keep, cutoff);
    if id in Ids(eligible) {
      var c :| c in eligible && c.id == id;
      EligibleMayGo(db, listing, current, keep, cutoff, c);
    }
    if MayGo(db, current, keep, cutoff, id) {
      MayGoIsEligible(db, listing, current, keep, cutoff, id);
    }
  }

  /** The whole choice at once. */
  lemma EligibleIds(db: Db, listing: seq<Candidate>, current: Option<Uuid>, keep: nat, cutoff: real)
    requires IsListing(db, listing)
    ensures var gone := Eligible(listing, |listing|, current, keep, cutoff);
      && (forall id :: id in Ids(gone) <==> MayGo(db, current, keep, cutoff, id))
      && (forall c :: c in gone ==> c.id in db.snapshots && c == CandidateOf(db, c.id))
  {
    forall id ensures id in Ids(Eligible(listing, |listing|, current, keep, cutoff)) <==> MayGo(db, current, keep, cutoff, id) {
      EligibleExactly(db, listing, current, keep, cutoff, id);
    }
    var gone := Eligible(listing, |listing|, current, keep, cutoff);
    forall c | c in gone ensures c in listing {
      var i := EligibleWereJudged(listing, |listing|, current, keep, cutoff, c);
    }
  }

  // ----- the oldest go -----

  lemma NewerIsTransitive(db: Db, a: Uuid, b: Uuid, c: Uuid)
    requires a in db.snapshots && b in db.snapshots && c in db.snapshots
    ensures Newer(db, a, b) && Newer(db, b, c) ==> Newer(db, a, c)
  {
  }

  lemma SubsetSize(a: set<Uuid>, b: set<Uuid>)
    requires a <= b
    ensures |a| <= |b|
  {
    assert b == a + (b - a);
  }

  /** If a snapshot may go, so may every older unprotected one of the same machine. */
  lemma OlderMayGoToo(db: Db, current: Option<Uuid>, keep: nat, cutoff: real, id: Uuid, older: Uuid)
    requires MayGo(db, current, keep, cutoff, id) && Unprotected(db, current, cutoff, older) && Newer(db, id, older)
    ensures MayGo(db, current, keep, cutoff, older)
  {
    forall other | other in NewerOnes(db, id) ensures other in NewerOnes(db, older) {
      NewerIsTransitive(db, other, id, older);
    }
    SubsetSize(NewerOnes(db, id), NewerOnes(db, older));
  }

  ghost function OfMachine(db: Db, machine: Token): set<Uuid> {
    set id | id in db.snapshots && db.snapshots[id].machine == machine
  }

  ghost function NewerIn(db: Db, ids: set<Uuid>, id: Uuid): set<Uuid>
    requires ids <= db.snapshots.Keys && id in db.snapshots
  {
    set other | other in ids && Newer(db, other, id)
  }

  ghost function FirstIn(db: Db, ids: set<Uuid>, keep: nat): set<Uuid>
    requires ids <= db.snapshots.Keys
  {
    set id | id in ids && |NewerIn(db, ids, id)| < keep
  }

  ghost predicate OneMachine(db: Db, ids: set<Uuid>) {
    ids <= db.snapshots.Keys
    && forall id, other :: id in ids && other in ids ==> db.snapshots[id].machine == db.snapshots[other].machine
  }

  ghost predicate IsTop(db: Db, ids: set<Uuid>, top: Uuid) {
    OneMachine(db, ids) && top in ids && forall id :: id in ids && id != top ==> Newer(db, top, id)
  }

  lemma {:induction false} NewestExists(db: Db, ids: set<Uuid>) returns (top: Uuid)
    requires ids != {} && OneMachine(db, ids)
    ensures IsTop(db, ids, top)
  {
    top :| top in ids;
    if ids != {top} {
      var best := NewestExists(db, ids - {top});
      forall id | id in ids - {top} && id != best ensures Newer(db, top, best) ==> Newer(db, top, id) {
        NewerIsTransitive(db, top, best, id);
      }
      if !Newer(db, top, best) { top := best; }
    }
  }

  lemma OneNewerMore(db: Db, ids: set<Uuid>, top: Uuid, id: Uuid)
    requires IsTop(db, ids, top) && id in ids && id != top
    ensures |NewerIn(db, ids, id)| == |NewerIn(db, ids - {top}, id)| + 1
  {
    assert NewerIn(db, ids, id) == NewerIn(db, ids - {top}, id) + {top};
  }

  lemma FirstStep(db: Db, ids: set<Uuid>, top: Uuid, keep: nat)
    requires IsTop(db, ids, top) && keep > 0
    ensures |FirstIn(db, ids, keep)| == |FirstIn(db, ids - {top}, keep - 1)| + 1
    ensures |ids| == |ids - {top}| + 1
  {
    assert NewerIn(db, ids, top) == {};
    var rest := FirstIn(db, ids - {top}, keep - 1);
    forall id | id in ids - {top} ensures |NewerIn(db, ids, id)| == |NewerIn(db, ids - {top}, id)| + 1 {
      OneNewerMore(db, ids, top, id);
    }
    assert FirstIn(db, ids, keep) == rest + {top};
  }

  lemma NoneAreFirst(db: Db, ids: set<Uuid>, keep: nat)
    requires ids <= db.snapshots.Keys && (keep == 0 || ids == {})
    ensures |FirstIn(db, ids, keep)| == 0
  {
    assert forall id :: id !in FirstIn(db, ids, keep);
  }

  /** Of the snapshots of one machine exactly `keep`, or all if there are fewer, have less
      than `keep` newer ones. */
  lemma {:induction false} FirstAreKeep(db: Db, ids: set<Uuid>, keep: nat)
    requires OneMachine(db, ids)
    ensures |FirstIn(db, ids, keep)| == if keep <= |ids| then keep else |ids|
  {
    if keep == 0 || ids == {} {
      NoneAreFirst(db, ids, keep);
    } else {
      var top := NewestExists(db, ids);
      FirstAreKeep(db, ids - {top}, keep - 1);
      FirstStep(db, ids, top, keep);
    }
  }

  /** The snapshots of a machine that their rank protects: its `keep` newest ones. */
  ghost function Newest(db: Db, machine: Token, keep: nat): set<Uuid> {
    set id | id in db.snapshots && db.snapshots[id].machine == machine && |NewerOnes(db, id)| < keep
  }

  lemma NewestAreKeep(db: Db, machine: Token, keep: nat)
    ensures var all := OfMachine(db, machine); |Newest(db, machine, keep)| == if keep <= |all| then keep else |all|
  {
    var all := OfMachine(db, machine);
    FirstAreKeep(db, all, keep);
    forall id | id in all ensures NewerIn(db, all, id) == NewerOnes(db, id) {
    }
    assert FirstIn(db, all, keep) == Newest(db, machine, keep);
  }

  /** The oldest go: what was deleted had `keep` newer ones, took every older unprotected one
      with it, and of each machine the `keep` newest survive, or all if there are fewer. */
  ghost predicate OldestGo(db: Db, current: Option<Uuid>, keep: nat, cutoff: real, left: set<Uuid>) {
    && (forall id :: id in db.snapshots && id !in left ==> |NewerOnes(db, id)| >= keep)
    && (forall id, older :: id in db.snapshots && id !in left && Unprotected(db, current, cutoff, older) && Newer(db, id, older) ==>
          older !in left)
    && (forall machine :: Newest(db, machine, keep) <= left)
    && (forall machine :: var all := OfMachine(db, machine);
          |Newest(db, machine, keep)| == if keep <= |all| then keep else |all|)
  }

  lemma MayGoAreOldest(db: Db, current: Option<Uuid>, keep: nat, cutoff: real, left: set<Uuid>)
    requires forall id :: id in left <==> id in db.snapshots && !MayGo(db, current, keep, cutoff, id)
    ensures OldestGo(db, current, keep, cutoff, left)
  {
    forall id, older | id in db.snapshots && id !in left && Unprotected(db, current, cutoff, older) && Newer(db, id, older)
      ensures older !in left
    {
      OlderMayGoToo(db, current, keep, cutoff, id, older);
    }
    forall machine ensures var all := OfMachine(db, machine); |Newest(db, machine, keep)| == if keep <= |all| then keep else |all| {
      NewestAreKeep(db, machine, keep);
    }
  }
}
