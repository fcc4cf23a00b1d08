/** `diff_snapshots`: from two device lists to added, removed and changed devices. */
module Diff {
  import opened Wrappers
  import opened Strings

  /** Everything but the id is content that is only compared. */
  datatype Device = Device(id: string, content: int)

  datatype Changed = Changed(id: string, before: Device, after: Device)

  datatype SnapshotDiff = SnapshotDiff(added: seq<Device>, removed: seq<Device>, changed: seq<Changed>)

  type Devices = map<string, Device>

  /** Each device is filed under its own id. */
  ghost predicate Filed(m: Devices) {
    forall id :: id in m ==> m[id].id == id
  }

  /** Collecting into a `BTreeMap`: a later device replaces an earlier one with the same id. */
  function ById(devices: seq<Device>): (m: Devices)
    ensures forall id :: id in m ==> m[id].id == id && m[id] in devices
    ensures forall d :: d in devices ==> d.id in m
  {
    if devices == [] then map[]
    else
      var last := devices[|devices| - 1];
      assert forall d :: d in devices <==> d == last || d in devices[..|devices| - 1];
      ById(devices[..|devices| - 1])[last.id := last]
  }

  lemma {:induction false} LaterWins(devices: seq<Device>, i: nat)
    requires i < |devices| && forall j :: i < j < |devices| ==> devices[j].id != devices[i].id
    ensures ById(devices)[devices[i].id] == devices[i]
  {
    if i < |devices| - 1 { LaterWins(devices[..|devices| - 1], i); }
  }

  // ----- the specification, id by id -----

  function Added(before: Devices, after: Devices, ids: seq<string>): (r: seq<Device>)
    ensures forall d :: d in r <==> exists id :: id in ids && id in after && id !in before && after[id] == d
  {
    if ids == [] then []
    else
      var n := |ids| - 1;
      assert forall id :: id in ids <==> id == ids[n] || id in ids[..n];
      Added(before, after, ids[..n]) + (if ids[n] in after && ids[n] !in before then [after[ids[n]]] else [])
  }

  function ChangedDevices(before: Devices, after: Devices, ids: seq<string>): (r: seq<Changed>)
    ensures forall c :: c in r <==>
      c.id in ids && c.id in before && c.id in after && before[c.id] != after[c.id] && c == Changed(c.id, before[c.id], after[c.id])
  {
    if ids == [] then []
    else
      var n, id := |ids| - 1, ids[|ids| - 1];
      assert forall x :: x in ids <==> x == id || x in ids[..n];
      ChangedDevices(before, after, ids[..n])
      + (if id in before && id in after && before[id] != after[id] then [Changed(id, before[id], after[id])] else [])
  }

  function DiffOver(before: Devices, after: Devices, ids: seq<string>): SnapshotDiff {
    SnapshotDiff(Added(before, after, ids), Added(after, before, ids), ChangedDevices(before, after, ids))
  }

  function IdsOf(devices: seq<Device>): (r: seq<string>)
    ensures |r| == |devices| && forall i :: 0 <= i < |devices| ==> r[i] == devices[i].id
  {
    seq(|devices|, i requires 0 <= i < |devices| => devices[i].id)
  }

  /** The keys of both maps as an ordered set. */
  function AllIds(from: seq<Device>, to: seq<Device>): seq<string> { SortedSet(IdsOf(from) + IdsOf(to)) }

  lemma AllIdsExactly(from: seq<Device>, to: seq<Device>)
    ensures StrictlySorted(AllIds(from, to))
    ensures forall id :: id in AllIds(from, to) <==> id in ById(from) || id in ById(to)
    ensures AllIds(from, to) == AllIds(to, from)
  {
    SortedSetExactly(IdsOf(from) + IdsOf(to), IdsOf(to) + IdsOf(from));
    KeysAreIds(from);
    KeysAreIds(to);
  }

  lemma KeysAreIds(devices: seq<Device>)
    ensures forall id :: id in ById(devices) <==> id in IdsOf(devices)
  {
    forall id | id in ById(devices) ensures id in IdsOf(devices) {
      var i :| 0 <= i < |devices| && devices[i] == ById(devices)[id];
      assert IdsOf(devices)[i] == id;
    }
    forall id | id in IdsOf(devices) ensures id in ById(devices) {
      var i :| 0 <= i < |devices| && IdsOf(devices)[i] == id;
      assert devices[i] in devices;
    }
  }

  /** What is left of a map when the first n ids have been looked at. */
  ghost predicate Left(m: Devices, whole: Devices, ids: seq<string>, n: nat)
    requires n <= |ids|
  {
    (forall id :: id in m <==> id in whole && id !in ids[..n]) && (forall id :: id in m ==> m[id] == whole[id])
  }

  lemma LeftLess(m: Devices, whole: Devices, ids: seq<string>, n: nat)
    requires n < |ids| && Left(m, whole, ids, n)
    ensures Left(m - {ids[n]}, whole, ids, n + 1)
  {
    assert ids[..n + 1] == ids[..n] + [ids[n]];
  }

  lemma DiffOverMore(before: Devices, after: Devices, ids: seq<string>, n: nat)
    requires n < |ids|
    ensures var id, so, next := ids[n], DiffOver(before, after, ids[..n]), DiffOver(before, after, ids[..n + 1]);
      if id in before && id in after then
        next == if before[id] != after[id] then so.(changed := so.changed + [Changed(id, before[id], after[id])]) else so
      else if id in before then next == so.(removed := so.removed + [before[id]])
      else if id in after then next == so.(added := so.added + [after[id]])
      else next == so
  {
    assert ids[..n + 1][..n] == ids[..n];
  }

  /** The loop takes each id out of both maps. */
  method DiffSnapshots(from: seq<Device>, to: seq<Device>) returns (diff: SnapshotDiff)
    ensures diff == DiffOver(ById(from), ById(to), AllIds(from, to))
  {
    var before, after := ById(from), ById(to);
    ghost var before0, after0 := before, after;
    var added, removed, changed := [], [], [];
    var ids := AllIds(from, to);
    AllIdsExactly(from, to);
    var i := 0;
    while i < |ids|
      invariant 0 <= i <= |ids|
      invariant Left(before, before0, ids, i) && Left(after, after0, ids, i)
      invariant SnapshotDiff(added, removed, changed) == DiffOver(before0, after0, ids[..i])
    {
      var id := ids[i];
      assert id !in ids[..i];
      DiffOverMore(before0, after0, ids, i);
      if id !in before && id in after {
        added := added + [after[id]];
      } else if id in before && id !in after {
        removed := removed + [before[id]];
      } else if id in before && id in after && before[id] != after[id] {
        changed := changed + [Changed(id, before[id], after[id])];
      }
      LeftLess(before, before0, ids, i);
      LeftLess(after, after0, ids, i);
      before := before - {id};
      after := after - {id};
      i := i + 1;
    }
    assert ids[..i] == ids;
    diff := SnapshotDiff(added, removed, changed);
  }

  // ----- the diff is an invertible patch -----

  ghost predicate Covers(ids: seq<string>, before: Devices, after: Devices) {
    (forall id :: id in before || id in after ==> id in ids) && Filed(before) && Filed(after)
  }

  function RemovedIds(removed: seq<Device>): set<string> { set d | d in removed :: d.id }

  /** Files devices one after the other. */
  function PutAll(m: Devices, devices: seq<Device>): Devices {
    if devices == [] then m
    else PutAll(m, devices[..|devices| - 1])[devices[|devices| - 1].id := devices[|devices| - 1]]
  }

  function Afters(changed: seq<Changed>): (r: seq<Device>)
    ensures |r| == |changed| && forall i :: 0 <= i < |changed| ==> r[i] == changed[i].after
  {
    seq(|changed|, i requires 0 <= i < |changed| => changed[i].after)
  }

  /** Remove, replace, add. */
  function Patch(m: Devices, diff: SnapshotDiff): Devices {
    PutAll(PutAll(m - RemovedIds(diff.removed), Afters(diff.changed)), diff.added)
  }

  ghost predicate Names(devices: seq<Device>, id: string) {
    exists d :: d in devices && d.id == id
  }

  /** Every device is the one that the target files under its id. */
  ghost predicate From(devices: seq<Device>, target: Devices) {
    forall d :: d in devices ==> d.id in target && target[d.id] == d
  }

  lemma {:induction false} PutConsistent(m: Devices, devices: seq<Device>, target: Devices, id: string)
    requires From(devices, target)
    ensures var r := PutAll(m, devices);
      (id in r <==> id in m || Names(devices, id))
      && (id in r ==> r[id] == if Names(devices, id) then target[id] else m[id])
  {
    if devices != [] {
      var n := |devices| - 1;
      assert forall d :: d in devices <==> d == devices[n] || d in devices[..n];
      PutConsistent(m, devices[..n], target, id);
      assert Names(devices, id) <==> id == devices[n].id || Names(devices[..n], id);
    }
  }

  lemma AddedNames(before: Devices, after: Devices, ids: seq<string>, id: string)
    requires Covers(ids, before, after)
    ensures Names(Added(before, after, ids), id) <==> id in after && id !in before
  {
    if id in after && id !in before { assert after[id] in Added(before, after, ids); }
  }

  lemma ChangedNames(before: Devices, after: Devices, ids: seq<string>, id: string)
    requires Covers(ids, before, after)
    ensures Names(Afters(ChangedDevices(before, after, ids)), id) <==> id in before && id in after && before[id] != after[id]
    ensures From(Afters(ChangedDevices(before, after, ids)), after)
  {
    var changed := ChangedDevices(before, after, ids);
    forall d | d in Afters(changed) ensures d.id in before && d.id in after && before[d.id] != after[d.id] && after[d.id] == d {
      var i :| 0 <= i < |changed| && Afters(changed)[i] == d;
      assert changed[i] in changed;
    }
    if id in before && id in after && before[id] != after[id] {
      var c := Changed(id, before[id], after[id]);
      var i :| 0 <= i < |changed| && changed[i] == c;
      assert Afters(changed)[i] == after[id];
    }
  }

  lemma RemovedNames(before: Devices, after: Devices, ids: seq<string>, id: string)
    requires Covers(ids, before, after)
    ensures id in RemovedIds(Added(after, before, ids)) <==> id in before && id !in after
  {
    AddedNames(after, before, ids, id);
    assert id in RemovedIds(Added(after, before, ids)) <==> Names(Added(after, before, ids), id);
  }

  lemma AddedAreAfter(before: Devices, after: Devices, ids: seq<string>)
    requires Covers(ids, before, after)
    ensures From(Added(before, after, ids), after)
  {
  }

  /** At each id. */
  lemma PatchAt(before: Devices, after: Devices, ids: seq<string>, id: string)
    requires Covers(ids, before, after)
    ensures var r := Patch(before, DiffOver(before, after, ids)); (id in r <==> id in after) && (id in after ==> r[id] == after[id])
  {
    var diff := DiffOver(before, after, ids);
    var kept := before - RemovedIds(diff.removed);
    RemovedNames(before, after, ids, id);
    AddedNames(before, after, ids, id);
    ChangedNames(before, after, ids, id);
    AddedAreAfter(before, after, ids);
    PutConsistent(kept, Afters(diff.changed), after, id);
    PutConsistent(PutAll(kept, Afters(diff.changed)), diff.added, after, id);
  }

  /** The patch turns the before map into the after map. */
  lemma PatchIsExact(before: Devices, after: Devices, ids: seq<string>)
    requires Covers(ids, before, after)
    ensures Patch(before, DiffOver(before, after, ids)) == after
  {
    var r := Patch(before, DiffOver(before, after, ids));
    forall id ensures (id in r <==> id in after) && (id in after ==> r[id] == after[id]) {
      PatchAt(before, after, ids, id);
    }
  }

  function Reverse(changed: seq<Changed>): (r: seq<Changed>)
    ensures |r| == |changed|
    ensures forall i :: 0 <= i < |changed| ==> r[i] == Changed(changed[i].id, changed[i].after, changed[i].before)
  {
    seq(|changed|, i requires 0 <= i < |changed| => Changed(changed[i].id, changed[i].after, changed[i].before))
  }

  function Inverse(diff: SnapshotDiff): SnapshotDiff {
    SnapshotDiff(diff.removed, diff.added, Reverse(diff.changed))
  }

  lemma {:induction false} ChangedSwap(before: Devices, after: Devices, ids: seq<string>)
    ensures ChangedDevices(after, before, ids) == Reverse(ChangedDevices(before, after, ids))
  {
    if ids != [] { ChangedSwap(before, after, ids[..|ids| - 1]); }
  }

  ghost predicate IsEmpty(diff: SnapshotDiff) { diff.added == [] && diff.removed == [] && diff.changed == [] }

  lemma HasElement<T>(xs: seq<T>)
    requires xs != []
    ensures exists x :: x in xs
  {
    assert xs[0] in xs;
  }

  lemma NoNames(devices: seq<Device>)
    requires forall id :: !Names(devices, id)
    ensures devices == []
  {
    if devices != [] { NamesFirst(devices); }
  }

  lemma NamesFirst(devices: seq<Device>)
    requires devices != []
    ensures exists id :: Names(devices, id)
  {
    assert devices[0] in devices;
    assert Names(devices, devices[0].id);
  }

  lemma EmptyExactly(before: Devices, after: Devices, ids: seq<string>)
    requires Covers(ids, before, after)
    ensures IsEmpty(DiffOver(before, after, ids)) <==> before == after
  {
    var diff := DiffOver(before, after, ids);
    if IsEmpty(diff) {
      PatchIsExact(before, after, ids);
      assert before - {} == before;
    }
    if before == after {
      forall id ensures !Names(diff.added, id) && !Names(diff.removed, id) {
        AddedNames(before, after, ids, id);
        AddedNames(after, before, ids, id);
      }
      NoNames(diff.added);
      NoNames(diff.removed);
      if diff.changed != [] { HasElement(diff.changed); }
    }
  }

  /** The diff of two device lists, as the method returns it. */
  function DiffOf(from: seq<Device>, to: seq<Device>): SnapshotDiff { DiffOver(ById(from), ById(to), AllIds(from, to)) }

  /** The diff is an invertible patch between the two id-to-device maps: it turns the one into
      the other, its inverse is the diff with the arguments swapped, and it is empty exactly
      when the maps are equal. */
  lemma DiffIsPatch(from: seq<Device>, to: seq<Device>)
    ensures Patch(ById(from), DiffOf(from, to)) == ById(to)
    ensures DiffOf(to, from) == Inverse(DiffOf(from, to))
    ensures Patch(ById(to), Inverse(DiffOf(from, to))) == ById(from)
    ensures IsEmpty(DiffOf(from, to)) <==> ById(from) == ById(to)
  {
    AllIdsExactly(from, to);
    AllIdsExactly(to, from);
    PatchIsExact(ById(from), ById(to), AllIds(from, to));
    PatchIsExact(ById(to), ById(from), AllIds(to, from));
    EmptyExactly(ById(from), ById(to), AllIds(from, to));
    ChangedSwap(ById(from), ById(to), AllIds(from, to));
  }

  lemma {:induction false} OrderedById(before: Devices, after: Devices, ids: seq<string>)
    requires StrictlySorted(ids) && Filed(before) && Filed(after)
    ensures StrictlySorted(IdsOf(Added(before, after, ids)))
    ensures forall d :: d in Added(before, after, ids) ==> d.id in ids
  {
    if ids != [] {
      var n := |ids| - 1;
      OrderedById(before, after, ids[..n]);
      var so, all := Added(before, after, ids[..n]), Added(before, after, ids);
      forall d | d in so ensures Leq(d.id, ids[n]) && d.id != ids[n] {
        var k :| 0 <= k < n && ids[k] == d.id;
      }
      if |all| > |so| {
        forall i, j | 0 <= i < j < |all| ensures Leq(IdsOf(all)[i], IdsOf(all)[j]) && IdsOf(all)[i] != IdsOf(all)[j] {
          if j < |so| {
            assert IdsOf(so)[i] == IdsOf(all)[i] && IdsOf(so)[j] == IdsOf(all)[j];
          } else {
            assert all[i] in so;
          }
        }
      }
    }
  }

  /** Added and removed devices come out ordered by id already; sorting them again is idle. */
  lemma DiffIsOrdered(from: seq<Device>, to: seq<Device>)
    ensures StrictlySorted(IdsOf(DiffOf(from, to).added)) && StrictlySorted(IdsOf(DiffOf(from, to).removed))
  {
    AllIdsExactly(from, to);
    OrderedById(ById(from), ById(to), AllIds(from, to));
    OrderedById(ById(to), ById(from), AllIds(from, to));
  }
}
