/** `dedup_devices` and the folding of PCI devices: what the merge keeps of every device. */
module Merge {
  import opened Wrappers
  import opened Strings

  type Token = int

  datatype Kind = Pci | OtherPci | Kind(name: Token)

  datatype Bus = PciBus(address: string, ids: Token) | OtherBus(info: Token)

  datatype Properties =
    | PciInfo(className: Option<string>, rest: Token)
    | OtherPciInfo(originalClass: Option<string>, reason: string)
    | OtherInfo(info: Token)

  datatype Device = Device(
    id: string,
    kind: Kind,
    name: string,
    vendor: Option<string>,
    model: Option<string>,
    serial: Option<string>,
    bus: Option<Bus>,
    driver: Option<Token>,
    parent: Option<string>,
    children: seq<string>,
    capabilities: seq<Token>,
    identifiers: seq<Token>,
    sources: seq<Token>,
    warnings: seq<Token>,
    properties: Properties)

  /** `Device::new`. */
  function NewDevice(id: string, kind: Kind, name: string, properties: Properties): Device {
    Device(id, kind, name, None, None, None, None, None, None, [], [], [], [], [], properties)
  }

  // ----- deduplication -----

  function AddCapabilities(have: seq<Token>, more: seq<Token>): (r: seq<Token>)
    ensures forall c :: c in r <==> c in have || c in more
    ensures have <= r
  {
    if more == [] then have
    else
      var so := AddCapabilities(have, more[..|more| - 1]);
      var last := more[|more| - 1];
      assert forall c :: c in more <==> c == last || c in more[..|more| - 1];
      if last in so then so else so + [last]
  }

  /** `and_modify` on an occupied entry. */
  function MergeInto(existing: Device, d: Device): Device {
    existing.(sources := existing.sources + d.sources,
              warnings := existing.warnings + d.warnings,
              capabilities := AddCapabilities(existing.capabilities, d.capabilities))
  }

  /** The devices with this id, in input order. */
  function Group(devices: seq<Device>, id: string): (r: seq<Device>)
    ensures forall d :: d in r <==> d in devices && d.id == id
  {
    if devices == [] then []
    else
      var last := devices[|devices| - 1];
      assert forall d :: d in devices <==> d == last || d in devices[..|devices| - 1];
      Group(devices[..|devices| - 1], id) + (if last.id == id then [last] else [])
  }

  function Folded(group: seq<Device>): Device
    requires group != []
  {
    if |group| == 1 then group[0] else MergeInto(Folded(group[..|group| - 1]), group[|group| - 1])
  }

  function IdsOf(devices: seq<Device>): (r: seq<string>)
    ensures |r| == |devices| && forall i :: 0 <= i < |devices| ==> r[i] == devices[i].id
  {
    seq(|devices|, i requires 0 <= i < |devices| => devices[i].id)
  }

  lemma GroupOfId(devices: seq<Device>, id: string)
    ensures Group(devices, id) != [] <==> id in IdsOf(devices)
  {
    if id in IdsOf(devices) {
      var i :| 0 <= i < |devices| && IdsOf(devices)[i] == id;
      assert devices[i] in Group(devices, id);
    }
    if Group(devices, id) != [] {
      var d := Group(devices, id)[0];
      assert d in Group(devices, id);
      var i :| 0 <= i < |devices| && devices[i] == d;
      assert IdsOf(devices)[i] == id;
    }
  }

  /** The entry of an id after some devices. */
  ghost function EntryOf(devices: seq<Device>, id: string): Option<Device> {
    if Group(devices, id) == [] then None else Some(Folded(Group(devices, id)))
  }

  ghost predicate IsIndex(byId: map<string, Device>, devices: seq<Device>) {
    forall id :: (if id in byId then Some(byId[id]) else None) == EntryOf(devices, id)
  }

  lemma FoldedMore(group: seq<Device>, d: Device)
    requires group != []
    ensures Folded(group + [d]) == MergeInto(Folded(group), d)
  {
    assert (group + [d])[..|group|] == group;
  }

  lemma EntryStep(devices: seq<Device>, i: nat, id: string)
    requires i < |devices|
    ensures var d, so := devices[i], EntryOf(devices[..i], id);
      EntryOf(devices[..i + 1], id)
      == if id != d.id then so else if so.Some? then Some(MergeInto(so.value, d)) else Some(d)
  {
    assert devices[..i + 1][..i] == devices[..i];
    var group := Group(devices[..i], id);
    if id == devices[i].id {
      assert Group(devices[..i + 1], id) == group + [devices[i]];
      if group != [] {
        FoldedMore(group, devices[i]);
      } else {
        assert Group(devices[..i + 1], id) == [devices[i]];
      }
    } else {
      assert Group(devices[..i + 1], id) == group;
    }
  }

  lemma IndexStep(byId: map<string, Device>, devices: seq<Device>, i: nat)
    requires i < |devices| && IsIndex(byId, devices[..i])
    ensures var d := devices[i];
      IsIndex(byId[d.id := if d.id in byId then MergeInto(byId[d.id], d) else d], devices[..i + 1])
  {
    var d := devices[i];
    var byId' := byId[d.id := if d.id in byId then MergeInto(byId[d.id], d) else d];
    forall id ensures (if id in byId' then Some(byId'[id]) else None) == EntryOf(devices[..i + 1], id) {
      assert (if id in byId then Some(byId[id]) else None) == EntryOf(devices[..i], id);
      EntryStep(devices, i, id);
    }
  }

  /** The values of the map in the order of their ids. */
  function ValuesAt(byId: map<string, Device>, ids: seq<string>): (r: seq<Device>)
    requires forall id :: id in ids ==> id in byId
    ensures |r| == |ids| && forall i :: 0 <= i < |ids| ==> r[i] == byId[ids[i]]
  {
    seq(|ids|, i requires 0 <= i < |ids| => byId[ids[i]])
  }

  /** What deduplication gives, one device for each id in order. */
  ghost predicate IsDeduplicated(devices: seq<Device>, out: seq<Device>) {
    && StrictlySorted(IdsOf(out))
    && (forall id :: id in IdsOf(out) <==> id in IdsOf(devices))
    && forall i :: 0 <= i < |out| ==> Some(out[i]) == EntryOf(devices, out[i].id)
  }

  /** The merged device of each id. */
  function FoldedAt(devices: seq<Device>, ids: seq<string>): (r: seq<Device>)
    requires forall id :: id in ids ==> Group(devices, id) != []
    ensures |r| == |ids| && forall i :: 0 <= i < |ids| ==> r[i] == Folded(Group(devices, ids[i]))
  {
    seq(|ids|, i requires 0 <= i < |ids| => Folded(Group(devices, ids[i])))
  }

  lemma GroupsOfIds(devices: seq<Device>)
    ensures forall id :: id in SortedSet(IdsOf(devices)) ==> Group(devices, id) != []
  {
    SortedSetExactly(IdsOf(devices), IdsOf(devices));
    forall id | id in SortedSet(IdsOf(devices)) ensures Group(devices, id) != [] { GroupOfId(devices, id); }
  }

  lemma FoldedAtIds(devices: seq<Device>, ids: seq<string>)
    requires ids == SortedSet(IdsOf(devices)) && forall id :: id in ids ==> Group(devices, id) != []
    ensures IsDeduplicated(devices, FoldedAt(devices, ids))
  {
    SortedSetExactly(IdsOf(devices), IdsOf(devices));
    var out := FoldedAt(devices, ids);
    forall i | 0 <= i < |ids| ensures out[i].id == ids[i] && Some(out[i]) == EntryOf(devices, ids[i]) { FoldedAtId(devices, ids, i); }
    assert IdsOf(out) == ids;
  }

  lemma FoldedAtId(devices: seq<Device>, ids: seq<string>, i: nat)
    requires i < |ids| && forall id :: id in ids ==> Group(devices, id) != []
    ensures FoldedAt(devices, ids)[i].id == ids[i] && Some(FoldedAt(devices, ids)[i]) == EntryOf(devices, ids[i])
  {
    assert ids[i] in ids;
    FoldedId(Group(devices, ids[i]), ids[i]);
  }

  /** Deduplication as a function: the specification that the loop is proved against. */
  function Deduplicated(devices: seq<Device>): (out: seq<Device>)
    ensures IsDeduplicated(devices, out)
  {
    GroupsOfIds(devices);
    FoldedAtIds(devices, SortedSet(IdsOf(devices)));
    FoldedAt(devices, SortedSet(IdsOf(devices)))
  }

  method DedupDevices(devices: seq<Device>) returns (out: seq<Device>)
    ensures out == Deduplicated(devices)
  {
    var byId: map<string, Device> := map[];
    var i := 0;
    while i < |devices|
      invariant 0 <= i <= |devices| && IsIndex(byId, devices[..i])
    {
      IndexStep(byId, devices, i);
      var d := devices[i];
      byId := byId[d.id := if d.id in byId then MergeInto(byId[d.id], d) else d];
      i := i + 1;
    }
    assert devices[..i] == devices;
    var ids := SortedSet(IdsOf(devices));
    IndexHasIds(byId, devices, ids);
    out := ValuesAt(byId, ids);
    IndexIsDeduplicated(byId, devices, ids);
    DeduplicatedUnique(devices, out, Deduplicated(devices));
  }

  lemma IndexHasIds(byId: map<string, Device>, devices: seq<Device>, ids: seq<string>)
    requires IsIndex(byId, devices) && ids == SortedSet(IdsOf(devices))
    ensures forall id :: id in byId <==> id in ids
    ensures forall id :: id in ids <==> id in IdsOf(devices)
    ensures StrictlySorted(ids)
  {
    SortedSetExactly(IdsOf(devices), IdsOf(devices));
    forall id ensures id in byId <==> id in ids {
      GroupOfId(devices, id);
      assert (if id in byId then Some(byId[id]) else None) == EntryOf(devices, id);
    }
  }

  lemma {:induction false} FoldedId(group: seq<Device>, id: string)
    requires group != [] && forall d :: d in group ==> d.id == id
    ensures Folded(group).id == id
  {
    if |group| > 1 { FoldedId(group[..|group| - 1], id); }
  }

  lemma IndexIsDeduplicated(byId: map<string, Device>, devices: seq<Device>, ids: seq<string>)
    requires IsIndex(byId, devices) && ids == SortedSet(IdsOf(devices)) && forall id :: id in ids ==> id in byId
    ensures IsDeduplicated(devices, ValuesAt(byId, ids))
  {
    IndexHasIds(byId, devices, ids);
    var out := ValuesAt(byId, ids);
    forall i | 0 <= i < |out| ensures out[i].id == ids[i] && Some(out[i]) == EntryOf(devices, ids[i]) {
      assert ids[i] in byId;
      assert Some(byId[ids[i]]) == EntryOf(devices, ids[i]);
      FoldedId(Group(devices, ids[i]), ids[i]);
    }
    assert IdsOf(out) == ids;
  }

  // ----- what a merged device is -----

  function Sources(group: seq<Device>): seq<Token> {
    if group == [] then [] else Sources(group[..|group| - 1]) + group[|group| - 1].sources
  }

  function Warnings(group: seq<Device>): seq<Token> {
    if group == [] then [] else Warnings(group[..|group| - 1]) + group[|group| - 1].warnings
  }

  /** The first device of the group with everybody's sources and warnings in input order and
      the union of the capabilities. */
  lemma {:induction false} FoldedConserves(group: seq<Device>)
    requires group != []
    ensures var d := Folded(group);
      && d == group[0].(sources := d.sources, warnings := d.warnings, capabilities := d.capabilities)
      && d.sources == Sources(group) && d.warnings == Warnings(group)
      && group[0].capabilities <= d.capabilities
      && (forall c :: c in d.capabilities <==> exists g :: g in group && c in g.capabilities)
  {
    if |group| > 1 {
      var rest, last := group[..|group| - 1], group[|group| - 1];
      FoldedConserves(rest);
      assert forall g :: g in group <==> g == last || g in rest;
    } else {
      assert group[..0] == [];
      assert Sources(group) == group[0].sources && Warnings(group) == group[0].warnings;
    }
  }

  /** Nothing is lost: for every id of the input there is one device, the first of that id,
      with the sources and warnings of all of them in input order and the union of their
      capabilities; and the output is ordered by id. */
  lemma DeduplicationConserves(devices: seq<Device>, i: nat)
    requires i < |Deduplicated(devices)|
    ensures var d := Deduplicated(devices)[i]; var group := Group(devices, d.id);
      && group != []
      && d == group[0].(sources := Sources(group), warnings := Warnings(group), capabilities := d.capabilities)
      && (forall c :: c in d.capabilities <==> exists g :: g in devices && g.id == d.id && c in g.capabilities)
    ensures StrictlySorted(IdsOf(Deduplicated(devices)))
    ensures forall id :: id in IdsOf(Deduplicated(devices)) <==> id in IdsOf(devices)
  {
    var d := Deduplicated(devices)[i];
    assert Some(d) == EntryOf(devices, d.id);
    var group := Group(devices, d.id);
    FoldedConserves(group);
    forall c ensures c in d.capabilities <==> exists g :: g in devices && g.id == d.id && c in g.capabilities {
      if exists g :: g in devices && g.id == d.id && c in g.capabilities {
        var g :| g in devices && g.id == d.id && c in g.capabilities;
        assert g in group;
      }
    }
  }

  lemma {:induction false} NoneOfId(devices: seq<Device>, id: string)
    requires forall k :: 0 <= k < |devices| ==> devices[k].id != id
    ensures Group(devices, id) == []
  {
    if devices != [] { NoneOfId(devices[..|devices| - 1], id); }
  }

  lemma {:induction false} OneOfId(devices: seq<Device>, i: nat)
    requires i < |devices| && forall k :: 0 <= k < |devices| && k != i ==> devices[k].id != devices[i].id
    ensures Group(devices, devices[i].id) == [devices[i]]
  {
    if i < |devices| - 1 { OneOfId(devices[..|devices| - 1], i); } else { NoneOfId(devices[..i], devices[i].id); }
  }

  lemma DeduplicatedUnique(devices: seq<Device>, out: seq<Device>, out': seq<Device>)
    requires IsDeduplicated(devices, out) && IsDeduplicated(devices, out')
    ensures out == out'
  {
    StrictlySortedUnique(IdsOf(out), IdsOf(out'));
    assert |out| == |IdsOf(out)| == |IdsOf(out')| == |out'|;
    forall i | 0 <= i < |out| ensures out[i] == out'[i] {
      assert IdsOf(out)[i] == out[i].id && IdsOf(out')[i] == out'[i].id;
    }
  }

  /** Deduplicating again changes nothing. */
  lemma DeduplicationIdempotent(devices: seq<Device>)
    ensures Deduplicated(Deduplicated(devices)) == Deduplicated(devices)
  {
    var out := Deduplicated(devices);
    forall i | 0 <= i < |out| ensures Some(out[i]) == EntryOf(out, out[i].id) {
      forall k | 0 <= k < |out| && k != i ensures out[k].id != out[i].id {
        assert IdsOf(out)[k] == out[k].id && IdsOf(out)[i] == out[i].id;
      }
      OneOfId(out, i);
    }
    assert IsDeduplicated(out, out);
    DeduplicatedUnique(out, Deduplicated(out), out);
  }

  // ----- PCI folding -----

  function PciId(address: string): string { "pci:" + Trim(address) }

  /** The PCI device that stands behind a device of another kind. */
  function BackingPciId(d: Device): Option<string> {
    if d.kind.Pci? || d.bus.None? || !d.bus.value.PciBus? then None else Some(PciId(d.bus.value.address))
  }

  /** `str::replace` of every occurrence of a text. */
  function ReplaceText(s: string, what: string, code: string): string
    requires what != ""
    decreases |s|
  {
    if |s| < |what| then s
    else if s[..|what|] == what then code + ReplaceText(s[|what|..], what, code)
    else [s[0]] + ReplaceText(s[1..], what, code)
  }

  const UNCLASSIFIED := "unclassified-pci-device"

  /** `other_pci_from`: a new device that takes over some fields. */
  function OtherPciFrom(d: Device): Device {
    var originalClass := if d.properties.PciInfo? then d.properties.className else None;
    NewDevice(ReplaceText(d.id, "pci:", "other-pci:"), OtherPci, d.name, OtherPciInfo(originalClass, UNCLASSIFIED))
    .(bus := d.bus, driver := d.driver, capabilities := d.capabilities, identifiers := d.identifiers,
      sources := d.sources, warnings := d.warnings)
  }

  /** The evidence of a device: everything but what it is taken for and its place among others. */
  predicate SameEvidence(a: Device, b: Device) {
    a.name == b.name && a.bus == b.bus && a.driver == b.driver && a.capabilities == b.capabilities
    && a.identifiers == b.identifiers && a.sources == b.sources && a.warnings == b.warnings
  }

  /** The fallback has the evidence of the PCI device, but not its vendor, model, serial
      number, parent and children, and of its properties only the class name. */
  predicate IsFallback(fallback: Device, d: Device) {
    SameEvidence(fallback, d) && fallback.kind.OtherPci?
    && fallback.vendor.None? && fallback.model.None? && fallback.serial.None?
    && fallback.parent.None? && fallback.children == []
    && fallback.properties == OtherPciInfo(if d.properties.PciInfo? then d.properties.className else None, UNCLASSIFIED)
  }

  /** A device of another kind sits on the PCI bus at the address that this id names. */
  predicate Backs(d: Device, id: string) {
    !d.kind.Pci? && d.bus.Some? && d.bus.value.PciBus? && id == "pci:" + Trim(d.bus.value.address)
  }

  ghost predicate IsConsumed(devices: seq<Device>, consumed: set<string>, id: string) {
    id in consumed || exists d :: d in devices && Backs(d, id)
  }

  /** One device through the filter; `ids` are the consumed ids. */
  function FoldOne(d: Device, ids: set<string>): seq<Device> {
    if !d.kind.Pci? then [d] else if d.id in ids then [] else [OtherPciFrom(d)]
  }

  function FoldPci(devices: seq<Device>, ids: set<string>): seq<Device> {
    if devices == [] then [] else FoldPci(devices[..|devices| - 1], ids) + FoldOne(devices[|devices| - 1], ids)
  }

  function ConsumedIds(devices: seq<Device>, consumed: set<string>): (ids: set<string>)
    ensures forall id :: id in ids <==> IsConsumed(devices, consumed, id)
  {
    var backing := set d | d in devices && BackingPciId(d).Some? :: BackingPciId(d).value;
    assert forall d, id :: BackingPciId(d) == Some(id) <==> Backs(d, id);
    consumed + backing
  }

  method FoldPciDevices(devices: seq<Device>, consumed: set<string>) returns (out: seq<Device>)
    ensures out == FoldPci(devices, ConsumedIds(devices, consumed))
  {
    var ids := ConsumedIds(devices, consumed);
    out := [];
    var i := 0;
    while i < |devices|
      invariant 0 <= i <= |devices| && out == FoldPci(devices[..i], ids)
    {
      assert devices[..i + 1][..i] == devices[..i];
      if devices[i].kind.Pci? {
        if devices[i].id !in ids {
          out := out + [OtherPciFrom(devices[i])];
        }
      } else {
        out := out + [devices[i]];
      }
      i := i + 1;
    }
    assert devices[..i] == devices;
  }

  /** The devices of other kinds, in order. */
  function NotPci(devices: seq<Device>): seq<Device> {
    if devices == [] then []
    else NotPci(devices[..|devices| - 1])
         + (if devices[|devices| - 1].kind.Pci? then [] else [devices[|devices| - 1]])
  }

  /** The PCI devices that nothing consumes, in order. */
  function Unclaimed(devices: seq<Device>, ids: set<string>): seq<Device> {
    if devices == [] then []
    else Unclaimed(devices[..|devices| - 1], ids)
         + (var d := devices[|devices| - 1]; if d.kind.Pci? && d.id !in ids then [d] else [])
  }

  function OtherPciAll(devices: seq<Device>): (r: seq<Device>)
    ensures |r| == |devices| && forall i :: 0 <= i < |devices| ==> r[i] == OtherPciFrom(devices[i])
  {
    seq(|devices|, i requires 0 <= i < |devices| => OtherPciFrom(devices[i]))
  }

  lemma {:induction false} NotPciMembers(devices: seq<Device>, ids: set<string>)
    ensures forall d :: d in NotPci(devices) <==> d in devices && !d.kind.Pci?
    ensures forall d :: d in Unclaimed(devices, ids) <==> d in devices && d.kind.Pci? && d.id !in ids
  {
    if devices != [] {
      var n := |devices| - 1;
      NotPciMembers(devices[..n], ids);
      assert forall d :: d in devices <==> d == devices[n] || d in devices[..n];
    }
  }

  /** The first list is the other two taken together. */
  ghost predicate Balanced(whole: seq<Device>, a: seq<Device>, b: seq<Device>) {
    multiset(whole) == multiset(a) + multiset(b)
  }

  lemma BalancedMore(whole: seq<Device>, a: seq<Device>, b: seq<Device>, x: Device)
    requires Balanced(whole, a, b)
    ensures Balanced(whole + [x], a + [x], b) && Balanced(whole + [x], a, b + [x])
  {
  }

  lemma OtherPciMore(so: seq<Device>, d: Device)
    ensures OtherPciAll(so + [d]) == OtherPciAll(so) + [OtherPciFrom(d)]
  {
  }

  /** What the last device adds to each list. */
  lemma LastFolded(devices: seq<Device>, ids: set<string>)
    requires devices != []
    ensures var rest, d := devices[..|devices| - 1], devices[|devices| - 1];
      && FoldPci(devices, ids) == FoldPci(rest, ids) + FoldOne(d, ids)
      && NotPci(devices) == NotPci(rest) + (if d.kind.Pci? then [] else [d])
      && Unclaimed(devices, ids) == Unclaimed(rest, ids) + (if d.kind.Pci? && d.id !in ids then [d] else [])
  {
  }

  lemma BalanceStep(folded: seq<Device>, rest: seq<Device>, so: seq<Device>, d: Device, ids: set<string>)
    requires Balanced(folded, rest, OtherPciAll(so))
    ensures Balanced(folded + FoldOne(d, ids), rest + (if d.kind.Pci? then [] else [d]),
                     OtherPciAll(so + (if d.kind.Pci? && d.id !in ids then [d] else [])))
  {
    if !d.kind.Pci? {
      BalancedMore(folded, rest, OtherPciAll(so), d);
      assert so + [] == so;
    } else if d.id in ids {
      assert folded + [] == folded && rest + [] == rest && so + [] == so;
    } else {
      BalancedMore(folded, rest, OtherPciAll(so), OtherPciFrom(d));
      OtherPciMore(so, d);
      assert rest + [] == rest;
    }
  }

  lemma {:induction false} FoldingCounts(devices: seq<Device>, ids: set<string>)
    ensures Balanced(FoldPci(devices, ids), NotPci(devices), OtherPciAll(Unclaimed(devices, ids)))
  {
    if devices != [] {
      var rest, d := devices[..|devices| - 1], devices[|devices| - 1];
      FoldingCounts(rest, ids);
      BalanceStep(FoldPci(rest, ids), NotPci(rest), Unclaimed(rest, ids), d, ids);
      LastFolded(devices, ids);
    }
  }

  lemma {:induction false} NoPciLeft(devices: seq<Device>, ids: set<string>)
    ensures forall d :: d in FoldPci(devices, ids) ==> !d.kind.Pci?
  {
    if devices != [] { NoPciLeft(devices[..|devices| - 1], ids); }
  }

  /** Folding conserves: what comes out is, counted with repetition, every device of another
      kind unchanged and one `OtherPci` with the evidence of each PCI device that is neither
      consumed by a probe nor backs another device; no `Pci` device is left. */
  lemma FoldingConserves(devices: seq<Device>, consumed: set<string>)
    ensures var ids := ConsumedIds(devices, consumed);
      && Balanced(FoldPci(devices, ids), NotPci(devices), OtherPciAll(Unclaimed(devices, ids)))
      && (forall d :: d in FoldPci(devices, ids) ==> !d.kind.Pci?)
      && (forall i :: 0 <= i < |Unclaimed(devices, ids)| ==> IsFallback(OtherPciAll(Unclaimed(devices, ids))[i], Unclaimed(devices, ids)[i]))
      && (forall d :: d in NotPci(devices) <==> d in devices && !d.kind.Pci?)
      && (forall d :: d in Unclaimed(devices, ids) <==> d in devices && d.kind.Pci? && !IsConsumed(devices, consumed, d.id))
  {
    var ids := ConsumedIds(devices, consumed);
    FoldingCounts(devices, ids);
    NoPciLeft(devices, ids);
    NotPciMembers(devices, ids);
  }
}
