/** Plug-and-play enumeration: drivers, the memory of failed (slot, driver) pairs, and
    the list of known devices, grown until nothing new appears. */
module Pnp {
  import opened Machine

  datatype DeviceID = DeviceID(bus: int, vendor: nat, device: nat, revision: nat, extra: nat, class_: nat)

  const NULL_BUS := -1

  datatype Driver = Driver(handle: nat, id: DeviceID, priority: nat)

  /** A device object: the root, or what a driver made for slot `index` of a parent. */
  datatype Device = Root | Made(parent: Device, index: nat, driver: Driver)

  datatype Known = Known(parent: Device, index: nat, id: DeviceID, device: Option<Device>)

  datatype Bad = Bad(parent: Device, index: nat, driver: Driver)

  /** The hardware and the drivers: subdevice ids, compatibility, and whether the n-th
      CreateDevice call succeeds. The device tree has no devices below depth `limit`. */
  datatype World = World(
    sub: Device -> seq<DeviceID>, compatible: (Driver, DeviceID) -> bool, outcome: nat -> bool, limit: nat)

  function Depth(d: Device): nat {
    match d
    case Root => 0
    case Made(p, _, _) => 1 + Depth(p)
  }

  ghost predicate Finite(w: World) {
    forall d: Device {:trigger w.sub(d)} :: Depth(d) >= w.limit ==> w.sub(d) == []
  }

  /** DeviceIDMatch: zero fields of the driver's id are wildcards. */
  predicate IdMatch(a: DeviceID, b: DeviceID) {
    && a.bus == b.bus
    && (a.vendor == 0 || a.vendor == b.vendor)
    && (a.device == 0 || a.device == b.device)
    && (a.revision == 0 || a.revision == b.revision)
    && (a.extra == 0 || a.extra == b.extra)
    && (a.class_ == 0 || a.class_ == b.class_)
  }

  /** The driver's id with what it leaves open filled in from the device's. */
  function Completed(a: DeviceID, b: DeviceID): DeviceID {
    DeviceID(a.bus,
             if a.vendor == 0 then b.vendor else a.vendor,
             if a.device == 0 then b.device else a.device,
             if a.revision == 0 then b.revision else a.revision,
             if a.extra == 0 then b.extra else a.extra,
             if a.class_ == 0 then b.class_ else a.class_)
  }

  /** The test passes exactly if the driver's id, so completed, is the device's. */
  lemma IdMatchIs(a: DeviceID, b: DeviceID)
    ensures IdMatch(a, b) <==> Completed(a, b) == b
  {}

  predicate Suits(w: World, d: Driver, id: DeviceID) {
    Completed(d.id, id) == id && w.compatible(d, id)
  }

  // ---------- Records ----------

  /** First record of a slot; |known| if none. */
  function Lookup(known: seq<Known>, p: Device, i: nat): (k: nat)
    ensures k <= |known|
    ensures k < |known| ==> known[k].parent == p && known[k].index == i
    ensures forall l :: 0 <= l < k ==> !(known[l].parent == p && known[l].index == i)
  {
    if known == [] || (known[0].parent == p && known[0].index == i) then 0 else 1 + Lookup(known[1..], p, i)
  }

  predicate Recorded(known: seq<Known>, p: Device, i: nat) { Lookup(known, p, i) < |known| }

  function DeviceAt(known: seq<Known>, p: Device, i: nat): Option<Device> {
    var k := Lookup(known, p, i);
    if k < |known| then known[k].device else None
  }

  /** Each slot is recorded at most once. */
  ghost predicate Unique(known: seq<Known>) {
    forall k, l :: 0 <= k < l < |known| ==> known[k].parent != known[l].parent || known[k].index != known[l].index
  }

  /** A record describes a subdevice its parent reports, and a device in it was made for
      that slot by a suitable driver. */
  ghost predicate RecordOk(w: World, r: Known) {
    && r.index < |w.sub(r.parent)| && w.sub(r.parent)[r.index] == r.id && r.id.bus != NULL_BUS
    && (r.device.Some? ==>
          && r.device.value.Made? && r.device.value.parent == r.parent && r.device.value.index == r.index
          && Suits(w, r.device.value.driver, r.id))
  }

  ghost predicate RecordsOk(w: World, known: seq<Known>) {
    forall k :: 0 <= k < |known| ==> RecordOk(w, known[k])
  }

  /** All suitable drivers have failed for this slot. */
  ghost predicate Exhausted(w: World, drivers: seq<Driver>, bad: seq<Bad>, p: Device, i: nat, id: DeviceID) {
    forall d :: d in drivers && Suits(w, d, id) ==> Bad(p, i, d) in bad
  }

  ghost predicate SettledAt(w: World, drivers: seq<Driver>, bad: seq<Bad>, r: Known) {
    r.device.None? ==> Exhausted(w, drivers, bad, r.parent, r.index, r.id)
  }

  ghost predicate Settled(w: World, drivers: seq<Driver>, bad: seq<Bad>, known: seq<Known>) {
    forall k :: 0 <= k < |known| ==> SettledAt(w, drivers, bad, known[k])
  }

  // ---------- Coverage ----------

  /** A device found in the records: the root, or the device of a recorded slot of a
      reachable device. */
  predicate Reachable(known: seq<Known>, d: Device) {
    d.Made? ==> Reachable(known, d.parent) && DeviceAt(known, d.parent, d.index) == Some(d)
  }

  predicate Present(w: World, d: Device, i: nat) {
    i < |w.sub(d)| && w.sub(d)[i].bus != NULL_BUS
  }

  /** The first n subdevices of d are recorded, and so is everything below them. */
  ghost predicate Covered(w: World, known: seq<Known>, d: Device, n: nat)
    requires Finite(w) && RecordsOk(w, known)
    decreases w.limit - Depth(d), n
  {
    n == 0 || n > |w.sub(d)| ||
    (&& Covered(w, known, d, n - 1)
     && (Present(w, d, n - 1) ==>
           && Recorded(known, d, n - 1)
           && (DeviceAt(known, d, n - 1).Some? ==>
                 var c := DeviceAt(known, d, n - 1).value;
                 Depth(c) == Depth(d) + 1 && Covered(w, known, c, |w.sub(c)|))))
  }

  /** known' has the same records first, and more. */
  lemma {:induction false} CoveredGrows(w: World, known: seq<Known>, known': seq<Known>, d: Device, n: nat)
    requires Finite(w) && RecordsOk(w, known) && RecordsOk(w, known') && known <= known' && n <= |w.sub(d)|
    requires Covered(w, known, d, n)
    ensures Covered(w, known', d, n)
    decreases w.limit - Depth(d), n
  {
    if n > 0 {
      CoveredGrows(w, known, known', d, n - 1);
      if Present(w, d, n - 1) {
        LookupGrows(known, known', d, n - 1);
        if DeviceAt(known, d, n - 1).Some? {
          var c := DeviceAt(known, d, n - 1).value;
          CoveredGrows(w, known, known', c, |w.sub(c)|);
        }
      }
    }
  }

  lemma {:induction false} LookupGrows(known: seq<Known>, known': seq<Known>, p: Device, i: nat)
    requires known <= known' && Recorded(known, p, i)
    ensures Lookup(known', p, i) == Lookup(known, p, i) && DeviceAt(known', p, i) == DeviceAt(known, p, i)
  {}

  lemma {:induction false} CoveredHas(w: World, known: seq<Known>, d: Device, n: nat, i: nat)
    requires Finite(w) && RecordsOk(w, known) && i < n <= |w.sub(d)| && Covered(w, known, d, n) && Present(w, d, i)
    ensures Recorded(known, d, i)
    ensures DeviceAt(known, d, i).Some? ==>
              var c := DeviceAt(known, d, i).value; Covered(w, known, c, |w.sub(c)|)
  {
    if i < n - 1 {
      CoveredHas(w, known, d, n - 1, i);
    }
  }

  /** If everything below the root is covered, so is every reachable device. */
  lemma {:induction false} ReachableCovered(w: World, known: seq<Known>, d: Device)
    requires Finite(w) && RecordsOk(w, known) && Covered(w, known, Root, |w.sub(Root)|) && Reachable(known, d)
    ensures Covered(w, known, d, |w.sub(d)|)
  {
    if d.Made? {
      ReachableCovered(w, known, d.parent);
      var k := Lookup(known, d.parent, d.index);
      assert RecordOk(w, known[k]);
      CoveredHas(w, known, d.parent, |w.sub(d.parent)|, d.index);
    }
  }

  /** The fixpoint: every subdevice of every reachable device is recorded. */
  ghost predicate Complete(w: World, known: seq<Known>) {
    forall d, i :: Reachable(known, d) && Present(w, d, i) ==> Recorded(known, d, i)
  }

  lemma {:induction false} CoveredIsComplete(w: World, known: seq<Known>)
    requires Finite(w) && RecordsOk(w, known) && Covered(w, known, Root, |w.sub(Root)|)
    ensures Complete(w, known)
  {
    forall d, i | Reachable(known, d) && Present(w, d, i)
      ensures Recorded(known, d, i)
    {
      ReachableCovered(w, known, d);
      CoveredHas(w, known, d, |w.sub(d)|, i);
    }
  }
}
