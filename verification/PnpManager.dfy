/** The enumeration code itself, over lists it grows and patches in place. Drivers do
    not call back into the manager, and the rescan lock is free when it is tried. */
module PnpManager {
  import opened Machine
  import opened Pnp

  class Manager {
    const w: World
    var drivers: seq<Driver>
    var bad: seq<Bad>
    var known: seq<Known>
    var calls: nat            // CreateDevice calls made so far
    var rooted: bool          // a root device has been set
    ghost var made: seq<Device>   // every device created so far, in order
    ghost var tried: seq<Device>  // what each CreateDevice call was asked for

    ghost predicate Core()
      reads this
    {
      Finite(w) && Unique(known) && RecordsOk(w, known) && Logged(made, known) && Tallied()
    }

    /** What was created and what failed is what the drivers answered, and no driver that is
        registered once was asked twice for a slot. */
    ghost predicate Tallied()
      reads this
    {
      History(w, calls, tried, made, bad) && (Distinct(drivers) ==> Once(tried))
    }

    /** Between calls, moreover, every unresolved record has run out of drivers. */
    ghost predicate Valid()
      reads this
    {
      Core() && Settled(w, drivers, bad, known)
    }

    constructor (w: World)
      requires Finite(w)
      ensures Valid() && this.w == w && drivers == [] && bad == [] && known == [] && !rooted
    {
      this.w := w;
      drivers, bad, known, calls, rooted := [], [], [], 0, false;
      made, tried := [], [];
    }

    /** The drivers that suit a slot and have not failed for it, in the order they were
        registered. */
    method Candidates(p: Device, i: nat, id: DeviceID) returns (cs: seq<Driver>, ghost at: seq<nat>)
      ensures Picked(drivers, cs, at)
      ensures forall k: nat :: k in at <==> k < |drivers| && Suits(w, drivers[k], id) && Bad(p, i, drivers[k]) !in bad
      ensures forall k: nat ::
                k in at <==> && k < |drivers| && Completed(drivers[k].id, id) == id && w.compatible(drivers[k], id)
                             && Bad(p, i, drivers[k]) !in bad
    {
      cs, at := [], [];
      var k := 0;
      while k < |drivers|
        invariant k <= |drivers| && Picked(drivers, cs, at)
        invariant forall l: nat :: l in at <==> l < k && Suits(w, drivers[l], id) && Bad(p, i, drivers[l]) !in bad
      {
        IdMatchIs(drivers[k].id, id);
        if Bad(p, i, drivers[k]) !in bad && IdMatch(drivers[k].id, id) && w.compatible(drivers[k], id) {
          assert forall l :: 0 <= l < |at| ==> at[l] in at;
          cs, at := cs + [drivers[k]], at + [k];
        }
        k := k + 1;
      }
    }

    /** One CreateDevice call of a driver. A failure is remembered. */
    method Attempt(p: Device, i: nat, driver: Driver) returns (ok: bool)
      requires Tallied() && Unfilled(made, p, i) && (Distinct(drivers) ==> Bad(p, i, driver) !in bad)
      modifies `bad, `calls, `made, `tried
      ensures Tallied() && old(tried) <= tried && ok == w.outcome(old(calls))
      ensures made == if ok then old(made) + [Made(p, i, driver)] else old(made)
      ensures bad == if ok then old(bad) else old(bad) + [Bad(p, i, driver)]
    {
      TryOnce(w, calls, tried, made, bad, Made(p, i, driver), Distinct(drivers));
      ok := w.outcome(calls);
      calls, tried := calls + 1, tried + [Made(p, i, driver)];
      if ok {
        made := made + [Made(p, i, driver)];
      } else {
        bad := bad + [Bad(p, i, driver)];
      }
    }

    /** pnp_create_device: try candidates, best priority first, remembering failures. On
        success the driver had not failed for this slot before; it outranks every suitable
        driver that still has not, or was registered before it. On failure none is left. */
    method CreateDevice(p: Device, i: nat, id: DeviceID) returns (dev: Option<Device>)
      requires Tallied() && Unfilled(made, p, i)
      modifies `bad, `calls, `made, `tried
      ensures Tallied() && Since(old(bad), bad, p, i) && old(tried) <= tried
      ensures made == old(made) + News(dev)
      ensures dev.None? ==> Exhausted(w, drivers, bad, p, i, id)
      ensures dev.Some? ==> dev.value.Made? && dev.value.parent == p && dev.value.index == i
      ensures dev.Some? ==> Suits(w, dev.value.driver, id) && Bad(p, i, dev.value.driver) !in old(bad)
      ensures dev.Some? ==>
                exists k: nat :: k < |drivers| && drivers[k] == dev.value.driver && Best(w, drivers, bad, p, i, id, k)
    {
      hide Suits, Remain, Picked, Best, Distinct, Once, Since, History, Exhausted, Unfilled;
      SinceNone(bad, p, i);
      var cs; ghost var at;
      cs, at := Candidates(p, i, id);
      RemainAll(w, drivers, bad, p, i, id, cs, at);
      while cs != []
        invariant made == old(made) && old(tried) <= tried && Tallied() && Since(old(bad), bad, p, i)
        invariant Remain(w, drivers, old(bad), bad, p, i, id, cs, at)
        decreases |cs|
      {
        var k := BestCandidate(cs);
        var drv := cs[k];
        BestIs(w, drivers, old(bad), bad, p, i, id, cs, at, k);
        assert |at| == |cs| by { RemainSame(w, drivers, old(bad), bad, p, i, id, cs, at); }
        ghost var before := bad;
        var ok := Attempt(p, i, drv);
        if ok {
          return Some(Made(p, i, drv));
        }
        SinceMore(old(bad), before, p, i, drv);
        FewerRemain(w, drivers, old(bad), before, p, i, id, cs, at, k);
        cs, at := cs[..k] + cs[k + 1..], at[..k] + at[k + 1..];
      }
      NoneRemain(w, drivers, old(bad), bad, p, i, id, at);
      dev := None;
    }

    /** The first candidate of highest priority. */
    method BestCandidate(cs: seq<Driver>) returns (best: nat)
      requires cs != []
      ensures best < |cs|
      ensures forall l :: 0 <= l < |cs| ==> cs[l].priority <= cs[best].priority
      ensures forall l :: 0 <= l < best ==> cs[l].priority < cs[best].priority
    {
      var priority, found := 0, false;
      best := 0;
      var k := 0;
      while k < |cs|
        invariant k <= |cs| && best < |cs| && (found <==> k > 0)
        invariant found ==> best < k && priority == cs[best].priority
        invariant forall l :: 0 <= l < k ==> cs[l].priority <= priority
        invariant found ==> forall l :: 0 <= l < best ==> cs[l].priority < priority
      {
        if cs[k].priority > priority || !found {
          best, priority, found := k, cs[k].priority, true;
        }
        k := k + 1;
      }
    }

    method FindRecord(p: Device, i: nat) returns (k: nat)
      ensures k == Lookup(known, p, i)
    {
      k := 0;
      while k < |known| && !(known[k].parent == p && known[k].index == i)
        invariant k <= |known|
        invariant forall l :: 0 <= l < k ==> !(known[l].parent == p && known[l].index == i)
      {
        k := k + 1;
      }
    }

    /** pnp_add_device followed by the lookup of pnp_resolve_device. */
    method ResolveDevice(p: Device, id: DeviceID, i: nat) returns (dev: Option<Device>)
      requires Valid() && Present(w, p, i) && w.sub(p)[i] == id
      modifies `bad, `calls, `known, `made, `tried
      ensures Valid() && old(known) <= known && old(made) <= made && old(bad) <= bad
      ensures Recorded(known, p, i) && dev == DeviceAt(known, p, i)
      ensures Recorded(old(known), p, i) ==> known == old(known)
      ensures !Recorded(old(known), p, i) ==> |known| == |old(known)| + 1
    {
      hide Logged, Once, History, Suits, Best, Since;
      var k := FindRecord(p, i);
      if k < |known| {
        return known[k].device;
      }
      ghost var was := bad;
      EmptySlot(made, known, p, i);
      dev := CreateDevice(p, i, id);
      SinceIs(was, bad, p, i);
      SettledGrows(w, drivers, was, bad, known, |known|);
      var r := Known(p, i, id, dev);
      AppendRecord(w, known, r);
      LogAppended(old(made), known, r);
      known := known + [r];
    }

    /** pnp_rescan_devices: try again for every unresolved record. */
    method RescanDevices()
      requires Core()
      modifies `bad, `calls, `known, `made, `tried
      ensures Valid() && Patched(old(known), known) && old(made) <= made
      ensures old(Settled(w, drivers, bad, known)) ==> known == old(known)
    {
      hide Logged, Unique, RecordsOk;
      var k := 0;
      while k < |known|
        invariant k <= |known| && Core() && Patched(old(known), known) && old(made) <= made && old(bad) <= bad
        invariant SettledUpTo(w, drivers, bad, known, k)
        invariant old(Settled(w, drivers, bad, known)) ==> known == old(known) && Settled(w, drivers, bad, known)
      {
        if known[k].device == None {
          RetryDevice(k);
        }
        k := k + 1;
      }
    }

    method RetryDevice(k: nat)
      requires Core() && k < |known| && known[k].device == None && SettledUpTo(w, drivers, bad, known, k)
      modifies `bad, `calls, `known, `made, `tried
      ensures Core() && Patched(old(known), known) && old(made) <= made && old(bad) <= bad
      ensures SettledUpTo(w, drivers, bad, known, k + 1)
      ensures old(Settled(w, drivers, bad, known)) ==> known == old(known) && Settled(w, drivers, bad, known)
    {
      hide Logged, Once, History, Suits, Best, Since, Distinct, Lookup;
      ghost var was := bad;
      var r := known[k];
      assert RecordOk(w, r);
      assert Settled(w, drivers, was, known) ==> SettledAt(w, drivers, was, r);
      UniqueAt(known, k);
      EmptySlot(made, known, r.parent, r.index);
      var dev := CreateDevice(r.parent, r.index, r.id);
      SinceIs(was, bad, r.parent, r.index);
      SettledGrows(w, drivers, was, bad, known, k);
      SettledGrows(w, drivers, was, bad, known, |known|);
      var r' := r.(device := dev);
      assert RecordOk(w, r');
      assert SettledAt(w, drivers, bad, r');
      LogPatched(old(made), known, k, dev);
      known := known[k := r'];
    }

    /** pnp_enum_subdevices. Where everything is known already it changes nothing. */
    method EnumSubdevices(dev: Device)
      requires Valid()
      modifies `bad, `calls, `known, `made, `tried
      ensures Valid() && old(known) <= known && old(made) <= made
      ensures Covered(w, known, dev, |w.sub(dev)|)
      ensures Covered(w, old(known), dev, |w.sub(dev)|) ==> known == old(known)
      decreases w.limit - Depth(dev)
    {
      hide Logged, Unique, History, Once, Settled, Distinct;
      var i := 0;
      while i < |w.sub(dev)|
        invariant i <= |w.sub(dev)| && Valid() && old(known) <= known && old(made) <= made
        invariant Covered(w, known, dev, i)
        invariant Covered(w, old(known), dev, |w.sub(dev)|) ==> known == old(known)
      {
        if w.sub(dev)[i].bus != NULL_BUS {
          if Covered(w, old(known), dev, |w.sub(dev)|) {
            CoveredHas(w, old(known), dev, |w.sub(dev)|, i);
          }
          VisitSubdevice(dev, i);
        }
        i := i + 1;
      }
    }

    method VisitSubdevice(dev: Device, i: nat)
      requires Valid() && Present(w, dev, i) && Covered(w, known, dev, i)
      modifies `bad, `calls, `known, `made, `tried
      ensures Valid() && old(known) <= known && old(made) <= made && Covered(w, known, dev, i + 1)
      ensures Recorded(old(known), dev, i) && (DeviceAt(old(known), dev, i).Some? ==>
                 var c := DeviceAt(old(known), dev, i).value; Covered(w, old(known), c, |w.sub(c)|))
              ==> known == old(known)
      decreases w.limit - Depth(dev), 0
    {
      ghost var before := known;
      var sdev := ResolveDevice(dev, w.sub(dev)[i], i);
      CoveredGrows(w, before, known, dev, i);
      if sdev.Some? {
        assert RecordOk(w, known[Lookup(known, dev, i)]);
        ghost var mid := known;
        EnumSubdevices(sdev.value);
        CoveredGrows(w, mid, known, dev, i);
        LookupGrows(mid, known, dev, i);
      }
    }

    /** pnp_enum_devices: passes over the tree until one adds nothing. Nothing is lost, and
        every subdevice of every reachable device ends up recorded. */
    method EnumDevices()
      requires Valid()
      modifies `bad, `calls, `known, `made, `tried
      ensures Valid() && old(known) <= known && old(made) <= made && (rooted ==> Complete(w, known))
      ensures !rooted ==> known == old(known)
    {
      if !rooted {
        return;
      }
      var repeat := true;
      while repeat
        invariant Valid() && old(known) <= known && old(made) <= made
        invariant !repeat ==> Covered(w, known, Root, |w.sub(Root)|)
        decreases repeat, if Covered(w, known, Root, |w.sub(Root)|) then 0 else 1
      {
        repeat := false;
        var count := |known|;
        EnumSubdevices(Root);
        if count != |known| {
          RescanDevices();
          repeat := true;
        }
      }
      CoveredIsComplete(w, known);
    }

    /** pnp_set_root_device. */
    method SetRootDevice()
      requires Valid()
      modifies `bad, `calls, `known, `rooted, `made, `tried
      ensures Valid() && old(known) <= known && old(made) <= made && rooted && Complete(w, known)
    {
      rooted := true;
      EnumDevices();
    }

    /** pnp_register_driver. */
    method RegisterDriver(driver: Driver)
      requires Valid()
      modifies `drivers, `bad, `calls, `known, `made, `tried
      ensures drivers == old(drivers) + [driver] && old(made) <= made
      ensures Valid() && (rooted ==> Complete(w, known)) && |old(known)| <= |known|
      // No device once created is lost or created again.
      ensures forall k :: 0 <= k < |old(known)| ==>
                && known[k].parent == old(known)[k].parent && known[k].index == old(known)[k].index
                && (old(known)[k].device.Some? ==> known[k] == old(known)[k])
    {
      if Distinct(drivers + [driver]) { DistinctBefore(drivers, driver); }
      drivers := drivers + [driver];
      RescanDevices();
      EnumDevices();
    }
  }

  /** cs are the drivers at these places, in order. */
  ghost predicate Picked(drivers: seq<Driver>, cs: seq<Driver>, at: seq<nat>) {
    && |at| == |cs|
    && (forall l :: 0 <= l < |at| ==> at[l] < |drivers| && cs[l] == drivers[at[l]])
    && (forall l, m :: 0 <= l < m < |at| ==> at[l] < at[m])
  }

  function Skip(l: int, k: int): int { if l < k then l else l + 1 }

  lemma PickFewer(drivers: seq<Driver>, cs: seq<Driver>, at: seq<nat>, k: nat)
    requires Picked(drivers, cs, at) && k < |cs|
    ensures Picked(drivers, cs[..k] + cs[k + 1..], at[..k] + at[k + 1..])
  {
    var cs', at' := cs[..k] + cs[k + 1..], at[..k] + at[k + 1..];
    assert forall l :: 0 <= l < |at'| ==> at'[l] == at[Skip(l, k)] && cs'[l] == cs[Skip(l, k)];
  }

  lemma InFewer(at: seq<nat>, k: nat)
    requires k < |at| && forall l, m :: 0 <= l < m < |at| ==> at[l] < at[m]
    ensures forall x :: x in at[..k] + at[k + 1..] <==> x in at && x != at[k]
  {
    var at' := at[..k] + at[k + 1..];
    forall x | x in at && x != at[k] ensures x in at' {
      var l :| 0 <= l < |at| && at[l] == x;
      assert at'[if l < k then l else l - 1] == x;
    }
  }

  /** The candidates left: those that suit and had not failed before the call; whoever has
      not failed since is among them. */
  ghost predicate Remain(w: World, drivers: seq<Driver>, bad0: seq<Bad>, bad: seq<Bad>, p: Device, i: nat, id: DeviceID,
                         cs: seq<Driver>, at: seq<nat>)
  {
    && Picked(drivers, cs, at)
    && (forall k :: k in at ==> k < |drivers| && Suits(w, drivers[k], id) && Bad(p, i, drivers[k]) !in bad0)
    && (forall k: nat :: k < |drivers| && Suits(w, drivers[k], id) && Bad(p, i, drivers[k]) !in bad ==> k in at)
    && (Distinct(drivers) ==> forall k :: k in at ==> k < |drivers| && Bad(p, i, drivers[k]) !in bad)
  }

  lemma RemainAll(w: World, drivers: seq<Driver>, bad: seq<Bad>, p: Device, i: nat, id: DeviceID,
                  cs: seq<Driver>, at: seq<nat>)
    requires Picked(drivers, cs, at)
    requires forall k: nat :: k in at <==> k < |drivers| && Suits(w, drivers[k], id) && Bad(p, i, drivers[k]) !in bad
    ensures Remain(w, drivers, bad, bad, p, i, id, cs, at)
  {}

  lemma RemainSame(w: World, drivers: seq<Driver>, bad0: seq<Bad>, bad: seq<Bad>, p: Device, i: nat, id: DeviceID,
                   cs: seq<Driver>, at: seq<nat>)
    requires Remain(w, drivers, bad0, bad, p, i, id, cs, at)
    ensures |at| == |cs|
  {}

  lemma FewerRemain(w: World, drivers: seq<Driver>, bad0: seq<Bad>, bad: seq<Bad>, p: Device, i: nat, id: DeviceID,
                    cs: seq<Driver>, at: seq<nat>, k: nat)
    requires Remain(w, drivers, bad0, bad, p, i, id, cs, at) && k < |cs| == |at|
    ensures Remain(w, drivers, bad0, bad + [Bad(p, i, cs[k])], p, i, id, cs[..k] + cs[k + 1..], at[..k] + at[k + 1..])
  {
    hide Suits;
    PickFewer(drivers, cs, at, k);
    InFewer(at, k);
  }

  lemma NoneRemain(w: World, drivers: seq<Driver>, bad0: seq<Bad>, bad: seq<Bad>, p: Device, i: nat, id: DeviceID, at: seq<nat>)
    requires Remain(w, drivers, bad0, bad, p, i, id, [], at)
    ensures Exhausted(w, drivers, bad, p, i, id)
  {
    forall d | d in drivers && Suits(w, d, id) ensures Bad(p, i, d) in bad {
      var k :| 0 <= k < |drivers| && drivers[k] == d;
      assert k !in at;
    }
  }

  /** Driver k is the first of highest priority among the suitable ones that have not failed. */
  ghost predicate Best(w: World, drivers: seq<Driver>, bad: seq<Bad>, p: Device, i: nat, id: DeviceID, k: nat)
    requires k < |drivers|
  {
    forall l: nat :: l < |drivers| && Suits(w, drivers[l], id) && Bad(p, i, drivers[l]) !in bad ==>
      drivers[l].priority <= drivers[k].priority && (l < k ==> drivers[l].priority < drivers[k].priority)
  }

  lemma BestIs(w: World, drivers: seq<Driver>, bad0: seq<Bad>, bad: seq<Bad>, p: Device, i: nat, id: DeviceID,
               cs: seq<Driver>, at: seq<nat>, k: nat)
    requires Remain(w, drivers, bad0, bad, p, i, id, cs, at) && k < |cs|
    requires forall l :: 0 <= l < |cs| ==> cs[l].priority <= cs[k].priority
    requires forall l :: 0 <= l < k ==> cs[l].priority < cs[k].priority
    ensures Suits(w, cs[k], id) && Bad(p, i, cs[k]) !in bad0 && (Distinct(drivers) ==> Bad(p, i, cs[k]) !in bad)
    ensures exists n: nat :: n < |drivers| && drivers[n] == cs[k] && Best(w, drivers, bad, p, i, id, n)
  {
    hide Suits, Distinct;
    assert at[k] in at;
    forall l: nat | l < |drivers| && Suits(w, drivers[l], id) && Bad(p, i, drivers[l]) !in bad
      ensures drivers[l].priority <= cs[k].priority && (l < at[k] ==> drivers[l].priority < cs[k].priority)
    {
      var x :| 0 <= x < |at| && at[x] == l;
      assert x > k ==> at[x] > at[k];
    }
    assert Best(w, drivers, bad, p, i, id, at[k]);
  }

  /** The calls the drivers answered with a device, and those they did not. */
  function Successes(w: World, tried: seq<Device>): seq<Device> {
    if tried == [] then [] else
    var n := |tried| - 1;
    Successes(w, tried[..n]) + if w.outcome(n) then [tried[n]] else []
  }

  function Failures(w: World, tried: seq<Device>): seq<Bad>
    requires forall d :: d in tried ==> d.Made?
  {
    if tried == [] then [] else
    var n := |tried| - 1;
    Failures(w, tried[..n]) + if w.outcome(n) then [] else [Bad(tried[n].parent, tried[n].index, tried[n].driver)]
  }

  ghost predicate History(w: World, calls: nat, tried: seq<Device>, made: seq<Device>, bad: seq<Bad>) {
    && |tried| == calls && (forall d :: d in tried ==> d.Made?)
    && made == Successes(w, tried) && bad == Failures(w, tried)
  }

  /** No device has been made for the slot. */
  ghost predicate Unfilled(made: seq<Device>, p: Device, i: nat) {
    forall d :: d in made ==> d.Made? && !(d.parent == p && d.index == i)
  }

  /** The failures since then are of one slot. */
  ghost predicate Since(bad0: seq<Bad>, bad: seq<Bad>, p: Device, i: nat) {
    bad0 <= bad && forall x :: x in bad[|bad0|..] ==> x.parent == p && x.index == i
  }

  lemma SinceNone(bad: seq<Bad>, p: Device, i: nat)
    ensures Since(bad, bad, p, i)
  {}

  lemma SinceIs(bad0: seq<Bad>, bad: seq<Bad>, p: Device, i: nat)
    requires Since(bad0, bad, p, i)
    ensures bad0 <= bad
  {}

  lemma SinceMore(bad0: seq<Bad>, bad: seq<Bad>, p: Device, i: nat, d: Driver)
    requires Since(bad0, bad, p, i)
    ensures Since(bad0, bad + [Bad(p, i, d)], p, i)
  {
    assert (bad + [Bad(p, i, d)])[|bad0|..] == bad[|bad0|..] + [Bad(p, i, d)];
  }

  ghost predicate Distinct(drivers: seq<Driver>) {
    forall k, l :: 0 <= k < l < |drivers| ==> drivers[k] != drivers[l]
  }

  /** What was tried either succeeded or failed. */
  lemma {:induction false} TriedIs(w: World, tried: seq<Device>, d: Device)
    requires (forall e :: e in tried ==> e.Made?) && d in tried
    ensures d in Successes(w, tried) || Bad(d.parent, d.index, d.driver) in Failures(w, tried)
  {
    var n := |tried| - 1;
    if d != tried[n] {
      assert tried == tried[..n] + [tried[n]];
      TriedIs(w, tried[..n], d);
    }
  }

  /** One more call: d was created if the answer is yes, and has failed if it is no. */
  lemma {:induction false} TryOnce(w: World, calls: nat, tried: seq<Device>, made: seq<Device>, bad: seq<Bad>, d: Device, distinct: bool)
    requires History(w, calls, tried, made, bad) && d.Made? && d !in made
    requires distinct ==> Once(tried) && Bad(d.parent, d.index, d.driver) !in bad
    ensures w.outcome(calls) ==> History(w, calls + 1, tried + [d], made + [d], bad)
    ensures !w.outcome(calls) ==>
              History(w, calls + 1, tried + [d], made, bad + [Bad(d.parent, d.index, d.driver)])
    ensures distinct ==> Once(tried + [d])
  {
    var all := tried + [d];
    assert all[..|all| - 1] == tried;
    if distinct && d in tried { TriedIs(w, tried, d); }
  }

  /** The devices created are those recorded, each once: no slot was ever filled twice. */
  ghost predicate Logged(made: seq<Device>, known: seq<Known>) {
    Filled(made, known) && Once(made) && AllMade(made, known)
  }

  ghost predicate Filled(made: seq<Device>, known: seq<Known>) {
    forall d :: d in made ==> d.Made? && DeviceAt(known, d.parent, d.index) == Some(d)
  }

  predicate Once(made: seq<Device>) {
    made == [] || (made[|made| - 1] !in made[..|made| - 1] && Once(made[..|made| - 1]))
  }

  ghost predicate AllMade(made: seq<Device>, known: seq<Known>) {
    forall r :: r in known && r.device.Some? ==> r.device.value in made
  }

  /** At most one creation per slot. */
  lemma {:induction false} OncePerSlot(made: seq<Device>, known: seq<Known>, k: nat, l: nat)
    requires Logged(made, known) && k < |made| && l < |made|
    requires made[k].parent == made[l].parent && made[k].index == made[l].index
    ensures k == l
  {
    assert made[k] in made && made[l] in made;
    assert made[k] == made[l];
    OnceApart(made, k, l);
  }

  lemma {:induction false} OnceApart(made: seq<Device>, k: nat, l: nat)
    requires Once(made) && k < |made| && l < |made| && made[k] == made[l]
    ensures k == l
  {
    var last := |made| - 1;
    assert forall j :: 0 <= j < last ==> made[..last][j] == made[j] && made[j] in made[..last];
    if k < last && l < last {
      OnceApart(made[..last], k, l);
    }
  }

  lemma {:induction false} OnceNews(made: seq<Device>, dev: Option<Device>)
    requires Once(made) && (dev.Some? ==> dev.value !in made)
    ensures Once(made + News(dev))
  {
    if dev.Some? {
      assert (made + News(dev))[..|made|] == made;
    } else {
      assert made + News(dev) == made;
    }
  }

  lemma Without(cs: seq<Driver>, k: nat)
    requires k < |cs|
    ensures forall d :: d in cs && d != cs[k] ==> d in cs[..k] + cs[k + 1..]
    ensures forall d :: d in cs[..k] + cs[k + 1..] ==> d in cs
  {}

  ghost predicate SettledUpTo(w: World, drivers: seq<Driver>, bad: seq<Bad>, known: seq<Known>, n: nat)
    requires n <= |known|
  {
    forall k :: 0 <= k < n ==> SettledAt(w, drivers, bad, known[k])
  }

  /** known' differs only in that some unresolved records may have got a device. */
  ghost predicate Patched(known: seq<Known>, known': seq<Known>) {
    && |known'| == |known|
    && forall k :: 0 <= k < |known| ==>
         known'[k] == known[k] || (known[k].device.None? && known'[k] == known[k].(device := known'[k].device))
  }

  /** Failures are only ever added, so what is settled stays settled. */
  lemma SettledGrows(w: World, drivers: seq<Driver>, bad: seq<Bad>, bad': seq<Bad>, known: seq<Known>, n: nat)
    requires bad <= bad' && n <= |known|
    ensures SettledUpTo(w, drivers, bad, known, n) ==> SettledUpTo(w, drivers, bad', known, n)
    ensures Settled(w, drivers, bad, known) ==> Settled(w, drivers, bad', known)
  {}

  lemma {:induction false} AppendRecord(w: World, known: seq<Known>, r: Known)
    requires Unique(known) && RecordsOk(w, known) && !Recorded(known, r.parent, r.index) && RecordOk(w, r)
    ensures Unique(known + [r]) && RecordsOk(w, known + [r])
    ensures Lookup(known + [r], r.parent, r.index) == |known|
  {
    var k := Lookup(known + [r], r.parent, r.index);
    assert (known + [r])[|known|] == r;
  }

  function News(d: Option<Device>): seq<Device> { if d.Some? then [d.value] else [] }

  ghost predicate ForSlot(d: Option<Device>, p: Device, i: nat) {
    d.Some? ==> d.value.Made? && d.value.parent == p && d.value.index == i
  }

  lemma {:induction false} LogAppended(made: seq<Device>, known: seq<Known>, r: Known)
    requires Logged(made, known) && !Recorded(known, r.parent, r.index) && ForSlot(r.device, r.parent, r.index)
    requires Lookup(known + [r], r.parent, r.index) == |known|
    ensures Logged(made + News(r.device), known + [r])
  {
    hide Lookup, Once;
    forall d | d in made
      ensures DeviceAt(known + [r], d.parent, d.index) == Some(d) && Some(d) != r.device
    {
      LookupGrows(known, known + [r], d.parent, d.index);
    }
    InEither(made, News(r.device));
    OnceNews(made, r.device);
  }

  lemma InEither(a: seq<Device>, b: seq<Device>)
    ensures forall d :: d in a + b <==> d in a || d in b
  {}

  /** Records keep their slots, so they are found where they were. */
  lemma {:induction false} LookupPatched(known: seq<Known>, k: nat, dev: Option<Device>, p: Device, i: nat)
    requires k < |known|
    ensures Lookup(known[k := known[k].(device := dev)], p, i) == Lookup(known, p, i)
  {
    var known' := known[k := known[k].(device := dev)];
    var a, b := Lookup(known, p, i), Lookup(known', p, i);
    assert a < |known| ==> known'[a].parent == known[a].parent && known'[a].index == known[a].index;
    assert b < |known| ==> known'[b].parent == known[b].parent && known'[b].index == known[b].index;
  }

  lemma LogPatched(made: seq<Device>, known: seq<Known>, k: nat, dev: Option<Device>)
    requires Logged(made, known) && Unique(known) && k < |known| && known[k].device == None
    requires ForSlot(dev, known[k].parent, known[k].index)
    ensures Logged(made + News(dev), known[k := known[k].(device := dev)])
  {
    hide Lookup, Once, Unique;
    var known' := known[k := known[k].(device := dev)];
    LookupPatched(known, k, dev, known[k].parent, known[k].index);
    UniqueAt(known, k);
    forall d | d in made
      ensures DeviceAt(known', d.parent, d.index) == Some(d) && Some(d) != dev
    {
      LookupPatched(known, k, dev, d.parent, d.index);
    }
    InEither(made, News(dev));
    OnceNews(made, dev);
    forall r | r in known' && r.device.Some? ensures r.device.value in made + News(dev) {
      assert r in known || r.device == dev;
    }
  }

  lemma EmptySlot(made: seq<Device>, known: seq<Known>, p: Device, i: nat)
    requires Logged(made, known) && DeviceAt(known, p, i) == None
    ensures Unfilled(made, p, i)
  {}

  lemma DistinctBefore(drivers: seq<Driver>, driver: Driver)
    requires Distinct(drivers + [driver])
    ensures Distinct(drivers)
  {
    assert forall k :: 0 <= k < |drivers| ==> (drivers + [driver])[k] == drivers[k];
  }

  lemma {:induction false} UniqueAt(known: seq<Known>, k: nat)
    requires Unique(known) && k < |known|
    ensures Lookup(known, known[k].parent, known[k].index) == k
  {}
}
