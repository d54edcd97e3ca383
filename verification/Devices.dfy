/** The replicated device table, as an instance of the CRDT that `Causal` disperses. */
module Devices {
  import opened Lattices
  import opened CausalNet
  import Members

  datatype Device = Device(socket: Members.Socket)

  datatype DeviceInterval = DeviceInterval(clock: nat, interval: nat)

  datatype Interval = NoInterval | At(value: DeviceInterval)

  datatype DeviceEntry = DeviceEntry(removals: nat, interval: Interval)

  type States = map<Device, DeviceEntry>

  datatype DeviceMutator = Put(device: Device, interval: DeviceInterval) | Remove(device: Device)

  /** A later clock wins; at the same clock the shorter interval does. */
  predicate IntervalLess(a: DeviceInterval, b: DeviceInterval) {
    a.clock < b.clock || (a.clock == b.clock && a.interval > b.interval)
  }

  /** More removals win over any interval; at the same count an interval wins over none. */
  predicate EntryLess(a: DeviceEntry, b: DeviceEntry) {
    || a.removals < b.removals
    || (a.removals == b.removals && b.interval.At?
        && (a.interval.NoInterval? || IntervalLess(a.interval.value, b.interval.value)))
  }

  function Max(a: DeviceEntry, b: DeviceEntry): DeviceEntry {
    if EntryLess(b, a) then a else b
  }

  /** `union_with(.., max)`. */
  function Join(a: States, b: States): States {
    map d | d in a.Keys + b.Keys ::
      if d in a && d in b then Max(a[d], b[d]) else if d in a then a[d] else b[d]
  }

  predicate IsEmpty(s: States) {
    s == map[]
  }

  function DeviceLattice(): Lattice<States> {
    Lattice(map[], Join, IsEmpty)
  }

  /** The delta a mutator produces against a table; empty when there is nothing to change. */
  function Apply(mutator: DeviceMutator, target: States): States {
    match mutator
    case Put(dev, interval) =>
      if dev in target then
        var entry := target[dev];
        if entry.interval.At? && !IntervalLess(entry.interval.value, interval) then map[]
        else map[dev := DeviceEntry(entry.removals, At(interval))]
      else map[dev := DeviceEntry(0, At(interval))]
    case Remove(dev) =>
      if dev in target && target[dev].interval.At? then
        map[dev := DeviceEntry(target[dev].removals + 1, NoInterval)]
      else map[]
  }

  lemma MaxAssociates(a: DeviceEntry, b: DeviceEntry, c: DeviceEntry)
    ensures Max(Max(a, b), c) == Max(a, Max(b, c))
    ensures Max(a, b) == Max(b, a) && Max(a, a) == a
  {
  }

  /** The device table is a join semilattice, so everything proved of the dispersal applies to it. */
  lemma DevicesAreALattice()
    ensures DeviceLattice().Laws()
  {
    var l := DeviceLattice();
    forall a, b ensures l.Commutes(a, b) {
      assert Join(a, b) == Join(b, a);
    }
    forall a, b, c ensures l.Associates(a, b, c) {
      JoinAssociates(a, b, c);
    }
    forall a ensures l.Bounds(a) {
      assert Join(a, a) == a && Join(map[], a) == a;
    }
  }

  lemma JoinAssociates(a: States, b: States, c: States)
    ensures Join(Join(a, b), c) == Join(a, Join(b, c))
  {
    forall d | d in a && d in b && d in c ensures Join(Join(a, b), c)[d] == Join(a, Join(b, c))[d] {
      MaxAssociates(a[d], b[d], c[d]);
    }
  }

  /** What a mutator asks for, stated on the table itself. */
  function Mutate(mutator: DeviceMutator, target: States): States {
    match mutator
    case Put(dev, interval) =>
      var removals := if dev in target then target[dev].removals else 0;
      var wanted := DeviceEntry(removals, At(interval));
      if dev in target && !EntryLess(target[dev], wanted) then target else target[dev := wanted]
    case Remove(dev) =>
      if dev in target && target[dev].interval.At?
      then target[dev := DeviceEntry(target[dev].removals + 1, NoInterval)] else target
  }

  /** Joining the delta of a mutator performs exactly the mutation, and the delta is empty exactly when
      the mutation changes nothing: an unchanged table produces no traffic. */
  lemma DeltaIsMutation(mutator: DeviceMutator, target: States)
    ensures Join(target, Apply(mutator, target)) == Mutate(mutator, target)
    ensures IsEmpty(Apply(mutator, target)) <==> Mutate(mutator, target) == target
  {
  }

  /** What the join keeps of a device that both tables have: more removals win; at equally many an interval wins over
      none, and of two intervals the one with the later clock, or the shorter one when the clocks are equal. */
  lemma JoinKeepsLatest(a: States, b: States, dev: Device)
    requires dev in a && dev in b
    ensures dev in Join(a, b)
    ensures a[dev].removals > b[dev].removals ==> Join(a, b)[dev] == a[dev]
    ensures a[dev].removals < b[dev].removals ==> Join(a, b)[dev] == b[dev]
    ensures a[dev].removals == b[dev].removals && b[dev].interval.NoInterval? ==> Join(a, b)[dev] == a[dev]
    ensures a[dev].removals == b[dev].removals && a[dev].interval.NoInterval? ==> Join(a, b)[dev] == b[dev]
    ensures a[dev].removals == b[dev].removals && a[dev].interval.At? && b[dev].interval.At? ==>
              var i, j, k := a[dev].interval.value, b[dev].interval.value, Join(a, b)[dev];
              && k.removals == a[dev].removals && k.interval.At?
              && k.interval.value.clock == (if i.clock < j.clock then j.clock else i.clock)
              && k.interval.value.interval
                 == if i.clock < j.clock then j.interval
                    else if j.clock < i.clock then i.interval
                    else if i.interval < j.interval then i.interval else j.interval
  {
  }

  /** A device that only one of the tables has is kept as it is. */
  lemma JoinKeepsOthers(a: States, b: States, dev: Device)
    ensures dev in Join(a, b) <==> dev in a || dev in b
    ensures dev in a && dev !in b ==> Join(a, b)[dev] == a[dev]
    ensures dev !in a && dev in b ==> Join(a, b)[dev] == b[dev]
  {
  }

  /** A `Put` takes effect unless the table has a later interval, or a shorter one at the same clock, and never changes
      the number of removals or another device. */
  lemma PutStores(target: States, dev: Device, i: DeviceInterval)
    ensures var after := Join(target, Apply(Put(dev, i), target));
            && dev in after && after[dev].interval.At?
            && after[dev].removals == (if dev in target then target[dev].removals else 0)
            && (dev !in target || target[dev].interval.NoInterval? ==> after[dev].interval.value == i)
            && (dev in target && target[dev].interval.At? ==>
                  var j, k := target[dev].interval.value, after[dev].interval.value;
                  && k.clock == (if i.clock < j.clock then j.clock else i.clock)
                  && k.interval
                     == if i.clock < j.clock then j.interval
                        else if j.clock < i.clock then i.interval
                        else if i.interval < j.interval then i.interval else j.interval)
            && forall other :: other != dev ==>
                 (other in after <==> other in target) && (other in target ==> after[other] == target[other])
  {
  }

  /** A `Remove` takes an interval away and counts it; without one it does nothing. */
  lemma RemoveCounts(target: States, dev: Device)
    ensures var after := Join(target, Apply(Remove(dev), target));
            after == if dev in target && target[dev].interval.At?
                     then target[dev := DeviceEntry(target[dev].removals + 1, NoInterval)] else target
  {
  }

  /** Tables that have not seen a removal cannot bring the device back, however many of them are joined:
      only a `Put` made against the removed entry can. */
  lemma {:induction false} RemovalStands(removed: States, stale: seq<States>, dev: Device)
    requires dev in removed
    requires forall s: States :: s in stale && dev in s ==> s[dev].removals < removed[dev].removals
    ensures Join(removed, DeviceLattice().JoinAll(stale))[dev] == removed[dev]
    ensures var all := DeviceLattice().JoinAll(stale);
            dev in all ==> all[dev].removals < removed[dev].removals
  {
    if stale != [] {
      var last := stale[|stale| - 1];
      assert last in stale;
      RemovalStands(removed, stale[..|stale| - 1], dev);
    }
  }

  /** The dispersal of device tables converges. */
  lemma DevicesConverge(roster: Roster, s: System<States>, group: set<Members.Socket>, p: Members.Socket,
                        q: Members.Socket)
    requires Reachable(DeviceLattice(), roster, s)
    requires Settled(s, group) && p in group && q in group
    ensures DataOf(DeviceLattice(), s, p) == DataOf(DeviceLattice(), s, q)
  {
    DevicesAreALattice();
    SettledAgree(DeviceLattice(), roster, s, group, p, q);
  }
}
