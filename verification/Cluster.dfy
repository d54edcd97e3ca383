/** The cluster actor: gossip, member set, ring, charges and managers, maintained incrementally by every
    handler, always agree with what the gossip map alone would give. */
module Cluster {
  import opened Gossip
  import opened Members
  import opened NodeRing
  import opened Ordered
  import opened Ring

  /** What a subscriber is told. */
  datatype ClusterUpdate = ClusterUpdate(events: seq<ClusterEvent>, nodes: set<Member>)

  /** What the state of an actor in the cluster means: everything else follows from it. */
  datatype View = View(self: Member, states: States)

  /** A merge; a node that finds itself down comes back under the fresh identifier. */
  function AfterGossip(v: View, gossip: States, renewed: Member): View {
    var merged := Merged(v.states, gossip);
    if v.self in merged && merged[v.self].Down? then View(renewed, merged[renewed := Up])
    else View(v.self, merged)
  }

  function AfterPing(v: View, pinger: Member): View {
    if pinger in v.states then v else View(v.self, v.states[pinger := Up])
  }

  function AfterDowned(v: View, charge: Member): View {
    View(v.self, v.states[charge := Down])
  }

  datatype Event = Heard(gossip: States, renewed: Member) | Pinged(pinger: Member) | Lost(charge: Member)

  /** What subscribers are told about an event; nothing when it changes nobody's presence. */
  ghost predicate Publishes(v: View, e: Event, feed: seq<ClusterEvent>) {
    match e
    case Heard(gossip, renewed) =>
      var merged := Merged(v.states, gossip);
      var announced := if v.self in merged && merged[v.self].Down? then [Joined(renewed)] else [];
      exists events :: Reports(events, v.states, merged) && feed == events + announced
    case Pinged(pinger) => feed == if pinger in v.states then [] else [Added(pinger)]
    case Lost(charge) => charge in v.states && feed == if v.states[charge].Down? then [] else [Removed(charge)]
  }

  /** Who is present after the events, one after another. */
  function Present(before: set<Member>, events: seq<ClusterEvent>): set<Member> {
    if events == [] then before else
      var front := Present(before, events[..|events| - 1]);
      match events[|events| - 1]
      case Added(m) => front + {m}
      case Removed(m) => front - {m}
      case _ => front
  }

  lemma PresentPush(before: set<Member>, events: seq<ClusterEvent>, i: nat)
    requires i < |events|
    ensures Present(before, events[..i + 1]) ==
              match events[i]
              case Added(m) => Present(before, events[..i]) + {m}
              case Removed(m) => Present(before, events[..i]) - {m}
              case _ => Present(before, events[..i])
  {
    assert events[..i + 1][..i] == events[..i];
  }

  /** One event applied to node, member set and nothing announced yet; a node that is itself removed comes back
      under its new identifier and announces that. */
  function OneApplied(v: View, members: set<Member>, e: ClusterEvent, renewed: Member)
    : (View, set<Member>, seq<ClusterEvent>)
  {
    if e == Removed(v.self) then
      (View(renewed, v.states[renewed := Up]), members - {v.self} + {renewed}, [Joined(renewed)])
    else
      (v, if e.Added? then members + {e.member} else if e.Removed? then members - {e.member} else members, [])
  }

  /** All events applied. */
  function Applied(v: View, before: set<Member>, events: seq<ClusterEvent>, renewed: Member)
    : (View, set<Member>, seq<ClusterEvent>)
  {
    if Removed(v.self) in events then
      (View(renewed, v.states[renewed := Up]), Present(before, events) + {renewed}, [Joined(renewed)])
    else
      (v, Present(before, events), [])
  }

  lemma AppliedNone(v: View, before: set<Member>, events: seq<ClusterEvent>, renewed: Member)
    ensures Applied(v, before, events[..0], renewed) == (v, before, [])
  {
  }

  lemma AppliedPush(v: View, before: set<Member>, events: seq<ClusterEvent>, i: nat, renewed: Member)
    requires i < |events| && v.self != renewed
    requires (events[i].Added? || events[i].Removed?) && events[i].member != renewed
    ensures Present(before, events[..i]) <= Applied(v, before, events[..i], renewed).1
    ensures var (w, members, joined) := Applied(v, before, events[..i], renewed);
            var (x, next, more) := OneApplied(w, members, events[i], renewed);
            Applied(v, before, events[..i + 1], renewed) == (x, next, joined + more)
  {
    SeenPush(events, i, Removed(v.self));
    PresentPush(before, events, i);
    var (w, members, joined) := Applied(v, before, events[..i], renewed);
    assert joined + [] == joined;
    if Removed(v.self) in events[..i] {
      var m, present := events[i].member, Present(before, events[..i]);
      assert present + {m} + {renewed} == present + {renewed} + {m};
      assert present - {m} + {renewed} == present + {renewed} - {m};
    } else {
      assert joined + [Joined(renewed)] == [Joined(renewed)];
    }
  }

  lemma SeenPush(events: seq<ClusterEvent>, i: nat, e: ClusterEvent)
    requires i < |events|
    ensures e in events[..i + 1] <==> e in events[..i] || events[i] == e
  {
  }

  lemma {:induction false} PresentMeans(before: set<Member>, events: seq<ClusterEvent>, i: nat, m: Member)
    requires i <= |events| && forall e :: e in events ==> e.Added? || e.Removed?
    requires forall j, k :: 0 <= j < k < |events| ==> events[j].member != events[k].member
    ensures m in Present(before, events[..i])
       <==> (m in before && Removed(m) !in events[..i]) || Added(m) in events[..i]
  {
    if i > 0 {
      PresentMeans(before, events, i - 1, m);
      PresentPush(before, events, i - 1);
      assert events[..i] == events[..i - 1] + [events[i - 1]];
    }
  }

  /** Reported events lead from the old member set to the new one, and each removal removes somebody. */
  lemma ReportsLead(events: seq<ClusterEvent>, before: States, after: States)
    requires Reports(events, before, after) && Follows(before, after)
    ensures Present(UpSet(before), events) == UpSet(after)
    ensures forall i :: 0 <= i < |events| && events[i].Removed? ==>
              events[i].member in Present(UpSet(before), events[..i])
    ensures forall e :: e in events && e.Added? ==> e.member in UpSet(after)
    ensures forall e :: e in events && e.Removed? ==> e.member in UpSet(before)
  {
    forall j, k | 0 <= j < k < |events| ensures events[j].member != events[k].member {
      assert MemberLess(events[j].member, events[k].member);
      MemberOrder();
    }
    assert events[..|events|] == events;
    forall m ensures m in Present(UpSet(before), events) <==> m in UpSet(after) {
      PresentMeans(UpSet(before), events, |events|, m);
    }
    forall i | 0 <= i < |events| && events[i].Removed?
      ensures events[i].member in Present(UpSet(before), events[..i])
    {
      var m := events[i].member;
      PresentMeans(UpSet(before), events, i, m);
      assert Removed(m) in events;
    }
    forall e | e in events && e.Added? ensures e.member in UpSet(after) {
      assert Added(e.member) in events;
    }
    forall e | e in events && e.Removed? ensures e.member in UpSet(before) {
      assert Removed(e.member) in events;
    }
  }

  lemma HeadIsIn<T>(s: seq<T>)
    ensures s != [] ==> s[0] in s
  {
  }

  lemma ValuesPush<K, V>(m: map<K, V>, k: K, v: V)
    requires k !in m
    ensures m[k := v].Values == m.Values + {v}
  {
    assert forall j :: j in m ==> m[k := v][j] == m[j];
    assert m[k := v][k] == v;
  }

  lemma CollisionFreeSubset(h: Hashing, all: set<Member>, some: set<Member>)
    requires CollisionFree(h, all) && some <= all
    ensures CollisionFree(h, some)
  {
  }

  /** The world a node lives in: everyone who ever takes part has pairwise different ring keys and asks for
      at least one virtual node. */
  ghost predicate World(h: Hashing, all: set<Member>) {
    CollisionFree(h, all) && forall m :: m in all ==> m.vnodes > 0
  }

  /** Every receiver handle is either in use for exactly one charge or terminated. */
  ghost predicate ReceiversOk(charges: map<Member, nat>, spawned: nat, terminated: set<nat>) {
    && (forall m :: m in charges ==> charges[m] < spawned && charges[m] !in terminated)
    && (forall m, n :: m in charges && n in charges && charges[m] == charges[n] ==> m == n)
    && (forall r :: r in terminated ==> r < spawned)
    && (forall r :: 0 <= r < spawned && r !in terminated ==> r in charges.Values)
  }

  /** The receivers after a change of charges: those of members that stay are kept, every other one in the
      new map is new, and the rest is what is left of the old map. */
  ghost predicate HandedOver(charges: map<Member, nat>, spawned: nat, newCharges: map<Member, nat>, next: nat) {
    && spawned <= next
    && (forall m :: m in newCharges && m in charges ==> newCharges[m] == charges[m])
    && (forall m :: m in newCharges && m !in charges ==> spawned <= newCharges[m] < next)
    && (forall m, n :: m in newCharges && n in newCharges && newCharges[m] == newCharges[n] ==> m == n)
    && (forall r :: spawned <= r < next ==> r in newCharges.Values)
  }

  lemma HandedOverMeans(charges: map<Member, nat>, spawned: nat, newCharges: map<Member, nat>, next: nat)
    requires HandedOver(charges, spawned, newCharges, next)
    ensures forall m :: m in newCharges && m in charges ==> newCharges[m] == charges[m]
    ensures forall m :: m in newCharges && m !in charges ==> spawned <= newCharges[m] < next
    ensures forall r :: r in (charges - newCharges.Keys).Values <==>
              exists m :: m in charges && m !in newCharges && charges[m] == r
  {
    var rest := charges - newCharges.Keys;
    forall m | m in charges && m !in newCharges
      ensures charges[m] in rest.Values
    {
      assert rest[m] == charges[m];
    }
  }

  lemma LeftOver(charges: map<Member, nat>, keep: set<Member>, m: Member)
    requires m in charges
    ensures m !in keep ==> charges[m] in (charges - keep).Values
  {
    if m !in keep {
      assert (charges - keep)[m] == charges[m];
    }
  }

  lemma HandOverKeepsReceivers(charges: map<Member, nat>, spawned: nat, terminated: set<nat>,
                               newCharges: map<Member, nat>, next: nat)
    requires ReceiversOk(charges, spawned, terminated) && HandedOver(charges, spawned, newCharges, next)
    ensures ReceiversOk(newCharges, next, terminated + (charges - newCharges.Keys).Values)
  {
    var rest := charges - newCharges.Keys;
    forall r | 0 <= r < next && r !in terminated + rest.Values ensures r in newCharges.Values {
      if r < spawned {
        var m :| m in charges && charges[m] == r;
        LeftOver(charges, newCharges.Keys, m);
        assert m in newCharges;
        assert newCharges[m] == r;
      }
    }
  }

  lemma HandOverOne(charges: map<Member, nat>, spawned: nat, terminated: set<nat>,
                    newCharges: map<Member, nat>, next: nat, m: Member)
    requires ReceiversOk(charges, spawned, terminated)
    requires HandedOver(charges, spawned, newCharges, next) && m !in newCharges
    ensures m in charges ==> HandedOver(charges, spawned, newCharges[m := charges[m]], next)
    ensures m !in charges ==> HandedOver(charges, spawned, newCharges[m := next], next + 1)
  {
    ValuesPush(newCharges, m, if m in charges then charges[m] else next);
  }

  class InCluster {
    const hashing: Hashing
    const repFactor: nat
    var member: Member
    var charges: map<Member, nat>
    var managers: seq<Member>
    var gossip: Gossip
    var members: set<Member>
    var ring: NodeRing
    var spawned: nat
    var terminated: set<nat>
    ghost const world: set<Member>
    ghost var watched: set<Member>

    ghost function State(): View
      reads this, gossip
    {
      View(member, gossip.states)
    }

    /** The ring is the ring of the member set. */
    ghost predicate Synced()
      reads this`members, this`ring, ring
    {
      && World(hashing, world) && members <= world
      && ring.hashing == hashing && ring.repFactor == repFactor && ring.Valid()
      && ring.members == members
    }

    /** Gossip, member set and ring agree, and the node itself is up. */
    ghost predicate Agreed()
      reads this`member, this`members, this`ring, this`gossip, this`charges, this`spawned, this`terminated,
            this`watched, gossip, ring
    {
      && Synced() && gossip.states.Keys <= world
      && members == UpSet(gossip.states)
      && member in members
      && watched <= gossip.states.Keys && member !in watched
      && charges.Keys <= watched
      && ReceiversOk(charges, spawned, terminated)
    }

    /** Charges and managers are those of the ring: the node watches exactly the members it is a manager of. */
    ghost predicate Valid()
      reads this, gossip, ring
    {
      && Agreed()
      && (forall x {:trigger x in charges} ::
            x in charges <==> x in members && member in ring.NodeManagers(x).value)
      && managers == ring.NodeManagers(member).value
    }

    /** `InCluster::alone`. */
    constructor Alone(hashing: Hashing, repFactor: nat, member: Member, ghost world: set<Member>)
      requires World(hashing, world) && member in world
      ensures Valid() && fresh(gossip) && fresh(ring)
      ensures this.hashing == hashing && this.repFactor == repFactor && this.world == world
      ensures State() == View(member, map[member := Up])
    {
      this.hashing, this.repFactor, this.member, this.world := hashing, repFactor, member, world;
      charges, managers, members := map[], [], {member};
      gossip := new Gossip(map[member := Up]);
      ring := new NodeRing(hashing, repFactor);
      spawned, terminated, watched := 0, {}, {};
      new;
      CollisionFreeSubset(hashing, world, {member});
      assert {} + {member} == {member};
      ring.Insert(member);
      assert members == UpSet(gossip.states);
      SingleNode();
    }

    lemma SingleNode()
      requires Agreed() && members == {member}
      ensures ring.NodeManagers(member).value == []
      ensures forall x :: x in members ==> member !in ring.NodeManagers(x).value
    {
      ring.ManagersAreMembers(member);
      var list := ring.NodeManagers(member).value;
      HeadIsIn(list);
    }

    /** `Pinging` receiving a gossip state: the node adopts the gossip, under a fresh identifier if the gossip
        says it is down, and builds its ring from the members that are up. */
    constructor FromGossip(hashing: Hashing, repFactor: nat, self: Member, states: States, renewed: Member,
                           ghost world: set<Member>)
      requires World(hashing, world) && states.Keys <= world && self in world && renewed in world
      requires renewed !in states
      ensures Valid() && fresh(gossip) && fresh(ring)
      ensures this.hashing == hashing && this.repFactor == repFactor && this.world == world
      ensures State() == if self in states && states[self].Down? then View(renewed, states[renewed := Up])
                         else View(self, states[self := Up])
    {
      var downed := self in states && states[self].Down?;
      var member := if downed then renewed else self;
      var adopted := if self !in states || downed then states[member := Up] else states;
      this.hashing, this.repFactor, this.member, this.world := hashing, repFactor, member, world;
      charges, managers, members := map[], [], {};
      gossip := new Gossip(adopted);
      ring := new NodeRing(hashing, repFactor);
      spawned, terminated, watched := 0, {}, {};
      new;
      hide NodeRing.NodeManagers, NodeRing.Valid, World;
      assert adopted == states[member := Up];
      EnterRing();
    }

    /** `Pinging` receiving a ping from a seed: the two of them are the cluster. */
    constructor FromPing(hashing: Hashing, repFactor: nat, self: Member, pinger: Member, ghost world: set<Member>)
      requires World(hashing, world) && self in world && pinger in world
      ensures Valid() && fresh(gossip) && fresh(ring)
      ensures this.hashing == hashing && this.repFactor == repFactor && this.world == world
      ensures State() == View(self, map[pinger := Up, self := Up])
    {
      var states := map[pinger := Up, self := Up];
      this.hashing, this.repFactor, this.member, this.world := hashing, repFactor, self, world;
      charges, managers, members := map[], [], {};
      gossip := new Gossip(states);
      ring := new NodeRing(hashing, repFactor);
      spawned, terminated, watched := 0, {}, {};
      new;
      hide NodeRing.NodeManagers, NodeRing.Valid, World;
      EnterRing();
    }

    /** Everyone who is up goes into the member set and the ring. */
    method EnterRing()
      requires Synced() && members == {} && gossip.states.Keys <= world && member in UpSet(gossip.states)
      requires charges == map[] && spawned == 0 && terminated == {} && watched == {}
      modifies this`members, this`charges, this`managers, this`spawned, this`terminated, this`watched, ring
      ensures Valid()
    {
      hide NodeRing.NodeManagers, NodeRing.Valid, World;
      AddAll(UpSet(gossip.states));
      UpdateChargesManagers();
    }

    method AddAll(those: set<Member>)
      requires Synced() && members == {} && those <= world
      modifies this`members, ring
      ensures Synced() && members == those
    {
      hide NodeRing.NodeManagers, NodeRing.Valid, World;
      var todo := those;
      while todo != {}
        invariant todo <= those && members == those - todo && Synced()
        decreases |todo|
      {
        var m :| m in todo;
        Add(m);
        todo := todo - {m};
      }
    }

    /** `ring.insert` and `members.insert`, which always go together. */
    method Add(m: Member)
      requires Synced() && m in world
      modifies this`members, ring
      ensures Synced() && members == old(members) + {m}
    {
      CollisionFreeSubset(hashing, world, ring.members + {m});
      ring.Insert(m);
      members := members + {m};
    }

    /** `ring.remove(..).unwrap()` and `members.remove(..).unwrap()`: both find the member. */
    method Drop(m: Member)
      requires Synced() && m in members
      modifies this`members, ring
      ensures Synced() && members == old(members) - {m}
    {
      CollisionFreeSubset(hashing, world, ring.members + {m});
      var r := ring.Remove(m);
      assert r.Pass?;
      members := members - {m};
    }

    /** Makes charges and managers those of the current ring, keeping the receivers of members that stay
        charges, starting one for each new charge and terminating those of the others. */
    method UpdateChargesManagers()
      requires Agreed()
      modifies this`charges, this`managers, this`spawned, this`terminated, this`watched
      ensures Valid()
      ensures watched == old(watched) + charges.Keys
      ensures HandedOver(old(charges), old(spawned), charges, spawned)
      ensures terminated == old(terminated) + (old(charges) - charges.Keys).Values
      ensures forall m :: m in charges && m in old(charges) ==> charges[m] == old(charges)[m]
      ensures forall m :: m in charges && m !in old(charges) ==> old(spawned) <= charges[m] < spawned
      ensures forall r :: r in terminated <==>
                r in old(terminated) || exists m :: m in old(charges) && m !in charges && old(charges)[m] == r
    {
      hide *;
      AgreedParts();
      var mine := MyCharges();
      SetCharges(mine);
      AgreedParts();
      managers := MyManagers();
      ValidFromParts(mine);
      HandedOverMeans(old(charges), old(spawned), charges, spawned);
    }

    lemma AgreedParts()
      requires Agreed()
      ensures Synced() && member in members
      ensures ring.Valid() && forall x :: x in members ==> ring.NodeManagers(x).Some?
    {
    }

    lemma ValidFromParts(mine: seq<Member>)
      requires Agreed()
      requires forall x {:trigger x in charges} :: x in charges <==> x in mine
      requires forall x {:trigger x in mine} :: x in mine <==> x in members && member in ring.NodeManagers(x).value
      requires managers == ring.NodeManagers(member).value
      ensures Valid()
    {
      hide NodeRing.NodeManagers, NodeRing.Valid, World, ReceiversOk, HandedOver;
    }

    method MyCharges() returns (mine: seq<Member>)
      requires Synced() && member in members
      ensures Distinct(mine)
      ensures forall x {:trigger x in mine} :: x in mine <==> x in members && member in ring.NodeManagers(x).value
      ensures member !in mine
    {
      MembersHaveSlots();
      hide NodeRing.NodeManagers, NodeRing.Valid, World;
      var list := ring.Charges(member);
      mine := list.value;
    }

    method MyManagers() returns (mine: seq<Member>)
      requires Synced() && member in members
      ensures mine == ring.NodeManagers(member).value
    {
      hide NodeRing.NodeManagers, NodeRing.Valid, World;
      var list := ring.NodeManagers(member);
      mine := list.value;
    }

    method SetCharges(mine: seq<Member>)
      requires Agreed() && Distinct(mine)
      requires member !in mine && forall x :: x in mine ==> x in members
      modifies this`charges, this`spawned, this`terminated, this`watched
      ensures Agreed() && forall x {:trigger x in charges} :: x in charges <==> x in mine
      ensures watched == old(watched) + charges.Keys
      ensures HandedOver(old(charges), old(spawned), charges, spawned)
      ensures terminated == old(terminated) + (old(charges) - charges.Keys).Values
    {
      hide NodeRing.NodeManagers, NodeRing.Valid, World, ReceiversOk, HandedOver;
      var newCharges, rest, next := Reassign(mine, charges, spawned, terminated);
      HandOverKeepsReceivers(charges, spawned, terminated, newCharges, next);
      terminated := terminated + rest.Values;
      charges, spawned := newCharges, next;
      watched := watched + newCharges.Keys;
    }

    lemma MembersHaveSlots()
      requires Synced()
      ensures forall m :: m in members ==> m.vnodes > 0
    {
    }

    /** Hands the receivers over to the new charges; `rest` are those nobody needs any more. */
    static method Reassign(mine: seq<Member>, charges: map<Member, nat>, spawned: nat, ghost terminated: set<nat>)
      returns (newCharges: map<Member, nat>, rest: map<Member, nat>, next: nat)
      requires Distinct(mine) && ReceiversOk(charges, spawned, terminated)
      ensures forall n :: n in newCharges <==> n in mine
      ensures rest == charges - newCharges.Keys
      ensures HandedOver(charges, spawned, newCharges, next)
    {
      newCharges, rest, next := map[], charges, spawned;
      assert HandedOver(charges, spawned, newCharges, next);
      hide HandedOver, ReceiversOk;
      for i := 0 to |mine|
        invariant forall n :: n in newCharges <==> n in mine[..i]
        invariant forall n :: n in rest <==> n in charges && n !in newCharges
        invariant forall n :: n in rest ==> rest[n] == charges[n]
        invariant HandedOver(charges, spawned, newCharges, next)
      {
        var m := mine[i];
        assert mine[..i + 1] == mine[..i] + [m];
        HandOverOne(charges, spawned, terminated, newCharges, next, m);
        if m in rest {
          newCharges := newCharges[m := rest[m]];
          rest := rest - {m};
        } else {
          newCharges := newCharges[m := next];
          next := next + 1;
        }
      }
      assert mine[..|mine|] == mine;
    }

    /** The `State` message. */
    method OnGossip(other: States, renewed: Member) returns (updates: seq<ClusterUpdate>)
      requires Valid() && other.Keys <= world
      requires renewed in world && renewed !in gossip.states && renewed !in other
      modifies this, gossip, ring
      ensures Valid() && gossip == old(gossip) && ring == old(ring)
      ensures State() == AfterGossip(old(State()), other, renewed)
      ensures updates == [] || (|updates| == 1 && updates[0].events != [] && updates[0].nodes == members)
      ensures Publishes(old(State()), Heard(other, renewed), if updates == [] then [] else updates[0].events)
    {
      hide NodeRing.NodeManagers, NodeRing.Valid, World, ReceiversOk;
      ghost var before, self := gossip.states, member;
      var events := gossip.Merge(other);
      ghost var merged := gossip.states;
      MergedFollows(before, other);
      ReportsLead(events, before, merged);
      assert Removed(self) in events <==> merged[self].Down?;
      hide Reports;
      var newSelf := ApplyEvents(events, renewed);
      assert UpSet(merged[renewed := Up]) == UpSet(merged) + {renewed};
      assert Agreed();
      var all := events + newSelf;
      UpdateChargesManagers();
      updates := if all != [] then [ClusterUpdate(all, members)] else [];
    }

    /** The loop over the events of a merge: each `remove` finds what it removes. */
    method ApplyEvents(events: seq<ClusterEvent>, renewed: Member) returns (newSelf: seq<ClusterEvent>)
      requires Synced() && renewed in world && State().self != renewed
      requires forall e :: e in events ==> (e.Added? || e.Removed?) && e.member in world && e.member != renewed
      requires forall i :: 0 <= i < |events| && events[i].Removed? ==>
                 events[i].member in Present(members, events[..i])
      modifies this`member, this`members, gossip, ring
      ensures Synced()
      ensures (State(), members, newSelf) == Applied(old(State()), old(members), events, renewed)
    {
      AppliedNone(State(), members, events, renewed);
      hide *;
      newSelf := [];
      for i := 0 to |events|
        invariant Synced()
        invariant (State(), members, newSelf) == Applied(old(State()), old(members), events[..i], renewed)
      {
        var e := events[i];
        assert e in events;
        AppliedPush(old(State()), old(members), events, i, renewed);
        var joined := ApplyEvent(e, renewed);
        newSelf := newSelf + joined;
      }
      assert events[..|events|] == events;
    }

    method ApplyEvent(e: ClusterEvent, renewed: Member) returns (joined: seq<ClusterEvent>)
      requires Synced() && renewed in world && (e.Added? || e.Removed?)
      requires (e.Added? ==> e.member in world) && (e.Removed? ==> e.member in members)
      modifies this`member, this`members, gossip, ring
      ensures Synced()
      ensures (State(), members, joined) == OneApplied(old(State()), old(members), e, renewed)
    {
      hide NodeRing.NodeManagers, NodeRing.Valid, World;
      joined := [];
      match e {
        case Added(m) => Add(m);
        case Removed(m) =>
          Drop(m);
          if m == member {
            member := renewed;
            Add(member);
            gossip.states := gossip.states[member := Up];
            joined := [Joined(member)];
          }
        case _ =>
      }
    }

    /** The `Ping` message. */
    method OnPing(pinger: Member) returns (updates: seq<ClusterUpdate>)
      requires Valid() && pinger in world
      modifies this, gossip, ring
      ensures Valid() && gossip == old(gossip) && ring == old(ring)
      ensures State() == AfterPing(old(State()), pinger)
      ensures member == old(member)
      ensures gossip.states
              == if pinger in old(gossip.states) then old(gossip.states) else old(gossip.states)[pinger := Up]
      ensures updates == if pinger in old(gossip.states) then [] else [ClusterUpdate([Added(pinger)], members)]
    {
      hide NodeRing.NodeManagers, NodeRing.Valid;
      updates := [];
      if pinger !in gossip.states {
        ghost var before := gossip.states;
        gossip.states := gossip.states[pinger := Up];
        Add(pinger);
        assert UpSet(gossip.states) == UpSet(before) + {pinger};
        UpdateChargesManagers();
        updates := [ClusterUpdate([Added(pinger)], members)];
      }
    }

    /** The `Downed` message, which only a heartbeat receiver started by this actor sends. */
    method OnDowned(charge: Member) returns (updates: seq<ClusterUpdate>)
      requires Valid() && charge in watched
      modifies this, gossip, ring
      ensures Valid() && gossip == old(gossip) && ring == old(ring)
      ensures State() == AfterDowned(old(State()), charge)
      ensures member == old(member) && gossip.states == old(gossip.states)[charge := Down]
      ensures updates == if old(gossip.states)[charge].Down? then []
                         else [ClusterUpdate([Removed(charge)], members)]
    {
      hide NodeRing.NodeManagers, NodeRing.Valid;
      updates := [];
      assert charge in gossip.states;
      if gossip.states[charge].Up? {
        ghost var before := gossip.states;
        gossip.states := gossip.states[charge := Down];
        Drop(charge);
        assert UpSet(gossip.states) == UpSet(before) - {charge};
        UpdateChargesManagers();
        updates := [ClusterUpdate([Removed(charge)], members)];
      } else {
        assert gossip.states[charge := Down] == gossip.states;
      }
    }
  }

  /** A pinging node answers pings of its seeds only. */
  method PingingOnPing(hashing: Hashing, repFactor: nat, self: Member, pinger: Member, seeds: set<Socket>,
                       ghost world: set<Member>) returns (ic: InCluster?)
    requires World(hashing, world) && self in world && pinger in world
    ensures (ic != null) <==> pinger.socket in seeds
    ensures ic != null ==> fresh(ic) && ic.Valid() && ic.State() == View(self, map[pinger := Up, self := Up])
  {
    ic := null;
    if pinger.socket in seeds {
      ic := new InCluster.FromPing(hashing, repFactor, self, pinger, world);
    }
  }

  // ----- runs of one node -----

  function After(v: View, e: Event): View {
    match e
    case Heard(gossip, renewed) => AfterGossip(v, gossip, renewed)
    case Pinged(pinger) => AfterPing(v, pinger)
    case Lost(charge) => AfterDowned(v, charge)
  }

  /** A merge, member by member: the node takes the new identifier exactly when the other side has it down, everyone
      known to either side is known, and down is who is down on either side. */
  lemma AfterGossipMeans(v: View, gossip: States, renewed: Member)
    requires v.self in v.states && v.states[v.self].Up? && renewed !in v.states && renewed !in gossip
    ensures var w, downed := AfterGossip(v, gossip, renewed), v.self in gossip && gossip[v.self].Down?;
            && w.self == (if downed then renewed else v.self)
            && (forall m :: m in w.states <==> m in v.states || m in gossip || (downed && m == renewed))
            && forall m :: m in w.states ==>
                 (w.states[m].Down? <==> (m in v.states && v.states[m].Down?) || (m in gossip && gossip[m].Down?))
  {
  }

  /** What is published about a merge: who is new and up, who was up and is down now, and in the end the new identifier,
      if the node itself is among those. */
  lemma FeedMeans(v: View, gossip: States, renewed: Member, feed: seq<ClusterEvent>)
    requires Publishes(v, Heard(gossip, renewed), feed) && v.self in v.states && v.states[v.self].Up?
    ensures forall m :: Added(m) in feed <==> m !in v.states && m in gossip && gossip[m].Up?
    ensures forall m :: Removed(m) in feed <==> m in v.states && v.states[m].Up? && m in gossip && gossip[m].Down?
    ensures forall m :: Joined(m) in feed <==> m == renewed && v.self in gossip && gossip[v.self].Down?
    ensures v.self in gossip && gossip[v.self].Down? ==> feed != [] && feed[|feed| - 1] == Joined(renewed)
    ensures forall e :: e in feed ==> e.Added? || e.Removed? || e.Joined?
  {
  }

  /** A renewed identifier is fresh, and a node never watches itself. */
  predicate Legal(v: View, e: Event) {
    match e
    case Heard(gossip, renewed) => renewed !in v.states && renewed !in gossip
    case Pinged(_) => true
    case Lost(charge) => charge in v.states && charge != v.self
  }

  predicate LegalRun(v: View, events: seq<Event>)
    decreases |events|
  {
    events == [] || (Legal(v, events[0]) && LegalRun(After(v, events[0]), events[1..]))
  }

  function AfterAll(v: View, events: seq<Event>): View
    decreases |events|
  {
    if events == [] then v else AfterAll(After(v, events[0]), events[1..])
  }

  /** Over any run a node's gossip only moves forward, so a member that is down at a node is never up there
      again; and the node itself is always up, under its current identifier. */
  lemma {:induction false} RunsMoveForward(v: View, events: seq<Event>)
    requires LegalRun(v, events) && v.self in UpSet(v.states)
    ensures Follows(v.states, AfterAll(v, events).states)
    ensures AfterAll(v, events).self in UpSet(AfterAll(v, events).states)
    ensures AfterAll(v, events).self != v.self ==>
              v.self in AfterAll(v, events).states && AfterAll(v, events).states[v.self].Down?
    decreases |events|
  {
    if events != [] {
      RunsMoveForward(After(v, events[0]), events[1..]);
    }
  }

  /** Heartbeats agree with monitoring: when two nodes have the same gossip, one sends its heartbeats to the
      other exactly when the other watches it. */
  lemma HeartbeatsMatchMonitoring(a: InCluster, b: InCluster)
    requires a.Valid() && b.Valid()
    requires a.hashing == b.hashing && a.repFactor == b.repFactor && a.gossip.states == b.gossip.states
    ensures b.member in a.managers <==> a.member in b.charges
  {
    RepresentsOne(a.hashing, a.ring.ring, b.ring.ring, a.members);
  }
}
