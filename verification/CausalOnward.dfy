/** There are no dead ends: a group that could settle still can after any run that leaves its peers and preferences
    alone, whatever is mutated, delivered, lost or timed out on the way, and whatever happens elsewhere. */
module CausalOnward {
  import opened Causal
  import opened CausalNet
  import opened CausalProgress
  import opened CausalTimers
  import opened Lattices
  import opened Members

  /** One process, before and after: it is who it was and knows whom it knew, its data has not shrunk, it does not lose
      its timer, and it has one if it has learnt something. */
  ghost predicate OnwardOne<S(!new)>(lattice: Lattice<S>, s: System<S>, t: System<S>, x: Socket)
    requires IsActive(s, x)
  {
    && IsActive(t, x)
    && IdOf(t, x) == IdOf(s, x) && ReplicaOf(t, x).acks.Keys == ReplicaOf(s, x).acks.Keys
    && (forall i | i in ReplicaOf(s, x).acks :: ReplicaOf(t, x).acks[i].member == ReplicaOf(s, x).acks[i].member)
    && lattice.Le(ReplicaOf(s, x).data, ReplicaOf(t, x).data)
    && (Prompted(s, x) ==> Prompted(t, x))
    && (Prompted(t, x) || ReplicaOf(t, x).data == ReplicaOf(s, x).data)
    && (x in s.prefs ==> x in t.prefs && t.prefs[x] == s.prefs[x])
  }

  ghost predicate Onward<S(!new)>(lattice: Lattice<S>, s: System<S>, t: System<S>, group: set<Socket>) {
    forall x | x in group :: IsActive(s, x) && OnwardOne(lattice, s, t, x)
  }

  lemma OnwardNowhere<S(!new)>(lattice: Lattice<S>, s: System<S>, group: set<Socket>)
    requires lattice.Laws() && forall x | x in group :: IsActive(s, x)
    ensures Onward(lattice, s, s, group)
  {
    forall x | x in group
      ensures OnwardOne(lattice, s, s, x)
    {
      lattice.LeReflexive(ReplicaOf(s, x).data);
    }
  }

  lemma OnwardThen<S(!new)>(lattice: Lattice<S>, s: System<S>, t: System<S>, u: System<S>, group: set<Socket>)
    requires lattice.Laws() && Onward(lattice, s, t, group) && Onward(lattice, t, u, group)
    ensures Onward(lattice, s, u, group)
  {
    hide Lattice.Laws, Prompted;
    forall x | x in group
      ensures OnwardOne(lattice, s, u, x)
    {
      assert OnwardOne(lattice, s, t, x) && OnwardOne(lattice, t, u, x);
      lattice.LeTransitive(ReplicaOf(s, x).data, ReplicaOf(t, x).data, ReplicaOf(u, x).data);
    }
  }

  // ----- one step

  function Mover<S(!new)>(step: Step<S>): Socket {
    if step.Deliver? then step.packet.to else step.p
  }

  /** The step is not a membership update or a new preference at a member of the group. */
  predicate Spares<S(!new)>(step: Step<S>, group: set<Socket>) {
    (step.Update? || step.SetPreference?) ==> step.p !in group
  }

  predicate SparesAll<S(!new)>(steps: seq<Step<S>>, group: set<Socket>) {
    forall i | 0 <= i < |steps| :: Spares(steps[i], group)
  }

  ghost predicate Unmoved<S(!new)>(s: System<S>, t: System<S>, y: Socket) {
    && y in s.nodes && y in t.nodes && t.nodes[y] == s.nodes[y] && (y in s.timers ==> y in t.timers)
    && (y in s.prefs ==> y in t.prefs && t.prefs[y] == s.prefs[y])
  }

  lemma DispersedStays<S(!new)>(lattice: Lattice<S>, s: System<S>, m: System<S>, x: Socket, y: Socket)
    requires IsActive(m, x) && y != x && Unmoved(s, m, y)
    ensures Unmoved(s, Dispersed(lattice, m, x), y)
  {
  }

  lemma ReceivedStays<S(!new)>(lattice: Lattice<S>, s: System<S>, packet: Packet<S>, y: Socket)
    requires packet.to in s.nodes && y in s.nodes && y != packet.to
    ensures Unmoved(s, CausalNet.Received(lattice, s, packet), y)
  {
    hide Causal.Received, Acked, Dispersed, Reply;
    if IsActive(s, packet.to) {
      if packet.payload.Delta? {
        var r := ReplicaOf(s, packet.to);
        var r' := Causal.Received(lattice, r, packet.payload.delta, packet.payload.id);
        var m := Moved(s, packet.to, r', Reply(r, packet.payload.id, packet.payload.clock));
        DispersedStays(lattice, s, m, packet.to, y);
      }
    }
  }

  /** Nobody but the mover is touched. */
  lemma OthersStay<S(!new)>(lattice: Lattice<S>, roster: Roster, s: System<S>, step: Step<S>, y: Socket)
    requires Enabled(roster, s, step) && IsActive(s, y) && y != Mover(step)
    ensures Unmoved(s, Next(lattice, roster, s, step), y)
  {
    hide CausalNet.Received, Mutated, UpdatedAll, Dispersed, Started, AllExpected, AnyChangesPeers, PriorityKnown,
         PriorityAmong, Listed, MayHear, OrdOf, FirstCount;
    match step {
      case Mutate(x, op) =>
        var r := ReplicaOf(s, x);
        var m := Moved(s, x, Mutated(lattice, r, op), {}).(born := s.born + [(x, op(r.data))]);
        DispersedStays(lattice, s, m, x, y);
      case Timeout(x) =>
        var m := s.(timers := s.timers - multiset{x});
        if IsActive(s, x) {
          DispersedStays(lattice, s, m, x, y);
        }
      case Deliver(packet) => ReceivedStays(lattice, s, packet, y);
      case Update(x, events) =>
        DispersedStays(lattice, s, Moved(s, x, UpdatedAll(ReplicaOf(s, x), events), {}), x, y);
      case _ =>
    }
  }

  lemma OthersAreOnward<S(!new)>(lattice: Lattice<S>, roster: Roster, s: System<S>, step: Step<S>, y: Socket)
    requires lattice.Laws() && Enabled(roster, s, step) && IsActive(s, y) && y != Mover(step)
    ensures OnwardOne(lattice, s, Next(lattice, roster, s, step), y)
  {
    OthersStay(lattice, roster, s, step, y);
    hide Next, Enabled, Mover, Lattice.Laws, Lattice.Le;
    lattice.LeReflexive(ReplicaOf(s, y).data);
  }

  lemma TimeoutIsOnward<S(!new)>(lattice: Lattice<S>, roster: Roster, s: System<S>, x: Socket)
    requires lattice.Laws() && Inv(lattice, roster, s) && Enabled(roster, s, Timeout(x)) && IsActive(s, x)
    ensures OnwardOne(lattice, s, Next(lattice, roster, s, Timeout(x)), x)
  {
    var t := Next(lattice, roster, s, Timeout(x));
    OwnId(lattice, roster, s, x);
    LowestAck(ReplicaOf(s, x).acks);
    lattice.LeReflexive(ReplicaOf(s, x).data);
    hide Inv, Lattice.Laws, Lattice.Le, Dispersal;
    assert t.nodes == s.nodes && Prompted(t, x);
  }

  lemma MutateIsOnward<S(!new)>(lattice: Lattice<S>, roster: Roster, s: System<S>, x: Socket, op: Mutator<S>)
    requires lattice.Laws() && Inv(lattice, roster, s) && Enabled(roster, s, Mutate(x, op))
    ensures OnwardOne(lattice, s, Next(lattice, roster, s, Mutate(x, op)), x)
  {
    var r := ReplicaOf(s, x);
    OwnId(lattice, roster, s, x);
    lattice.LeReflexive(r.data);
    lattice.JoinIsUpper(r.data, op(r.data));
    hide Inv, Lattice.Laws, Lattice.Le, Dispersal;
  }

  lemma DeltaIsOnward<S(!new)>(
    lattice: Lattice<S>, roster: Roster, s: System<S>, x: Socket, d: S, id: nat, clock: nat)
    requires lattice.Laws() && Inv(lattice, roster, s) && IsActive(s, x)
    ensures OnwardOne(lattice, s, CausalNet.Received(lattice, s, Packet(x, Delta(d, id, clock))), x)
  {
    var t := CausalNet.Received(lattice, s, Packet(x, Delta(d, id, clock)));
    var r := ReplicaOf(s, x);
    OwnId(lattice, roster, s, x);
    lattice.LeReflexive(r.data);
    lattice.JoinIsUpper(r.data, d);
    hide Inv, Lattice.Laws, Lattice.Le, Dispersal, Reply;
    assert ReplicaOf(t, x) == Causal.Received(lattice, r, d, id);
    assert ReplicaOf(t, x) != r ==> x in t.timers;
  }

  lemma AckedKeepsPeers<S>(r: Replica<S>, id: nat, clock: nat)
    requires Acked(r, id, clock).Alive?
    ensures var r' := Acked(r, id, clock).replica;
            && r'.data == r.data && r'.member == r.member && r'.acks.Keys == r.acks.Keys
            && forall i | i in r.acks :: r'.acks[i].member == r.acks[i].member
  {
  }

  lemma AckIsOnward<S(!new)>(
    lattice: Lattice<S>, roster: Roster, s: System<S>, x: Socket, id: nat, clock: nat)
    requires lattice.Laws() && Inv(lattice, roster, s) && IsActive(s, x) && Packet(x, Ack(id, clock)) in s.net
    ensures OnwardOne(lattice, s, CausalNet.Received(lattice, s, Packet(x, Ack(id, clock))), x)
  {
    AckMovesNothingElse(lattice, roster, s, x, id, clock);
    lattice.LeReflexive(ReplicaOf(s, x).data);
    hide Inv, Lattice.Laws, Lattice.Le, ActsAlone, Acked;
    AckedKeepsPeers(ReplicaOf(s, x), id, clock);
  }

  lemma MoverIsOnward<S(!new)>(
    lattice: Lattice<S>, roster: Roster, s: System<S>, step: Step<S>, group: set<Socket>)
    requires lattice.Laws() && Inv(lattice, roster, s) && Enabled(roster, s, step) && Spares(step, group)
    requires Mover(step) in group && IsActive(s, Mover(step))
    ensures OnwardOne(lattice, s, Next(lattice, roster, s, step), Mover(step))
  {
    hide Inv, Lattice.Laws, OnwardOne;
    match step {
      case Timeout(x) => TimeoutIsOnward(lattice, roster, s, x);
      case Mutate(x, op) => MutateIsOnward(lattice, roster, s, x, op);
      case Deliver(packet) =>
        match packet.payload {
          case Delta(d, id, clock) => DeltaIsOnward(lattice, roster, s, packet.to, d, id, clock);
          case Ack(id, clock) => AckIsOnward(lattice, roster, s, packet.to, id, clock);
        }
      case _ =>
    }
  }

  lemma StepIsOnward<S(!new)>(
    lattice: Lattice<S>, roster: Roster, s: System<S>, step: Step<S>, group: set<Socket>)
    requires lattice.Laws() && Inv(lattice, roster, s) && Enabled(roster, s, step) && Spares(step, group)
    requires forall x | x in group :: IsActive(s, x)
    ensures Onward(lattice, s, Next(lattice, roster, s, step), group)
  {
    var t := Next(lattice, roster, s, step);
    hide Inv, Lattice.Laws, OnwardOne, Enabled, Next, Mover;
    forall x | x in group
      ensures OnwardOne(lattice, s, t, x)
    {
      if x == Mover(step) {
        MoverIsOnward(lattice, roster, s, step, group);
      } else {
        OthersAreOnward(lattice, roster, s, step, x);
      }
    }
  }

  lemma {:induction false} RunIsOnward<S(!new)>(
    lattice: Lattice<S>, roster: Roster, s: System<S>, steps: seq<Step<S>>, t: System<S>, group: set<Socket>)
    requires lattice.Laws() && Inv(lattice, roster, s) && Reaches(lattice, roster, s, steps, t)
    requires (forall x | x in group :: IsActive(s, x)) && SparesAll(steps, group)
    ensures Onward(lattice, s, t, group)
    decreases |steps|
  {
    hide Inv, Lattice.Laws, OnwardOne, Next, Spares;
    if steps == [] {
      OnwardNowhere(lattice, s, group);
    } else {
      var m := Next(lattice, roster, s, steps[0]);
      StepKeepsInv(lattice, roster, s, steps[0]);
      StepIsOnward(lattice, roster, s, steps[0], group);
      OnwardIsActive(lattice, s, m, group);
      RunIsOnward(lattice, roster, m, steps[1..], t, group);
      OnwardThen(lattice, s, m, t, group);
    }
  }

  lemma OnwardIsActive<S(!new)>(lattice: Lattice<S>, s: System<S>, t: System<S>, group: set<Socket>)
    requires Onward(lattice, s, t, group)
    ensures forall x | x in group :: IsActive(s, x) && IsActive(t, x)
  {
  }

  // ----- what is kept

  lemma OnwardKeepsConnected<S(!new)>(lattice: Lattice<S>, s: System<S>, t: System<S>, group: set<Socket>)
    requires Onward(lattice, s, t, group) && Connected(s, group)
    ensures Connected(t, group)
  {
    hide Lattice.Le, Prompted;
    forall x | x in group
      ensures Served(t, x, group)
    {
      assert Served(s, x, group);
      assert GroupIds(t, group - {x}) == GroupIds(s, group - {x});
      assert Outsiders(t, x, group) == Outsiders(s, x, group);
    }
    forall x, y | x in group && y in group && x != y
      ensures Knows(t, x, y)
    {
      assert Knows(s, x, y);
    }
  }

  /** Who still lacks a timer has learnt nothing, so what was news to it still is. */
  lemma OnwardKeepsTaught<S(!new)>(lattice: Lattice<S>, s: System<S>, t: System<S>, group: set<Socket>)
    requires lattice.Laws() && Onward(lattice, s, t, group) && Mutual(s, group) && Taught(lattice, s, group)
    ensures Taught(lattice, t, group)
  {
    hide Lattice.Laws, Lattice.Le, Prompted;
    assert Unprompted(t, group) <= Unprompted(s, group);
    forall some: set<Socket> | some != {} && some <= Unprompted(t, group)
      ensures HasNews(lattice, t, group, some)
    {
      assert HasNews(lattice, s, group, some);
      var p, x :| p in some && x in group - some && !lattice.Le(DataOf(lattice, s, x), DataOf(lattice, s, p));
      assert p in Unprompted(t, group);
      if lattice.Le(DataOf(lattice, t, x), DataOf(lattice, t, p)) {
        lattice.LeTransitive(DataOf(lattice, s, x), DataOf(lattice, t, x), DataOf(lattice, t, p));
      }
    }
  }

  /** Wherever such a run has led, the group can settle from there by timeouts and deliveries alone, and then agrees. */
  lemma GroupCanAlwaysSettle<S(!new)>(
    lattice: Lattice<S>, roster: Roster, s: System<S>, group: set<Socket>, steps: seq<Step<S>>, t: System<S>)
    requires lattice.Laws() && Reachable(lattice, roster, s) && Connected(s, group) && Taught(lattice, s, group)
    requires Reaches(lattice, roster, s, steps, t) && SparesAll(steps, group)
    ensures exists u, data ::
              Leads(lattice, roster, t, u) && Settled(u, group) && Agree(lattice, u, group, data)
  {
    ReachableInv(lattice, roster, s);
    var prefs, before :| Reaches(lattice, roster, Initial(prefs), before, s);
    ReachesThen(lattice, roster, Initial(prefs), before, s, steps, t);
    assert Mutual(s, group) && Reachable(lattice, roster, t);
    hide Leads, Settled, Agree, Inv, Connected, Taught, Reaches, Reachable, Lattice.Laws, Spares, Onward;
    RunIsOnward(lattice, roster, s, steps, t, group);
    OnwardKeepsConnected(lattice, s, t, group);
    OnwardKeepsTaught(lattice, s, t, group);
    GroupCanSettle(lattice, roster, t, group);
  }
}
