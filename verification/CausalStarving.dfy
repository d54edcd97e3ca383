/** When a group cannot settle: a preference that only ever selects silent peers outside the group passes it over for
    good. */
module CausalStarving {
  import opened Causal
  import opened CausalNet
  import opened CausalProgress
  import opened Lattices
  import opened Members
  import opened Ordered

  /** No active process bears the identifier, and none of its acknowledgements is on its way to `p`. */
  ghost predicate Silent<S(!new)>(s: System<S>, p: Socket, z: nat) {
    && (forall x | IsActive(s, x) :: IdOf(s, x) != z)
    && (forall packet | packet in s.net && packet.to == p && packet.payload.Ack? :: packet.payload.id != z)
  }

  /** The silent peers without priority that come before `id`, and always will. */
  ghost function SilentAhead<S(!new)>(s: System<S>, p: Socket, id: nat): set<nat>
    requires IsActive(s, p) && p in s.prefs && id in ReplicaOf(s, p).acks
  {
    set z | z in Ahead(ReplicaOf(s, p), s.prefs[p], id) && Silent(s, p, z)
  }

  /** The datagram neither brings `q` the current data of `p` nor tells `p` that `q` has it. */
  ghost predicate NoNews<S(!new)>(roster: Roster, s: System<S>, p: Socket, q: Socket, packet: Packet<S>)
    requires IsActive(s, p) && IsActive(s, q)
  {
    match packet.payload
    case Delta(_, id, clock) => packet.to == q && FromProcess(roster, p, id) ==> clock < ReplicaOf(s, p).clock
    case Ack(id, clock) => packet.to == p && id == IdOf(s, q) ==> clock < ReplicaOf(s, p).clock
  }

  /** `q` is behind, has no other address, gets nothing current from the network, and is not selected. */
  ghost predicate Starved<S(!new)>(roster: Roster, s: System<S>, p: Socket, q: Socket) {
    && p != q && Knows(s, p, q) && p in s.prefs
    && var r, id, pref := ReplicaOf(s, p), IdOf(s, q), s.prefs[p];
       && r.acks[id].count < r.clock
       && pref.selector.OutOfDate? && !InPriority(pref, id)
       && pref.amount <= |SilentAhead(s, p, id)|
       && (forall i | i in r.acks && i != id :: r.acks[i].member.socket != q)
       && (forall packet | packet in s.net :: NoNews(roster, s, p, q, packet))
  }

  /** What `p` may do to its acknowledgements without hearing from those who are silent, or anything new from `id`. */
  ghost predicate StillBehind<S(!new)>(r: Replica<S>, r': Replica<S>, id: nat, silent: set<nat>)
    requires id in r.acks
  {
    && r.clock <= r'.clock && r'.acks.Keys == r.acks.Keys
    && (forall i | i in r.acks :: r'.acks[i].member == r.acks[i].member)
    && (forall z | z in silent && z in r.acks :: r'.acks[z].count == r.acks[z].count)
    && r.acks[id].count <= r'.acks[id].count < r'.clock
  }

  /** One process moves without changing its identity, and sends only what its preference selects, or answers. */
  ghost predicate Moves<S(!new)>(
    lattice: Lattice<S>, s: System<S>, t: System<S>, x: Socket, r': Replica<S>)
  {
    && IsActive(s, x) && x in s.prefs
    && t.nodes == s.nodes[x := Active(r')] && t.prefs == s.prefs && r'.member == ReplicaOf(s, x).member
    && s.net <= t.net
    && forall packet | packet in t.net ::
         packet in s.net || packet in Dispersal(lattice, r', s.prefs[x]) || IsReply(s, x, packet)
  }

  lemma SilentStays<S(!new)>(
    lattice: Lattice<S>, s: System<S>, t: System<S>, x: Socket, r': Replica<S>, p: Socket, z: nat)
    requires Moves(lattice, s, t, x, r') && Silent(s, p, z)
    ensures Silent(t, p, z)
  {
    forall y | IsActive(t, y)
      ensures IdOf(t, y) != z
    {
      assert IsActive(s, y) && IdOf(t, y) == IdOf(s, y);
    }
  }

  lemma MoreSilentAhead<S(!new)>(
    lattice: Lattice<S>, roster: Roster, s: System<S>, t: System<S>, x: Socket, r': Replica<S>, p: Socket, q: Socket)
    requires Moves(lattice, s, t, x, r') && Starved(roster, s, p, q)
    requires x == p ==> StillBehind(ReplicaOf(s, p), r', IdOf(s, q), SilentAhead(s, p, IdOf(s, q)))
    ensures IsActive(t, p) && IsActive(t, q) && IdOf(t, q) == IdOf(s, q) && IdOf(s, q) in ReplicaOf(t, p).acks
    ensures SilentAhead(s, p, IdOf(s, q)) <= SilentAhead(t, p, IdOf(s, q))
    ensures |SilentAhead(s, p, IdOf(s, q))| <= |SilentAhead(t, p, IdOf(s, q))|
  {
    var id := IdOf(s, q);
    var before, after := SilentAhead(s, p, id), SilentAhead(t, p, id);
    PairOrder();
    forall z | z in before
      ensures z in after
    {
      SilentStays(lattice, s, t, x, r', p, z);
    }
    assert after == before + (after - before);
  }

  lemma NoNewNews<S(!new)>(
    lattice: Lattice<S>, roster: Roster, s: System<S>, t: System<S>, x: Socket, r': Replica<S>, p: Socket, q: Socket,
    packet: Packet<S>)
    requires Inv(lattice, roster, s) && Moves(lattice, s, t, x, r') && Starved(roster, s, p, q)
    requires x == p ==> StillBehind(ReplicaOf(s, p), r', IdOf(s, q), SilentAhead(s, p, IdOf(s, q)))
    requires IsActive(t, p) && IsActive(t, q) && IdOf(t, q) == IdOf(s, q) && IdOf(s, q) in ReplicaOf(t, p).acks
    requires s.prefs[p].amount <= |SilentAhead(t, p, IdOf(s, q))|
    requires packet in t.net
    ensures NoNews(roster, t, p, q, packet)
  {
    assert ReplicaOk(lattice, roster, s, x) && ReplicaOk(lattice, roster, s, p) && ReplicaOk(lattice, roster, s, q);
    if packet in s.net {
      assert NoNews(roster, s, p, q, packet);
    } else if IsReply(s, x, packet) {
      ReplyIsNoNews(lattice, roster, s, x, p, q, packet);
    } else if x == p {
      PassedOver(t, p, IdOf(s, q));
    }
  }

  /** The silent peers ahead take all the places. */
  lemma PassedOver<S(!new)>(s: System<S>, p: Socket, id: nat)
    requires IsActive(s, p) && p in s.prefs && id in ReplicaOf(s, p).acks
    requires s.prefs[p].selector.OutOfDate? && !InPriority(s.prefs[p], id)
    requires s.prefs[p].amount <= |SilentAhead(s, p, id)|
    ensures !Chosen(ReplicaOf(s, p), s.prefs[p], id)
  {
    var silent, ahead := SilentAhead(s, p, id), Ahead(ReplicaOf(s, p), s.prefs[p], id);
    assert ahead == silent + (ahead - silent);
  }

  lemma ReplyIsNoNews<S(!new)>(
    lattice: Lattice<S>, roster: Roster, s: System<S>, x: Socket, p: Socket, q: Socket, packet: Packet<S>)
    requires Inv(lattice, roster, s) && IsActive(s, x) && Starved(roster, s, p, q) && IsReply(s, x, packet)
    ensures NoNews(roster, s, p, q, packet)
  {
    assert ReplicaOk(lattice, roster, s, x) && ReplicaOk(lattice, roster, s, q);
    var d, id, clock :| Packet(x, Delta(d, id, clock)) in s.net && packet in Reply(ReplicaOf(s, x), id, clock);
    assert NoNews(roster, s, p, q, Packet(x, Delta(d, id, clock)));
    assert Listed(roster, ReplicaOf(s, x).acks[id].member);
    if IdOf(s, x) == IdOf(s, q) {
      SameIdSameProcess(lattice, roster, s, x, q);
    }
  }

  lemma StarvedAfter<S(!new)>(
    lattice: Lattice<S>, roster: Roster, s: System<S>, t: System<S>, x: Socket, r': Replica<S>, p: Socket, q: Socket)
    requires Inv(lattice, roster, s) && Moves(lattice, s, t, x, r') && Starved(roster, s, p, q)
    requires x == p ==> StillBehind(ReplicaOf(s, p), r', IdOf(s, q), SilentAhead(s, p, IdOf(s, q)))
    ensures Starved(roster, t, p, q)
  {
    MoreSilentAhead(lattice, roster, s, t, x, r', p, q);
    forall packet | packet in t.net
      ensures NoNews(roster, t, p, q, packet)
    {
      NoNewNews(lattice, roster, s, t, x, r', p, q, packet);
    }
  }

  lemma TimeoutStarves<S(!new)>(lattice: Lattice<S>, roster: Roster, s: System<S>, x: Socket, p: Socket, q: Socket)
    requires lattice.Laws() && Inv(lattice, roster, s) && Enabled(roster, s, Timeout(x)) && IsActive(s, x)
    requires Starved(roster, s, p, q)
    ensures Starved(roster, Next(lattice, roster, s, Timeout(x)), p, q)
  {
    KnowsPriority(lattice, roster, s, x);
    var t := Next(lattice, roster, s, Timeout(x));
    TimeoutMoves(lattice, roster, s, x);
    hide Inv, Next, Moves;
    StarvedAfter(lattice, roster, s, t, x, ReplicaOf(s, x), p, q);
  }

  lemma TimeoutMoves<S(!new)>(lattice: Lattice<S>, roster: Roster, s: System<S>, x: Socket)
    requires Enabled(roster, s, Timeout(x)) && IsActive(s, x)
    requires x in s.prefs && PriorityKnown(ReplicaOf(s, x), s.prefs[x])
    ensures Moves(lattice, s, Next(lattice, roster, s, Timeout(x)), x, ReplicaOf(s, x))
  {
    assert s.nodes == s.nodes[x := Active(ReplicaOf(s, x))];
  }

  lemma DeltaStarves<S(!new)>(
    lattice: Lattice<S>, roster: Roster, s: System<S>, x: Socket, d: S, id: nat, clock: nat, p: Socket, q: Socket)
    requires lattice.Laws() && Inv(lattice, roster, s) && IsActive(s, x)
    requires Packet(x, Delta(d, id, clock)) in s.net && Starved(roster, s, p, q)
    ensures Starved(roster, CausalNet.Received(lattice, s, Packet(x, Delta(d, id, clock))), p, q)
  {
    hide Moves;
    DeltaMoves(lattice, roster, s, x, d, id, clock);
    var t := CausalNet.Received(lattice, s, Packet(x, Delta(d, id, clock)));
    hide CausalNet.Received, Inv, Lattice.Laws;
    StarvedAfter(lattice, roster, s, t, x, Causal.Received(lattice, ReplicaOf(s, x), d, id), p, q);
  }

  lemma DeltaMoves<S(!new)>(
    lattice: Lattice<S>, roster: Roster, s: System<S>, x: Socket, d: S, id: nat, clock: nat)
    requires Inv(lattice, roster, s) && IsActive(s, x)
    requires Packet(x, Delta(d, id, clock)) in s.net
    ensures Moves(lattice, s, CausalNet.Received(lattice, s, Packet(x, Delta(d, id, clock))), x,
                  Causal.Received(lattice, ReplicaOf(s, x), d, id))
  {
    KnowsPriority(lattice, roster, s, x);
    hide Inv, Dispersal;
    assert forall packet | packet in Reply(ReplicaOf(s, x), id, clock) :: IsReply(s, x, packet);
    hide IsReply, Reply;
    var m := Moved(s, x, Causal.Received(lattice, ReplicaOf(s, x), d, id), Reply(ReplicaOf(s, x), id, clock));
    assert m.prefs == s.prefs && m.net == s.net + Reply(ReplicaOf(s, x), id, clock);
  }

  lemma KnowsPriority<S(!new)>(lattice: Lattice<S>, roster: Roster, s: System<S>, x: Socket)
    requires Inv(lattice, roster, s) && IsActive(s, x)
    ensures x in s.prefs && PriorityKnown(ReplicaOf(s, x), s.prefs[x])
  {
    assert ReplicaOk(lattice, roster, s, x);
  }

  lemma AckStarves<S(!new)>(
    lattice: Lattice<S>, roster: Roster, s: System<S>, x: Socket, id: nat, clock: nat, p: Socket, q: Socket)
    requires lattice.Laws() && Inv(lattice, roster, s) && IsActive(s, x)
    requires Packet(x, Ack(id, clock)) in s.net && Starved(roster, s, p, q)
    ensures Starved(roster, CausalNet.Received(lattice, s, Packet(x, Ack(id, clock))), p, q)
  {
    AckMoves(lattice, roster, s, x, id, clock);
    var r' := Acked(ReplicaOf(s, x), id, clock).replica;
    var t := CausalNet.Received(lattice, s, Packet(x, Ack(id, clock)));
    hide Inv, Lattice.Laws, Moves, CausalNet.Received, Acked;
    if x == p {
      AckLeavesBehind(roster, s, id, clock, p, q);
    }
    StarvedAfter(lattice, roster, s, t, x, r', p, q);
  }

  lemma AckMoves<S(!new)>(lattice: Lattice<S>, roster: Roster, s: System<S>, x: Socket, id: nat, clock: nat)
    requires Inv(lattice, roster, s) && IsActive(s, x)
    requires Packet(x, Ack(id, clock)) in s.net
    ensures Acked(ReplicaOf(s, x), id, clock).Alive?
    ensures Moves(lattice, s, CausalNet.Received(lattice, s, Packet(x, Ack(id, clock))), x,
                  Acked(ReplicaOf(s, x), id, clock).replica)
  {
    assert ReplicaOk(lattice, roster, s, x) && PacketOk(lattice, roster, s, Packet(x, Ack(id, clock)));
    AckedAlive(ReplicaOf(s, x), id, clock);
    hide Inv, ReplicaOk, PacketOk, Dispersal, IsReply;
  }

  lemma AckLeavesBehind<S(!new)>(roster: Roster, s: System<S>, id: nat, clock: nat, p: Socket, q: Socket)
    requires Starved(roster, s, p, q) && Packet(p, Ack(id, clock)) in s.net
    requires Acked(ReplicaOf(s, p), id, clock).Alive?
    ensures StillBehind(ReplicaOf(s, p), Acked(ReplicaOf(s, p), id, clock).replica, IdOf(s, q),
                        SilentAhead(s, p, IdOf(s, q)))
  {
    assert NoNews(roster, s, p, q, Packet(p, Ack(id, clock)));
    assert id !in SilentAhead(s, p, IdOf(s, q));
    hide SilentAhead, NoNews;
  }

  /** Neither a timeout nor a delivery ends it. */
  lemma StarvedStays<S(!new)>(
    lattice: Lattice<S>, roster: Roster, s: System<S>, step: Step<S>, p: Socket, q: Socket)
    requires lattice.Laws() && Inv(lattice, roster, s) && Enabled(roster, s, step) && (step.Timeout? || step.Deliver?)
    requires Starved(roster, s, p, q)
    ensures Starved(roster, Next(lattice, roster, s, step), p, q)
  {
    match step {
      case Timeout(x) =>
        if IsActive(s, x) {
          TimeoutStarves(lattice, roster, s, x, p, q);
        } else {
          var t := Next(lattice, roster, s, step);
          InvMeansOk(lattice, roster, s, p);
          assert s.nodes == s.nodes[p := Active(ReplicaOf(s, p))];
          StarvedAfter(lattice, roster, s, t, p, ReplicaOf(s, p), p, q);
        }
      case Deliver(packet) =>
        if IsActive(s, packet.to) {
          match packet.payload {
            case Delta(d, id, clock) => DeltaStarves(lattice, roster, s, packet.to, d, id, clock, p, q);
            case Ack(id, clock) => AckStarves(lattice, roster, s, packet.to, id, clock, p, q);
          }
        }
    }
  }

  lemma {:induction false} StarvedThroughout<S(!new)>(
    lattice: Lattice<S>, roster: Roster, s: System<S>, steps: seq<Step<S>>, t: System<S>, p: Socket, q: Socket)
    requires lattice.Laws() && Inv(lattice, roster, s) && Quiet(steps) && Reaches(lattice, roster, s, steps, t)
    requires Starved(roster, s, p, q)
    ensures Starved(roster, t, p, q)
    decreases |steps|
  {
    if steps != [] {
      StepKeepsInv(lattice, roster, s, steps[0]);
      StarvedStays(lattice, roster, s, steps[0], p, q);
      StarvedThroughout(lattice, roster, Next(lattice, roster, s, steps[0]), steps[1..], t, p, q);
    }
  }

  /** A group with a starved member never settles by itself. */
  lemma StarvedNeverSettles<S(!new)>(
    lattice: Lattice<S>, roster: Roster, s: System<S>, group: set<Socket>, p: Socket, q: Socket)
    requires lattice.Laws() && Inv(lattice, roster, s) && Starved(roster, s, p, q) && p in group && q in group
    ensures forall t | Leads(lattice, roster, s, t) :: !Settled(t, group)
  {
    forall t | Leads(lattice, roster, s, t)
      ensures !Settled(t, group)
    {
      var steps :| Quiet(steps) && Reaches(lattice, roster, s, steps, t);
      StarvedThroughout(lattice, roster, s, steps, t, p, q);
    }
  }

  /** Every outsider is silent and comes before `q`, and `q` has nothing current coming. */
  ghost predicate Overlooked<S(!new)>(roster: Roster, s: System<S>, p: Socket, q: Socket, group: set<Socket>) {
    && p != q && Knows(s, p, q) && p in s.prefs
    && var r, id := ReplicaOf(s, p), IdOf(s, q);
       && r.acks[id].count < r.clock
       && Outsiders(s, p, group) <= SilentAhead(s, p, id)
       && (forall i | i in r.acks && i != id :: r.acks[i].member.socket != q)
       && (forall packet | packet in s.net :: NoNews(roster, s, p, q, packet))
  }

  lemma UnservedStarves<S(!new)>(roster: Roster, s: System<S>, p: Socket, group: set<Socket>) returns (q: Socket)
    requires p in group && IsActive(s, p) && p in s.prefs && !Served(s, p, group)
    requires forall x | x in group && x != p :: Overlooked(roster, s, p, x, group)
    ensures q in group && Starved(roster, s, p, q)
  {
    q :| q in group && q != p && IsActive(s, q) && !InPriority(s.prefs[p], IdOf(s, q));
    assert Overlooked(roster, s, p, q, group);
    var outsiders, silent := Outsiders(s, p, group), SilentAhead(s, p, IdOf(s, q));
    assert silent == outsiders + (silent - outsiders);
  }

  /** The condition on preferences is exact: where those it passes over have only silent peers ahead of them, the group
      can settle if and only if the preference of each member serves it. */
  lemma SettlesIffServed<S(!new)>(lattice: Lattice<S>, roster: Roster, s: System<S>, group: set<Socket>)
    requires lattice.Laws() && Reachable(lattice, roster, s)
    requires Mutual(s, group) && (forall p | p in group :: p in s.prefs) && Taught(lattice, s, group)
    requires forall p, q | p in group && q in group && p != q ::
               Served(s, p, group) || Overlooked(roster, s, p, q, group)
    ensures (exists t :: Leads(lattice, roster, s, t) && Settled(t, group))
       <==> forall p | p in group :: Served(s, p, group)
  {
    hide Leads, Settled, Reachable, Lattice.Laws, Served, Overlooked, Agree, Taught;
    ReachableInv(lattice, roster, s);
    if forall p | p in group :: Served(s, p, group) {
      GroupCanSettle(lattice, roster, s, group);
    } else {
      var p :| p in group && !Served(s, p, group);
      var q := UnservedStarves(roster, s, p, group);
      StarvedNeverSettles(lattice, roster, s, group, p, q);
    }
  }
}
