/** The replica as the actor keeps it: fields updated in place, with `ordAcks` and `minOrd` maintained
    beside `acks`. Every method is proved to do what `Causal` says of the replica it stands for. */
module CausalActor {
  import opened Causal
  import opened Lattices
  import opened Members
  import opened Ordered

  lemma OrdAfterAck(acks: map<nat, Peer>, id: nat, clock: nat)
    requires id in acks
    ensures OrdOf(WithAck(acks, id, clock))
         == OrdOf(acks) - {(acks[id].count, id)} + {(clock, id)}
  {
  }

  lemma OrdAfterRemove(acks: map<nat, Peer>, id: nat)
    requires id in acks
    ensures OrdOf(acks - {id}) == OrdOf(acks) - {(acks[id].count, id)}
  {
  }

  /** Filing a newly added peer keeps the index in step with the acknowledgements exactly when the
      peer was unknown or had acknowledged nothing; otherwise a stale index entry is left behind, and
      the next acknowledgement bookkeeping would count it. */
  lemma AddingKeepsIndex(acks: map<nat, Peer>, m: Member)
    ensures OrdOf(acks[m.id := Peer(m, 0)]) == OrdOf(acks) + {(0, m.id)}
       <==> (m.id in acks ==> acks[m.id].count == 0)
  {
  }

  /** A newer acknowledgement, field by field. Only one of more than has been produced can be a panic. */
  lemma AckedParts<S>(r: Replica<S>, id: nat, clock: nat)
    requires r.Ok() && id in r.acks && r.acks[id].count < clock
    ensures var acks := WithAck(r.acks, id, clock);
            var low := FirstCount(OrdOf(acks));
            var minDelta := if r.minDelta < low then low else r.minDelta;
            if minDelta - r.minDelta <= |r.deltas| then
              var after := Replica(r.data, r.clock, r.member, r.deltas[minDelta - r.minDelta..], acks, minDelta);
              Acked(r, id, clock) == Alive(after) && (clock <= r.clock ==> after.Ok())
            else
              Acked(r, id, clock).Panic? && clock > r.clock
  {
  }

  /** What is in a dispersal, field by field. */
  lemma DispersalByFields<S(!new)>(lattice: Lattice<S>, r: Replica<S>, pref: Preference)
    ensures forall packet :: packet in Dispersal(lattice, r, pref) <==>
              exists id :: id in r.acks && r.acks[id].count < r.clock && Chosen(r, pref, id)
                && packet == Packet(r.acks[id].member.socket, Payload.Delta(
                     if r.acks[id].count < r.minDelta then r.data else lattice.JoinAll(r.deltas), r.member.id, r.clock))
  {
  }

  class InCluster<S(==,!new)> {
    const lattice: Lattice<S>
    var data: S
    var clock: nat
    var member: Member
    var cluster: set<Member>
    var deltas: seq<S>
    var acks: map<nat, Peer>
    var ordAcks: set<(nat, nat)>
    var minOrd: nat
    var minDelta: nat

    ghost function View(): Replica<S>
      reads this
    {
      Replica(data, clock, member, deltas, acks, minDelta)
    }

    ghost predicate Valid()
      reads this
    {
      && View().Ok()
      && ordAcks == OrdOf(acks)
      && minOrd == FirstCount(ordAcks)
    }

    /** `Waiting::to_ic`. */
    constructor (lattice: Lattice<S>, ops: seq<Mutator<S>>, member: Member, nodes: set<Member>)
      requires IdsUnique(nodes)
      ensures Valid()
      ensures this.lattice == lattice && cluster == nodes - {member}
      ensures View() == Started(lattice, ops, member, nodes)
      ensures deltas == (if lattice.empty(data) then [] else [data]) && clock == |deltas| && minDelta == 0
      ensures forall m :: m in nodes && m != member ==> m.id in acks && acks[m.id] == Peer(m, 0)
      ensures forall id :: id in acks ==> acks[id].member in nodes - {member} && acks[id].member.id == id
    {
      var init := ApplyOps(lattice, ops);
      this.lattice := lattice;
      this.clock := if lattice.empty(init) then 0 else 1;
      this.data := init;
      this.deltas := if lattice.empty(init) then [] else [init];
      this.member := member;
      var peers := nodes - {member};
      this.acks := NewPeers(peers);
      this.ordAcks := set m | m in peers :: (0, m.id);
      this.cluster := peers;
      this.minOrd := 0;
      this.minDelta := 0;
      new;
      LowestAck(acks);
      assert ordAcks == OrdOf(acks) by {
        forall p ensures p in ordAcks <==> p in OrdOf(acks) {
        }
      }
    }

    /** The members to send to are walked in order, priority first; what is sent is `Dispersal`. */
    method Disperse(pref: Preference) returns (sent: set<Packet<S>>)
      requires Valid() && PriorityKnown(View(), pref)
      ensures sent == Dispersal(lattice, View(), pref)
      ensures forall packet :: packet in sent <==>
                exists id :: id in acks && acks[id].count < clock && Chosen(View(), pref, id)
                  && packet == Packet(acks[id].member.socket, Payload.Delta(
                       if acks[id].count < minDelta then data else lattice.JoinAll(deltas), member.id, clock))
    {
      hide Sends, Dispersal, Outdated, Ahead, FirstCount, Chosen;
      var order := InOrder(ordAcks);
      var toSend: seq<nat>;
      match pref.selector {
        case OutOfDate =>
          var others := WithoutPriority(acks, order, pref.priority);
          toSend := if |others| <= pref.amount then others else others[..pref.amount];
        case All =>
          toSend := seq(|order|, i requires 0 <= i < |order| => order[i].1);
      }
      SelectionIsChosen(order, pref, toSend);
      var urgent := PriorityIds(pref.priority);
      sent := SendTo(urgent + toSend);
      SendsAreDispersal(pref, urgent, toSend);
      DispersalByFields(lattice, View(), pref);
    }

    lemma SendsAreDispersal(pref: Preference, urgent: seq<nat>, toSend: seq<nat>)
      requires forall id :: id in urgent + toSend ==> id in acks
      requires forall id :: id in urgent <==> exists m :: m in pref.priority && m.id == id
      requires forall id :: id in acks ==>
                (id in toSend <==>
                  pref.selector.All?
                  || (acks[id].member !in pref.priority && |Ahead(View(), pref, id)| < pref.amount))
      ensures Sends(lattice, View(), urgent + toSend) == Dispersal(lattice, View(), pref)
    {
      hide Ahead, Outdated, Sends;
      SendsAll(lattice, View(), urgent + toSend);
      forall id | id in acks ensures Chosen(View(), pref, id) <==> id in urgent + toSend {
        assert id in urgent <==> exists m :: m in pref.priority && m.id == id;
      }
    }

    lemma SelectionIsChosen(order: seq<(nat, nat)>, pref: Preference, toSend: seq<nat>)
      requires Valid()
      requires IndexOf(acks, order) && SortedBy(PairLess, order)
      requires forall p :: p in ordAcks ==> p in order
      requires pref.selector.OutOfDate? ==>
                 var others := WithoutPriority(acks, order, pref.priority);
                 toSend == if |others| <= pref.amount then others else others[..pref.amount]
      requires pref.selector.All? ==>
                 |toSend| == |order| && forall i :: 0 <= i < |order| ==> toSend[i] == order[i].1
      ensures forall id :: id in toSend ==> id in acks
      ensures forall id :: id in acks ==>
                (id in toSend <==>
                  pref.selector.All?
                  || (acks[id].member !in pref.priority && |Ahead(View(), pref, id)| < pref.amount))
    {
      if pref.selector.All? {
        forall id | id in acks ensures id in toSend {
          assert (acks[id].count, id) in order;
          var i :| 0 <= i < |order| && order[i] == (acks[id].count, id);
          assert toSend[i] == id;
        }
        forall i | 0 <= i < |toSend| ensures toSend[i] in acks {
          assert order[i] in order;
        }
      } else {
        var others := WithoutPriority(acks, order, pref.priority);
        WithoutPriorityOrder(acks, order, pref.priority);
        forall id | id in acks && acks[id].member !in pref.priority
          ensures id in toSend <==> |Ahead(View(), pref, id)| < pref.amount
        {
          assert (acks[id].count, id) in order;
          assert id in others;
          var k :| 0 <= k < |others| && others[k] == id;
          RankIsPosition(View(), pref, order, k);
          if id in toSend {
            var l :| 0 <= l < |toSend| && toSend[l] == id;
            RankIsPosition(View(), pref, order, l);
          }
          if k < pref.amount {
            assert toSend[k] == id;
          }
        }
        assert forall id :: id in toSend ==> id in others;
      }
    }

    method PriorityIds(priority: set<Member>) returns (ids: seq<nat>)
      ensures forall id :: id in ids <==> exists m :: m in priority && m.id == id
    {
      ids := [];
      var rest := priority;
      while rest != {}
        invariant rest <= priority
        invariant forall id :: id in ids <==> exists m :: m in priority - rest && m.id == id
        decreases |rest|
      {
        var m :| m in rest;
        ghost var done := priority - rest;
        rest := rest - {m};
        ids := ids + [m.id];
        assert priority - rest == done + {m};
      }
      assert priority - rest == priority;
    }

    /** One datagram for each listed peer that is behind. */
    method SendTo(ids: seq<nat>) returns (sent: set<Packet<S>>)
      requires Valid() && forall id :: id in ids ==> id in acks
      ensures sent == Sends(lattice, View(), ids)
    {
      var delta := lattice.JoinAll(deltas);
      sent := {};
      for i := 0 to |ids|
        invariant sent == Sends(lattice, View(), ids[..i])
      {
        var peer := acks[ids[i]];
        assert ids[..i + 1][..i] == ids[..i];
        if peer.count < clock {
          var d := if peer.count < minDelta then data else delta;
          sent := sent + {Packet(peer.member.socket, Payload.Delta(d, member.id, clock))};
        }
      }
      assert ids[..|ids|] == ids;
    }

    /** An acknowledgement of more than the replica has produced may pop an empty queue, which is a panic, and is filed
        as it is when it does not. */
    method Ack(id: nat, clock: nat) returns (panicked: bool)
      requires Valid()
      modifies this
      ensures Acked(old(View()), id, clock) == if panicked then Panic else Alive(View())
      ensures !panicked ==> ordAcks == OrdOf(acks) && minOrd == FirstCount(ordAcks)
      ensures clock <= this.clock ==> !panicked && Valid()
      ensures cluster == old(cluster) && this.clock == old(this.clock)
      ensures id !in old(acks) || clock <= old(acks)[id].count ==> !panicked && View() == old(View())
      ensures id in old(acks) && old(acks)[id].count < clock ==>
                && acks == old(acks)[id := old(acks)[id].(count := clock)]
                && ordAcks == OrdOf(acks) && minOrd == FirstCount(ordAcks)
                && (panicked <==> minOrd - old(minDelta) > |old(deltas)|)
                && (!panicked ==>
                      && minDelta == (if old(minDelta) < minOrd then minOrd else old(minDelta))
                      && deltas == old(deltas)[minDelta - old(minDelta)..])
    {
      panicked := false;
      hide OrdOf, FirstCount, WithAck, Collected;
      if id in acks && acks[id].count < clock {
        hide Acked;
        panicked := Accept(id, clock);
      }
    }

    method Accept(id: nat, clock: nat) returns (panicked: bool)
      requires Valid() && id in acks && acks[id].count < clock
      modifies this`acks, this`ordAcks, this`minOrd, this`deltas, this`minDelta
      ensures Acked(old(View()), id, clock) == if panicked then Panic else Alive(View())
      ensures acks == old(acks)[id := old(acks)[id].(count := clock)]
      ensures ordAcks == OrdOf(acks) && minOrd == FirstCount(ordAcks)
      ensures panicked <==> minOrd - old(minDelta) > |old(deltas)|
      ensures !panicked ==>
                && minDelta == (if old(minDelta) < minOrd then minOrd else old(minDelta))
                && deltas == old(deltas)[minDelta - old(minDelta)..]
      ensures clock <= this.clock ==> !panicked && Valid()
    {
      hide OrdOf, FirstCount, Replica.Ok, Acked, Collected, WithAck;
      AckedParts(View(), id, clock);
      Reindex(id, clock);
      panicked := Collect();
    }

    /** Files the new count, and looks up the lowest one. */
    method Reindex(id: nat, clock: nat)
      requires id in acks && ordAcks == OrdOf(acks)
      modifies this`acks, this`ordAcks, this`minOrd
      ensures acks == WithAck(old(acks), id, clock) == old(acks)[id := old(acks)[id].(count := clock)]
      ensures ordAcks == OrdOf(acks) && minOrd == FirstCount(ordAcks)
    {
      hide OrdOf, FirstCount;
      var cnt := acks[id].count;
      OrdAfterAck(acks, id, clock);
      ordAcks := ordAcks - {(cnt, id)};
      acks := WithAck(acks, id, clock);
      ordAcks := ordAcks + {(clock, id)};
      minOrd := FirstCount(ordAcks);
    }

    /** Drops the deltas that every peer has acknowledged, if there are that many. */
    method Collect() returns (panicked: bool)
      modifies this`deltas, this`minDelta
      ensures var low := if old(minDelta) < minOrd then minOrd else old(minDelta);
              && (panicked <==> low - old(minDelta) > |old(deltas)|)
              && (!panicked ==> minDelta == low && deltas == old(deltas)[low - old(minDelta)..])
    {
      if minDelta < minOrd {
        panicked := PopFront(minOrd - minDelta);
        if panicked {
          return;
        }
      }
      minDelta := if minDelta < minOrd then minOrd else minDelta;
      panicked := false;
    }

    method PopFront(n: nat) returns (panicked: bool)
      modifies this`deltas
      ensures panicked <==> n > |old(deltas)|
      ensures !panicked ==> deltas == old(deltas)[n..]
    {
      for i := 0 to n
        invariant i <= |old(deltas)| && deltas == old(deltas)[i..]
      {
        if deltas == [] {
          return true;
        }
        deltas := deltas[1..];
      }
      panicked := false;
    }

    method Op(op: Mutator<S>, pref: Preference) returns (sent: set<Packet<S>>)
      requires Valid() && PriorityKnown(View(), pref)
      modifies this
      ensures Valid()
      ensures View() == Mutated(lattice, old(View()), op)
      ensures cluster == old(cluster)
      ensures var d := op(old(data));
              if lattice.empty(d) then View() == old(View()) && sent == {} else
                && data == lattice.join(old(data), d) && deltas == old(deltas) + [d] && clock == old(clock) + 1
                && acks == old(acks) && member == old(member) && minDelta == old(minDelta)
                && sent == Dispersal(lattice, View(), pref)
    {
      sent := {};
      var d := op(data);
      if !lattice.empty(d) {
        data := lattice.join(data, d);
        deltas := deltas + [d];
        clock := clock + 1;
        sent := Disperse(pref);
      }
    }

    method Delta(delta: S, id: nat, clock: nat, pref: Preference) returns (sent: set<Packet<S>>)
      requires Valid() && PriorityKnown(View(), pref)
      modifies this
      ensures Valid()
      ensures View() == Received(lattice, old(View()), delta, id)
      ensures cluster == old(cluster) && acks == old(acks) && member == old(member) && minDelta == old(minDelta)
      ensures id !in old(acks) ==>
                data == old(data) && this.clock == old(this.clock) && deltas == old(deltas) && sent == {}
      ensures id in old(acks) ==>
                var answer := {Packet(old(acks)[id].member.socket, Payload.Ack(old(member).id, clock))};
                && data == lattice.join(old(data), delta)
                && if data == old(data) then
                     this.clock == old(this.clock) && deltas == old(deltas) && sent == answer
                   else
                     && this.clock == old(this.clock) + 1 && deltas == old(deltas) + [delta]
                     && sent == answer + Dispersal(lattice, View(), pref)
    {
      sent := {};
      if id in acks {
        sent := {Packet(acks[id].member.socket, Payload.Ack(member.id, clock))};
        var newState := lattice.join(data, delta);
        if newState != data {
          data := newState;
          deltas := deltas + [delta];
          this.clock := this.clock + 1;
          var more := Disperse(pref);
          sent := sent + more;
        }
      }
    }

    method UpdateOne(event: ClusterEvent) returns (changed: bool)
      requires Valid() && Expected(View(), event)
      modifies this
      ensures Valid()
      ensures View() == Updated(old(View()), event)
      ensures data == old(data) && clock == old(clock) && deltas == old(deltas) && minDelta == old(minDelta)
      ensures match event
              case Alone(m) => member == m && acks == old(acks) && !changed
              case Joined(m) => member == m && acks == old(acks) && !changed
              case Added(m) => member == old(member) && acks == old(acks)[m.id := Peer(m, 0)] && changed
              case Removed(m) =>
                && member == old(member) && (changed <==> m.id != member.id)
                && acks == if changed then old(acks) - {m.id} else old(acks)
      ensures changed <==> ChangesPeers(old(View()), event)
    {
      changed := false;
      match event {
        case Alone(m) => member := m;
        case Joined(m) => member := m;
        case Removed(m) =>
          if m.id != member.id {
            OrdAfterRemove(acks, m.id);
            var cnt := acks[m.id].count;
            acks := acks - {m.id};
            ordAcks := ordAcks - {(cnt, m.id)};
            minOrd := FirstCount(ordAcks);
            changed := true;
          }
        case Added(m) =>
          AddingKeepsIndex(acks, m);
          ordAcks := ordAcks + {(0, m.id)};
          acks := acks[m.id := Peer(m, 0)];
          minOrd := 0;
          changed := true;
          assert (0, m.id) in ordAcks;
      }
    }

    /** Membership changes arrive in batches; one dispersal follows if a peer was added or removed. */
    method Update(events: seq<ClusterEvent>, nodes: set<Member>, pref: Preference)
      returns (sent: set<Packet<S>>)
      requires Valid() && AllExpected(View(), events)
      requires PriorityKnown(UpdatedAll(View(), events), pref)
      modifies this
      ensures Valid()
      ensures View() == UpdatedAll(old(View()), events)
      ensures cluster == nodes - {member}
      ensures sent == if AnyChangesPeers(old(View()), events) then Dispersal(lattice, View(), pref) else {}
    {
      var disperse := false;
      for i := 0 to |events|
        invariant Valid()
        invariant AllExpected(View(), events[i..])
        invariant UpdatedAll(View(), events[i..]) == UpdatedAll(old(View()), events)
        invariant AnyChangesPeers(old(View()), events) <==> disperse || AnyChangesPeers(View(), events[i..])
      {
        assert events[i..][0] == events[i] && events[i..][1..] == events[i + 1..];
        var changed := UpdateOne(events[i]);
        disperse := disperse || changed;
      }
      assert events[|events|..] == [];
      cluster := nodes - {member};
      sent := {};
      if disperse {
        sent := Disperse(pref);
      }
    }

    /** The timeout handler disperses exactly when some peer is behind. */
    method DisperseTimeout(pref: Preference) returns (sent: set<Packet<S>>)
      requires Valid() && PriorityKnown(View(), pref)
      ensures sent == Dispersal(lattice, View(), pref)
      ensures pref.amount >= 1 ==>
                (sent != {} <==> exists id :: id in acks && acks[id].count < clock)
    {
      LowestAck(acks);
      sent := {};
      if minOrd != clock && acks != map[] {
        sent := Disperse(pref);
      }
      if pref.amount >= 1 && (exists id :: id in acks && acks[id].count < clock) {
        DispersalReachesLowest(lattice, View(), pref);
      }
    }
  }
}
