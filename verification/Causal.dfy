/** Delta-state anti-entropy of one replica: `InCluster` keeps a queue of deltas, the peers'
    acknowledgements and an index of them; `Replica` is what that state means. */
module Causal {
  import opened Lattices
  import opened Members
  import opened Ordered

  datatype Peer = Peer(member: Member, count: nat)

  datatype Payload<S> = Delta(delta: S, id: nat, clock: nat) | Ack(id: nat, clock: nat)

  datatype Packet<S> = Packet(to: Socket, payload: Payload<S>)

  datatype Selector = OutOfDate | All

  datatype Preference = Preference(priority: set<Member>, amount: nat, selector: Selector)

  type Mutator<!S(!new)> = S -> S

  /** The meaning of a replica: no second index of acknowledgements, no cached minimum. */
  datatype Replica<S(==)> = Replica(
    data: S, clock: nat, member: Member, deltas: seq<S>, acks: map<nat, Peer>, minDelta: nat)
  {
    /** The delta log covers exactly the clock values from `minDelta` up, nobody has acknowledged more
        than there is, and every peer is filed under its own identifier. */
    predicate Ok() {
      && minDelta <= clock
      && |deltas| == clock - minDelta
      && forall id :: id in acks ==> acks[id].count <= clock && acks[id].member.id == id
    }
  }

  datatype Outcome<S(==)> = Alive(replica: Replica<S>) | Panic

  // ----- the acknowledgement index -----

  function OrdOf(acks: map<nat, Peer>): (ord: set<(nat, nat)>)
    ensures forall p :: p in ord <==> p.1 in acks && p.0 == acks[p.1].count
  {
    set id | id in acks :: (acks[id].count, id)
  }

  lemma FirstExists(ord: set<(nat, nat)>)
    requires ord != {}
    ensures exists p :: IsLeast(PairLess, p, ord)
  {
    PairOrder();
    LeastExists(PairLess, ord);
  }

  /** `ord_acks.iter().next()`, or 0 when there is none. */
  function FirstCount(ord: set<(nat, nat)>): (low: nat)
    ensures ord == {} ==> low == 0
    ensures forall p :: p in ord ==> low <= p.0
    ensures ord != {} ==> exists p :: p in ord && p.0 == low
  {
    if ord == {} then 0 else
      FirstExists(ord);
      var first :| IsLeast(PairLess, first, ord);
      first.0
  }

  /** The lowest acknowledgement is a lower bound that some peer attains. */
  lemma LowestAck(acks: map<nat, Peer>)
    ensures acks == map[] ==> FirstCount(OrdOf(acks)) == 0
    ensures forall id :: id in acks ==> FirstCount(OrdOf(acks)) <= acks[id].count
    ensures acks != map[] ==> exists id :: id in acks && acks[id].count == FirstCount(OrdOf(acks))
  {
    if acks != map[] {
      var id :| id in acks;
      assert (acks[id].count, id) in OrdOf(acks);
    }
    forall id | id in acks ensures FirstCount(OrdOf(acks)) <= acks[id].count {
      assert (acks[id].count, id) in OrdOf(acks);
    }
  }

  // ----- what each handler does to a replica -----

  function Commit<S(!new)>(lattice: Lattice<S>, r: Replica<S>, d: S): Replica<S> {
    r.(data := lattice.join(r.data, d), clock := r.clock + 1, deltas := r.deltas + [d])
  }

  function Mutated<S(!new)>(lattice: Lattice<S>, r: Replica<S>, op: Mutator<S>): Replica<S> {
    if lattice.empty(op(r.data)) then r else Commit(lattice, r, op(r.data))
  }

  function Received<S(!new)>(lattice: Lattice<S>, r: Replica<S>, d: S, id: nat): Replica<S> {
    if id in r.acks && lattice.join(r.data, d) != r.data then Commit(lattice, r, d) else r
  }

  /** A delta is acknowledged to a known peer even when it brings nothing new. */
  function Reply<S>(r: Replica<S>, id: nat, clock: nat): set<Packet<S>> {
    if id in r.acks then {Packet(r.acks[id].member.socket, Ack(r.member.id, clock))} else {}
  }

  function WithAck(acks: map<nat, Peer>, id: nat, clock: nat): map<nat, Peer>
    requires id in acks
  {
    acks[id := acks[id].(count := clock)]
  }

  /** Drops the deltas below `low`, which every peer has acknowledged. */
  function Collected<S>(r: Replica<S>, low: nat): Replica<S>
    requires low - r.minDelta <= |r.deltas|
  {
    if low <= r.minDelta then r else r.(deltas := r.deltas[low - r.minDelta..], minDelta := low)
  }

  /** Accepts a newer acknowledgement and collects; popping more deltas than there are is a panic. */
  function Acked<S>(r: Replica<S>, id: nat, clock: nat): Outcome<S> {
    if id in r.acks && r.acks[id].count < clock then
      var acks := WithAck(r.acks, id, clock);
      var low := FirstCount(OrdOf(acks));
      if low - r.minDelta <= |r.deltas| then Alive(Collected(r.(acks := acks), low)) else Panic
    else Alive(r)
  }

  /** No acknowledgement of something already produced can exhaust the delta queue. */
  lemma AckedAlive<S>(r: Replica<S>, id: nat, clock: nat)
    requires r.Ok() && clock <= r.clock
    ensures Acked(r, id, clock).Alive? && Acked(r, id, clock).replica.Ok()
    ensures id in r.acks ==> FirstCount(OrdOf(WithAck(r.acks, id, clock))) <= r.clock
  {
  }

  /** How far the listed peers are behind, in all. */
  function Lag(acks: map<nat, Peer>, clock: nat, ids: seq<nat>): nat
    requires forall id :: id in ids ==> id in acks && acks[id].count <= clock
  {
    if ids == [] then 0 else
      var last := ids[|ids| - 1];
      assert last in ids;
      Lag(acks, clock, ids[..|ids| - 1]) + (clock - acks[last].count)
  }

  /** Progress: an acknowledgement newer than the last one lowers the sender's lag by exactly the difference. */
  lemma {:induction false} AckShrinksLag<S>(r: Replica<S>, id: nat, clock: nat, ids: seq<nat>)
    requires r.Ok() && id in r.acks && r.acks[id].count < clock <= r.clock
    requires Distinct(ids) && forall i :: i in ids ==> i in r.acks
    ensures Acked(r, id, clock).Alive?
    ensures var r' := Acked(r, id, clock).replica;
            && r'.acks.Keys == r.acks.Keys && r'.clock == r.clock
            && (forall i :: i in ids ==> r'.acks[i].count <= r'.clock)
            && Lag(r'.acks, r'.clock, ids) + (if id in ids then clock - r.acks[id].count else 0)
               == Lag(r.acks, r.clock, ids)
  {
    AckedAlive(r, id, clock);
    var r' := Acked(r, id, clock).replica;
    assert r'.acks == WithAck(r.acks, id, clock);
    if ids != [] {
      var init, last := ids[..|ids| - 1], ids[|ids| - 1];
      assert ids == init + [last];
      AckShrinksLag(r, id, clock, init);
    }
  }

  /** What `update` demands of an event: `Removed` names a peer or the replica itself, `Added` names
      nobody known, and `Left` is never sent. */
  predicate Expected<S>(r: Replica<S>, e: ClusterEvent) {
    match e
    case Removed(m) => m.id == r.member.id || m.id in r.acks
    case Added(m) => m.id !in r.acks
    case Left => false
    case _ => true
  }

  function Updated<S>(r: Replica<S>, e: ClusterEvent): Replica<S> {
    match e
    case Alone(m) => r.(member := m)
    case Joined(m) => r.(member := m)
    case Removed(m) => if m.id == r.member.id then r else r.(acks := r.acks - {m.id})
    case Added(m) => r.(acks := r.acks[m.id := Peer(m, 0)])
    case Left => r
  }

  predicate AllExpected<S>(r: Replica<S>, events: seq<ClusterEvent>)
    decreases |events|
  {
    events == [] || (Expected(r, events[0]) && AllExpected(Updated(r, events[0]), events[1..]))
  }

  function UpdatedAll<S>(r: Replica<S>, events: seq<ClusterEvent>): Replica<S>
    decreases |events|
  {
    if events == [] then r else UpdatedAll(Updated(r, events[0]), events[1..])
  }

  /** A peer comes or goes; a node hearing of its own removal does not count. */
  predicate ChangesPeers<S>(r: Replica<S>, e: ClusterEvent) {
    e.Added? || (e.Removed? && e.member.id != r.member.id)
  }

  predicate AnyChangesPeers<S>(r: Replica<S>, events: seq<ClusterEvent>)
    decreases |events|
  {
    events != [] && (ChangesPeers(r, events[0]) || AnyChangesPeers(Updated(r, events[0]), events[1..]))
  }

  /** There is a dispersal after a batch exactly when some event in it adds a peer, or removes one other than whom the
      node is at that point. */
  lemma {:induction false} ChangesMean<S>(r: Replica<S>, events: seq<ClusterEvent>)
    ensures AnyChangesPeers(r, events) <==>
              exists i :: 0 <= i < |events|
                && (events[i].Added?
                    || (events[i].Removed? && events[i].member.id != UpdatedAll(r, events[..i]).member.id))
    decreases |events|
  {
    if events != [] {
      var r', rest := Updated(r, events[0]), events[1..];
      ChangesMean(r', rest);
      assert events[..0] == [];
      forall i | 0 <= i < |rest|
        ensures rest[i] == events[i + 1] && UpdatedAll(r', rest[..i]) == UpdatedAll(r, events[..i + 1])
      {
        assert events[..i + 1][0] == events[0] && events[..i + 1][1..] == rest[..i];
      }
      forall i | 0 < i < |events|
        ensures events[i] == rest[i - 1] && UpdatedAll(r, events[..i]) == UpdatedAll(r', rest[..i - 1])
      {
        assert rest[..i - 1] == events[..i][1..] && events[..i][0] == events[0];
      }
    }
  }

  function ApplyOps<S(!new)>(lattice: Lattice<S>, ops: seq<Mutator<S>>): S {
    if ops == [] then lattice.minimum else
      var data := ApplyOps(lattice, ops[..|ops| - 1]);
      lattice.join(data, ops[|ops| - 1](data))
  }

  /** The operations one after another, on a replica that is there already. */
  function AfterMutations<S(!new)>(lattice: Lattice<S>, r: Replica<S>, ops: seq<Mutator<S>>): Replica<S> {
    if ops == [] then r else Mutated(lattice, AfterMutations(lattice, r, ops[..|ops| - 1]), ops[|ops| - 1])
  }

  /** Starting with queued operations leaves the data that starting without and then mutating leaves: none is lost, and
      they count in the order in which they were queued. */
  lemma {:induction false} QueueIsMutations<S(!new)>(
    lattice: Lattice<S>, ops: seq<Mutator<S>>, member: Member, nodes: set<Member>)
    requires lattice.Laws() && IdsUnique(nodes)
    ensures Started(lattice, [], member, nodes).data == lattice.minimum
    ensures Started(lattice, ops, member, nodes).data
         == AfterMutations(lattice, Started(lattice, [], member, nodes), ops).data
    ensures ops != [] ==>
              var before := Started(lattice, ops[..|ops| - 1], member, nodes).data;
              Started(lattice, ops, member, nodes).data == lattice.join(before, ops[|ops| - 1](before))
  {
    if ops != [] {
      var init, op := ops[..|ops| - 1], ops[|ops| - 1];
      QueueIsMutations(lattice, init, member, nodes);
      var before := Started(lattice, init, member, nodes).data;
      assert lattice.Bounds(before) && lattice.Bounds(op(before)) && lattice.Commutes(before, lattice.minimum);
    }
  }

  function NewPeers(nodes: set<Member>): map<nat, Peer>
    requires IdsUnique(nodes)
  {
    map m | m in nodes :: m.id := Peer(m, 0)
  }

  /** The replica a `Waiting` actor turns into: queued operations become one initial delta. */
  function Started<S(!new)>(
    lattice: Lattice<S>, ops: seq<Mutator<S>>, member: Member, nodes: set<Member>): Replica<S>
    requires IdsUnique(nodes)
  {
    var init := ApplyOps(lattice, ops);
    var log := if lattice.empty(init) then [] else [init];
    Replica(init, |log|, member, log, NewPeers(nodes - {member}), 0)
  }

  // ----- dispersal -----

  function Outdated<S(!new)>(lattice: Lattice<S>, r: Replica<S>, peer: Peer): Packet<S> {
    var d := if peer.count < r.minDelta then r.data else lattice.JoinAll(r.deltas);
    Packet(peer.member.socket, Delta(d, r.member.id, r.clock))
  }

  /** The peers outside the priority set that come before `id` in (count, id) order. */
  function Ahead<S>(r: Replica<S>, pref: Preference, id: nat): set<nat>
    requires id in r.acks
  {
    set j | j in r.acks && r.acks[j].member !in pref.priority
            && PairLess((r.acks[j].count, j), (r.acks[id].count, id))
  }

  predicate Chosen<S>(r: Replica<S>, pref: Preference, id: nat)
    requires id in r.acks
  {
    || (exists m :: m in pref.priority && m.id == id)
    || pref.selector.All?
    || (r.acks[id].member !in pref.priority && |Ahead(r, pref, id)| < pref.amount)
  }

  /** Every out-of-date priority peer is sent to, and so are the `amount` most out-of-date others (or
      all of them). */
  function Dispersal<S(!new)>(lattice: Lattice<S>, r: Replica<S>, pref: Preference): set<Packet<S>> {
    set id | id in r.acks && r.acks[id].count < r.clock && Chosen(r, pref, id)
      :: Outdated(lattice, r, r.acks[id])
  }

  /** The datagrams for the listed peers that are behind, one at a time. */
  function Sends<S(!new)>(lattice: Lattice<S>, r: Replica<S>, ids: seq<nat>): set<Packet<S>>
    requires forall id :: id in ids ==> id in r.acks
  {
    if ids == [] then {} else
      var last := ids[|ids| - 1];
      assert last in ids;
      var front := Sends(lattice, r, ids[..|ids| - 1]);
      if r.acks[last].count < r.clock then front + {Outdated(lattice, r, r.acks[last])} else front
  }

  lemma {:induction false} SendsAll<S(!new)>(lattice: Lattice<S>, r: Replica<S>, ids: seq<nat>)
    requires forall id :: id in ids ==> id in r.acks
    ensures Sends(lattice, r, ids)
         == set id | id in ids && r.acks[id].count < r.clock :: Outdated(lattice, r, r.acks[id])
  {
    if ids != [] {
      SendsAll(lattice, r, ids[..|ids| - 1]);
      assert ids == ids[..|ids| - 1] + [ids[|ids| - 1]];
    }
  }

  predicate PriorityKnown<S>(r: Replica<S>, pref: Preference) {
    forall m :: m in pref.priority ==> m.id in r.acks
  }

  /** Progress: while some peer is behind, a dispersal reaches a peer with the lowest acknowledgement,
      whatever the selector and the priority set. */
  lemma DispersalReachesLowest<S(!new)>(lattice: Lattice<S>, r: Replica<S>, pref: Preference)
    requires r.Ok() && pref.amount >= 1
    requires exists id :: id in r.acks && r.acks[id].count < r.clock
    ensures exists id :: id in r.acks && r.acks[id].count == FirstCount(OrdOf(r.acks))
              && Outdated(lattice, r, r.acks[id]) in Dispersal(lattice, r, pref)
  {
    LowestAck(r.acks);
    var ord := OrdOf(r.acks);
    PairOrder();
    var some :| some in r.acks;
    assert (r.acks[some].count, some) in ord;
    LeastExists(PairLess, ord);
    var least :| IsLeast(PairLess, least, ord);
    var low := least.1;
    assert low in r.acks && least == (r.acks[low].count, low);
    if r.acks[low].member !in pref.priority {
      forall j | j in r.acks ensures !PairLess((r.acks[j].count, j), (r.acks[low].count, low)) {
        assert (r.acks[j].count, j) in ord;
      }
      assert Ahead(r, pref, low) == {};
    }
    assert Chosen(r, pref, low);
    forall id | id in r.acks ensures r.acks[low].count <= r.acks[id].count {
      assert (r.acks[id].count, id) in ord;
    }
    assert Outdated(lattice, r, r.acks[low]) in Dispersal(lattice, r, pref);
  }

  // ----- the selection as the actor makes it: filter the index, then take a prefix -----

  /** The index in iteration order. */
  function InOrder(ord: set<(nat, nat)>): (order: seq<(nat, nat)>)
    ensures SortedBy(PairLess, order)
    ensures forall p :: p in order <==> p in ord
  {
    PairOrder();
    Ascending(PairLess, ord)
  }

  predicate IndexOf(acks: map<nat, Peer>, order: seq<(nat, nat)>) {
    forall p :: p in order ==> p.1 in acks && p.0 == acks[p.1].count
  }

  /** `ord_acks.iter().filter(..)` without the priority members. */
  function WithoutPriority(acks: map<nat, Peer>, order: seq<(nat, nat)>, priority: set<Member>): seq<nat>
    requires IndexOf(acks, order)
  {
    if order == [] then [] else
      var last := order[|order| - 1].1;
      assert order[|order| - 1] in order;
      var front := WithoutPriority(acks, order[..|order| - 1], priority);
      if acks[last].member in priority then front else front + [last]
  }

  ghost predicate LeastFirst(acks: map<nat, Peer>, ids: seq<nat>) {
    && (forall i :: 0 <= i < |ids| ==> ids[i] in acks)
    && forall i, j :: 0 <= i < j < |ids| ==>
         PairLess((acks[ids[i]].count, ids[i]), (acks[ids[j]].count, ids[j]))
  }

  lemma {:induction false} WithoutPriorityOrder(
    acks: map<nat, Peer>, order: seq<(nat, nat)>, priority: set<Member>)
    requires IndexOf(acks, order) && SortedBy(PairLess, order)
    ensures forall id :: id in WithoutPriority(acks, order, priority)
              <==> id in acks && (acks[id].count, id) in order && acks[id].member !in priority
    ensures LeastFirst(acks, WithoutPriority(acks, order, priority))
  {
    if order != [] {
      var init := order[..|order| - 1];
      var last := order[|order| - 1];
      assert order == init + [last];
      assert last in order;
      WithoutPriorityOrder(acks, init, priority);
      forall p | p in init ensures PairLess(p, last) {
        var i :| 0 <= i < |init| && init[i] == p;
        assert order[i] == p;
      }
      var front := WithoutPriority(acks, init, priority);
      assert forall i :: 0 <= i < |front| ==> front[i] in front;
      var ids := WithoutPriority(acks, order, priority);
      assert ids == if acks[last.1].member in priority then front else front + [last.1];
      forall i | 0 <= i < |front| ensures PairLess((acks[front[i]].count, front[i]), last) {
        assert front[i] in front;
      }
    }
  }

  /** Being the `k`th without priority is the same as having `k` of them ahead. */
  lemma RankIsPosition<S>(r: Replica<S>, pref: Preference, order: seq<(nat, nat)>, k: nat)
    requires IndexOf(r.acks, order) && SortedBy(PairLess, order)
    requires forall p :: p in OrdOf(r.acks) ==> p in order
    requires k < |WithoutPriority(r.acks, order, pref.priority)|
    ensures var ids := WithoutPriority(r.acks, order, pref.priority);
            ids[k] in r.acks && r.acks[ids[k]].member !in pref.priority && |Ahead(r, pref, ids[k])| == k
  {
    var ids := WithoutPriority(r.acks, order, pref.priority);
    WithoutPriorityOrder(r.acks, order, pref.priority);
    assert ids[k] in ids;
    var ahead := Ahead(r, pref, ids[k]);
    forall j: nat ensures j in ahead <==> j in ids[..k] {
      if j in ids[..k] {
        var i :| 0 <= i < k && ids[i] == j;
        assert j in ids;
      }
      if j in ahead {
        assert (r.acks[j].count, j) in OrdOf(r.acks);
        assert j in ids;
        var i :| 0 <= i < |ids| && ids[i] == j;
        assert i < k;
      }
    }
    assert ahead == Elements(ids[..k]);
    assert Distinct(ids[..k]);
    DistinctSize(ids[..k]);
  }

  // ----- whom the selection serves -----

  function Others<S>(r: Replica<S>, pref: Preference): set<nat> {
    set id | id in r.acks && r.acks[id].member !in pref.priority
  }

  /** Those with priority are chosen, and everyone is when everyone is selected. Otherwise who is further behind comes
      first, and at the same count the lower identifier. */
  lemma FurtherBehindFirst<S>(r: Replica<S>, pref: Preference, i: nat, j: nat)
    requires i in r.acks && j in r.acks
    ensures (exists m :: m in pref.priority && m.id == i) || pref.selector.All? ==> Chosen(r, pref, i)
    ensures (&& r.acks[i].member !in pref.priority && (forall m :: m in pref.priority ==> m.id != j)
             && (r.acks[i].count < r.acks[j].count || (r.acks[i].count == r.acks[j].count && i < j))
             && Chosen(r, pref, j)) ==> Chosen(r, pref, i)
  {
    var before, after := Ahead(r, pref, i), Ahead(r, pref, j);
    if before <= after {
      assert after == before + (after - before);
    }
  }

  /** The selection, as far as it is not by priority, fills its places: `amount` of them, or all there are. With unique
      identifiers nobody outside the priority set shares one with a member of it. */
  lemma PlacesAreFilled<S>(r: Replica<S>, pref: Preference)
    requires pref.selector.OutOfDate? && forall m :: m in pref.priority ==> m.id !in Others(r, pref)
    ensures var others := Others(r, pref);
            |set id | id in others && Chosen(r, pref, id)| == if |others| < pref.amount then |others| else pref.amount
  {
    var order := InOrder(OrdOf(r.acks));
    var ids := WithoutPriority(r.acks, order, pref.priority);
    WithoutPriorityOrder(r.acks, order, pref.priority);
    assert Others(r, pref) == Elements(ids) by {
      forall id | id in Others(r, pref) ensures id in ids {
        assert (r.acks[id].count, id) in OrdOf(r.acks);
      }
    }
    DistinctSize(ids);
    var n := if |ids| < pref.amount then |ids| else pref.amount;
    forall k | 0 <= k < |ids|
      ensures ids[k] in r.acks && |Ahead(r, pref, ids[k])| == k
    {
      RankIsPosition(r, pref, order, k);
    }
    FirstPlaces(r, pref, ids, n);
  }

  lemma FirstPlaces<S>(r: Replica<S>, pref: Preference, ids: seq<nat>, n: nat)
    requires pref.selector.OutOfDate? && forall m :: m in pref.priority ==> m.id !in Others(r, pref)
    requires Distinct(ids) && Others(r, pref) == Elements(ids)
    requires forall k :: 0 <= k < |ids| ==> ids[k] in r.acks && |Ahead(r, pref, ids[k])| == k
    requires n == if |ids| < pref.amount then |ids| else pref.amount
    ensures |set id | id in Others(r, pref) && Chosen(r, pref, id)| == n
  {
    hide Ahead;
    var chosen := set id | id in Others(r, pref) && Chosen(r, pref, id);
    assert chosen == Elements(ids[..n]) by {
      forall id | id in chosen ensures id in ids[..n] {
        var k :| 0 <= k < |ids| && ids[k] == id;
        assert ids[..n][k] == id;
      }
      forall k | 0 <= k < n ensures ids[k] in chosen {
        assert ids[k] in Elements(ids);
      }
    }
    DistinctSize(ids[..n]);
  }
}
