/** Any number of replicas over a network that may lose, repeat, delay and reorder datagrams: everything
    ever sent stays in `net`, and a delivery may pick any of it at any time. */
module CausalNet {
  import opened Causal
  import opened Lattices
  import opened Members

  datatype Node<!S(==,!new)> = Waiting(ops: seq<Mutator<S>>) | Active(replica: Replica<S>) | Crashed

  /** Each process keeps its dispersal preference, and has a pending timer for each dispersal it has made. `hist[p][c]`
      is the data `p` held at clock `c`, and `born` is every delta a replica produced by itself; both are kept for the
      statements only. */
  datatype System<!S(==,!new)> = System(
    nodes: map<Socket, Node<S>>,
    prefs: map<Socket, Preference>,
    timers: multiset<Socket>,
    net: set<Packet<S>>,
    hist: map<Socket, seq<S>>,
    born: seq<(Socket, S)>)

  datatype Step<!S(==,!new)> =
    | Queue(p: Socket, op: Mutator<S>)
    | Start(p: Socket, member: Member, peers: set<Member>)
    | Mutate(p: Socket, op: Mutator<S>)
    | SetPreference(p: Socket, pref: Preference)
    | Timeout(p: Socket)
    | Deliver(packet: Packet<S>)
    | Update(p: Socket, events: seq<ClusterEvent>)

  /** Which process an identifier belongs to; one process may go through several identifiers. */
  type Roster = map<nat, Member>

  predicate Listed(roster: Roster, m: Member) {
    m.id in roster && roster[m.id] == m
  }

  ghost function Initial<S(!new)>(prefs: map<Socket, Preference>): System<S> {
    System(map p | p in prefs :: Waiting([]), prefs, multiset{}, {}, map[], [])
  }

  predicate IsActive<S(!new)>(s: System<S>, p: Socket) {
    p in s.nodes && s.nodes[p].Active?
  }

  predicate PriorityAmong(pref: Preference, peers: set<Member>) {
    forall m :: m in pref.priority ==> exists n :: n in peers && n.id == m.id
  }

  /** The environment's part of the bargain: membership events are the ones `update` expects, they name members of
      the roster, and neither they nor a new preference leave a priority member unknown. Whatever is in the network
      may be delivered. */
  ghost predicate Enabled<S(!new)>(roster: Roster, s: System<S>, step: Step<S>) {
    match step
    case Queue(p, _) => p in s.nodes && s.nodes[p].Waiting?
    case Start(p, member, peers) =>
      && p in s.nodes && s.nodes[p].Waiting?
      && Listed(roster, member) && member.socket == p
      && (forall m :: m in peers ==> Listed(roster, m))
      && (p in s.prefs ==> PriorityAmong(s.prefs[p], peers - {member}))
    case Mutate(p, _) => IsActive(s, p)
    case SetPreference(p, pref) => p in s.nodes && (IsActive(s, p) ==> PriorityKnown(s.nodes[p].replica, pref))
    case Timeout(p) => p in s.timers && p in s.nodes
    case Deliver(packet) => packet in s.net && packet.to in s.nodes
    case Update(p, events) =>
      && IsActive(s, p)
      && AllExpected(s.nodes[p].replica, events)
      && (forall e :: e in events ==> MayHear(roster, p, e))
      && (p in s.prefs ==> PriorityKnown(UpdatedAll(s.nodes[p].replica, events), s.prefs[p]))
  }

  predicate MayHear(roster: Roster, p: Socket, e: ClusterEvent) {
    !e.Left? && Listed(roster, e.member) && (e.Alone? || e.Joined? ==> e.member.socket == p)
  }

  function HistoryOf<S(!new)>(s: System<S>, p: Socket): seq<S> {
    if p in s.hist then s.hist[p] else []
  }

  /** A replica moves to `r`; a new clock value is recorded in its history. */
  ghost function Moved<S(!new)>(s: System<S>, p: Socket, r: Replica<S>, sent: set<Packet<S>>): System<S>
    requires IsActive(s, p)
  {
    s.(nodes := s.nodes[p := Active(r)],
       net := s.net + sent,
       hist := if r.clock == s.nodes[p].replica.clock then s.hist
               else s.hist[p := HistoryOf(s, p) + [r.data]])
  }

  /** `disperse`: the process sends to whom its preference selects, and starts a timer. It panics on a priority member
      it does not know. */
  ghost function Dispersed<S(!new)>(lattice: Lattice<S>, s: System<S>, p: Socket): System<S>
    requires IsActive(s, p)
  {
    var r := s.nodes[p].replica;
    if p in s.prefs && PriorityKnown(r, s.prefs[p]) then
      s.(net := s.net + Dispersal(lattice, r, s.prefs[p]), timers := s.timers + multiset{p})
    else
      s.(nodes := s.nodes[p := Crashed])
  }

  ghost function Received<S(!new)>(lattice: Lattice<S>, s: System<S>, packet: Packet<S>): System<S>
    requires packet.to in s.nodes
  {
    match s.nodes[packet.to]
    case Active(r) =>
      (match packet.payload
       case Delta(d, id, clock) =>
         var r' := Causal.Received(lattice, r, d, id);
         var t := Moved(s, packet.to, r', Reply(r, id, clock));
         if r' == r then t else Dispersed(lattice, t, packet.to)
       case Ack(id, clock) =>
         (match Acked(r, id, clock)
          case Alive(r') => Moved(s, packet.to, r', {})
          case Panic => s.(nodes := s.nodes[packet.to := Crashed])))
    case _ => s
  }

  /** The timer's guard, on the cached minimum. */
  ghost predicate TimerDisperses<S(!new)>(s: System<S>, p: Socket) {
    IsActive(s, p) && var r := s.nodes[p].replica; r.acks != map[] && FirstCount(OrdOf(r.acks)) != r.clock
  }

  ghost function Next<S(!new)>(lattice: Lattice<S>, roster: Roster, s: System<S>, step: Step<S>): System<S>
    requires Enabled(roster, s, step)
  {
    match step
    case Queue(p, op) => s.(nodes := s.nodes[p := Waiting(s.nodes[p].ops + [op])])
    case Start(p, member, peers) =>
      var r := Started(lattice, s.nodes[p].ops, member, peers);
      s.(nodes := s.nodes[p := Active(r)],
         hist := s.hist[p := [lattice.minimum] + r.deltas],
         born := s.born + [(p, r.data)])
    case Mutate(p, op) =>
      var r := s.nodes[p].replica;
      var t := Moved(s, p, Mutated(lattice, r, op), {}).(born := s.born + [(p, op(r.data))]);
      if lattice.empty(op(r.data)) then t else Dispersed(lattice, t, p)
    case SetPreference(p, pref) => s.(prefs := s.prefs[p := pref])
    case Timeout(p) =>
      var t := s.(timers := s.timers - multiset{p});
      if TimerDisperses(t, p) then Dispersed(lattice, t, p) else t
    case Deliver(packet) => Received(lattice, s, packet)
    case Update(p, events) =>
      var r := s.nodes[p].replica;
      var t := Moved(s, p, UpdatedAll(r, events), {});
      if AnyChangesPeers(r, events) then Dispersed(lattice, t, p) else t
  }

  // ----- the invariant -----

  function DataOf<S(!new)>(lattice: Lattice<S>, s: System<S>, p: Socket): S {
    if IsActive(s, p) then s.nodes[p].replica.data else lattice.minimum
  }

  function Deltas<S>(born: seq<(Socket, S)>): seq<S> {
    seq(|born|, i requires 0 <= i < |born| => born[i].1)
  }

  /** Everything any replica ever produced by itself. */
  function Total<S(!new)>(lattice: Lattice<S>, s: System<S>): S {
    lattice.JoinAll(Deltas(s.born))
  }

  /** `q` holds everything that `p` held at clock `c`. */
  ghost predicate Holds<S(!new)>(lattice: Lattice<S>, s: System<S>, p: Socket, c: nat, x: S) {
    IsActive(s, p) && p in s.hist && c < |s.hist[p]| && lattice.Le(s.hist[p][c], x)
  }

  /** The log of a replica explains its data: its history starts empty, ends with the current data, only
      grows, and each retained delta is the step from one clock value to the next. */
  ghost predicate LogExplains<S(!new)>(lattice: Lattice<S>, r: Replica<S>, h: seq<S>) {
    && r.Ok()
    && |h| == r.clock + 1 && h[0] == lattice.minimum && h[r.clock] == r.data
    && (forall c :: 0 <= c < r.clock ==> lattice.Le(h[c], h[c + 1]))
    && forall i :: 0 <= i < |r.deltas| ==> h[r.minDelta + i + 1] == lattice.join(h[r.minDelta + i], r.deltas[i])
  }

  ghost predicate AckSound<S(!new)>(
    lattice: Lattice<S>, roster: Roster, s: System<S>, p: Socket, id: nat, count: nat)
  {
    id in roster && Holds(lattice, s, p, count, DataOf(lattice, s, roster[id].socket))
  }

  /** Everyone the replica deals with is on the roster, and has what it acknowledged. */
  ghost predicate PeersOk<S(!new)>(lattice: Lattice<S>, roster: Roster, s: System<S>, p: Socket, r: Replica<S>) {
    && Listed(roster, r.member) && r.member.socket == p
    && (forall id :: id in r.acks ==> Listed(roster, r.acks[id].member))
    && (forall id :: id in r.acks ==> AckSound(lattice, roster, s, p, id, r.acks[id].count))
  }

  ghost predicate ReplicaOk<S(!new)>(lattice: Lattice<S>, roster: Roster, s: System<S>, p: Socket)
    requires IsActive(s, p)
  {
    var r := s.nodes[p].replica;
    && p in s.hist && p in s.prefs
    && PriorityKnown(r, s.prefs[p])
    && LogExplains(lattice, r, s.hist[p])
    && PeersOk(lattice, roster, s, p, r)
    && lattice.Le(r.data, Total(lattice, s))
  }

  ghost predicate PacketOk<S(!new)>(lattice: Lattice<S>, roster: Roster, s: System<S>, packet: Packet<S>) {
    match packet.payload
    case Delta(d, id, clock) =>
      && id in roster
      && Holds(lattice, s, roster[id].socket, clock, lattice.join(DataOf(lattice, s, packet.to), d))
      && lattice.Le(d, Total(lattice, s))
    case Ack(id, clock) => AckSound(lattice, roster, s, packet.to, id, clock)
  }

  ghost predicate Inv<S(!new)>(lattice: Lattice<S>, roster: Roster, s: System<S>) {
    && (forall p :: p in s.nodes ==> !s.nodes[p].Crashed? && p in s.prefs)
    && (forall p :: IsActive(s, p) ==> ReplicaOk(lattice, roster, s, p))
    && (forall packet :: packet in s.net ==> PacketOk(lattice, roster, s, packet))
    && (forall b :: b in s.born ==> lattice.Le(b.1, DataOf(lattice, s, b.0)))
  }

  // ----- one replica's log -----

  lemma {:induction false} HistoryGrows<S(!new)>(
    lattice: Lattice<S>, r: Replica<S>, h: seq<S>, a: nat, b: nat)
    requires lattice.Laws() && LogExplains(lattice, r, h) && a <= b <= r.clock
    ensures lattice.Le(h[a], h[b])
    decreases b - a
  {
    lattice.LeReflexive(h[a]);
    if a < b {
      HistoryGrows(lattice, r, h, a, b - 1);
      lattice.LeTransitive(h[a], h[b - 1], h[b]);
    }
  }

  /** The retained deltas lead from the data at `minDelta` to the current data. */
  lemma {:induction false} QueueLeadsToData<S(!new)>(lattice: Lattice<S>, r: Replica<S>, h: seq<S>, i: nat)
    requires lattice.Laws() && LogExplains(lattice, r, h) && i <= |r.deltas|
    ensures lattice.join(h[r.minDelta], lattice.JoinAll(r.deltas[..i])) == h[r.minDelta + i]
  {
    var base := h[r.minDelta];
    if i == 0 {
      assert lattice.Commutes(base, lattice.minimum) && lattice.Bounds(base);
    } else {
      hide Lattice.JoinAll, Replica.Ok;
      QueueLeadsToData(lattice, r, h, i - 1);
      var init := r.deltas[..i - 1];
      assert r.deltas[..i] == init + [r.deltas[i - 1]];
      lattice.JoinAllPush(init, r.deltas[i - 1]);
      assert lattice.Associates(base, lattice.JoinAll(init), r.deltas[i - 1]);
      assert h[r.minDelta + (i - 1) + 1] == h[r.minDelta + i];
    }
  }

  /** What a peer is sent brings it up to date: the full state when its acknowledgement predates the
      retained queue, the queue alone otherwise. */
  lemma OutdatedSuffices<S(!new)>(lattice: Lattice<S>, r: Replica<S>, h: seq<S>, peer: Peer, x: S)
    requires lattice.Laws() && LogExplains(lattice, r, h)
    requires peer.count <= r.clock && lattice.Le(h[peer.count], x)
    ensures lattice.Le(r.data, lattice.join(x, Outdated(lattice, r, peer).payload.delta))
    ensures lattice.Le(Outdated(lattice, r, peer).payload.delta, r.data)
  {
    var d := Outdated(lattice, r, peer).payload.delta;
    lattice.LeReflexive(r.data);
    if peer.count < r.minDelta {
      lattice.JoinIsUpper(x, d);
    } else {
      assert r.deltas[..|r.deltas|] == r.deltas;
      QueueLeadsToData(lattice, r, h, |r.deltas|);
      HistoryGrows(lattice, r, h, r.minDelta, peer.count);
      lattice.LeTransitive(h[r.minDelta], h[peer.count], x);
      lattice.LeReflexive(d);
      lattice.JoinMonotone(h[r.minDelta], d, x, d);
      lattice.JoinIsUpper(h[r.minDelta], d);
    }
  }

  lemma CommitExplains<S(!new)>(lattice: Lattice<S>, r: Replica<S>, h: seq<S>, d: S)
    requires lattice.Laws() && LogExplains(lattice, r, h)
    ensures LogExplains(lattice, Commit(lattice, r, d), h + [lattice.join(r.data, d)])
  {
    lattice.JoinIsUpper(r.data, d);
  }

  // ----- facts survive when data and histories only grow -----

  ghost predicate Grows<S(!new)>(lattice: Lattice<S>, s: System<S>, t: System<S>) {
    && (forall p :: IsActive(s, p) && p in s.hist ==> IsActive(t, p) && p in t.hist && s.hist[p] <= t.hist[p])
    && (forall p :: lattice.Le(DataOf(lattice, s, p), DataOf(lattice, t, p)))
    && lattice.Le(Total(lattice, s), Total(lattice, t))
  }

  lemma HoldsLater<S(!new)>(
    lattice: Lattice<S>, s: System<S>, t: System<S>, p: Socket, c: nat, x: S, y: S)
    requires lattice.Laws() && Grows(lattice, s, t) && lattice.Le(x, y) && Holds(lattice, s, p, c, x)
    ensures Holds(lattice, t, p, c, y)
  {
    assert t.hist[p][c] == s.hist[p][c];
    lattice.LeTransitive(s.hist[p][c], x, y);
  }

  lemma PacketLater<S(!new)>(
    lattice: Lattice<S>, roster: Roster, s: System<S>, t: System<S>, packet: Packet<S>)
    requires lattice.Laws() && Grows(lattice, s, t) && PacketOk(lattice, roster, s, packet)
    ensures PacketOk(lattice, roster, t, packet)
  {
    match packet.payload {
      case Delta(d, id, clock) =>
        var x, y := DataOf(lattice, s, packet.to), DataOf(lattice, t, packet.to);
        lattice.LeReflexive(d);
        lattice.JoinMonotone(x, d, y, d);
        HoldsLater(lattice, s, t, roster[id].socket, clock, lattice.join(x, d), lattice.join(y, d));
        lattice.LeTransitive(d, Total(lattice, s), Total(lattice, t));
      case Ack(id, clock) =>
        AckLater(lattice, roster, s, t, packet.to, id, clock);
    }
  }

  lemma AckLater<S(!new)>(
    lattice: Lattice<S>, roster: Roster, s: System<S>, t: System<S>, p: Socket, id: nat, count: nat)
    requires lattice.Laws() && Grows(lattice, s, t) && AckSound(lattice, roster, s, p, id, count)
    ensures AckSound(lattice, roster, t, p, id, count)
  {
    var q := roster[id].socket;
    HoldsLater(lattice, s, t, p, count, DataOf(lattice, s, q), DataOf(lattice, t, q));
  }

  lemma OthersLater<S(!new)>(lattice: Lattice<S>, roster: Roster, s: System<S>, t: System<S>, p: Socket)
    requires lattice.Laws() && Grows(lattice, s, t)
    requires IsActive(s, p) && ReplicaOk(lattice, roster, s, p)
    requires p in t.nodes && t.nodes[p] == s.nodes[p] && p in t.hist && t.hist[p] == s.hist[p]
    requires p in t.prefs && t.prefs[p] == s.prefs[p]
    ensures ReplicaOk(lattice, roster, t, p)
  {
    var r := s.nodes[p].replica;
    forall id | id in r.acks ensures AckSound(lattice, roster, t, p, id, r.acks[id].count) {
      AckLater(lattice, roster, s, t, p, id, r.acks[id].count);
    }
    lattice.LeTransitive(r.data, Total(lattice, s), Total(lattice, t));
  }

  /** A step that changes one process, adds datagrams and perhaps one locally produced delta. */
  ghost predicate Touches<S(!new)>(s: System<S>, t: System<S>, p: Socket) {
    && p in s.nodes && s.nodes.Keys == t.nodes.Keys
    && (forall q :: q in s.nodes && q != p ==> t.nodes[q] == s.nodes[q])
    && (forall q :: q != p && q in s.hist ==> q in t.hist && t.hist[q] == s.hist[q])
    && s.prefs.Keys <= t.prefs.Keys && (forall q :: q != p && q in s.prefs ==> t.prefs[q] == s.prefs[q])
    && s.net <= t.net
    && (t.born == s.born || exists d :: t.born == s.born + [(p, d)])
  }

  lemma InvAfter<S(!new)>(lattice: Lattice<S>, roster: Roster, s: System<S>, t: System<S>, p: Socket)
    requires lattice.Laws() && Inv(lattice, roster, s) && Touches(s, t, p) && Grows(lattice, s, t)
    requires !t.nodes[p].Crashed?
    requires IsActive(t, p) ==> ReplicaOk(lattice, roster, t, p)
    requires forall packet :: packet in t.net - s.net ==> PacketOk(lattice, roster, t, packet)
    requires forall b :: b in t.born[|s.born|..] ==> lattice.Le(b.1, DataOf(lattice, t, p))
    ensures Inv(lattice, roster, t)
  {
    forall q | IsActive(t, q) ensures ReplicaOk(lattice, roster, t, q) {
      if q != p {
        assert IsActive(s, q);
        OthersLater(lattice, roster, s, t, q);
      }
    }
    forall packet | packet in t.net ensures PacketOk(lattice, roster, t, packet) {
      if packet in s.net {
        PacketLater(lattice, roster, s, t, packet);
      }
    }
    forall b | b in t.born ensures lattice.Le(b.1, DataOf(lattice, t, b.0)) {
      if b in s.born {
        lattice.LeTransitive(b.1, DataOf(lattice, s, b.0), DataOf(lattice, t, b.0));
      } else {
        var i :| 0 <= i < |t.born| && t.born[i] == b;
        assert forall j :: 0 <= j < |s.born| ==> t.born[j] == s.born[j] && s.born[j] in s.born;
        assert t.born[|s.born|..][i - |s.born|] == b;
      }
    }
  }

  lemma TotalGrows<S(!new)>(lattice: Lattice<S>, s: System<S>, t: System<S>, p: Socket, d: S)
    requires lattice.Laws() && t.born == s.born + [(p, d)]
    ensures Total(lattice, t) == lattice.join(Total(lattice, s), d)
    ensures lattice.Le(Total(lattice, s), Total(lattice, t)) && lattice.Le(d, Total(lattice, t))
  {
    assert Deltas(t.born) == Deltas(s.born) + [d];
    lattice.JoinAllPush(Deltas(s.born), d);
    lattice.JoinIsUpper(Total(lattice, s), d);
  }

  // ----- every step keeps the invariant -----

  /** The common part: an active replica moves, its data does not shrink, its log still explains its
      data, and what it newly claims or sends is sound. */
  lemma MoveKeepsInv<S(!new)>(
    lattice: Lattice<S>, roster: Roster, s: System<S>, t: System<S>, p: Socket, r: Replica<S>, sent: set<Packet<S>>)
    requires lattice.Laws() && Inv(lattice, roster, s) && IsActive(s, p)
    requires t == Moved(s, p, r, sent).(born := t.born, timers := t.timers)
    requires lattice.Le(s.nodes[p].replica.data, r.data)
    requires r.clock == s.nodes[p].replica.clock ==> r.data == s.nodes[p].replica.data
    requires PriorityKnown(r, s.prefs[p])
    requires LogExplains(lattice, r, t.hist[p])
    requires PeersOk(lattice, roster, s, p, r)
    requires forall packet :: packet in sent ==> PacketOk(lattice, roster, t, packet)
    requires t.born == s.born
             || exists d :: t.born == s.born + [(p, d)] && lattice.Le(d, r.data)
    requires lattice.Le(r.data, Total(lattice, t))
    ensures Inv(lattice, roster, t)
  {
    MoveGrows(lattice, s, t, p, r, sent);
    forall id | id in r.acks ensures AckSound(lattice, roster, t, p, id, r.acks[id].count) {
      AckLater(lattice, roster, s, t, p, id, r.acks[id].count);
    }
    InvAfter(lattice, roster, s, t, p);
  }

  lemma MoveGrows<S(!new)>(
    lattice: Lattice<S>, s: System<S>, t: System<S>, p: Socket, r: Replica<S>, sent: set<Packet<S>>)
    requires lattice.Laws() && IsActive(s, p) && p in s.hist
    requires t == Moved(s, p, r, sent).(born := t.born, timers := t.timers)
    requires lattice.Le(s.nodes[p].replica.data, r.data)
    requires t.born == s.born || exists d :: t.born == s.born + [(p, d)]
    ensures Grows(lattice, s, t)
  {
    forall q ensures lattice.Le(DataOf(lattice, s, q), DataOf(lattice, t, q)) {
      lattice.LeReflexive(DataOf(lattice, s, q));
    }
    if t.born == s.born {
      lattice.LeReflexive(Total(lattice, s));
    } else {
      var d :| t.born == s.born + [(p, d)];
      TotalGrows(lattice, s, t, p, d);
    }
  }

  lemma MutateKeepsInv<S(!new)>(
    lattice: Lattice<S>, roster: Roster, s: System<S>, p: Socket, op: Mutator<S>)
    requires lattice.Laws() && Inv(lattice, roster, s) && Enabled(roster, s, Mutate(p, op))
    ensures Inv(lattice, roster, Next(lattice, roster, s, Mutate(p, op)))
  {
    assert ReplicaOk(lattice, roster, s, p);
    var r := s.nodes[p].replica;
    var r' := Mutated(lattice, r, op);
    var d := op(r.data);
    var t := Moved(s, p, r', {}).(born := s.born + [(p, d)]);
    TotalGrows(lattice, s, t, p, d);
    lattice.LeTransitive(r.data, Total(lattice, s), Total(lattice, t));
    lattice.LeReflexive(r.data);
    assert lattice.Bounds(d);
    lattice.JoinIsUpper(r.data, d);
    if !lattice.empty(d) {
      CommitExplains(lattice, r, s.hist[p], d);
      lattice.JoinIsLeast(r.data, d, Total(lattice, t));
    }
    MoveKeepsInv(lattice, roster, s, t, p, r', {});
    DispersedKeepsInv(lattice, roster, t, p);
  }

  lemma OutdatedIsOk<S(!new)>(lattice: Lattice<S>, roster: Roster, s: System<S>, p: Socket, id: nat)
    requires lattice.Laws() && IsActive(s, p) && ReplicaOk(lattice, roster, s, p)
    requires id in s.nodes[p].replica.acks
    ensures PacketOk(lattice, roster, s, Outdated(lattice, s.nodes[p].replica, s.nodes[p].replica.acks[id]))
  {
    var r := s.nodes[p].replica;
    var packet := Outdated(lattice, r, r.acks[id]);
    assert AckSound(lattice, roster, s, p, id, r.acks[id].count);
    assert Listed(roster, r.acks[id].member) && r.acks[id].member.id == id;
    OutdatedSuffices(lattice, r, s.hist[p], r.acks[id], DataOf(lattice, s, packet.to));
    lattice.LeTransitive(packet.payload.delta, r.data, Total(lattice, s));
  }

  lemma DispersedKeepsInv<S(!new)>(lattice: Lattice<S>, roster: Roster, s: System<S>, p: Socket)
    requires lattice.Laws() && Inv(lattice, roster, s) && IsActive(s, p)
    ensures Inv(lattice, roster, Dispersed(lattice, s, p))
  {
    assert ReplicaOk(lattice, roster, s, p);
    var r := s.nodes[p].replica;
    var sent := Dispersal(lattice, r, s.prefs[p]);
    var t := Dispersed(lattice, s, p);
    lattice.LeReflexive(r.data);
    lattice.LeReflexive(Total(lattice, s));
    assert s.nodes == s.nodes[p := Active(r)];
    MoveGrows(lattice, s, t, p, r, sent);
    forall packet | packet in sent ensures PacketOk(lattice, roster, t, packet) {
      var id :| id in r.acks && r.acks[id].count < r.clock && packet == Outdated(lattice, r, r.acks[id]);
      OutdatedIsOk(lattice, roster, s, p, id);
      PacketLater(lattice, roster, s, t, packet);
    }
    MoveKeepsInv(lattice, roster, s, t, p, r, sent);
  }

  lemma TimeoutKeepsInv<S(!new)>(lattice: Lattice<S>, roster: Roster, s: System<S>, p: Socket)
    requires lattice.Laws() && Inv(lattice, roster, s) && Enabled(roster, s, Timeout(p))
    ensures Inv(lattice, roster, Next(lattice, roster, s, Timeout(p)))
  {
    var t := s.(timers := s.timers - multiset{p});
    SameButTimers(lattice, roster, s, t, p);
    if IsActive(t, p) {
      DispersedKeepsInv(lattice, roster, t, p);
    }
  }

  /** Timers and preferences have no part in the soundness of data. */
  lemma SameButTimers<S(!new)>(lattice: Lattice<S>, roster: Roster, s: System<S>, t: System<S>, p: Socket)
    requires lattice.Laws() && Inv(lattice, roster, s) && p in s.nodes
    requires t == s.(prefs := t.prefs, timers := t.timers)
    requires s.prefs.Keys <= t.prefs.Keys && forall q :: q in s.prefs && q != p ==> t.prefs[q] == s.prefs[q]
    requires IsActive(s, p) ==> PriorityKnown(s.nodes[p].replica, t.prefs[p])
    ensures Inv(lattice, roster, t)
  {
    forall q ensures lattice.Le(DataOf(lattice, s, q), DataOf(lattice, t, q)) {
      lattice.LeReflexive(DataOf(lattice, t, q));
    }
    lattice.LeReflexive(Total(lattice, s));
    if IsActive(s, p) {
      assert ReplicaOk(lattice, roster, s, p);
      var r := s.nodes[p].replica;
      forall id | id in r.acks ensures AckSound(lattice, roster, t, p, id, r.acks[id].count) {
        AckLater(lattice, roster, s, t, p, id, r.acks[id].count);
      }
    }
    InvAfter(lattice, roster, s, t, p);
  }

  /** Joining a delta and answering it, before anything is dispersed. */
  lemma JoinKeepsInv<S(!new)>(
    lattice: Lattice<S>, roster: Roster, s: System<S>, p: Socket, d: S, id: nat, clock: nat)
    requires lattice.Laws() && Inv(lattice, roster, s) && IsActive(s, p)
    requires Packet(p, Delta(d, id, clock)) in s.net
    ensures var r := s.nodes[p].replica;
            Inv(lattice, roster, Moved(s, p, Causal.Received(lattice, r, d, id), Reply(r, id, clock)))
  {
    var packet := Packet(p, Delta(d, id, clock));
    assert ReplicaOk(lattice, roster, s, p) && PacketOk(lattice, roster, s, packet);
    var r := s.nodes[p].replica;
    var r' := Causal.Received(lattice, r, d, id);
    var sent := Reply(r, id, clock);
    var t := Moved(s, p, r', sent);
    lattice.JoinIsUpper(r.data, d);
    lattice.LeReflexive(r.data);
    lattice.LeReflexive(lattice.join(r.data, d));
    lattice.JoinIsLeast(r.data, d, Total(lattice, s));
    if r' != r {
      CommitExplains(lattice, r, s.hist[p], d);
    }
    MoveGrows(lattice, s, t, p, r', sent);
    forall ack | ack in sent ensures PacketOk(lattice, roster, t, ack) {
      assert r'.data == lattice.join(r.data, d);
      var from := roster[id].socket;
      assert ack.to == from && roster[r.member.id].socket == p;
      HoldsLater(lattice, s, t, from, clock, lattice.join(r.data, d), DataOf(lattice, t, p));
    }
    MoveKeepsInv(lattice, roster, s, t, p, r', sent);
  }

  lemma DeltaKeepsInv<S(!new)>(lattice: Lattice<S>, roster: Roster, s: System<S>, packet: Packet<S>)
    requires lattice.Laws() && Inv(lattice, roster, s) && Enabled(roster, s, Deliver(packet))
    requires packet.payload.Delta? && IsActive(s, packet.to)
    ensures Inv(lattice, roster, Next(lattice, roster, s, Deliver(packet)))
  {
    var p := packet.to;
    var Delta(d, id, clock) := packet.payload;
    assert ReplicaOk(lattice, roster, s, p);
    hide Inv, ReplicaOk, Dispersed;
    JoinKeepsInv(lattice, roster, s, p, d, id, clock);
    var r := s.nodes[p].replica;
    DispersedKeepsInv(lattice, roster, Moved(s, p, Causal.Received(lattice, r, d, id), Reply(r, id, clock)), p);
  }

  lemma AckedExplains<S(!new)>(lattice: Lattice<S>, r: Replica<S>, h: seq<S>, id: nat, clock: nat)
    requires LogExplains(lattice, r, h) && clock <= r.clock && Acked(r, id, clock).Alive?
    ensures LogExplains(lattice, Acked(r, id, clock).replica, h)
  {
  }

  lemma AckKeepsInv<S(!new)>(lattice: Lattice<S>, roster: Roster, s: System<S>, packet: Packet<S>)
    requires lattice.Laws() && Inv(lattice, roster, s) && Enabled(roster, s, Deliver(packet))
    requires packet.payload.Ack? && IsActive(s, packet.to)
    ensures Inv(lattice, roster, Next(lattice, roster, s, Deliver(packet)))
  {
    var p := packet.to;
    var Ack(id, clock) := packet.payload;
    assert ReplicaOk(lattice, roster, s, p) && PacketOk(lattice, roster, s, packet);
    var r := s.nodes[p].replica;
    lattice.LeReflexive(r.data);
    AckedAlive(r, id, clock);
    var r' := Acked(r, id, clock).replica;
    AckedExplains(lattice, r, s.hist[p], id, clock);
    MoveKeepsInv(lattice, roster, s, Next(lattice, roster, s, Deliver(packet)), p, r', {});
  }

  lemma {:induction false} UpdatesKeepPeersOk<S(!new)>(
    lattice: Lattice<S>, roster: Roster, s: System<S>, p: Socket, r: Replica<S>, events: seq<ClusterEvent>)
    requires lattice.Laws() && IsActive(s, p) && p in s.hist
    requires LogExplains(lattice, r, s.hist[p]) && PeersOk(lattice, roster, s, p, r)
    requires AllExpected(r, events) && forall e :: e in events ==> MayHear(roster, p, e)
    ensures var r' := UpdatedAll(r, events);
            && r'.data == r.data && r'.clock == r.clock
            && LogExplains(lattice, r', s.hist[p]) && PeersOk(lattice, roster, s, p, r')
    decreases |events|
  {
    if events != [] {
      var e, r' := events[0], Updated(r, events[0]);
      assert e in events && MayHear(roster, p, e);
      lattice.LeReflexive(DataOf(lattice, s, e.member.socket));
      assert AckSound(lattice, roster, s, p, e.member.id, 0);
      forall id | id in r'.acks
        ensures Listed(roster, r'.acks[id].member) && AckSound(lattice, roster, s, p, id, r'.acks[id].count)
      {
        assert (e.Added? && id == e.member.id) || (id in r.acks && r'.acks[id] == r.acks[id]);
      }
      UpdatesKeepPeersOk(lattice, roster, s, p, r', events[1..]);
    }
  }

  lemma UpdateKeepsInv<S(!new)>(
    lattice: Lattice<S>, roster: Roster, s: System<S>, p: Socket, events: seq<ClusterEvent>)
    requires lattice.Laws() && Inv(lattice, roster, s) && Enabled(roster, s, Update(p, events))
    ensures Inv(lattice, roster, Next(lattice, roster, s, Update(p, events)))
  {
    assert ReplicaOk(lattice, roster, s, p);
    var r := s.nodes[p].replica;
    var r' := UpdatedAll(r, events);
    UpdatesKeepPeersOk(lattice, roster, s, p, r, events);
    lattice.LeReflexive(r.data);
    var t := Moved(s, p, r', {});
    MoveKeepsInv(lattice, roster, s, t, p, r', {});
    DispersedKeepsInv(lattice, roster, t, p);
  }

  lemma StartKeepsInv<S(!new)>(
    lattice: Lattice<S>, roster: Roster, s: System<S>, p: Socket, member: Member, peers: set<Member>)
    requires lattice.Laws() && Inv(lattice, roster, s) && Enabled(roster, s, Start(p, member, peers))
    ensures Inv(lattice, roster, Next(lattice, roster, s, Start(p, member, peers)))
  {
    var step := Start(p, member, peers);
    var t := Next(lattice, roster, s, step);
    var r := t.nodes[p].replica;
    var init := r.data;
    assert lattice.Bounds(init);
    lattice.LeReflexive(init);
    TotalGrows(lattice, s, t, p, init);
    forall q ensures lattice.Le(DataOf(lattice, s, q), DataOf(lattice, t, q)) {
      lattice.LeReflexive(DataOf(lattice, t, q));
    }
    forall id | id in r.acks ensures AckSound(lattice, roster, t, p, id, r.acks[id].count) {
      lattice.LeReflexive(DataOf(lattice, t, roster[id].socket));
    }
    assert ReplicaOk(lattice, roster, t, p);
    InvAfter(lattice, roster, s, t, p);
  }

  lemma StepKeepsInv<S(!new)>(lattice: Lattice<S>, roster: Roster, s: System<S>, step: Step<S>)
    requires lattice.Laws() && Inv(lattice, roster, s) && Enabled(roster, s, step)
    ensures Inv(lattice, roster, Next(lattice, roster, s, step))
  {
    match step {
      case Queue(p, op) =>
        var t := Next(lattice, roster, s, step);
        forall q ensures lattice.Le(DataOf(lattice, s, q), DataOf(lattice, t, q)) {
          lattice.LeReflexive(DataOf(lattice, t, q));
        }
        lattice.LeReflexive(Total(lattice, s));
        InvAfter(lattice, roster, s, t, p);
      case Start(p, member, peers) => StartKeepsInv(lattice, roster, s, p, member, peers);
      case Mutate(p, op) => MutateKeepsInv(lattice, roster, s, p, op);
      case SetPreference(p, pref) => SameButTimers(lattice, roster, s, s.(prefs := s.prefs[p := pref]), p);
      case Timeout(p) => TimeoutKeepsInv(lattice, roster, s, p);
      case Deliver(packet) =>
        if IsActive(s, packet.to) {
          if packet.payload.Delta? {
            DeltaKeepsInv(lattice, roster, s, packet);
          } else {
            AckKeepsInv(lattice, roster, s, packet);
          }
        }
      case Update(p, events) => UpdateKeepsInv(lattice, roster, s, p, events);
    }
  }

  // ----- whole runs -----

  ghost predicate Reaches<S(!new)>(
    lattice: Lattice<S>, roster: Roster, s: System<S>, steps: seq<Step<S>>, t: System<S>)
    decreases |steps|
  {
    if steps == [] then s == t else
      Enabled(roster, s, steps[0]) && Reaches(lattice, roster, Next(lattice, roster, s, steps[0]), steps[1..], t)
  }

  lemma {:induction false} RunKeepsInv<S(!new)>(
    lattice: Lattice<S>, roster: Roster, s: System<S>, steps: seq<Step<S>>, t: System<S>)
    requires lattice.Laws() && Inv(lattice, roster, s) && Reaches(lattice, roster, s, steps, t)
    ensures Inv(lattice, roster, t)
    decreases |steps|
  {
    if steps != [] {
      StepKeepsInv(lattice, roster, s, steps[0]);
      RunKeepsInv(lattice, roster, Next(lattice, roster, s, steps[0]), steps[1..], t);
    }
  }

  ghost predicate Reachable<S(!new)>(lattice: Lattice<S>, roster: Roster, t: System<S>) {
    exists prefs, steps :: Reaches(lattice, roster, Initial(prefs), steps, t)
  }

  lemma ReachableInv<S(!new)>(lattice: Lattice<S>, roster: Roster, t: System<S>)
    requires lattice.Laws() && Reachable(lattice, roster, t)
    ensures Inv(lattice, roster, t)
  {
    var prefs, steps :| Reaches(lattice, roster, Initial(prefs), steps, t);
    RunKeepsInv(lattice, roster, Initial(prefs), steps, t);
  }

  /** Acknowledgements are sound in every reachable state: the acknowledging process holds everything
      the replica held at the acknowledged clock, both in its table and for every acknowledgement still
      in flight; and no replica has panicked, neither on its delta queue nor on its priority members. */
  lemma AcknowledgementsAreSound<S(!new)>(lattice: Lattice<S>, roster: Roster, s: System<S>)
    requires lattice.Laws() && Reachable(lattice, roster, s)
    ensures forall p :: p in s.nodes ==> !s.nodes[p].Crashed?
    ensures forall p, id :: IsActive(s, p) && id in s.nodes[p].replica.acks ==>
              AckSound(lattice, roster, s, p, id, s.nodes[p].replica.acks[id].count)
    ensures forall packet :: packet in s.net && packet.payload.Ack? ==>
              AckSound(lattice, roster, s, packet.to, packet.payload.id, packet.payload.clock)
  {
    ReachableInv(lattice, roster, s);
    forall packet | packet in s.net && packet.payload.Ack?
      ensures AckSound(lattice, roster, s, packet.to, packet.payload.id, packet.payload.clock)
    {
      assert PacketOk(lattice, roster, s, packet);
    }
  }

  /** The assumption about priority members is needed: the removal of a peer leads to a dispersal in the same handler,
      which panics exactly when that peer is in the priority set. */
  lemma RemovalPanics<S(!new)>(lattice: Lattice<S>, s: System<S>, p: Socket, m: Member)
    requires IsActive(s, p) && p in s.hist && p in s.prefs
    requires s.nodes[p].replica.Ok() && PriorityKnown(s.nodes[p].replica, s.prefs[p])
    requires Expected(s.nodes[p].replica, Removed(m)) && m.id != s.nodes[p].replica.member.id
    ensures var r := s.nodes[p].replica;
            && AnyChangesPeers(r, [Removed(m)])
            && (Dispersed(lattice, Moved(s, p, UpdatedAll(r, [Removed(m)]), {}), p).nodes[p].Crashed?
                <==> exists n :: n in s.prefs[p].priority && n.id == m.id)
  {
  }

  // ----- what single steps do -----

  /** A delta from an identifier that the receiver does not know leaves everything as it was. */
  lemma StrangersAreIgnored<S(!new)>(
    lattice: Lattice<S>, roster: Roster, s: System<S>, p: Socket, d: S, id: nat, clock: nat)
    requires Enabled(roster, s, Deliver(Packet(p, Delta(d, id, clock))))
    requires IsActive(s, p) ==> id !in s.nodes[p].replica.acks
    ensures Next(lattice, roster, s, Deliver(Packet(p, Delta(d, id, clock)))) == s
  {
    assert s.net + {} == s.net;
    assert IsActive(s, p) ==> s.nodes[p := Active(s.nodes[p].replica)] == s.nodes;
  }

  /** Queueing an operation before the start comes to the same data as mutating after it. */
  lemma QueueThenStart<S(!new)>(
    lattice: Lattice<S>, roster: Roster, s: System<S>, p: Socket, op: Mutator<S>, member: Member, peers: set<Member>)
    requires lattice.Laws() && Inv(lattice, roster, s)
    requires Enabled(roster, s, Queue(p, op)) && Enabled(roster, s, Start(p, member, peers))
    ensures var queued := Next(lattice, roster, s, Queue(p, op));
            var started := Next(lattice, roster, s, Start(p, member, peers));
            && Enabled(roster, queued, Start(p, member, peers)) && Enabled(roster, started, Mutate(p, op))
            && DataOf(lattice, Next(lattice, roster, queued, Start(p, member, peers)), p)
               == DataOf(lattice, Next(lattice, roster, started, Mutate(p, op)), p)
  {
    var ops := s.nodes[p].ops;
    assert (ops + [op])[..|ops|] == ops;
    QueueIsMutations(lattice, ops + [op], member, peers);
    var started := Next(lattice, roster, s, Start(p, member, peers));
    StartKeepsInv(lattice, roster, s, p, member, peers);
    assert ReplicaOk(lattice, roster, started, p);
    var data := DataOf(lattice, started, p);
    assert lattice.Bounds(data) && lattice.Bounds(op(data)) && lattice.Commutes(data, lattice.minimum);
  }

  /** Starting makes a replica, and sends and schedules nothing. */
  lemma StartTakes<S(!new)>(
    lattice: Lattice<S>, roster: Roster, s: System<S>, p: Socket, member: Member, peers: set<Member>)
    requires Enabled(roster, s, Start(p, member, peers))
    ensures var t := Next(lattice, roster, s, Start(p, member, peers));
            && t.nodes == s.nodes[p := Active(Started(lattice, s.nodes[p].ops, member, peers))]
            && t.net == s.net && t.timers == s.timers && t.prefs == s.prefs
            && t.born == s.born + [(p, DataOf(lattice, t, p))]
  {
  }

  /** A mutation with an empty delta changes nothing. Any other joins, queues and counts its delta, sends what the
      preference selects and starts a timer. */
  lemma MutateTakes<S(!new)>(lattice: Lattice<S>, roster: Roster, s: System<S>, p: Socket, op: Mutator<S>)
    requires Inv(lattice, roster, s) && Enabled(roster, s, Mutate(p, op))
    ensures var t := Next(lattice, roster, s, Mutate(p, op));
            var r, d := s.nodes[p].replica, op(s.nodes[p].replica.data);
            && t.prefs == s.prefs && t.born == s.born + [(p, d)]
            && if lattice.empty(d) then t.nodes == s.nodes && t.net == s.net && t.timers == s.timers else
                 var r' := r.(data := lattice.join(r.data, d), clock := r.clock + 1, deltas := r.deltas + [d]);
                 && t.nodes == s.nodes[p := Active(r')]
                 && t.net == s.net + Dispersal(lattice, r', s.prefs[p]) && t.timers == s.timers + multiset{p}
  {
    assert ReplicaOk(lattice, roster, s, p);
    assert s.nodes == s.nodes[p := Active(s.nodes[p].replica)];
  }

  /** A delta of a known peer is answered with its own clock. What it brings is joined, queued, counted and passed
      on. */
  lemma DeltaTakes<S(!new)>(
    lattice: Lattice<S>, roster: Roster, s: System<S>, p: Socket, d: S, id: nat, clock: nat)
    requires Inv(lattice, roster, s) && Enabled(roster, s, Deliver(Packet(p, Delta(d, id, clock))))
    requires IsActive(s, p) && id in s.nodes[p].replica.acks
    ensures var t := Next(lattice, roster, s, Deliver(Packet(p, Delta(d, id, clock))));
            var r := s.nodes[p].replica;
            var answered := s.net + {Packet(r.acks[id].member.socket, Ack(r.member.id, clock))};
            && t.prefs == s.prefs && t.born == s.born
            && if lattice.join(r.data, d) == r.data then
                 t.nodes == s.nodes && t.net == answered && t.timers == s.timers
               else
                 var r' := r.(data := lattice.join(r.data, d), clock := r.clock + 1, deltas := r.deltas + [d]);
                 && t.nodes == s.nodes[p := Active(r')]
                 && t.net == answered + Dispersal(lattice, r', s.prefs[p]) && t.timers == s.timers + multiset{p}
  {
    assert ReplicaOk(lattice, roster, s, p);
    hide Inv, LogExplains, PeersOk, Dispersal;
    var r := s.nodes[p].replica;
    var r' := Causal.Received(lattice, r, d, id);
    var m := Moved(s, p, r', Reply(r, id, clock));
    assert r' != r <==> lattice.join(r.data, d) != r.data;
    assert m == s.(nodes := m.nodes, net := m.net, hist := m.hist) && m.nodes == s.nodes[p := Active(r')];
    assert m.net == s.net + {Packet(r.acks[id].member.socket, Ack(r.member.id, clock))};
    assert s.nodes == s.nodes[p := Active(r)];
    hide Moved, Reply, ReplicaOk;
  }

  /** An acknowledgement is filed when it is newer than the last, and nothing is sent. */
  lemma AckTakes<S(!new)>(lattice: Lattice<S>, roster: Roster, s: System<S>, p: Socket, id: nat, clock: nat)
    requires Inv(lattice, roster, s) && Enabled(roster, s, Deliver(Packet(p, Ack(id, clock)))) && IsActive(s, p)
    ensures var t := Next(lattice, roster, s, Deliver(Packet(p, Ack(id, clock))));
            var r := s.nodes[p].replica;
            && t == s.(nodes := t.nodes) && IsActive(t, p)
            && var r' := t.nodes[p].replica;
               && t.nodes == s.nodes[p := Active(r')]
               && r'.data == r.data && r'.clock == r.clock && r'.member == r.member
               && r'.acks == if id in r.acks && r.acks[id].count < clock
                             then r.acks[id := r.acks[id].(count := clock)] else r.acks
  {
    assert ReplicaOk(lattice, roster, s, p) && PacketOk(lattice, roster, s, Packet(p, Ack(id, clock)));
    AckedAlive(s.nodes[p].replica, id, clock);
    assert s.net + {} == s.net;
  }

  /** A timer that fires while some peer is behind leads to a dispersal and another timer; otherwise it is just gone. */
  lemma TimeoutWhileBehind<S(!new)>(lattice: Lattice<S>, roster: Roster, s: System<S>, p: Socket)
    requires Inv(lattice, roster, s) && Enabled(roster, s, Timeout(p)) && IsActive(s, p)
    ensures var r, t := s.nodes[p].replica, Next(lattice, roster, s, Timeout(p));
            if exists id :: id in r.acks && r.acks[id].count < r.clock then
              t.timers == s.timers && t == s.(net := s.net + Dispersal(lattice, r, s.prefs[p]))
            else
              t == s.(timers := s.timers - multiset{p})
  {
    assert ReplicaOk(lattice, roster, s, p);
    LowestAck(s.nodes[p].replica.acks);
  }

  /** A new preference is the one that the next dispersal goes by. */
  lemma NewPreferenceIsUsed<S(!new)>(lattice: Lattice<S>, roster: Roster, s: System<S>, p: Socket, pref: Preference)
    requires lattice.Laws() && Inv(lattice, roster, s) && IsActive(s, p)
    requires Enabled(roster, s, SetPreference(p, pref)) && Enabled(roster, s, Timeout(p))
    requires exists id :: id in s.nodes[p].replica.acks && s.nodes[p].replica.acks[id].count < s.nodes[p].replica.clock
    ensures var t := Next(lattice, roster, s, SetPreference(p, pref));
            && t == s.(prefs := s.prefs[p := pref]) && Enabled(roster, t, Timeout(p))
            && Next(lattice, roster, t, Timeout(p)).net == s.net + Dispersal(lattice, s.nodes[p].replica, pref)
  {
    var t := Next(lattice, roster, s, SetPreference(p, pref));
    SameButTimers(lattice, roster, s, t, p);
    TimeoutWhileBehind(lattice, roster, t, p);
  }

  /** An update applies its events to that replica, and sends something only if a peer came or went. */
  lemma UpdateTakes<S(!new)>(lattice: Lattice<S>, roster: Roster, s: System<S>, p: Socket, events: seq<ClusterEvent>)
    requires lattice.Laws() && Inv(lattice, roster, s) && Enabled(roster, s, Update(p, events))
    ensures var r := UpdatedAll(s.nodes[p].replica, events);
            var t := Next(lattice, roster, s, Update(p, events));
            && t.nodes == s.nodes[p := Active(r)] && t.prefs == s.prefs && t.hist == s.hist && t.born == s.born
            && if AnyChangesPeers(s.nodes[p].replica, events) then
                 t.net == s.net + Dispersal(lattice, r, s.prefs[p]) && t.timers == s.timers + multiset{p}
               else
                 t.net == s.net && t.timers == s.timers
  {
    assert ReplicaOk(lattice, roster, s, p);
    UpdatesKeepPeersOk(lattice, roster, s, p, s.nodes[p].replica, events);
  }

  /** The processes of `group` know each other and have acknowledged each other's latest clock. */
  ghost predicate Settled<S(!new)>(s: System<S>, group: set<Socket>) {
    forall p, q :: p in group && q in group && p != q ==>
      && IsActive(s, p) && IsActive(s, q)
      && var id := s.nodes[q].replica.member.id;
         id in s.nodes[p].replica.acks && s.nodes[p].replica.acks[id].count == s.nodes[p].replica.clock
  }

  /** Convergence: in every reachable state, settled processes hold the same data. */
  lemma SettledAgree<S(!new)>(
    lattice: Lattice<S>, roster: Roster, s: System<S>, group: set<Socket>, p: Socket, q: Socket)
    requires lattice.Laws() && Reachable(lattice, roster, s)
    requires Settled(s, group) && p in group && q in group
    ensures DataOf(lattice, s, p) == DataOf(lattice, s, q)
  {
    ReachableInv(lattice, roster, s);
    if p != q {
      SettledBelow(lattice, roster, s, group, p, q);
      SettledBelow(lattice, roster, s, group, q, p);
      lattice.LeAntisymmetric(DataOf(lattice, s, p), DataOf(lattice, s, q));
    }
  }

  lemma SettledBelow<S(!new)>(
    lattice: Lattice<S>, roster: Roster, s: System<S>, group: set<Socket>, p: Socket, q: Socket)
    requires lattice.Laws() && Inv(lattice, roster, s)
    requires Settled(s, group) && p in group && q in group && p != q
    ensures lattice.Le(DataOf(lattice, s, p), DataOf(lattice, s, q))
  {
  }

  /** Nothing is lost and nothing is invented: when all the deltas were produced by settled processes,
      the data they share is exactly the join of those deltas, in whatever order they came about. */
  lemma SettledIsTotal<S(!new)>(
    lattice: Lattice<S>, roster: Roster, s: System<S>, group: set<Socket>, p: Socket)
    requires lattice.Laws() && Reachable(lattice, roster, s)
    requires Settled(s, group) && p in group && IsActive(s, p)
    requires forall b :: b in s.born ==> b.0 in group
    ensures DataOf(lattice, s, p) == Total(lattice, s)
  {
    ReachableInv(lattice, roster, s);
    var ds := Deltas(s.born);
    forall i | 0 <= i < |ds| ensures lattice.Le(ds[i], DataOf(lattice, s, p)) {
      assert s.born[i] in s.born;
      SettledAgree(lattice, roster, s, group, p, s.born[i].0);
    }
    lattice.JoinAllIsLeast(ds, DataOf(lattice, s, p));
    assert ReplicaOk(lattice, roster, s, p);
    lattice.LeAntisymmetric(DataOf(lattice, s, p), Total(lattice, s));
  }
}
