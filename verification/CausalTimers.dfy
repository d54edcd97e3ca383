/** Timers: a process that is behind has one pending, except one that started with queued operations and has had no
    reason to disperse since. */
module CausalTimers {
  import opened Causal
  import opened CausalNet
  import opened CausalProgress
  import opened Lattices
  import opened Members

  /** Turned from waiting to active with an initial delta, which it has sent to nobody. */
  ghost predicate JustStarted<S(!new)>(roster: Roster, s: System<S>, p: Socket)
    requires IsActive(s, p)
  {
    var r := ReplicaOf(s, p);
    && r.clock == 1 && (forall id | id in r.acks :: r.acks[id].count == 0)
    && forall packet | packet in s.net :: Unrelated(roster, p, packet)
  }

  /** Neither an acknowledgement for `p` nor a delta from it. */
  predicate Unrelated<S>(roster: Roster, p: Socket, packet: Packet<S>) {
    match packet.payload
    case Ack(_, _) => packet.to != p
    case Delta(_, id, _) => !FromProcess(roster, p, id)
  }

  ghost predicate TimerOk<S(!new)>(roster: Roster, s: System<S>, p: Socket)
    requires IsActive(s, p)
  {
    Prompted(s, p) || JustStarted(roster, s, p)
  }

  ghost predicate TimersOk<S(!new)>(roster: Roster, s: System<S>) {
    forall p | IsActive(s, p) :: TimerOk(roster, s, p)
  }

  /** Only `x` moves, may use up a timer of its own, and sends deltas of its own or answers. */
  ghost predicate ActsAlone<S(!new)>(roster: Roster, s: System<S>, t: System<S>, x: Socket) {
    && (forall p | p != x && IsActive(t, p) :: IsActive(s, p) && t.nodes[p] == s.nodes[p])
    && (forall p | p != x && p in s.timers :: p in t.timers)
    && forall packet | packet in t.net ::
         || packet in s.net
         || (packet.payload.Delta? && FromProcess(roster, x, packet.payload.id))
         || (IsActive(s, x) && IsReply(s, x, packet))
  }

  lemma OthersKeepTimers<S(!new)>(
    lattice: Lattice<S>, roster: Roster, s: System<S>, t: System<S>, x: Socket, p: Socket)
    requires Inv(lattice, roster, s) && TimersOk(roster, s) && ActsAlone(roster, s, t, x)
    requires p != x && IsActive(t, p)
    ensures TimerOk(roster, t, p)
  {
    assert TimerOk(roster, s, p);
    if JustStarted(roster, s, p) {
      forall packet | packet in t.net
        ensures Unrelated(roster, p, packet)
      {
        if IsActive(s, x) && IsReply(s, x, packet) {
          ReplyIsUnrelated(lattice, roster, s, x, p, packet);
        }
      }
    }
  }

  lemma ReplyIsUnrelated<S(!new)>(
    lattice: Lattice<S>, roster: Roster, s: System<S>, x: Socket, p: Socket, packet: Packet<S>)
    requires Inv(lattice, roster, s) && IsActive(s, x) && IsReply(s, x, packet)
    requires forall packet | packet in s.net :: Unrelated(roster, p, packet)
    ensures Unrelated(roster, p, packet)
  {
    assert ReplicaOk(lattice, roster, s, x);
    var d, id, clock :| Packet(x, Delta(d, id, clock)) in s.net && packet in Reply(ReplicaOf(s, x), id, clock);
    assert Unrelated(roster, p, Packet(x, Delta(d, id, clock)));
    assert Listed(roster, ReplicaOf(s, x).acks[id].member);
  }

  lemma DispersedActs<S(!new)>(
    lattice: Lattice<S>, roster: Roster, s: System<S>, m: System<S>, x: Socket)
    requires ActsAlone(roster, s, m, x) && IsActive(m, x) && FromProcess(roster, x, IdOf(m, x))
    requires x in m.prefs && PriorityKnown(ReplicaOf(m, x), m.prefs[x])
    ensures ActsAlone(roster, s, Dispersed(lattice, m, x), x)
    ensures x in Dispersed(lattice, m, x).timers
  {
  }

  lemma {:induction false} QuietUpdates<S>(r: Replica<S>, events: seq<ClusterEvent>)
    requires AllExpected(r, events) && !AnyChangesPeers(r, events)
    ensures UpdatedAll(r, events).acks == r.acks && UpdatedAll(r, events).clock == r.clock
    decreases |events|
  {
    if events != [] {
      QuietUpdates(Updated(r, events[0]), events[1..]);
    }
  }

  /** The process itself: unchanged but for its member, it is as prompted as before. */
  lemma SameKeepsTimer<S(!new)>(lattice: Lattice<S>, roster: Roster, s: System<S>, t: System<S>, x: Socket)
    requires Inv(lattice, roster, s) && TimersOk(roster, s) && ActsAlone(roster, s, t, x)
    requires IsActive(s, x) && IsActive(t, x) && (x in s.timers ==> x in t.timers)
    requires ReplicaOf(t, x).acks == ReplicaOf(s, x).acks && ReplicaOf(t, x).clock == ReplicaOf(s, x).clock
    requires forall packet | packet in t.net :: packet in s.net || IsReply(s, x, packet)
    ensures TimerOk(roster, t, x)
  {
    assert TimerOk(roster, s, x);
    if JustStarted(roster, s, x) {
      forall packet | packet in t.net
        ensures Unrelated(roster, x, packet)
      {
        if IsReply(s, x, packet) {
          ReplyIsUnrelated(lattice, roster, s, x, x, packet);
        }
      }
    }
  }

  lemma OwnId<S(!new)>(lattice: Lattice<S>, roster: Roster, s: System<S>, x: Socket)
    requires Inv(lattice, roster, s) && IsActive(s, x)
    ensures FromProcess(roster, x, IdOf(s, x)) && x in s.prefs && ReplicaOf(s, x).Ok()
    ensures PriorityKnown(ReplicaOf(s, x), s.prefs[x])
  {
    assert ReplicaOk(lattice, roster, s, x);
  }

  lemma StartKeepsTimers<S(!new)>(
    lattice: Lattice<S>, roster: Roster, s: System<S>, x: Socket, member: Member, peers: set<Member>)
    requires Inv(lattice, roster, s) && TimersOk(roster, s) && Enabled(roster, s, Start(x, member, peers))
    ensures TimersOk(roster, Next(lattice, roster, s, Start(x, member, peers)))
  {
    var t := Next(lattice, roster, s, Start(x, member, peers));
    forall packet | packet in s.net
      ensures Unrelated(roster, x, packet)
    {
      assert PacketOk(lattice, roster, s, packet);
    }
    forall p | IsActive(t, p)
      ensures TimerOk(roster, t, p)
    {
      if p != x {
        OthersKeepTimers(lattice, roster, s, t, x, p);
      }
    }
  }

  lemma MutateKeepsTimers<S(!new)>(lattice: Lattice<S>, roster: Roster, s: System<S>, x: Socket, op: Mutator<S>)
    requires Inv(lattice, roster, s) && TimersOk(roster, s) && IsActive(s, x)
    requires Enabled(roster, s, Mutate(x, op))
    ensures TimersOk(roster, Next(lattice, roster, s, Mutate(x, op)))
  {
    var r := ReplicaOf(s, x);
    var m := Moved(s, x, Mutated(lattice, r, op), {}).(born := s.born + [(x, op(r.data))]);
    OwnId(lattice, roster, s, x);
    MoverKeepsTimers(lattice, roster, s, m, x, !lattice.empty(op(r.data)));
  }

  /** What the handlers have in common: the process moves, and disperses unless nothing concerning its peers changed. */
  lemma MoverKeepsTimers<S(!new)>(
    lattice: Lattice<S>, roster: Roster, s: System<S>, m: System<S>, x: Socket, disperses: bool)
    requires Inv(lattice, roster, s) && TimersOk(roster, s) && ActsAlone(roster, s, m, x)
    requires IsActive(s, x) && IsActive(m, x) && (x in s.timers ==> disperses || x in m.timers)
    requires FromProcess(roster, x, IdOf(m, x))
    requires x in m.prefs && PriorityKnown(ReplicaOf(m, x), m.prefs[x])
    requires !disperses ==>
               && ReplicaOf(m, x).acks == ReplicaOf(s, x).acks && ReplicaOf(m, x).clock == ReplicaOf(s, x).clock
               && forall packet | packet in m.net :: packet in s.net || IsReply(s, x, packet)
    ensures TimersOk(roster, if disperses then Dispersed(lattice, m, x) else m)
  {
    var t := if disperses then Dispersed(lattice, m, x) else m;
    DispersedActs(lattice, roster, s, m, x);
    forall p | IsActive(t, p)
      ensures TimerOk(roster, t, p)
    {
      if p != x {
        OthersKeepTimers(lattice, roster, s, t, x, p);
      } else if !disperses {
        SameKeepsTimer(lattice, roster, s, t, x);
      }
    }
  }

  lemma DeltaKeepsTimers<S(!new)>(
    lattice: Lattice<S>, roster: Roster, s: System<S>, x: Socket, d: S, id: nat, clock: nat)
    requires Inv(lattice, roster, s) && TimersOk(roster, s) && IsActive(s, x)
    requires Packet(x, Delta(d, id, clock)) in s.net
    ensures TimersOk(roster, CausalNet.Received(lattice, s, Packet(x, Delta(d, id, clock))))
  {
    var r := ReplicaOf(s, x);
    var r' := Causal.Received(lattice, r, d, id);
    var m := Moved(s, x, r', Reply(r, id, clock));
    OwnId(lattice, roster, s, x);
    assert forall packet | packet in Reply(r, id, clock) :: IsReply(s, x, packet);
    hide Inv, Dispersed, TimersOk, Reply;
    MoverKeepsTimers(lattice, roster, s, m, x, r' != r);
  }

  lemma AckKeepsTimers<S(!new)>(
    lattice: Lattice<S>, roster: Roster, s: System<S>, x: Socket, id: nat, clock: nat)
    requires Inv(lattice, roster, s) && TimersOk(roster, s) && IsActive(s, x)
    requires Packet(x, Ack(id, clock)) in s.net
    ensures TimersOk(roster, CausalNet.Received(lattice, s, Packet(x, Ack(id, clock))))
  {
    var t := CausalNet.Received(lattice, s, Packet(x, Ack(id, clock)));
    AckMovesNothingElse(lattice, roster, s, x, id, clock);
    forall p | IsActive(t, p)
      ensures TimerOk(roster, t, p)
    {
      if p != x {
        OthersKeepTimers(lattice, roster, s, t, x, p);
      } else {
        assert TimerOk(roster, s, x);
        assert JustStarted(roster, s, x) ==> Unrelated<S>(roster, x, Packet(x, Ack(id, clock)));
      }
    }
  }

  lemma AckMovesNothingElse<S(!new)>(
    lattice: Lattice<S>, roster: Roster, s: System<S>, x: Socket, id: nat, clock: nat)
    requires Inv(lattice, roster, s) && IsActive(s, x)
    requires Packet(x, Ack(id, clock)) in s.net
    ensures var t := CausalNet.Received(lattice, s, Packet(x, Ack(id, clock)));
            && ActsAlone(roster, s, t, x) && IsActive(t, x) && t.timers == s.timers && t.net == s.net
            && ((forall i | i in ReplicaOf(s, x).acks :: ReplicaOf(s, x).acks[i].count == ReplicaOf(s, x).clock) ==>
                  ReplicaOf(t, x) == ReplicaOf(s, x))
  {
    assert ReplicaOk(lattice, roster, s, x) && PacketOk(lattice, roster, s, Packet(x, Ack(id, clock)));
    AckedAlive(ReplicaOf(s, x), id, clock);
  }

  lemma UpdateKeepsTimers<S(!new)>(
    lattice: Lattice<S>, roster: Roster, s: System<S>, x: Socket, events: seq<ClusterEvent>)
    requires lattice.Laws() && Inv(lattice, roster, s) && TimersOk(roster, s)
    requires Enabled(roster, s, Update(x, events))
    ensures TimersOk(roster, Next(lattice, roster, s, Update(x, events)))
  {
    assert ReplicaOk(lattice, roster, s, x);
    var r := ReplicaOf(s, x);
    UpdatesKeepPeersOk(lattice, roster, s, x, r, events);
    var m := Moved(s, x, UpdatedAll(r, events), {});
    if !AnyChangesPeers(r, events) {
      QuietUpdates(r, events);
    }
    hide Inv, ReplicaOk, Dispersed, TimersOk;
    MoverKeepsTimers(lattice, roster, s, m, x, AnyChangesPeers(r, events));
  }

  lemma TimeoutKeepsTimers<S(!new)>(lattice: Lattice<S>, roster: Roster, s: System<S>, x: Socket)
    requires Inv(lattice, roster, s) && TimersOk(roster, s)
    requires Enabled(roster, s, Timeout(x))
    ensures TimersOk(roster, Next(lattice, roster, s, Timeout(x)))
  {
    var m := s.(timers := s.timers - multiset{x});
    var t := Next(lattice, roster, s, Timeout(x));
    if IsActive(s, x) {
      OwnId(lattice, roster, s, x);
      LowestAck(ReplicaOf(s, x).acks);
      DispersedActs(lattice, roster, s, m, x);
    }
    hide Dispersed;
    forall p | IsActive(t, p)
      ensures TimerOk(roster, t, p)
    {
      if p != x {
        OthersKeepTimers(lattice, roster, s, t, x, p);
      }
    }
  }

  lemma UntouchedKeepsTimer<S(!new)>(roster: Roster, s: System<S>, t: System<S>, p: Socket)
    requires IsActive(s, p) && IsActive(t, p) && t.nodes[p] == s.nodes[p] && t.net == s.net && t.timers == s.timers
    requires TimersOk(roster, s)
    ensures TimerOk(roster, t, p)
  {
    assert TimerOk(roster, s, p) && ReplicaOf(t, p) == ReplicaOf(s, p);
  }

  lemma StepKeepsTimers<S(!new)>(lattice: Lattice<S>, roster: Roster, s: System<S>, step: Step<S>)
    requires lattice.Laws() && Inv(lattice, roster, s) && TimersOk(roster, s)
    requires Enabled(roster, s, step)
    ensures TimersOk(roster, Next(lattice, roster, s, step))
  {
    match step {
      case Start(x, member, peers) => StartKeepsTimers(lattice, roster, s, x, member, peers);
      case Mutate(x, op) => MutateKeepsTimers(lattice, roster, s, x, op);
      case Timeout(x) => TimeoutKeepsTimers(lattice, roster, s, x);
      case Update(x, events) => UpdateKeepsTimers(lattice, roster, s, x, events);
      case Deliver(packet) =>
        if IsActive(s, packet.to) {
          match packet.payload {
            case Delta(d, id, clock) => DeltaKeepsTimers(lattice, roster, s, packet.to, d, id, clock);
            case Ack(id, clock) => AckKeepsTimers(lattice, roster, s, packet.to, id, clock);
          }
        }
      case _ =>
        hide Inv;
        var t := Next(lattice, roster, s, step);
        forall p | IsActive(t, p)
          ensures TimerOk(roster, t, p)
        {
          UntouchedKeepsTimer(roster, s, t, p);
        }
    }
  }

  lemma {:induction false} RunKeepsTimers<S(!new)>(
    lattice: Lattice<S>, roster: Roster, s: System<S>, steps: seq<Step<S>>, t: System<S>)
    requires lattice.Laws() && Inv(lattice, roster, s) && TimersOk(roster, s) && Reaches(lattice, roster, s, steps, t)
    ensures TimersOk(roster, t)
    decreases |steps|
  {
    if steps != [] {
      StepKeepsInv(lattice, roster, s, steps[0]);
      StepKeepsTimers(lattice, roster, s, steps[0]);
      RunKeepsTimers(lattice, roster, Next(lattice, roster, s, steps[0]), steps[1..], t);
    }
  }

  /** In every reachable state, a process with a peer that is behind has a timer pending, unless it only just started
      with queued operations and nobody has heard of them. */
  lemma TimersKeepRunning<S(!new)>(lattice: Lattice<S>, roster: Roster, s: System<S>, p: Socket)
    requires lattice.Laws() && Reachable(lattice, roster, s) && IsActive(s, p)
    ensures Prompted(s, p) || JustStarted(roster, s, p)
  {
    var prefs, steps :| Reaches(lattice, roster, Initial(prefs), steps, s);
    RunKeepsTimers(lattice, roster, Initial(prefs), steps, s);
    assert TimerOk(roster, s, p);
  }

  // ----- when the group has nothing to teach -----

  /** None of `some` has a timer or anyone to hear of it, and nothing elsewhere would be new to any of them. */
  ghost predicate Untaught<S(!new)>(lattice: Lattice<S>, roster: Roster, s: System<S>, some: set<Socket>) {
    forall p | p in some :: UntaughtOne(lattice, roster, s, some, p)
  }

  ghost predicate UntaughtOne<S(!new)>(
    lattice: Lattice<S>, roster: Roster, s: System<S>, some: set<Socket>, p: Socket)
  {
    && IsActive(s, p) && p !in s.timers && JustStarted(roster, s, p)
    && (forall x | IsActive(s, x) && x !in some :: lattice.Le(DataOf(lattice, s, x), DataOf(lattice, s, p)))
    && (forall packet | packet in s.net && packet.payload.Delta? ::
          lattice.Le(packet.payload.delta, DataOf(lattice, s, p)))
  }

  lemma OutdatedBelow<S(!new)>(lattice: Lattice<S>, r: Replica<S>, h: seq<S>, peer: Peer)
    requires lattice.Laws() && LogExplains(lattice, r, h) && peer.count <= r.clock
    ensures lattice.Le(Outdated(lattice, r, peer).payload.delta, r.data)
  {
    HistoryGrows(lattice, r, h, peer.count, r.clock);
    OutdatedSuffices(lattice, r, h, peer, r.data);
  }

  lemma DispersalBelow<S(!new)>(lattice: Lattice<S>, roster: Roster, s: System<S>, x: Socket, pref: Preference)
    requires lattice.Laws() && Inv(lattice, roster, s) && IsActive(s, x)
    ensures forall packet | packet in Dispersal(lattice, ReplicaOf(s, x), pref) ::
              packet.payload.Delta? && lattice.Le(packet.payload.delta, DataOf(lattice, s, x))
  {
    assert ReplicaOk(lattice, roster, s, x);
    var r := ReplicaOf(s, x);
    forall packet | packet in Dispersal(lattice, r, pref)
      ensures packet.payload.Delta? && lattice.Le(packet.payload.delta, DataOf(lattice, s, x))
    {
      var id :| id in r.acks && r.acks[id].count < r.clock && packet == Outdated(lattice, r, r.acks[id]);
      OutdatedBelow(lattice, r, s.hist[x], r.acks[id]);
    }
  }

  /** A process outside moves without learning or sending anything new. */
  lemma UntaughtAfter<S(!new)>(
    lattice: Lattice<S>, roster: Roster, s: System<S>, t: System<S>, some: set<Socket>, x: Socket, p: Socket)
    requires Inv(lattice, roster, s) && Untaught(lattice, roster, s, some) && p in some
    requires ActsAlone(roster, s, t, x) && x !in some && IsActive(t, p)
    requires forall y | y in some :: y !in t.timers
    requires IsActive(t, x) ==> lattice.Le(DataOf(lattice, t, x), DataOf(lattice, s, p))
    requires forall packet | packet in t.net && packet.payload.Delta? ::
               packet in s.net || lattice.Le(packet.payload.delta, DataOf(lattice, s, p))
    ensures UntaughtOne(lattice, roster, t, some, p)
  {
    assert UntaughtOne(lattice, roster, s, some, p);
    forall packet | packet in t.net
      ensures Unrelated(roster, p, packet)
    {
      if IsActive(s, x) && IsReply(s, x, packet) {
        ReplyIsUnrelated(lattice, roster, s, x, p, packet);
      }
    }
  }

  /** A process outside acts, and perhaps disperses. */
  lemma OutsiderTeachesNobody<S(!new)>(
    lattice: Lattice<S>, roster: Roster, s: System<S>, m: System<S>, x: Socket, disperses: bool, some: set<Socket>)
    requires lattice.Laws() && Inv(lattice, roster, s) && Inv(lattice, roster, m)
    requires Untaught(lattice, roster, s, some) && x !in some && ActsAlone(roster, s, m, x)
    requires disperses ==> IsActive(m, x)
    requires forall y | y in some :: y !in m.timers && IsActive(m, y)
    requires forall p | p in some && IsActive(m, x) :: lattice.Le(DataOf(lattice, m, x), DataOf(lattice, s, p))
    requires forall packet | packet in m.net && packet.payload.Delta? :: packet in s.net
    ensures Untaught(lattice, roster, if disperses then Dispersed(lattice, m, x) else m, some)
  {
    var t := if disperses then Dispersed(lattice, m, x) else m;
    if disperses {
      OwnId(lattice, roster, m, x);
      DispersalBelow(lattice, roster, m, x, m.prefs[x]);
      DispersedActs(lattice, roster, s, m, x);
    }
    hide Inv, Dispersal, Untaught, ActsAlone, UntaughtOne;
    forall p | p in some
      ensures UntaughtOne(lattice, roster, t, some, p)
    {
      forall packet | packet in t.net && packet.payload.Delta?
        ensures packet in s.net || lattice.Le(packet.payload.delta, DataOf(lattice, s, p))
      {
        if packet !in m.net {
          lattice.LeTransitive(packet.payload.delta, DataOf(lattice, m, x), DataOf(lattice, s, p));
        }
      }
      UntaughtAfter(lattice, roster, s, t, some, x, p);
    }
    AllUntaught(lattice, roster, t, some);
  }

  lemma AllUntaught<S(!new)>(lattice: Lattice<S>, roster: Roster, s: System<S>, some: set<Socket>)
    requires forall p | p in some :: UntaughtOne(lattice, roster, s, some, p)
    ensures Untaught(lattice, roster, s, some)
  {
  }

  lemma UntaughtMeans<S(!new)>(
    lattice: Lattice<S>, roster: Roster, s: System<S>, some: set<Socket>, x: Socket)
    requires Untaught(lattice, roster, s, some)
    ensures forall y | y in some :: IsActive(s, y) && y !in s.timers && JustStarted(roster, s, y)
    ensures forall p | p in some && IsActive(s, x) && x !in some ::
              lattice.Le(DataOf(lattice, s, x), DataOf(lattice, s, p))
    ensures forall p, packet | p in some && packet in s.net && packet.payload.Delta? ::
              lattice.Le(packet.payload.delta, DataOf(lattice, s, p))
  {
    assert forall y | y in some :: UntaughtOne(lattice, roster, s, some, y);
  }

  lemma TimeoutTeachesNobody<S(!new)>(
    lattice: Lattice<S>, roster: Roster, s: System<S>, x: Socket, some: set<Socket>)
    requires lattice.Laws() && Inv(lattice, roster, s) && Untaught(lattice, roster, s, some)
    requires Enabled(roster, s, Timeout(x))
    ensures Untaught(lattice, roster, Next(lattice, roster, s, Timeout(x)), some)
  {
    var m := s.(timers := s.timers - multiset{x});
    UntaughtMeans(lattice, roster, s, some, x);
    if IsActive(s, x) {
      OwnId(lattice, roster, s, x);
    }
    SameButTimers(lattice, roster, s, m, x);
    hide Inv, Dispersed, Untaught, Lattice.Laws;
    OutsiderTeachesNobody(lattice, roster, s, m, x, TimerDisperses(m, x), some);
  }

  lemma OldNews<S(!new)>(lattice: Lattice<S>, r: Replica<S>, d: S, id: nat)
    requires lattice.Laws() && lattice.Le(d, r.data)
    ensures Causal.Received(lattice, r, d, id) == r
  {
    assert lattice.Commutes(r.data, d);
  }

  /** A member of `some` learns nothing and only answers. */
  lemma OldDelta<S(!new)>(
    lattice: Lattice<S>, roster: Roster, s: System<S>, x: Socket, d: S, id: nat, clock: nat, some: set<Socket>)
    requires lattice.Laws() && Inv(lattice, roster, s) && Untaught(lattice, roster, s, some) && x in some
    requires IsActive(s, x) && Packet(x, Delta(d, id, clock)) in s.net
    ensures Untaught(lattice, roster, CausalNet.Received(lattice, s, Packet(x, Delta(d, id, clock))), some)
  {
    UntaughtMeans(lattice, roster, s, some, x);
    OldNews(lattice, ReplicaOf(s, x), d, id);
    OnlyReplies(lattice, roster, s, x, d, id, clock);
    var m := Moved(s, x, ReplicaOf(s, x), Reply(ReplicaOf(s, x), id, clock));
    hide Inv, Dispersed, Untaught, Reply, IsReply, Moved, ActsAlone, JustStarted, Lattice.Laws, Causal.Received;
    NewsForNobody(lattice, roster, s, m, x, some);
  }

  lemma DeltaParts<S(!new)>(lattice: Lattice<S>, s: System<S>, x: Socket, d: S, id: nat, clock: nat)
    requires IsActive(s, x)
    ensures var r := ReplicaOf(s, x);
            var r' := Causal.Received(lattice, r, d, id);
            var m := Moved(s, x, r', Reply(r, id, clock));
            CausalNet.Received(lattice, s, Packet(x, Delta(d, id, clock)))
              == if r' != r then Dispersed(lattice, m, x) else m
  {
  }

  /** Anyone else learns nothing that would be new to them. */
  lemma OutsideJoin<S(!new)>(
    lattice: Lattice<S>, roster: Roster, s: System<S>, m: System<S>, x: Socket, d: S, id: nat, clock: nat,
    some: set<Socket>)
    requires lattice.Laws() && Inv(lattice, roster, s) && Untaught(lattice, roster, s, some) && x !in some
    requires IsActive(s, x) && Packet(x, Delta(d, id, clock)) in s.net
    requires m == Moved(s, x, Causal.Received(lattice, ReplicaOf(s, x), d, id), Reply(ReplicaOf(s, x), id, clock))
    ensures Inv(lattice, roster, m) && ActsAlone(roster, s, m, x) && IsActive(m, x)
    ensures forall y | y in some :: y !in m.timers && IsActive(m, y)
    ensures forall p | p in some :: lattice.Le(DataOf(lattice, m, x), DataOf(lattice, s, p))
    ensures forall packet | packet in m.net && packet.payload.Delta? :: packet in s.net
  {
    hide Inv, Untaught, Reply, IsReply, Moved, ActsAlone, JustStarted, Lattice.Laws, Causal.Received, Lattice.Le;
    UntaughtMeans(lattice, roster, s, some, x);
    JoinKeepsInv(lattice, roster, s, x, d, id, clock);
    OnlyReplies(lattice, roster, s, x, d, id, clock);
    LearnsNothing(lattice, s, x, d, id, some);
  }

  lemma OutsideDelta<S(!new)>(
    lattice: Lattice<S>, roster: Roster, s: System<S>, x: Socket, d: S, id: nat, clock: nat, some: set<Socket>)
    requires lattice.Laws() && Inv(lattice, roster, s) && Untaught(lattice, roster, s, some) && x !in some
    requires IsActive(s, x) && Packet(x, Delta(d, id, clock)) in s.net
    ensures Untaught(lattice, roster, CausalNet.Received(lattice, s, Packet(x, Delta(d, id, clock))), some)
  {
    DeltaParts(lattice, s, x, d, id, clock);
    var r' := Causal.Received(lattice, ReplicaOf(s, x), d, id);
    var m := Moved(s, x, r', Reply(ReplicaOf(s, x), id, clock));
    hide *;
    OutsideJoin(lattice, roster, s, m, x, d, id, clock, some);
    OutsiderTeachesNobody(lattice, roster, s, m, x, r' != ReplicaOf(s, x), some);
  }

  lemma DeltaTeachesNobody<S(!new)>(
    lattice: Lattice<S>, roster: Roster, s: System<S>, x: Socket, d: S, id: nat, clock: nat, some: set<Socket>)
    requires lattice.Laws() && Inv(lattice, roster, s) && Untaught(lattice, roster, s, some)
    requires IsActive(s, x) && Packet(x, Delta(d, id, clock)) in s.net
    ensures Untaught(lattice, roster, CausalNet.Received(lattice, s, Packet(x, Delta(d, id, clock))), some)
  {
    hide *;
    if x in some {
      OldDelta(lattice, roster, s, x, d, id, clock, some);
    } else {
      OutsideDelta(lattice, roster, s, x, d, id, clock, some);
    }
  }

  lemma RepliesAreReplies<S(!new)>(s: System<S>, x: Socket, d: S, id: nat, clock: nat)
    requires IsActive(s, x) && Packet(x, Delta(d, id, clock)) in s.net
    ensures forall packet | packet in Reply(ReplicaOf(s, x), id, clock) ::
              packet.payload.Ack? && IsReply(s, x, packet)
  {
  }

  lemma OnlyReplies<S(!new)>(
    lattice: Lattice<S>, roster: Roster, s: System<S>, x: Socket, d: S, id: nat, clock: nat)
    requires Inv(lattice, roster, s) && IsActive(s, x) && Packet(x, Delta(d, id, clock)) in s.net
    ensures var r' := Causal.Received(lattice, ReplicaOf(s, x), d, id);
            var m := Moved(s, x, r', Reply(ReplicaOf(s, x), id, clock));
            && ActsAlone(roster, s, m, x) && m.timers == s.timers && m.nodes == s.nodes[x := Active(r')]
            && (r' == ReplicaOf(s, x) ==> m.nodes == s.nodes)
            && DataOf(lattice, m, x) == r'.data
            && forall packet | packet in m.net :: packet in s.net || (packet.payload.Ack? && IsReply(s, x, packet))
  {
    hide Inv, Causal.Received, HistoryOf, FromProcess;
    RepliesAreReplies(s, x, d, id, clock);
    hide IsReply, Reply;
  }

  lemma LearnsNothing<S(!new)>(
    lattice: Lattice<S>, s: System<S>, x: Socket, d: S, id: nat, some: set<Socket>)
    requires lattice.Laws() && IsActive(s, x)
    requires forall p | p in some :: lattice.Le(DataOf(lattice, s, x), DataOf(lattice, s, p))
    requires forall p | p in some :: lattice.Le(d, DataOf(lattice, s, p))
    ensures forall p | p in some ::
              lattice.Le(Causal.Received(lattice, ReplicaOf(s, x), d, id).data, DataOf(lattice, s, p))
  {
    forall p | p in some
      ensures lattice.Le(Causal.Received(lattice, ReplicaOf(s, x), d, id).data, DataOf(lattice, s, p))
    {
      lattice.JoinIsLeast(ReplicaOf(s, x).data, d, DataOf(lattice, s, p));
    }
  }

  /** One of them takes a delta that is not news, and only answers. */
  lemma NewsForNobody<S(!new)>(
    lattice: Lattice<S>, roster: Roster, s: System<S>, t: System<S>, x: Socket, some: set<Socket>)
    requires Inv(lattice, roster, s) && Untaught(lattice, roster, s, some) && IsActive(s, x)
    requires t.nodes == s.nodes && t.timers == s.timers
    requires forall packet | packet in t.net :: packet in s.net || (packet.payload.Ack? && IsReply(s, x, packet))
    ensures Untaught(lattice, roster, t, some)
  {
    forall p | p in some
      ensures UntaughtOne(lattice, roster, t, some, p)
    {
      assert UntaughtOne(lattice, roster, s, some, p) && ReplicaOf(t, p) == ReplicaOf(s, p);
      forall packet | packet in t.net
        ensures Unrelated(roster, p, packet)
      {
        if packet !in s.net {
          ReplyIsUnrelated(lattice, roster, s, x, p, packet);
        }
      }
    }
  }

  lemma AckTeachesNobody<S(!new)>(
    lattice: Lattice<S>, roster: Roster, s: System<S>, x: Socket, id: nat, clock: nat, some: set<Socket>)
    requires lattice.Laws() && Inv(lattice, roster, s) && Untaught(lattice, roster, s, some)
    requires IsActive(s, x) && Packet(x, Ack(id, clock)) in s.net
    requires Inv(lattice, roster, CausalNet.Received(lattice, s, Packet(x, Ack(id, clock))))
    ensures Untaught(lattice, roster, CausalNet.Received(lattice, s, Packet(x, Ack(id, clock))), some)
  {
    var t := CausalNet.Received(lattice, s, Packet(x, Ack(id, clock)));
    UntaughtMeans(lattice, roster, s, some, x);
    AckMovesNothingElse(lattice, roster, s, x, id, clock);
    AckLeavesData(lattice, roster, s, x, id, clock);
    assert x in some ==> Unrelated<S>(roster, x, Packet(x, Ack(id, clock)));
    hide Inv, Untaught, Lattice.Laws, CausalNet.Received, JustStarted;
    OutsiderTeachesNobody(lattice, roster, s, t, x, false, some);
  }

  lemma AckLeavesData<S(!new)>(
    lattice: Lattice<S>, roster: Roster, s: System<S>, x: Socket, id: nat, clock: nat)
    requires Inv(lattice, roster, s) && IsActive(s, x) && Packet(x, Ack(id, clock)) in s.net
    ensures DataOf(lattice, CausalNet.Received(lattice, s, Packet(x, Ack(id, clock))), x) == DataOf(lattice, s, x)
  {
    assert ReplicaOk(lattice, roster, s, x) && PacketOk(lattice, roster, s, Packet(x, Ack(id, clock)));
    AckedAlive(ReplicaOf(s, x), id, clock);
  }

  lemma StaysUntaught<S(!new)>(
    lattice: Lattice<S>, roster: Roster, s: System<S>, step: Step<S>, some: set<Socket>)
    requires lattice.Laws() && Inv(lattice, roster, s) && Untaught(lattice, roster, s, some)
    requires Enabled(roster, s, step) && (step.Timeout? || step.Deliver?)
    ensures Untaught(lattice, roster, Next(lattice, roster, s, step), some)
  {
    StepKeepsInv(lattice, roster, s, step);
    match step {
      case Timeout(x) => TimeoutTeachesNobody(lattice, roster, s, x, some);
      case Deliver(packet) =>
        if IsActive(s, packet.to) {
          match packet.payload {
            case Delta(d, id, clock) => DeltaTeachesNobody(lattice, roster, s, packet.to, d, id, clock, some);
            case Ack(id, clock) => AckTeachesNobody(lattice, roster, s, packet.to, id, clock, some);
          }
        }
    }
  }

  lemma {:induction false} UntaughtThroughout<S(!new)>(
    lattice: Lattice<S>, roster: Roster, s: System<S>, steps: seq<Step<S>>, t: System<S>, some: set<Socket>)
    requires lattice.Laws() && Inv(lattice, roster, s) && Quiet(steps) && Reaches(lattice, roster, s, steps, t)
    requires Untaught(lattice, roster, s, some)
    ensures Untaught(lattice, roster, t, some)
    decreases |steps|
  {
    if steps != [] {
      StepKeepsInv(lattice, roster, s, steps[0]);
      StaysUntaught(lattice, roster, s, steps[0], some);
      UntaughtThroughout(lattice, roster, Next(lattice, roster, s, steps[0]), steps[1..], t, some);
    }
  }

  lemma JustStartedIsUnsettled<S(!new)>(roster: Roster, s: System<S>, group: set<Socket>, p: Socket, q: Socket)
    requires IsActive(s, p) && JustStarted(roster, s, p) && p in group && q in group && p != q
    ensures !Settled(s, group)
  {
  }

  lemma UntaughtNeverSettles<S(!new)>(
    lattice: Lattice<S>, roster: Roster, s: System<S>, group: set<Socket>, some: set<Socket>, p: Socket, q: Socket)
    requires lattice.Laws() && Inv(lattice, roster, s) && Untaught(lattice, roster, s, some)
    requires p in some && p in group && q in group && p != q
    ensures forall t | Leads(lattice, roster, s, t) :: !Settled(t, group)
  {
    forall t | Leads(lattice, roster, s, t)
      ensures !Settled(t, group)
    {
      var steps :| Quiet(steps) && Reaches(lattice, roster, s, steps, t);
      hide *;
      UntaughtThroughout(lattice, roster, s, steps, t, some);
      UntaughtMeans(lattice, roster, t, some, p);
      JustStartedIsUnsettled(roster, t, group, p, q);
    }
  }

  /** Nothing outside the group would be new to a member without a timer. */
  ghost predicate NoOutsideNews<S(!new)>(lattice: Lattice<S>, s: System<S>, group: set<Socket>) {
    forall p | p in Unprompted(s, group) ::
      && (forall x | IsActive(s, x) && x !in group :: lattice.Le(DataOf(lattice, s, x), DataOf(lattice, s, p)))
      && (forall packet | packet in s.net && packet.payload.Delta? ::
            lattice.Le(packet.payload.delta, DataOf(lattice, s, p)))
  }

  lemma UntaughtIfNoNews<S(!new)>(
    lattice: Lattice<S>, roster: Roster, s: System<S>, group: set<Socket>, some: set<Socket>)
    requires lattice.Laws() && Reachable(lattice, roster, s) && Mutual(s, group) && NoOutsideNews(lattice, s, group)
    requires some <= Unprompted(s, group) && !HasNews(lattice, s, group, some)
    ensures Untaught(lattice, roster, s, some)
  {
    forall p | p in some
      ensures UntaughtOne(lattice, roster, s, some, p)
    {
      TimersKeepRunning(lattice, roster, s, p);
      forall x | IsActive(s, x) && x !in some
        ensures lattice.Le(DataOf(lattice, s, x), DataOf(lattice, s, p))
      {
        assert x in group ==> x in group - some;
      }
    }
  }

  /** The condition on timers is exact: if the preferences serve the group and nothing outside it is news, it can settle
      if and only if those with timers teach those without. */
  lemma SettlesIffTaught<S(!new)>(
    lattice: Lattice<S>, roster: Roster, s: System<S>, group: set<Socket>)
    requires lattice.Laws() && Reachable(lattice, roster, s) && Connected(s, group) && |group| > 1
    requires NoOutsideNews(lattice, s, group)
    ensures (exists t :: Leads(lattice, roster, s, t) && Settled(t, group)) <==> Taught(lattice, s, group)
  {
    ReachableInv(lattice, roster, s);
    if Taught(lattice, s, group) {
      hide *;
      GroupCanSettle(lattice, roster, s, group);
    } else {
      var some: set<Socket> :| some != {} && some <= Unprompted(s, group) && !HasNews(lattice, s, group, some);
      var p :| p in some;
      assert group - {p} != {} by {
        assert |group - {p}| == |group| - 1;
      }
      var q :| q in group - {p};
      hide *;
      UntaughtIfNoNews(lattice, roster, s, group, some);
      UntaughtNeverSettles(lattice, roster, s, group, some, p, q);
    }
  }
}
