/** The two actors together: the updates the cluster actor publishes are the ones the dispersing actor
    expects, and leave it with exactly the other members of the cluster as peers. */
module ClusterFeed {
  import opened Causal
  import opened CausalNet
  import opened Cluster
  import opened Gossip
  import opened Lattices
  import opened Members

  function Ids(members: set<Member>): set<nat> {
    set m | m in members :: m.id
  }

  /** The peers of the replica are the present members other than itself. */
  ghost predicate PeersAre<S>(r: Replica<S>, present: set<Member>) {
    r.acks.Keys == Ids(present - {r.member})
  }

  lemma {:induction false} ExpectedAppend<S>(r: Replica<S>, events: seq<ClusterEvent>, more: seq<ClusterEvent>)
    ensures AllExpected(r, events + more) <==> AllExpected(r, events) && AllExpected(UpdatedAll(r, events), more)
    ensures UpdatedAll(r, events + more) == UpdatedAll(UpdatedAll(r, events), more)
    decreases |events|
  {
    if events == [] {
      assert events + more == more;
    } else {
      assert (events + more)[1..] == events[1..] + more;
      ExpectedAppend(Updated(r, events[0]), events[1..], more);
    }
  }

  lemma OnePeer<S>(r: Replica<S>, world: set<Member>, present: set<Member>, e: ClusterEvent)
    requires IdsUnique(world) && present <= world && r.member in world && PeersAre(r, present)
    requires e.Added? ==> e.member in world && e.member !in present && e.member != r.member
    requires e.Removed? ==> e.member in present
    requires e.Added? || e.Removed?
    ensures Expected(r, e)
    ensures Updated(r, e).member == r.member
    ensures PeersAre(Updated(r, e), if e.Added? then present + {e.member} else present - {e.member})
  {
  }

  lemma {:induction false} FeedPrefix<S>(r: Replica<S>, world: set<Member>, before: set<Member>,
                                         events: seq<ClusterEvent>, i: nat)
    requires IdsUnique(world) && before <= world && r.member in before && PeersAre(r, before)
    requires i <= |events| && forall e :: e in events ==> (e.Added? || e.Removed?) && e.member in world
    requires forall j, k :: 0 <= j < k < |events| ==> events[j].member != events[k].member
    requires forall e :: e in events ==> (e.Added? <==> e.member !in before)
    ensures AllExpected(r, events[..i]) && UpdatedAll(r, events[..i]).member == r.member
    ensures Present(before, events[..i]) <= world
    ensures PeersAre(UpdatedAll(r, events[..i]), Present(before, events[..i]))
  {
    if i > 0 {
      FeedPrefix(r, world, before, events, i - 1);
      var e := events[i - 1];
      assert e in events && events[..i] == events[..i - 1] + [e];
      ExpectedAppend(r, events[..i - 1], [e]);
      PresentPush(before, events, i - 1);
      PresentMeans(before, events, i - 1, e.member);
      assert forall x :: x in events[..i - 1] ==> x.member != e.member by {
        assert forall j :: 0 <= j < i - 1 ==> events[j].member != events[i - 1].member;
      }
      OnePeer(UpdatedAll(r, events[..i - 1]), world, Present(before, events[..i - 1]), e);
    }
  }

  /** What a merge reports can always be handled, and afterwards the peers are the other members that are up;
      if the node was itself found down, its new identity follows as the last event. */
  lemma MergeFeeds<S>(r: Replica<S>, world: set<Member>, before: States, after: States,
                      events: seq<ClusterEvent>, renewed: Member)
    requires IdsUnique(world) && before.Keys <= world && after.Keys <= world && renewed in world
    requires Reports(events, before, after) && Follows(before, after)
    requires r.member in UpSet(before) && PeersAre(r, UpSet(before)) && renewed !in after
    ensures AllExpected(r, events) && PeersAre(UpdatedAll(r, events), UpSet(after))
    ensures AllExpected(r, events + [Joined(renewed)])
    ensures UpdatedAll(r, events).member == r.member && UpdatedAll(r, events + [Joined(renewed)]).member == renewed
    ensures r.member !in UpSet(after) ==>
              PeersAre(UpdatedAll(r, events + [Joined(renewed)]), UpSet(after[renewed := Up]))
  {
    ReportsLead(events, before, after);
    forall j, k | 0 <= j < k < |events| ensures events[j].member != events[k].member {
      assert MemberLess(events[j].member, events[k].member);
      MemberOrder();
    }
    forall e | e in events ensures e.member in world && (e.Added? <==> e.member !in UpSet(before)) {
      assert e == Added(e.member) || e == Removed(e.member);
    }
    FeedPrefix(r, world, UpSet(before), events, |events|);
    assert events[..|events|] == events;
    ExpectedAppend(r, events, [Joined(renewed)]);
    if r.member !in UpSet(after) {
      assert UpSet(after[renewed := Up]) - {renewed} == UpSet(after) == UpSet(after) - {r.member};
    }
  }

  // ----- whole runs -----

  predicate InWorld(world: set<Member>, e: Event) {
    match e
    case Heard(gossip, renewed) => gossip.Keys <= world && renewed in world
    case Pinged(pinger) => pinger in world
    case Lost(_) => true
  }

  /** Whatever a cluster actor publishes about one event, the dispersing actor of the same node can handle, and
      afterwards it has the node's identity and the other present members as peers. */
  lemma EventFeeds<S>(r: Replica<S>, world: set<Member>, v: View, e: Event, feed: seq<ClusterEvent>)
    requires IdsUnique(world) && v.states.Keys <= world && v.self in UpSet(v.states)
    requires Legal(v, e) && InWorld(world, e) && Publishes(v, e, feed)
    requires r.member == v.self && PeersAre(r, UpSet(v.states))
    ensures AllExpected(r, feed)
    ensures After(v, e).states.Keys <= world && After(v, e).self in UpSet(After(v, e).states)
    ensures UpdatedAll(r, feed).member == After(v, e).self
    ensures PeersAre(UpdatedAll(r, feed), UpSet(After(v, e).states))
  {
    match e {
      case Heard(gossip, renewed) =>
        GossipFeeds(r, world, v, gossip, renewed, feed);
      case Pinged(pinger) =>
        if pinger !in v.states {
          SingleFeeds(r, world, v.states, pinger, Up);
        }
      case Lost(charge) =>
        SingleFeeds(r, world, v.states, charge, Down);
    }
  }

  lemma GossipFeeds<S>(r: Replica<S>, world: set<Member>, v: View, gossip: States, renewed: Member,
                       feed: seq<ClusterEvent>)
    requires IdsUnique(world) && v.states.Keys <= world && v.self in UpSet(v.states)
    requires gossip.Keys <= world && renewed in world && renewed !in v.states && renewed !in gossip
    requires Publishes(v, Heard(gossip, renewed), feed)
    requires r.member == v.self && PeersAre(r, UpSet(v.states))
    ensures AllExpected(r, feed)
    ensures var w := AfterGossip(v, gossip, renewed);
            && w.states.Keys <= world && w.self in UpSet(w.states)
            && UpdatedAll(r, feed).member == w.self && PeersAre(UpdatedAll(r, feed), UpSet(w.states))
  {
    hide Reports, IdsUnique, AllExpected, UpdatedAll, PeersAre;
    var merged := Merged(v.states, gossip);
    var announced := if merged[v.self].Down? then [Joined(renewed)] else [];
    var events :| Reports(events, v.states, merged) && feed == events + announced;
    MergedFollows(v.states, gossip);
    MergeFeeds(r, world, v.states, merged, events, renewed);
    assert events + [] == events;
  }

  lemma SingleFeeds<S>(r: Replica<S>, world: set<Member>, before: States, m: Member, s: MachineState)
    requires IdsUnique(world) && before.Keys <= world && m in world && m != r.member
    requires r.member in UpSet(before) && PeersAre(r, UpSet(before))
    requires s.Up? ==> m !in before
    requires s.Down? ==> m in before
    ensures var feed := if s.Up? then [Added(m)] else if before[m].Down? then [] else [Removed(m)];
            && AllExpected(r, feed) && UpdatedAll(r, feed).member == r.member
            && PeersAre(UpdatedAll(r, feed), UpSet(before[m := s]))
  {
    if s.Up? {
      OnePeer(r, world, UpSet(before), Added(m));
      assert UpSet(before[m := s]) == UpSet(before) + {m};
    } else if before[m].Down? {
      assert before[m := s] == before;
    } else {
      OnePeer(r, world, UpSet(before), Removed(m));
      assert UpSet(before[m := s]) == UpSet(before) - {m};
    }
  }

  // ----- the dispersing actor, with the updates it has not read yet -----

  /** The two actors of one node. `inbox` holds the updates sent but not yet handled. */
  datatype Pair<!S(==,!new)> = Pair(view: View, subscribed: bool, inbox: seq<ClusterUpdate>, node: Node<S>)

  datatype Move<!S(==,!new)> =
    | Happen(e: Event, feed: seq<ClusterEvent>)
    | Subscribe(first: ClusterUpdate)
    | ReadUpdate
    | Mutate(op: Mutator<S>)
    | HearDelta(delta: S, id: nat)
    | HearAck(id: nat, clock: nat)

  /** The first update names the node itself and lists everyone present. */
  predicate Greets(v: View, first: ClusterUpdate) {
    && first.nodes == UpSet(v.states)
    && (first.events == [Alone(v.self)] || first.events == [Joined(v.self)])
  }

  /** The cluster actor publishes what `Cluster` says, and no acknowledgement is of more than has been produced, which
      is what `CausalNet` proves. */
  ghost predicate Possible<S(!new)>(world: set<Member>, a: Pair<S>, move: Move<S>) {
    match move
    case Happen(e, feed) => Legal(a.view, e) && InWorld(world, e) && Publishes(a.view, e, feed)
    case Subscribe(first) => !a.subscribed && Greets(a.view, first)
    case ReadUpdate => a.inbox != []
    case HearAck(_, clock) => a.node.Active? ==> clock <= a.node.replica.clock
    case _ => true
  }

  /** What the dispersing actor does with an update: the first makes it a replica, each later one changes its peers.
      An event that `update` does not expect is a panic, and so is a first update that does not end with the node; two
      members under one identifier are counted as a panic too. */
  ghost function Handled<S(!new)>(lattice: Lattice<S>, node: Node<S>, u: ClusterUpdate): Node<S> {
    match node
    case Waiting(ops) =>
      if u.events == [] || !IdsUnique(u.nodes) then Crashed else
        (match u.events[|u.events| - 1]
         case Alone(m) => Active(Started(lattice, ops, m, u.nodes))
         case Joined(m) => Active(Started(lattice, ops, m, u.nodes))
         case _ => Crashed)
    case Active(r) => if AllExpected(r, u.events) then Active(UpdatedAll(r, u.events)) else Crashed
    case Crashed => Crashed
  }

  ghost function Moved<S(!new)>(lattice: Lattice<S>, a: Pair<S>, move: Move<S>): Pair<S>
    requires move.ReadUpdate? ==> a.inbox != []
  {
    match move
    case Happen(e, feed) =>
      var v := Cluster.After(a.view, e);
      var sent := if a.subscribed && feed != [] then [ClusterUpdate(feed, UpSet(v.states))] else [];
      a.(view := v, inbox := a.inbox + sent)
    case Subscribe(first) => a.(subscribed := true, inbox := a.inbox + [first])
    case ReadUpdate => a.(inbox := a.inbox[1..], node := Handled(lattice, a.node, a.inbox[0]))
    case Mutate(op) =>
      (match a.node
       case Waiting(ops) => a.(node := Waiting(ops + [op]))
       case Active(r) => a.(node := Active(Mutated(lattice, r, op)))
       case Crashed => a)
    case HearDelta(delta, id) =>
      if a.node.Active? then a.(node := Active(Causal.Received(lattice, a.node.replica, delta, id))) else a
    case HearAck(id, clock) =>
      if a.node.Active? then
        (match Acked(a.node.replica, id, clock)
         case Alive(r) => a.(node := Active(r))
         case Panic => a.(node := Crashed))
      else a
  }

  function AllEvents(inbox: seq<ClusterUpdate>): seq<ClusterEvent> {
    if inbox == [] then [] else inbox[0].events + AllEvents(inbox[1..])
  }

  /** The unread events can all be handled, and then leave the replica where the cluster actor is. */
  ghost predicate Leads<S>(r: Replica<S>, unread: seq<ClusterEvent>, v: View) {
    && AllExpected(r, unread)
    && UpdatedAll(r, unread).member == v.self && PeersAre(UpdatedAll(r, unread), UpSet(v.states))
  }

  ghost predicate InStep<S(!new)>(lattice: Lattice<S>, a: Pair<S>) {
    match a.node
    case Waiting(ops) =>
      if !a.subscribed then a.inbox == [] else
        && a.inbox != []
        && |a.inbox[0].events| == 1 && (a.inbox[0].events[0].Alone? || a.inbox[0].events[0].Joined?)
        && IdsUnique(a.inbox[0].nodes)
        && Leads(Started(lattice, ops, a.inbox[0].events[0].member, a.inbox[0].nodes), AllEvents(a.inbox[1..]), a.view)
    case Active(r) => a.subscribed && r.Ok() && Leads(r, AllEvents(a.inbox), a.view)
    case Crashed => false
  }

  ghost predicate Linked<S(!new)>(lattice: Lattice<S>, world: set<Member>, a: Pair<S>) {
    && IdsUnique(world) && a.view.states.Keys <= world && a.view.self in UpSet(a.view.states)
    && InStep(lattice, a)
  }

  lemma {:induction false} AllEventsPush(inbox: seq<ClusterUpdate>, u: ClusterUpdate)
    ensures AllEvents(inbox + [u]) == AllEvents(inbox) + u.events
  {
    if inbox == [] {
      assert (inbox + [u])[1..] == [];
    } else {
      assert (inbox + [u])[1..] == inbox[1..] + [u];
      AllEventsPush(inbox[1..], u);
    }
  }

  /** What a replica makes of membership events depends on who it is and who its peers are, and on nothing else. */
  lemma {:induction false} PeersDecide<S, T>(r: Replica<S>, q: Replica<T>, events: seq<ClusterEvent>)
    requires r.member == q.member && r.acks.Keys == q.acks.Keys
    ensures AllExpected(r, events) <==> AllExpected(q, events)
    ensures UpdatedAll(r, events).member == UpdatedAll(q, events).member
    ensures UpdatedAll(r, events).acks.Keys == UpdatedAll(q, events).acks.Keys
    decreases |events|
  {
    if events != [] {
      PeersDecide(Updated(r, events[0]), Updated(q, events[0]), events[1..]);
    }
  }

  lemma {:induction false} UpdatesKeepOk<S>(r: Replica<S>, events: seq<ClusterEvent>)
    requires r.Ok()
    ensures UpdatedAll(r, events).Ok()
    decreases |events|
  {
    if events != [] {
      UpdatesKeepOk(Updated(r, events[0]), events[1..]);
    }
  }

  /** The replica a first update makes has the other members as peers. */
  lemma StartFeeds<S(!new)>(lattice: Lattice<S>, ops: seq<Mutator<S>>, self: Member, members: set<Member>)
    requires IdsUnique(members)
    ensures PeersAre(Started(lattice, ops, self, members), members)
    ensures Started(lattice, ops, self, members).Ok()
  {
  }

  lemma LeadsFurther<S>(r: Replica<S>, world: set<Member>, unread: seq<ClusterEvent>, v: View, e: Event,
                        feed: seq<ClusterEvent>)
    requires IdsUnique(world) && v.states.Keys <= world && v.self in UpSet(v.states)
    requires Legal(v, e) && InWorld(world, e) && Publishes(v, e, feed) && Leads(r, unread, v)
    ensures Leads(r, unread + feed, Cluster.After(v, e))
  {
    hide AllExpected, UpdatedAll, PeersAre, IdsUnique, Publishes;
    EventFeeds(UpdatedAll(r, unread), world, v, e, feed);
    ExpectedAppend(r, unread, feed);
  }

  /** The cluster actor's moves. */
  lemma HappenKeepsLinked<S(!new)>(lattice: Lattice<S>, world: set<Member>, a: Pair<S>, e: Event,
                                   feed: seq<ClusterEvent>)
    requires Linked(lattice, world, a) && Possible(world, a, Happen(e, feed))
    ensures Linked(lattice, world, Moved(lattice, a, Happen(e, feed)))
  {
    hide Leads, IdsUnique, Publishes, Started, Legal;
    var b := Moved(lattice, a, Happen(e, feed));
    ViewStays(world, a.view, e);
    if a.subscribed {
      var u := ClusterUpdate(feed, UpSet(b.view.states));
      if a.node.Waiting? {
        assert (a.inbox + [u])[1..] == a.inbox[1..] + [u];
        AllEventsPush(a.inbox[1..], u);
        LeadsFurther(Started(lattice, a.node.ops, a.inbox[0].events[0].member, a.inbox[0].nodes), world,
                     AllEvents(a.inbox[1..]), a.view, e, feed);
      } else {
        AllEventsPush(a.inbox, u);
        LeadsFurther(a.node.replica, world, AllEvents(a.inbox), a.view, e, feed);
      }
      if feed == [] {
        assert b.inbox == a.inbox;
        assert forall events: seq<ClusterEvent> :: events + [] == events;
      } else {
        assert b.inbox == a.inbox + [u];
      }
    } else {
      assert b.inbox == a.inbox;
    }
  }

  lemma ViewStays(world: set<Member>, v: View, e: Event)
    requires v.states.Keys <= world && v.self in UpSet(v.states)
    requires Legal(v, e) && InWorld(world, e)
    ensures Cluster.After(v, e).states.Keys <= world
    ensures Cluster.After(v, e).self in UpSet(Cluster.After(v, e).states)
  {
    RunsMoveForward(v, [e]);
  }

  lemma SubscribeKeepsLinked<S(!new)>(lattice: Lattice<S>, world: set<Member>, a: Pair<S>, first: ClusterUpdate)
    requires Linked(lattice, world, a) && Possible(world, a, Subscribe(first))
    ensures Linked(lattice, world, Moved(lattice, a, Subscribe(first)))
  {
    StartFeeds(lattice, a.node.ops, a.view.self, first.nodes);
  }

  lemma ReadKeepsLinked<S(!new)>(lattice: Lattice<S>, world: set<Member>, a: Pair<S>)
    requires Linked(lattice, world, a) && Possible(world, a, ReadUpdate)
    ensures Linked(lattice, world, Moved(lattice, a, ReadUpdate))
  {
    hide AllExpected, UpdatedAll, PeersAre, Started, IdsUnique;
    var u := a.inbox[0];
    if a.node.Active? {
      ExpectedAppend(a.node.replica, u.events, AllEvents(a.inbox[1..]));
      UpdatesKeepOk(a.node.replica, u.events);
    } else {
      StartFeeds(lattice, a.node.ops, u.events[0].member, u.nodes);
    }
  }

  /** What the replica does by itself and hears from others. */
  lemma OwnMovesKeepLinked<S(!new)>(lattice: Lattice<S>, world: set<Member>, a: Pair<S>, move: Move<S>)
    requires Linked(lattice, world, a) && Possible(world, a, move)
    requires move.Mutate? || move.HearDelta? || move.HearAck?
    ensures Linked(lattice, world, Moved(lattice, a, move))
  {
    hide AllExpected, UpdatedAll, IdsUnique, OrdOf, FirstCount;
    var b := Moved(lattice, a, move);
    if a.node.Active? {
      if move.HearAck? {
        AckedAlive(a.node.replica, move.id, move.clock);
      }
      PeersDecide(a.node.replica, b.node.replica, AllEvents(a.inbox));
    } else if move.Mutate? && a.subscribed {
      var first := a.inbox[0];
      PeersDecide(Started(lattice, a.node.ops, first.events[0].member, first.nodes),
                  Started(lattice, b.node.ops, first.events[0].member, first.nodes), AllEvents(a.inbox[1..]));
    }
  }

  lemma MoveKeepsLinked<S(!new)>(lattice: Lattice<S>, world: set<Member>, a: Pair<S>, move: Move<S>)
    requires Linked(lattice, world, a) && Possible(world, a, move)
    ensures Linked(lattice, world, Moved(lattice, a, move))
  {
    hide Linked, Possible, Moved;
    match move {
      case Happen(e, feed) => HappenKeepsLinked(lattice, world, a, e, feed);
      case Subscribe(first) => SubscribeKeepsLinked(lattice, world, a, first);
      case ReadUpdate => ReadKeepsLinked(lattice, world, a);
      case _ => OwnMovesKeepLinked(lattice, world, a, move);
    }
  }

  ghost predicate Runs<S(!new)>(lattice: Lattice<S>, world: set<Member>, a: Pair<S>, moves: seq<Move<S>>, b: Pair<S>)
    decreases |moves|
  {
    if moves == [] then a == b else
      Possible(world, a, moves[0]) && Runs(lattice, world, Moved(lattice, a, moves[0]), moves[1..], b)
  }

  lemma {:induction false} RunKeepsLinked<S(!new)>(lattice: Lattice<S>, world: set<Member>, a: Pair<S>,
                                                   moves: seq<Move<S>>, b: Pair<S>)
    requires Linked(lattice, world, a) && Runs(lattice, world, a, moves, b)
    ensures Linked(lattice, world, b)
    decreases |moves|
  {
    if moves != [] {
      MoveKeepsLinked(lattice, world, a, moves[0]);
      RunKeepsLinked(lattice, world, Moved(lattice, a, moves[0]), moves[1..], b);
    }
  }

  /** Whatever the cluster actor goes through, and whatever operations, deltas and acknowledgements reach the dispersing
      actor between its updates, it never panics on one of them; and when it has read them all, it has the node's
      identity and the other members that are up as peers. */
  lemma RunFeeds<S(!new)>(lattice: Lattice<S>, world: set<Member>, v: View, moves: seq<Move<S>>, b: Pair<S>)
    requires IdsUnique(world) && v.states.Keys <= world && v.self in UpSet(v.states)
    requires Runs(lattice, world, Pair(v, false, [], Waiting([])), moves, b)
    ensures !b.node.Crashed?
    ensures b.node.Active? && b.inbox == [] ==>
              b.node.replica.member == b.view.self && PeersAre(b.node.replica, UpSet(b.view.states))
    ensures b.subscribed && b.inbox == [] ==> b.node.Active?
  {
    RunKeepsLinked(lattice, world, Pair(v, false, [], Waiting([])), moves, b);
  }
}
