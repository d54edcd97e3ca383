/** When a group of processes that know each other can settle: timeouts and deliveries alone lead to a state in which
    all have acknowledged each other and hold the same data. */
module CausalProgress {
  import opened Causal
  import opened CausalNet
  import opened Lattices
  import opened Members
  import opened Ordered

  function ReplicaOf<S(!new)>(s: System<S>, p: Socket): Replica<S>
    requires IsActive(s, p)
  {
    s.nodes[p].replica
  }

  function IdOf<S(!new)>(s: System<S>, p: Socket): nat
    requires IsActive(s, p)
  {
    ReplicaOf(s, p).member.id
  }

  ghost predicate Knows<S(!new)>(s: System<S>, p: Socket, q: Socket) {
    IsActive(s, p) && IsActive(s, q) && IdOf(s, q) in ReplicaOf(s, p).acks
  }

  ghost predicate Mutual<S(!new)>(s: System<S>, group: set<Socket>) {
    && (forall p | p in group :: IsActive(s, p))
    && forall p, q | p in group && q in group && p != q :: Knows(s, p, q)
  }

  ghost predicate CaughtUp<S(!new)>(s: System<S>, p: Socket, q: Socket) {
    Knows(s, p, q) && ReplicaOf(s, p).acks[IdOf(s, q)].count == ReplicaOf(s, p).clock
  }

  predicate FromProcess(roster: Roster, p: Socket, id: nat) {
    id in roster && roster[id].socket == p
  }

  ghost predicate IsReply<S(!new)>(s: System<S>, x: Socket, packet: Packet<S>)
    requires IsActive(s, x)
  {
    exists d, id, clock :: Packet(x, Delta(d, id, clock)) in s.net && packet in Reply(ReplicaOf(s, x), id, clock)
  }

  // ----- what a caller can check -----

  predicate InPriority(pref: Preference, id: nat) {
    exists m :: m in pref.priority && m.id == id
  }

  ghost function GroupIds<S(!new)>(s: System<S>, group: set<Socket>): set<nat> {
    set q | q in group && IsActive(s, q) :: IdOf(s, q)
  }

  /** The peers that compete with the group for a place among the `amount` most out of date. */
  ghost function Outsiders<S(!new)>(s: System<S>, p: Socket, group: set<Socket>): set<nat>
    requires IsActive(s, p) && p in s.prefs
  {
    var acks := ReplicaOf(s, p).acks;
    set z | z in acks && acks[z].member !in s.prefs[p].priority && z !in GroupIds(s, group - {p})
  }

  /** The preference of `p` cannot pass the group over: it selects everyone, or more than there are outsiders, or has
      the whole group in its priority set. */
  ghost predicate Served<S(!new)>(s: System<S>, p: Socket, group: set<Socket>) {
    && IsActive(s, p) && p in s.prefs
    && var pref := s.prefs[p];
       || pref.selector.All?
       || |Outsiders(s, p, group)| < pref.amount
       || forall q | q in group && q != p && IsActive(s, q) :: InPriority(pref, IdOf(s, q))
  }

  /** A timer is pending, or there is nothing to disperse. */
  ghost predicate Prompted<S(!new)>(s: System<S>, p: Socket) {
    p in s.timers || (IsActive(s, p) && forall id | id in ReplicaOf(s, p).acks ::
                        ReplicaOf(s, p).acks[id].count == ReplicaOf(s, p).clock)
  }

  ghost predicate Connected<S(!new)>(s: System<S>, group: set<Socket>) {
    Mutual(s, group) && forall p | p in group :: Served(s, p, group)
  }

  ghost predicate MaySettle<S(!new)>(s: System<S>, group: set<Socket>) {
    Connected(s, group) && forall p | p in group :: Prompted(s, p)
  }

  /** However the members that lack a timer are picked out, the others have something new for one of them. */
  ghost predicate Taught<S(!new)>(lattice: Lattice<S>, s: System<S>, group: set<Socket>) {
    forall some: set<Socket> | some != {} && some <= Unprompted(s, group) :: HasNews(lattice, s, group, some)
  }

  ghost function Unprompted<S(!new)>(s: System<S>, group: set<Socket>): set<Socket> {
    set p | p in group && !Prompted(s, p)
  }

  ghost predicate HasNews<S(!new)>(lattice: Lattice<S>, s: System<S>, group: set<Socket>, some: set<Socket>) {
    exists p, x :: p in some && x in group - some && !lattice.Le(DataOf(lattice, s, x), DataOf(lattice, s, p))
  }

  // ----- runs compose -----

  lemma {:induction false} ReachesThen<S(!new)>(
    lattice: Lattice<S>, roster: Roster, s: System<S>, a: seq<Step<S>>, t: System<S>, b: seq<Step<S>>, u: System<S>)
    requires Reaches(lattice, roster, s, a, t) && Reaches(lattice, roster, t, b, u)
    ensures Reaches(lattice, roster, s, a + b, u)
    decreases |a|
  {
    if a == [] {
      assert a + b == b;
    } else {
      ReachesThen(lattice, roster, Next(lattice, roster, s, a[0]), a[1..], t, b, u);
      assert (a + b)[1..] == a[1..] + b;
    }
  }

  lemma ReachesOne<S(!new)>(lattice: Lattice<S>, roster: Roster, s: System<S>, step: Step<S>)
    requires Enabled(roster, s, step)
    ensures Reaches(lattice, roster, s, [step], Next(lattice, roster, s, step))
  {
  }

  lemma ReachesPush<S(!new)>(
    lattice: Lattice<S>, roster: Roster, s: System<S>, steps: seq<Step<S>>, t: System<S>, step: Step<S>)
    requires Reaches(lattice, roster, s, steps, t) && Enabled(roster, t, step)
    ensures Reaches(lattice, roster, s, steps + [step], Next(lattice, roster, t, step))
  {
    ReachesOne(lattice, roster, t, step);
    ReachesThen(lattice, roster, s, steps, t, [step], Next(lattice, roster, t, step));
  }

  ghost predicate Quiet<S(!new)>(steps: seq<Step<S>>) {
    forall i | 0 <= i < |steps| :: steps[i].Timeout? || steps[i].Deliver?
  }

  /** `t` is reached from `s` by timeouts and deliveries alone. */
  ghost predicate Leads<S(!new)>(lattice: Lattice<S>, roster: Roster, s: System<S>, t: System<S>) {
    exists steps :: Quiet(steps) && Reaches(lattice, roster, s, steps, t)
  }

  lemma LeadsThen<S(!new)>(lattice: Lattice<S>, roster: Roster, s: System<S>, t: System<S>, u: System<S>)
    requires Leads(lattice, roster, s, t) && Leads(lattice, roster, t, u)
    ensures Leads(lattice, roster, s, u)
  {
    var a :| Quiet(a) && Reaches(lattice, roster, s, a, t);
    var b :| Quiet(b) && Reaches(lattice, roster, t, b, u);
    ReachesThen(lattice, roster, s, a, t, b, u);
    assert Quiet(a + b);
  }

  lemma LeadsOne<S(!new)>(lattice: Lattice<S>, roster: Roster, s: System<S>, step: Step<S>)
    requires lattice.Laws() && Inv(lattice, roster, s) && Enabled(roster, s, step) && (step.Timeout? || step.Deliver?)
    ensures Leads(lattice, roster, s, Next(lattice, roster, s, step))
    ensures Inv(lattice, roster, Next(lattice, roster, s, step))
  {
    ReachesOne(lattice, roster, s, step);
    assert Quiet([step]);
    StepKeepsInv(lattice, roster, s, step);
  }

  lemma LeadsNowhere<S(!new)>(lattice: Lattice<S>, roster: Roster, s: System<S>)
    ensures Leads(lattice, roster, s, s)
  {
    assert Quiet<S>([]) && Reaches(lattice, roster, s, [], s);
  }

  // ----- what the rounds of one process change -----

  ghost predicate OnlyAcks<S(!new)>(r: Replica<S>, r': Replica<S>) {
    && r'.data == r.data && r'.clock == r.clock && r'.member == r.member && r'.acks.Keys == r.acks.Keys
    && forall i | i in r.acks ::
         r'.acks[i] == r.acks[i] || r'.acks[i] == r.acks[i].(count := r.clock)
  }

  ghost predicate Untouched<S(!new)>(s: System<S>, t: System<S>, x: Socket)
    requires x in s.nodes && x in t.nodes
  {
    t.nodes[x] == s.nodes[x]
  }

  /** `x` has learnt something from the data of `p`, and has started a timer of its own. */
  ghost predicate Joined<S(!new)>(lattice: Lattice<S>, s: System<S>, t: System<S>, p: Socket, x: Socket)
    requires IsActive(s, p)
  {
    && IsActive(s, x) && IsActive(t, x) && x in t.timers
    && var r, r' := ReplicaOf(s, x), ReplicaOf(t, x);
       && r'.member == r.member && r'.acks == r.acks
       && r'.data == lattice.join(r.data, ReplicaOf(s, p).data) != r.data
  }

  ghost predicate Helped<S(!new)>(lattice: Lattice<S>, s: System<S>, t: System<S>, p: Socket) {
    && IsActive(s, p) && IsActive(t, p)
    && t.nodes.Keys == s.nodes.Keys && t.prefs == s.prefs
    && (forall x :: x in s.timers ==> x in t.timers)
    && OnlyAcks(ReplicaOf(s, p), ReplicaOf(t, p))
    && forall x | x in s.nodes && x != p :: Untouched(s, t, x) || Joined(lattice, s, t, p, x)
  }

  lemma HelpedNothing<S(!new)>(lattice: Lattice<S>, s: System<S>, p: Socket)
    requires IsActive(s, p)
    ensures Helped(lattice, s, s, p)
  {
  }

  lemma HelpedThen<S(!new)>(lattice: Lattice<S>, s: System<S>, t: System<S>, u: System<S>, p: Socket)
    requires lattice.Laws() && Helped(lattice, s, t, p) && Helped(lattice, t, u, p)
    ensures Helped(lattice, s, u, p)
  {
    var d := ReplicaOf(s, p).data;
    forall x | x in s.nodes && x != p
      ensures Untouched(s, u, x) || Joined(lattice, s, u, p, x)
    {
      if IsActive(s, x) {
        assert lattice.Associates(ReplicaOf(s, x).data, d, d) && lattice.Bounds(d);
      }
      assert Untouched(s, t, x) || Joined(lattice, s, t, p, x);
      assert Untouched(t, u, x) || Joined(lattice, t, u, p, x);
    }
  }

  /** Identities, acquaintance, preferences and prompting survive, and whoever has caught up stays so. */
  lemma HelpedKeeps<S(!new)>(lattice: Lattice<S>, s: System<S>, t: System<S>, p: Socket, group: set<Socket>)
    requires Helped(lattice, s, t, p) && Connected(s, group)
    ensures Connected(t, group)
    ensures forall x | x in group && Prompted(s, x) :: Prompted(t, x)
    ensures forall q :: CaughtUp(s, p, q) ==> CaughtUp(t, p, q)
  {
    SameIdentities(lattice, s, t, p);
    assert GroupIds(t, group - {p}) == GroupIds(s, group - {p});
    forall x | x in group
      ensures Served(t, x, group) && (Prompted(s, x) ==> Prompted(t, x))
    {
      assert Served(s, x, group);
      assert GroupIds(t, group - {x}) == GroupIds(s, group - {x});
      assert Outsiders(t, x, group) == Outsiders(s, x, group);
    }
    forall x, y | x in group && y in group && x != y
      ensures Knows(t, x, y)
    {
      assert Knows(s, x, y);
    }
  }

  lemma SameIdentities<S(!new)>(lattice: Lattice<S>, s: System<S>, t: System<S>, p: Socket)
    requires Helped(lattice, s, t, p)
    ensures forall x :: IsActive(t, x) <==> IsActive(s, x)
    ensures forall x :: IsActive(s, x) ==>
              && IdOf(t, x) == IdOf(s, x)
              && ReplicaOf(t, x).acks.Keys == ReplicaOf(s, x).acks.Keys
              && (forall i | i in ReplicaOf(s, x).acks ::
                    ReplicaOf(t, x).acks[i].member == ReplicaOf(s, x).acks[i].member)
  {
    forall x
      ensures IsActive(t, x) <==> IsActive(s, x)
      ensures IsActive(s, x) ==>
                && IdOf(t, x) == IdOf(s, x)
                && ReplicaOf(t, x).acks.Keys == ReplicaOf(s, x).acks.Keys
                && (forall i | i in ReplicaOf(s, x).acks ::
                      ReplicaOf(t, x).acks[i].member == ReplicaOf(s, x).acks[i].member)
    {
      if x in s.nodes && x != p {
        assert Untouched(s, t, x) || Joined(lattice, s, t, p, x);
      }
    }
  }

  // ----- whom a timeout reaches -----

  ghost function Behind<S(!new)>(s: System<S>, group: set<Socket>, p: Socket): set<Socket> {
    set q | q in group && q != p && !CaughtUp(s, p, q)
  }

  lemma SameIdSameProcess<S(!new)>(lattice: Lattice<S>, roster: Roster, s: System<S>, x: Socket, y: Socket)
    requires Inv(lattice, roster, s) && IsActive(s, x) && IsActive(s, y) && IdOf(s, x) == IdOf(s, y)
    ensures x == y
  {
    assert ReplicaOk(lattice, roster, s, x) && ReplicaOk(lattice, roster, s, y);
  }

  /** While some of the group is behind, a dispersal of `p` reaches one that is: the least acknowledged of the group has
      nobody but outsiders ahead of it. */
  lemma SomebodyIsReached<S(!new)>(
    lattice: Lattice<S>, roster: Roster, s: System<S>, group: set<Socket>, p: Socket) returns (q: Socket)
    requires Inv(lattice, roster, s) && Connected(s, group) && p in group && Behind(s, group, p) != {}
    ensures q in Behind(s, group, p) && Knows(s, p, q) && Chosen(ReplicaOf(s, p), s.prefs[p], IdOf(s, q))
  {
    var behind, r, pref := Behind(s, group, p), ReplicaOf(s, p), s.prefs[p];
    assert ReplicaOk(lattice, roster, s, p) && Served(s, p, group);
    assert forall x | x in behind :: Knows(s, p, x);
    if x :| x in behind && (pref.selector.All? || InPriority(pref, IdOf(s, x))) {
      q := x;
    } else {
      q := LeastBehind(s, group, p);
      OnlyOutsidersAhead(s, group, p, q);
    }
  }

  lemma LeastBehind<S(!new)>(s: System<S>, group: set<Socket>, p: Socket) returns (q: Socket)
    requires Mutual(s, group) && p in group && Behind(s, group, p) != {}
    ensures q in Behind(s, group, p) && Knows(s, p, q)
    ensures var acks := ReplicaOf(s, p).acks;
            forall x | x in Behind(s, group, p) && Knows(s, p, x) ::
              !PairLess((acks[IdOf(s, x)].count, IdOf(s, x)), (acks[IdOf(s, q)].count, IdOf(s, q)))
  {
    var behind, acks := Behind(s, group, p), ReplicaOf(s, p).acks;
    assert forall x | x in behind :: Knows(s, p, x);
    var entries := set x | x in behind :: (acks[IdOf(s, x)].count, IdOf(s, x));
    var some :| some in behind;
    assert (acks[IdOf(s, some)].count, IdOf(s, some)) in entries;
    PairOrder();
    LeastExists(PairLess, entries);
    var least :| IsLeast(PairLess, least, entries);
    q :| q in behind && least == (acks[IdOf(s, q)].count, IdOf(s, q));
    forall x | x in behind
      ensures !PairLess((acks[IdOf(s, x)].count, IdOf(s, x)), least)
    {
      assert (acks[IdOf(s, x)].count, IdOf(s, x)) in entries;
    }
  }

  lemma OnlyOutsidersAhead<S(!new)>(s: System<S>, group: set<Socket>, p: Socket, q: Socket)
    requires Mutual(s, group) && p in group && p in s.prefs && ReplicaOf(s, p).Ok()
    requires q in Behind(s, group, p) && Knows(s, p, q) && !InPriority(s.prefs[p], IdOf(s, q))
    requires var acks := ReplicaOf(s, p).acks;
             forall x | x in Behind(s, group, p) && Knows(s, p, x) ::
               !PairLess((acks[IdOf(s, x)].count, IdOf(s, x)), (acks[IdOf(s, q)].count, IdOf(s, q)))
    requires |Outsiders(s, p, group)| < s.prefs[p].amount
    ensures Chosen(ReplicaOf(s, p), s.prefs[p], IdOf(s, q))
  {
    var r, pref, id := ReplicaOf(s, p), s.prefs[p], IdOf(s, q);
    var ahead, outsiders := Ahead(r, pref, id), Outsiders(s, p, group);
    forall x | x in group - {p}
      ensures IdOf(s, x) !in ahead
    {
      assert Knows(s, p, x);
      assert x in Behind(s, group, p) || r.acks[IdOf(s, x)].count == r.clock;
    }
    assert outsiders == ahead + (outsiders - ahead);
    assert r.acks[id].member !in pref.priority;
  }

  // ----- one round: the timer of `p` fires, `q` receives and answers, `p` takes the answer -----

  lemma TimerFires<S(!new)>(lattice: Lattice<S>, roster: Roster, s: System<S>, p: Socket, id: nat)
    returns (t: System<S>)
    requires lattice.Laws() && Inv(lattice, roster, s) && IsActive(s, p) && p in s.timers && p in s.prefs
    requires id in ReplicaOf(s, p).acks && ReplicaOf(s, p).acks[id].count < ReplicaOf(s, p).clock
    requires Chosen(ReplicaOf(s, p), s.prefs[p], id)
    ensures Leads(lattice, roster, s, t) && Inv(lattice, roster, t)
    ensures t.nodes == s.nodes && t.prefs == s.prefs && t.timers == s.timers
    ensures Outdated(lattice, ReplicaOf(s, p), ReplicaOf(s, p).acks[id]) in t.net
  {
    var r := ReplicaOf(s, p);
    assert ReplicaOk(lattice, roster, s, p);
    LowestAck(r.acks);
    LeadsOne(lattice, roster, s, Timeout(p));
    t := Next(lattice, roster, s, Timeout(p));
    assert s.timers - multiset{p} + multiset{p} == s.timers;
  }

  /** Joining what is sent is joining all that the sender has. */
  lemma SentBringsUpToDate<S(!new)>(lattice: Lattice<S>, roster: Roster, s: System<S>, p: Socket, q: Socket)
    requires lattice.Laws() && Inv(lattice, roster, s) && Knows(s, p, q)
    ensures var r, x := ReplicaOf(s, p), ReplicaOf(s, q).data;
            lattice.join(x, Outdated(lattice, r, r.acks[IdOf(s, q)]).payload.delta) == lattice.join(x, r.data)
  {
    var r, x, id := ReplicaOf(s, p), ReplicaOf(s, q).data, IdOf(s, q);
    assert ReplicaOk(lattice, roster, s, p) && ReplicaOk(lattice, roster, s, q);
    assert AckSound(lattice, roster, s, p, id, r.acks[id].count);
    var d := Outdated(lattice, r, r.acks[id]).payload.delta;
    OutdatedSuffices(lattice, r, s.hist[p], r.acks[id], x);
    lattice.JoinIsUpper(x, r.data);
    lattice.JoinIsUpper(x, d);
    lattice.LeTransitive(d, r.data, lattice.join(x, r.data));
    lattice.JoinIsLeast(x, d, lattice.join(x, r.data));
    lattice.JoinIsLeast(x, r.data, lattice.join(x, d));
    lattice.LeAntisymmetric(lattice.join(x, d), lattice.join(x, r.data));
  }

  /** `q` receives what `p` sent. */
  ghost predicate Heard<S(!new)>(lattice: Lattice<S>, s: System<S>, t: System<S>, p: Socket, q: Socket)
    requires Knows(s, p, q)
  {
    var r := ReplicaOf(s, q);
    && IsActive(t, q) && t.nodes == s.nodes[q := t.nodes[q]] && t.prefs == s.prefs
    && (forall x :: x in s.timers ==> x in t.timers)
    && (t.nodes[q] == s.nodes[q] || Joined(lattice, s, t, p, q))
    && Packet(p, Ack(IdOf(s, q), ReplicaOf(s, p).clock)) in t.net
  }

  lemma Hears<S(!new)>(lattice: Lattice<S>, roster: Roster, s: System<S>, p: Socket, q: Socket)
    returns (t: System<S>)
    requires lattice.Laws() && Inv(lattice, roster, s)
    requires p != q && Knows(s, p, q) && Knows(s, q, p)
    requires Outdated(lattice, ReplicaOf(s, p), ReplicaOf(s, p).acks[IdOf(s, q)]) in s.net
    ensures Leads(lattice, roster, s, t) && Inv(lattice, roster, t) && Heard(lattice, s, t, p, q)
  {
    var r, id := ReplicaOf(s, p), IdOf(s, q);
    var packet := Outdated(lattice, r, r.acks[id]);
    AddressedTo(lattice, roster, s, p, q);
    SentBringsUpToDate(lattice, roster, s, p, q);
    LeadsOne(lattice, roster, s, Deliver(packet));
    hide Inv, Leads, Lattice.Laws, CausalNet.Received;
    t := Next(lattice, roster, s, Deliver(packet));
    DeltaTaken(lattice, s, q, packet.payload.delta, IdOf(s, p), r.clock);
  }

  lemma AddressedTo<S(!new)>(lattice: Lattice<S>, roster: Roster, s: System<S>, p: Socket, q: Socket)
    requires Inv(lattice, roster, s) && Knows(s, p, q) && Knows(s, q, p)
    ensures ReplicaOf(s, p).acks[IdOf(s, q)].member.socket == q
    ensures ReplicaOf(s, q).acks[IdOf(s, p)].member.socket == p
    ensures q in s.prefs && PriorityKnown(ReplicaOf(s, q), s.prefs[q])
  {
    assert ReplicaOk(lattice, roster, s, p) && ReplicaOk(lattice, roster, s, q);
    assert Listed(roster, ReplicaOf(s, p).member) && Listed(roster, ReplicaOf(s, q).member);
    assert Listed(roster, ReplicaOf(s, p).acks[IdOf(s, q)].member);
    assert Listed(roster, ReplicaOf(s, q).acks[IdOf(s, p)].member);
  }

  /** What a delta does to the process that takes it. */
  lemma DeltaTaken<S(!new)>(lattice: Lattice<S>, s: System<S>, q: Socket, d: S, id: nat, clock: nat)
    requires IsActive(s, q) && q in s.prefs && PriorityKnown(ReplicaOf(s, q), s.prefs[q])
    ensures var r := ReplicaOf(s, q);
            var r' := Causal.Received(lattice, r, d, id);
            var t := CausalNet.Received(lattice, s, Packet(q, Delta(d, id, clock)));
            && t.nodes == s.nodes[q := Active(r')] && t.prefs == s.prefs
            && (forall x :: x in s.timers ==> x in t.timers) && (r' != r ==> q in t.timers)
            && Reply(r, id, clock) <= t.net
  {
    hide Dispersal;
  }

  /** The answer is taken. */
  lemma Answered<S(!new)>(
    lattice: Lattice<S>, roster: Roster, s: System<S>, mid: System<S>, p: Socket, q: Socket) returns (t: System<S>)
    requires lattice.Laws() && Inv(lattice, roster, mid)
    requires p != q && Knows(s, p, q) && !CaughtUp(s, p, q) && ReplicaOf(s, p).Ok()
    requires Heard(lattice, s, mid, p, q)
    ensures Leads(lattice, roster, mid, t) && Inv(lattice, roster, t)
    ensures Helped(lattice, s, t, p) && CaughtUp(t, p, q)
  {
    var r, id := ReplicaOf(s, p), IdOf(s, q);
    var answer := Packet(p, Ack(id, r.clock));
    assert mid.nodes[p] == s.nodes[p];
    LeadsOne(lattice, roster, mid, Deliver(answer));
    hide Inv, Leads, Lattice.Laws, CausalNet.Received, Helped, Joined, OnlyAcks;
    t := Next(lattice, roster, mid, Deliver(answer));
    AckTaken(lattice, mid, p, id);
    HeardAndAnswered(lattice, s, mid, t, p, q);
  }

  lemma HeardAndAnswered<S(!new)>(
    lattice: Lattice<S>, s: System<S>, mid: System<S>, t: System<S>, p: Socket, q: Socket)
    requires p != q && Knows(s, p, q) && Heard(lattice, s, mid, p, q)
    requires IsActive(t, p) && t.nodes == mid.nodes[p := t.nodes[p]] && t.prefs == mid.prefs && t.timers == mid.timers
    requires OnlyAcks(ReplicaOf(s, p), ReplicaOf(t, p))
    ensures Helped(lattice, s, t, p)
  {
    forall x | x in s.nodes && x != p
      ensures Untouched(s, t, x) || Joined(lattice, s, t, p, x)
    {
      assert t.nodes[x] == mid.nodes[x];
    }
  }

  /** What an answer to the latest dispersal does to the process that takes it. */
  lemma AckTaken<S(!new)>(lattice: Lattice<S>, s: System<S>, p: Socket, id: nat)
    requires IsActive(s, p) && ReplicaOf(s, p).Ok()
    requires id in ReplicaOf(s, p).acks && ReplicaOf(s, p).acks[id].count < ReplicaOf(s, p).clock
    ensures var r := ReplicaOf(s, p);
            var t := CausalNet.Received(lattice, s, Packet(p, Ack(id, r.clock)));
            && IsActive(t, p) && t.nodes == s.nodes[p := t.nodes[p]] && t.prefs == s.prefs && t.timers == s.timers
            && OnlyAcks(r, ReplicaOf(t, p)) && ReplicaOf(t, p).acks[id].count == r.clock
  {
    AckedAlive(ReplicaOf(s, p), id, ReplicaOf(s, p).clock);
  }

  lemma Round<S(!new)>(lattice: Lattice<S>, roster: Roster, s: System<S>, p: Socket, q: Socket)
    returns (t: System<S>)
    requires lattice.Laws() && Inv(lattice, roster, s) && p in s.timers && p in s.prefs
    requires p != q && Knows(s, p, q) && Knows(s, q, p) && !CaughtUp(s, p, q)
    requires Chosen(ReplicaOf(s, p), s.prefs[p], IdOf(s, q))
    ensures Leads(lattice, roster, s, t) && Inv(lattice, roster, t)
    ensures Helped(lattice, s, t, p) && CaughtUp(t, p, q)
  {
    assert ReplicaOk(lattice, roster, s, p);
    assert ReplicaOf(s, p).Ok();
    hide Inv, ReplicaOk, Leads, Lattice.Laws, Helped, Heard;
    var a := TimerFires(lattice, roster, s, p, IdOf(s, q));
    var b := Hears(lattice, roster, a, p, q);
    t := Answered(lattice, roster, a, b, p, q);
    LeadsThen(lattice, roster, s, a, b);
    LeadsThen(lattice, roster, s, b, t);
    HelpedFrom(lattice, s, a, t, p);
  }

  lemma HelpedFrom<S(!new)>(lattice: Lattice<S>, s: System<S>, a: System<S>, t: System<S>, p: Socket)
    requires a.nodes == s.nodes && a.prefs == s.prefs && a.timers == s.timers
    requires Helped(lattice, a, t, p)
    ensures Helped(lattice, s, t, p)
  {
    forall x | x in s.nodes && x != p
      ensures Untouched(s, t, x) || Joined(lattice, s, t, p, x)
    {
      assert Untouched(a, t, x) || Joined(lattice, a, t, p, x);
    }
  }

  // ----- the group shares and confirms -----

  /** `p` brings the whole group up to date. */
  lemma {:induction false} CatchUp<S(!new)>(
    lattice: Lattice<S>, roster: Roster, s: System<S>, group: set<Socket>, p: Socket) returns (t: System<S>)
    requires lattice.Laws() && Inv(lattice, roster, s) && Connected(s, group) && p in group && Prompted(s, p)
    ensures Leads(lattice, roster, s, t) && Inv(lattice, roster, t)
    ensures Connected(t, group) && forall x | x in group && Prompted(s, x) :: Prompted(t, x)
    ensures Helped(lattice, s, t, p) && Behind(t, group, p) == {}
    decreases |Behind(s, group, p)|
  {
    hide Leads, Inv, Helped, Lattice.Laws, Chosen;
    if Behind(s, group, p) == {} {
      t := s;
      LeadsNowhere(lattice, roster, s);
      HelpedNothing(lattice, s, p);
    } else {
      var q := SomebodyIsReached(lattice, roster, s, group, p);
      assert Served(s, p, group) && Knows(s, q, p);
      InvMeansOk(lattice, roster, s, p);
      var mid := Round(lattice, roster, s, p, q);
      HelpedKeeps(lattice, s, mid, p, group);
      assert Behind(mid, group, p) <= Behind(s, group, p) - {q};
      assert |Behind(mid, group, p)| < |Behind(s, group, p)| by {
        assert Behind(s, group, p)
            == Behind(mid, group, p) + (Behind(s, group, p) - Behind(mid, group, p) - {q}) + {q};
      }
      t := CatchUp(lattice, roster, mid, group, p);
      LeadsThen(lattice, roster, s, mid, t);
      HelpedThen(lattice, s, mid, t, p);
    }
  }

  lemma InvMeansOk<S(!new)>(lattice: Lattice<S>, roster: Roster, s: System<S>, p: Socket)
    requires Inv(lattice, roster, s) && IsActive(s, p)
    ensures ReplicaOf(s, p).Ok() && p in s.prefs
  {
    assert ReplicaOk(lattice, roster, s, p);
  }

  /** Whoever has acknowledged everything holds everything. */
  lemma CaughtUpHolds<S(!new)>(lattice: Lattice<S>, roster: Roster, s: System<S>, p: Socket, q: Socket)
    requires Inv(lattice, roster, s) && CaughtUp(s, p, q)
    ensures lattice.Le(DataOf(lattice, s, p), DataOf(lattice, s, q))
  {
    assert ReplicaOk(lattice, roster, s, p) && ReplicaOk(lattice, roster, s, q);
    assert AckSound(lattice, roster, s, p, IdOf(s, q), ReplicaOf(s, p).clock);
  }

  /** After `p` has brought the group up to date, everyone's data is joined with its data. */
  lemma CatchUpJoins<S(!new)>(
    lattice: Lattice<S>, roster: Roster, s: System<S>, t: System<S>, group: set<Socket>, p: Socket, x: Socket)
    requires lattice.Laws() && Inv(lattice, roster, t) && Helped(lattice, s, t, p)
    requires Behind(t, group, p) == {} && p in group && x in group && IsActive(s, x)
    ensures DataOf(lattice, t, x) == lattice.join(DataOf(lattice, s, x), DataOf(lattice, s, p))
    ensures DataOf(lattice, t, x) == DataOf(lattice, s, x) || x in t.timers
  {
    var d := DataOf(lattice, s, p);
    assert lattice.Bounds(d);
    if x != p {
      assert x !in Behind(t, group, p);
      CaughtUpHolds(lattice, roster, t, p, x);
      assert Untouched(s, t, x) || Joined(lattice, s, t, p, x);
      assert lattice.Commutes(DataOf(lattice, s, x), d);
    }
  }

  /** Whoever has a timer teaches one that has none, which starts a timer of its own; and so on. */
  lemma {:induction false} PromptAll<S(!new)>(
    lattice: Lattice<S>, roster: Roster, s: System<S>, group: set<Socket>) returns (t: System<S>)
    requires lattice.Laws() && Inv(lattice, roster, s) && Connected(s, group) && Taught(lattice, s, group)
    ensures Leads(lattice, roster, s, t) && Inv(lattice, roster, t) && MaySettle(t, group)
    decreases |Unprompted(s, group)|
  {
    hide Leads, Inv, Helped, Behind, DataOf, Lattice.Laws, Connected;
    var rest := Unprompted(s, group);
    if rest == {} {
      t := s;
      LeadsNowhere(lattice, roster, s);
      assert forall p | p in group :: p !in rest;
    } else {
      assert HasNews(lattice, s, group, rest);
      var p, x :| p in rest && x in group - rest && !lattice.Le(DataOf(lattice, s, x), DataOf(lattice, s, p));
      assert Prompted(s, x);
      var mid := CatchUp(lattice, roster, s, group, x);
      assert Unprompted(mid, group) <= rest;
      StaysTaught(lattice, roster, s, mid, group, x);
      LearnerIsPrompted(lattice, roster, s, mid, group, x, p);
      assert rest == Unprompted(mid, group) + (rest - Unprompted(mid, group) - {p}) + {p};
      t := PromptAll(lattice, roster, mid, group);
      LeadsThen(lattice, roster, s, mid, t);
    }
  }

  lemma LearnerIsPrompted<S(!new)>(
    lattice: Lattice<S>, roster: Roster, s: System<S>, t: System<S>, group: set<Socket>, x: Socket, p: Socket)
    requires lattice.Laws() && Inv(lattice, roster, t) && Helped(lattice, s, t, x) && Behind(t, group, x) == {}
    requires x in group && p in group && Connected(s, group)
    requires !lattice.Le(DataOf(lattice, s, x), DataOf(lattice, s, p))
    ensures Prompted(t, p)
  {
    CatchUpJoins(lattice, roster, s, t, group, x, p);
    assert lattice.Commutes(DataOf(lattice, s, p), DataOf(lattice, s, x));
  }

  lemma StaysTaught<S(!new)>(
    lattice: Lattice<S>, roster: Roster, s: System<S>, t: System<S>, group: set<Socket>, x: Socket)
    requires lattice.Laws() && Inv(lattice, roster, t) && Helped(lattice, s, t, x) && Behind(t, group, x) == {}
    requires x in group && Connected(s, group) && Taught(lattice, s, group)
    requires forall p | p in group && Prompted(s, p) :: Prompted(t, p)
    ensures Taught(lattice, t, group)
  {
    assert forall p | p in group :: IsActive(s, p);
    hide Inv, Helped, Behind, DataOf, Lattice.Laws, Connected;
    forall some: set<Socket> | some != {} && some <= Unprompted(t, group)
      ensures HasNews(lattice, t, group, some)
    {
      assert some <= Unprompted(s, group);
      assert HasNews(lattice, s, group, some);
      var p, y :| p in some && y in group - some && !lattice.Le(DataOf(lattice, s, y), DataOf(lattice, s, p));
      CatchUpJoins(lattice, roster, s, t, group, x, p);
      CatchUpJoins(lattice, roster, s, t, group, x, y);
      assert DataOf(lattice, t, p) == DataOf(lattice, s, p);
      lattice.JoinIsUpper(DataOf(lattice, s, y), DataOf(lattice, s, x));
      if lattice.Le(DataOf(lattice, t, y), DataOf(lattice, t, p)) {
        lattice.LeTransitive(DataOf(lattice, s, y), DataOf(lattice, t, y), DataOf(lattice, t, p));
        assert false;
      }
      assert p in some && y in group - some;
    }
  }

  ghost predicate Above<S(!new)>(lattice: Lattice<S>, s: System<S>, group: set<Socket>, top: S) {
    forall x | x in group :: lattice.Le(DataOf(lattice, s, x), top)
  }

  /** After everyone in `done` has brought the group up to date, everyone holds what they had, and nobody holds more
      than the group had together. */
  lemma {:induction false} Share<S(!new)>(
    lattice: Lattice<S>, roster: Roster, s: System<S>, group: set<Socket>, todo: set<Socket>) returns (t: System<S>)
    requires lattice.Laws() && Inv(lattice, roster, s) && MaySettle(s, group) && todo <= group
    ensures Leads(lattice, roster, s, t) && Inv(lattice, roster, t) && MaySettle(t, group)
    ensures forall p, x | p in todo && x in group :: lattice.Le(DataOf(lattice, s, p), DataOf(lattice, t, x))
    ensures forall p | p in group :: lattice.Le(DataOf(lattice, s, p), DataOf(lattice, t, p))
    ensures forall top | Above(lattice, s, group, top) :: Above(lattice, t, group, top)
    decreases todo
  {
    hide Leads, Inv, Helped, Behind, DataOf, Connected, Prompted;
    if todo == {} {
      t := s;
      LeadsNowhere(lattice, roster, s);
      forall p | p in group
        ensures lattice.Le(DataOf(lattice, s, p), DataOf(lattice, t, p))
      {
        lattice.LeReflexive(DataOf(lattice, s, p));
      }
    } else {
      var p :| p in todo;
      var mid := Share(lattice, roster, s, group, todo - {p});
      t := CatchUp(lattice, roster, mid, group, p);
      LeadsThen(lattice, roster, s, mid, t);
      ShareOne(lattice, roster, mid, t, group, p);
      forall q, x | q in todo && x in group
        ensures lattice.Le(DataOf(lattice, s, q), DataOf(lattice, t, x))
      {
        if q == p {
          lattice.LeTransitive(DataOf(lattice, s, p), DataOf(lattice, mid, p), DataOf(lattice, t, x));
        } else {
          lattice.LeTransitive(DataOf(lattice, s, q), DataOf(lattice, mid, x), DataOf(lattice, t, x));
        }
      }
      forall q | q in group
        ensures lattice.Le(DataOf(lattice, s, q), DataOf(lattice, t, q))
      {
        lattice.LeTransitive(DataOf(lattice, s, q), DataOf(lattice, mid, q), DataOf(lattice, t, q));
      }
    }
  }

  lemma ShareOne<S(!new)>(
    lattice: Lattice<S>, roster: Roster, s: System<S>, t: System<S>, group: set<Socket>, p: Socket)
    requires lattice.Laws() && Inv(lattice, roster, t) && Helped(lattice, s, t, p)
    requires Behind(t, group, p) == {} && p in group && MaySettle(s, group)
    ensures forall x | x in group :: lattice.Le(DataOf(lattice, s, p), DataOf(lattice, t, x))
    ensures forall x | x in group :: lattice.Le(DataOf(lattice, s, x), DataOf(lattice, t, x))
    ensures forall top | Above(lattice, s, group, top) :: Above(lattice, t, group, top)
  {
    assert forall x | x in group :: IsActive(s, x);
    hide Helped, Behind, Inv, DataOf, MaySettle;
    forall x | x in group
      ensures lattice.Le(DataOf(lattice, s, p), DataOf(lattice, t, x))
      ensures lattice.Le(DataOf(lattice, s, x), DataOf(lattice, t, x))
      ensures forall top | Above(lattice, s, group, top) :: lattice.Le(DataOf(lattice, t, x), top)
    {
      CatchUpJoins(lattice, roster, s, t, group, p, x);
      lattice.JoinIsUpper(DataOf(lattice, s, x), DataOf(lattice, s, p));
      forall top | Above(lattice, s, group, top)
        ensures lattice.Le(DataOf(lattice, t, x), top)
      {
        lattice.JoinIsLeast(DataOf(lattice, s, x), DataOf(lattice, s, p), top);
      }
    }
  }

  ghost predicate Agree<S(!new)>(lattice: Lattice<S>, s: System<S>, group: set<Socket>, data: S) {
    forall x | x in group :: DataOf(lattice, s, x) == data
  }

  lemma ShareAgrees<S(!new)>(lattice: Lattice<S>, s: System<S>, t: System<S>, group: set<Socket>, root: Socket)
    requires lattice.Laws() && root in group
    requires forall p, x | p in group && x in group :: lattice.Le(DataOf(lattice, s, p), DataOf(lattice, t, x))
    requires forall top | Above(lattice, s, group, top) :: Above(lattice, t, group, top)
    ensures Agree(lattice, t, group, DataOf(lattice, t, root))
  {
    forall x | x in group
      ensures DataOf(lattice, t, x) == DataOf(lattice, t, root)
    {
      assert Above(lattice, s, group, DataOf(lattice, t, root)) && Above(lattice, s, group, DataOf(lattice, t, x));
      lattice.LeAntisymmetric(DataOf(lattice, t, x), DataOf(lattice, t, root));
    }
  }

  lemma StaysCaughtUp<S(!new)>(
    lattice: Lattice<S>, s: System<S>, t: System<S>, p: Socket, x: Socket, y: Socket)
    requires Helped(lattice, s, t, p) && CaughtUp(s, x, y) && t.nodes[x] == s.nodes[x]
    ensures CaughtUp(t, x, y)
  {
    SameIdentities(lattice, s, t, p);
  }

  /** Once the data agree, bringing the group up to date changes nothing but the acknowledgements of the one process. */
  lemma ConfirmOne<S(!new)>(
    lattice: Lattice<S>, roster: Roster, s: System<S>, t: System<S>, group: set<Socket>, data: S, p: Socket)
    requires lattice.Laws() && Inv(lattice, roster, t) && Helped(lattice, s, t, p) && Behind(t, group, p) == {}
    requires p in group && MaySettle(s, group) && Agree(lattice, s, group, data)
    ensures Agree(lattice, t, group, data)
    ensures forall x | x in group && x != p && Behind(s, group, x) == {} :: Behind(t, group, x) == {}
  {
    assert lattice.Bounds(data) && forall x | x in group :: IsActive(s, x);
    hide MaySettle;
    forall x | x in group
      ensures DataOf(lattice, t, x) == data
      ensures x != p ==> t.nodes[x] == s.nodes[x]
    {
      CatchUpJoins(lattice, roster, s, t, group, p, x);
      assert x != p ==> Untouched(s, t, x) || Joined(lattice, s, t, p, x);
    }
    forall x, y | x in group && x != p && y in group && y != x && CaughtUp(s, x, y)
      ensures CaughtUp(t, x, y)
    {
      StaysCaughtUp(lattice, s, t, p, x, y);
    }
  }

  lemma {:induction false} Confirm<S(!new)>(
    lattice: Lattice<S>, roster: Roster, s: System<S>, group: set<Socket>, data: S, todo: set<Socket>)
    returns (t: System<S>)
    requires lattice.Laws() && Inv(lattice, roster, s) && MaySettle(s, group) && todo <= group
    requires Agree(lattice, s, group, data)
    ensures Leads(lattice, roster, s, t) && Inv(lattice, roster, t) && MaySettle(t, group)
    ensures Agree(lattice, t, group, data)
    ensures forall p | p in todo :: Behind(t, group, p) == {}
    decreases todo
  {
    if todo == {} {
      hide *;
      t := s;
      LeadsNowhere(lattice, roster, s);
    } else {
      var p :| p in todo;
      hide Leads, Inv, Helped, Behind, Agree, Lattice.Laws, Connected, Prompted;
      var mid := Confirm(lattice, roster, s, group, data, todo - {p});
      t := CatchUp(lattice, roster, mid, group, p);
      LeadsThen(lattice, roster, s, mid, t);
      ConfirmOne(lattice, roster, mid, t, group, data, p);
    }
  }

  lemma NobodyBehindIsSettled<S(!new)>(s: System<S>, group: set<Socket>)
    requires Mutual(s, group) && forall p | p in group :: Behind(s, group, p) == {}
    ensures Settled(s, group)
  {
    forall p, q | p in group && q in group && p != q
      ensures CaughtUp(s, p, q)
    {
      assert q !in Behind(s, group, p);
    }
  }

  lemma Settle<S(!new)>(lattice: Lattice<S>, roster: Roster, s: System<S>, group: set<Socket>, root: Socket)
    returns (t: System<S>, data: S)
    requires lattice.Laws() && Inv(lattice, roster, s) && Connected(s, group) && Taught(lattice, s, group)
    requires root in group
    ensures Leads(lattice, roster, s, t) && Settled(t, group) && Agree(lattice, t, group, data)
  {
    hide Leads, Inv, Settled, Lattice.Laws, DataOf, Agree, Above, Behind, Taught;
    var prompted := PromptAll(lattice, roster, s, group);
    var mid := Share(lattice, roster, prompted, group, group);
    ShareAgrees(lattice, prompted, mid, group, root);
    data := DataOf(lattice, mid, root);
    t := Confirm(lattice, roster, mid, group, data, group);
    LeadsThen(lattice, roster, prompted, mid, t);
    LeadsThen(lattice, roster, s, prompted, t);
    NobodyBehindIsSettled(t, group);
  }

  /** From every reachable state, a group whose members know each other, are served by their preferences, and have
      timers pending or are taught by those that do, can settle without any further operation, and then agrees. */
  lemma GroupCanSettle<S(!new)>(lattice: Lattice<S>, roster: Roster, s: System<S>, group: set<Socket>)
    requires lattice.Laws() && Reachable(lattice, roster, s) && Connected(s, group) && Taught(lattice, s, group)
    ensures exists t, data ::
              Leads(lattice, roster, s, t) && Settled(t, group) && Agree(lattice, t, group, data)
  {
    ReachableInv(lattice, roster, s);
    hide *;
    var t, data := s, lattice.minimum;
    if group == {} {
      NobodySettled(lattice, roster, s);
    } else {
      var root :| root in group;
      t, data := Settle(lattice, roster, s, group, root);
    }
    assert Leads(lattice, roster, s, t) && Settled(t, group) && Agree(lattice, t, group, data);
  }

  lemma NobodySettled<S(!new)>(lattice: Lattice<S>, roster: Roster, s: System<S>)
    ensures Leads(lattice, roster, s, s) && Settled(s, {}) && Agree(lattice, s, {}, lattice.minimum)
  {
    LeadsNowhere(lattice, roster, s);
  }
}
