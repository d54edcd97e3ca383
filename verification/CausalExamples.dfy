/** Two groups that never settle, each in a state that the program does reach. The lattice is a flag that can be set. */
module CausalExamples {
  import opened Causal
  import opened CausalNet
  import opened CausalProgress
  import opened CausalStarving
  import opened CausalTimers
  import opened Lattices
  import opened Members

  function Flag(): Lattice<bool> {
    Lattice(false, (a, b) => a || b, a => !a)
  }

  lemma FlagLaws()
    ensures Flag().Laws()
  {
    var l := Flag();
    assert forall a, b :: l.Commutes(a, b);
    assert forall a, b, c :: l.Associates(a, b, c);
    assert forall a :: l.Bounds(a);
  }

  function Someone(id: nat): Member {
    Member(Socket(IP(false, id), 5000, 5001), id, 1)
  }

  const ONE := Someone(1).socket

  // ----- the default preference, with one silent outsider -----

  const DEFAULT := Preference({}, 1, OutOfDate)

  const ROSTER: Roster := map[1 := Someone(1), 2 := Someone(2), 3 := Someone(3)]

  /** Member 3 knows 1, which never starts, and 2; it sets the flag. */
  function ThreeSetsTheFlag(): seq<Step<bool>> {
    [ Step.Start(Someone(3).socket, Someone(3), {Someone(1), Someone(2)}),
      Step.Start(Someone(2).socket, Someone(2), {Someone(3)}),
      Mutate(Someone(3).socket, _ => true) ]
  }

  const TWO := Someone(2).socket
  const THREE := Someone(3).socket

  function ReplicaTwo(): Replica<bool> {
    Replica(false, 0, Someone(2), [], map[3 := Peer(Someone(3), 0)], 0)
  }

  function ReplicaThree(): Replica<bool> {
    Replica(true, 1, Someone(3), [true], map[1 := Peer(Someone(1), 0), 2 := Peer(Someone(2), 0)], 0)
  }

  ghost predicate FlagIsSet(s: System<bool>) {
    && s.nodes == map[TWO := Active(ReplicaTwo()), THREE := Active(ReplicaThree())]
    && s.prefs == map[TWO := DEFAULT, THREE := DEFAULT]
    && s.timers == multiset{THREE}
    && s.net == Dispersal(Flag(), ReplicaThree(), DEFAULT)
  }

  ghost predicate BothStarted(s: System<bool>) {
    && s.nodes == map[TWO := Active(ReplicaTwo()),
                      THREE := Active(ReplicaThree().(data := false, clock := 0, deltas := []))]
    && s.prefs == map[TWO := DEFAULT, THREE := DEFAULT] && s.timers == multiset{} && s.net == {}
  }

  lemma ThreeStarts(s: System<bool>) returns (t: System<bool>)
    requires s == Initial(map[TWO := DEFAULT, THREE := DEFAULT])
    ensures Enabled(ROSTER, s, ThreeSetsTheFlag()[0])
    ensures t == Next(Flag(), ROSTER, s, ThreeSetsTheFlag()[0])
    ensures t.nodes == map[TWO := Waiting([]),
                           THREE := Active(ReplicaThree().(data := false, clock := 0, deltas := []))]
    ensures t.prefs == s.prefs && t.timers == multiset{} && t.net == {}
  {
    assert NewPeers({Someone(1), Someone(2)} - {Someone(3)})
        == map[1 := Peer(Someone(1), 0), 2 := Peer(Someone(2), 0)];
    t := Next(Flag(), ROSTER, s, ThreeSetsTheFlag()[0]);
  }

  lemma TwoStarts(s: System<bool>) returns (t: System<bool>)
    requires s.nodes == map[TWO := Waiting([]),
                            THREE := Active(ReplicaThree().(data := false, clock := 0, deltas := []))]
    requires s.prefs == map[TWO := DEFAULT, THREE := DEFAULT]
    requires s.timers == multiset{} && s.net == {}
    ensures Enabled(ROSTER, s, ThreeSetsTheFlag()[1])
    ensures t == Next(Flag(), ROSTER, s, ThreeSetsTheFlag()[1]) && BothStarted(t)
  {
    assert NewPeers({Someone(3)} - {Someone(2)}) == map[3 := Peer(Someone(3), 0)];
    t := Next(Flag(), ROSTER, s, ThreeSetsTheFlag()[1]);
  }

  lemma TwoStarted(s0: System<bool>) returns (s: System<bool>)
    requires s0 == Initial(map[TWO := DEFAULT, THREE := DEFAULT])
    ensures Reaches(Flag(), ROSTER, s0, ThreeSetsTheFlag()[..2], s) && BothStarted(s)
  {
    var s1 := ThreeStarts(s0);
    s := TwoStarts(s1);
    var steps := ThreeSetsTheFlag();
    hide *;
    ReachesOne(Flag(), ROSTER, s0, steps[0]);
    ReachesPush(Flag(), ROSTER, s0, [steps[0]], s1, steps[1]);
    assert ThreeSetsTheFlag()[..2] == [steps[0]] + [steps[1]];
  }

  lemma FlagSet(s0: System<bool>) returns (s: System<bool>)
    requires s0 == Initial(map[TWO := DEFAULT, THREE := DEFAULT])
    ensures Reaches(Flag(), ROSTER, s0, ThreeSetsTheFlag(), s) && FlagIsSet(s)
  {
    var s2 := TwoStarted(s0);
    s := SetFlag(s2);
    hide *;
    ReachesPush(Flag(), ROSTER, s0, ThreeSetsTheFlag()[..2], s2, ThreeSetsTheFlag()[2]);
    assert ThreeSetsTheFlag() == ThreeSetsTheFlag()[..2] + [ThreeSetsTheFlag()[2]];
  }

  lemma SetFlag(s: System<bool>) returns (t: System<bool>)
    requires BothStarted(s)
    ensures |ThreeSetsTheFlag()| == 3
    ensures Enabled(ROSTER, s, ThreeSetsTheFlag()[2])
    ensures t == Next(Flag(), ROSTER, s, ThreeSetsTheFlag()[2]) && FlagIsSet(t)
  {
    hide Dispersal;
    t := Next(Flag(), ROSTER, s, ThreeSetsTheFlag()[2]);
    assert ReplicaThree().deltas == [] + [true];
    assert t.timers == multiset{THREE};
  }

  lemma OneIsAhead(s: System<bool>)
    requires FlagIsSet(s)
    ensures IsActive(s, THREE) && 2 in ReplicaOf(s, THREE).acks && |SilentAhead(s, THREE, 2)| >= 1
  {
    hide Dispersal;
    assert ReplicaOf(s, THREE) == ReplicaThree();
    assert 1 in Ahead(ReplicaThree(), DEFAULT, 2);
    assert Silent(s, THREE, 1) by {
      forall packet | packet in s.net
        ensures packet.payload.Delta?
      {
        OnlyToOne(packet);
      }
    }
    assert SilentAhead(s, THREE, 2) == {1} + (SilentAhead(s, THREE, 2) - {1});
  }

  lemma OnlyToOne(packet: Packet<bool>)
    requires packet in Dispersal(Flag(), ReplicaThree(), DEFAULT)
    ensures packet.payload.Delta? && packet.to == Someone(1).socket
  {
    assert 1 in Ahead(ReplicaThree(), DEFAULT, 2);
    assert Ahead(ReplicaThree(), DEFAULT, 2) == {1} + (Ahead(ReplicaThree(), DEFAULT, 2) - {1});
  }

  lemma ThreePassesTwoOver(s: System<bool>)
    requires FlagIsSet(s)
    ensures Starved(ROSTER, s, THREE, TWO)
  {
    OneIsAhead(s);
    hide Dispersal, SilentAhead;
    assert ReplicaOf(s, THREE) == ReplicaThree() && ReplicaOf(s, TWO) == ReplicaTwo();
    forall packet | packet in s.net
      ensures NoNews(ROSTER, s, THREE, TWO, packet)
    {
      OnlyToOne(packet);
    }
  }

  lemma TwoAndThreeArePrompted(s: System<bool>)
    requires FlagIsSet(s)
    ensures Mutual(s, {TWO, THREE})
    ensures forall p | p in {TWO, THREE} :: Prompted(s, p) && p in s.prefs && s.prefs[p] == DEFAULT
  {
    hide Dispersal;
    assert ReplicaOf(s, THREE) == ReplicaThree() && ReplicaOf(s, TWO) == ReplicaTwo();
  }

  lemma RunIsReachable(s0: System<bool>, s: System<bool>)
    requires s0 == Initial(map[TWO := DEFAULT, THREE := DEFAULT])
    requires Reaches(Flag(), ROSTER, s0, ThreeSetsTheFlag(), s)
    ensures Reachable(Flag(), ROSTER, s)
  {
  }

  /** Under the default preference 3 only ever sends to 1, so 2 and 3 never settle. */
  lemma DefaultPreferenceCanStarve() returns (s: System<bool>)
    ensures Reachable(Flag(), ROSTER, s) && Mutual(s, {TWO, THREE})
    ensures forall p | p in {TWO, THREE} :: Prompted(s, p) && p in s.prefs && s.prefs[p] == DEFAULT
    ensures forall t | Leads(Flag(), ROSTER, s, t) :: !Settled(t, {TWO, THREE})
  {
    FlagLaws();
    var s0: System<bool> := Initial(map[TWO := DEFAULT, THREE := DEFAULT]);
    s := FlagSet(s0);
    hide *;
    ThreePassesTwoOver(s);
    TwoAndThreeArePrompted(s);
    RunIsReachable(s0, s);
    ReachableInv(Flag(), ROSTER, s);
    StarvedNeverSettles(Flag(), ROSTER, s, {TWO, THREE}, THREE, TWO);
  }

  // ----- an operation queued before the start, with nothing to prompt its dispersal -----

  const EVERYONE := Preference({}, 1, All)

  function OneQueuesTheFlag(): seq<Step<bool>> {
    [ Queue(ONE, _ => true),
      Step.Start(ONE, Someone(1), {Someone(2)}),
      Step.Start(TWO, Someone(2), {Someone(1)}) ]
  }

  function ReplicaOne(): Replica<bool> {
    Replica(true, 1, Someone(1), [true], map[2 := Peer(Someone(2), 0)], 0)
  }

  function OtherTwo(): Replica<bool> {
    Replica(false, 0, Someone(2), [], map[1 := Peer(Someone(1), 0)], 0)
  }

  ghost predicate NobodyPrompted(s: System<bool>) {
    && s.nodes == map[ONE := Active(ReplicaOne()), TWO := Active(OtherTwo())]
    && s.prefs == map[ONE := EVERYONE, TWO := EVERYONE] && s.timers == multiset{} && s.net == {}
  }

  lemma OneStarts(s0: System<bool>) returns (s: System<bool>)
    requires s0 == Initial(map[ONE := EVERYONE, TWO := EVERYONE])
    ensures Reaches(Flag(), ROSTER, s0, OneQueuesTheFlag()[..2], s)
    ensures s.nodes == map[ONE := Active(ReplicaOne()), TWO := Waiting([])]
    ensures s.prefs == s0.prefs && s.timers == multiset{} && s.net == {}
  {
    var steps := OneQueuesTheFlag();
    var s1 := Next(Flag(), ROSTER, s0, steps[0]);
    s := Next(Flag(), ROSTER, s1, steps[1]);
    assert s1.nodes[ONE].ops == [] + [steps[0].op];
    assert s1.nodes[ONE].ops[..0] == [];
    assert ApplyOps(Flag(), s1.nodes[ONE].ops) == true;
    assert NewPeers({Someone(2)} - {Someone(1)}) == map[2 := Peer(Someone(2), 0)];
    ReachesOne(Flag(), ROSTER, s0, steps[0]);
    ReachesPush(Flag(), ROSTER, s0, [steps[0]], s1, steps[1]);
    assert OneQueuesTheFlag()[..2] == [steps[0]] + [steps[1]];
  }

  lemma BothStart(s0: System<bool>) returns (s: System<bool>)
    requires s0 == Initial(map[ONE := EVERYONE, TWO := EVERYONE])
    ensures Reaches(Flag(), ROSTER, s0, OneQueuesTheFlag(), s) && NobodyPrompted(s)
  {
    var step := OneQueuesTheFlag()[2];
    var s1 := OneStarts(s0);
    assert NewPeers({Someone(1)} - {Someone(2)}) == map[1 := Peer(Someone(1), 0)];
    s := Next(Flag(), ROSTER, s1, step);
    assert NobodyPrompted(s);
    ReachesPush(Flag(), ROSTER, s0, OneQueuesTheFlag()[..2], s1, step);
    assert OneQueuesTheFlag() == OneQueuesTheFlag()[..2] + [step];
  }

  /** Each selects everyone, yet 2 never hears of the flag: turning from waiting to active disperses nothing and starts
      no timer. */
  lemma QueuedOperationCanBeStuck() returns (s: System<bool>)
    ensures Reachable(Flag(), ROSTER, s) && Mutual(s, {ONE, TWO})
    ensures forall p | p in {ONE, TWO} :: Served(s, p, {ONE, TWO})
    ensures JustStarted(ROSTER, s, ONE) && !Prompted(s, ONE)
    ensures forall t | Leads(Flag(), ROSTER, s, t) :: !Settled(t, {ONE, TWO})
  {
    var s0: System<bool> := Initial(map[ONE := EVERYONE, TWO := EVERYONE]);
    s := BothStart(s0);
    OneIsUnprompted(s);
    hide *;
    FlagLaws();
    QueuedRunIsReachable(s0, s);
    ReachableInv(Flag(), ROSTER, s);
    UntaughtNeverSettles(Flag(), ROSTER, s, {ONE, TWO}, {ONE}, ONE, TWO);
  }

  lemma QueuedRunIsReachable(s0: System<bool>, s: System<bool>)
    requires s0 == Initial(map[ONE := EVERYONE, TWO := EVERYONE])
    requires Reaches(Flag(), ROSTER, s0, OneQueuesTheFlag(), s)
    ensures Reachable(Flag(), ROSTER, s)
  {
  }

  lemma OneIsUnprompted(s: System<bool>)
    requires NobodyPrompted(s)
    ensures Mutual(s, {ONE, TWO}) && forall p | p in {ONE, TWO} :: Served(s, p, {ONE, TWO})
    ensures JustStarted(ROSTER, s, ONE) && !Prompted(s, ONE)
    ensures ONE != TWO && Untaught(Flag(), ROSTER, s, {ONE})
  {
    assert ReplicaOf(s, ONE) == ReplicaOne() && ReplicaOf(s, TWO) == OtherTwo();
    assert 2 in ReplicaOne().acks && ReplicaOne().acks[2].count == 0;
    assert UntaughtOne(Flag(), ROSTER, s, {ONE}, ONE);
  }
}
