/** Gossip states and their merge. */
module Gossip {
  import opened Lattices
  import opened Members
  import opened Ordered

  datatype MachineState = Up | Down

  type States = map<Member, MachineState>

  predicate StateLess(a: MachineState, b: MachineState) {
    a.Up? && b.Down?
  }

  function Later(a: MachineState, b: MachineState): MachineState {
    if StateLess(a, b) then b else a
  }

  /** What a merge is for: every member at the later of its two states. */
  function Merged(a: States, b: States): States {
    map m | m in a.Keys + b.Keys ::
      if m in a && m in b then Later(a[m], b[m]) else if m in a then a[m] else b[m]
  }

  function UpSet(s: States): set<Member> {
    set m | m in s && s[m].Up?
  }

  function Nothing(s: States): bool {
    s == map[]
  }

  function GossipLattice(): Lattice<States> {
    Lattice(map[], Merged, Nothing)
  }

  lemma MergedAssociates(a: States, b: States, c: States)
    ensures Merged(Merged(a, b), c) == Merged(a, Merged(b, c))
  {
  }

  lemma GossipIsALattice()
    ensures GossipLattice().Laws()
  {
    var l := GossipLattice();
    forall a, b ensures l.Commutes(a, b) {
      assert Merged(a, b) == Merged(b, a);
    }
    forall a, b, c ensures l.Associates(a, b, c) {
      MergedAssociates(a, b, c);
    }
    forall a ensures l.Bounds(a) {
      assert Merged(a, a) == a && Merged(map[], a) == a;
    }
  }

  /** The state after any number of merges depends only on which gossips were merged: not on their order,
      their grouping or how often each of them arrived. */
  lemma MergesIgnoreOrder(gossips: seq<States>, others: seq<States>)
    requires forall g :: g in gossips <==> g in others
    ensures GossipLattice().JoinAll(gossips) == GossipLattice().JoinAll(others)
  {
    GossipIsALattice();
    GossipLattice().JoinAllIgnoresOrder(gossips, others);
  }

  /** Gossip only moves a member forward: nobody disappears, and whoever is down stays down. */
  predicate Follows(before: States, after: States) {
    forall m :: m in before ==> m in after && (before[m].Down? ==> after[m].Down?)
  }

  lemma MergedFollows(a: States, b: States)
    ensures Follows(a, Merged(a, b)) && Follows(b, Merged(a, b))
  {
  }

  /** The events of a transition, one for each member whose presence changed, in member order. */
  ghost predicate Reports(events: seq<ClusterEvent>, before: States, after: States) {
    && (forall e :: e in events ==> e.Added? || e.Removed?)
    && (forall i, j :: 0 <= i < j < |events| ==> MemberLess(events[i].member, events[j].member))
    && (forall m :: Added(m) in events <==> m in UpSet(after) - UpSet(before))
    && (forall m :: Removed(m) in events <==> m in UpSet(before) - UpSet(after))
  }

  /** Reported events come in the order of their members' fields. */
  lemma ReportsInOrder(events: seq<ClusterEvent>, before: States, after: States, i: nat, j: nat)
    requires Reports(events, before, after) && i < j < |events|
    ensures events[i] != Left && events[j] != Left
    ensures var a, b := events[i].member, events[j].member;
            var s, t := a.socket, b.socket;
            && a != b
            && (s.host == t.host ==> s.udp <= t.udp)
            && (s.host == t.host && s.udp == t.udp ==> s.tcp <= t.tcp)
            && (s == t ==> a.id <= b.id)
            && (s == t && a.id == b.id ==> a.vnodes < b.vnodes)
            && (t.host.DNS? ==> s.host.DNS?)
            && (s.host.IP? && t.host.IP? ==> (!s.host.v6 || t.host.v6))
            && (s.host.IP? && t.host.IP? && s.host.v6 == t.host.v6 ==> s.host.bits <= t.host.bits)
            && (s.host.DNS? && t.host.DNS? && s.host != t.host ==>
                  var m, n := s.host.name, t.host.name;
                  exists k: nat :: k <= |m| && k < |n| && m[..k] == n[..k] && (k == |m| || m[k] < n[k]))
  {
    assert events[i] in events && events[j] in events;
    assert MemberLess(events[i].member, events[j].member);
    OrderByFields(events[i].member, events[j].member);
  }

  /** `iter()` on a map of members. */
  method Iterate(members: set<Member>) returns (r: seq<Member>)
    ensures SortedBy(MemberLess, r) && forall m :: m in r <==> m in members
  {
    MemberOrder();
    r := Ascending(MemberLess, members);
  }

  /** What the merge has to do about one member of the other map. */
  predicate IsNews(states: States, m: Member, s: MachineState) {
    m !in states || StateLess(states[m], s)
  }

  function News(states: States, m: Member, s: MachineState): seq<ClusterEvent> {
    if s.Up? then (if m !in states then [Added(m)] else [])
    else if m in states && states[m].Up? then [Removed(m)] else []
  }

  /** The part of the other map that has been gone through, and what it led to. */
  ghost predicate Progress(states: States, other: States, done: seq<Member>, events: seq<ClusterEvent>,
                           changes: seq<(Member, MachineState)>)
    requires forall m :: m in done ==> m in other
  {
    && (forall e :: e in events ==> (e.Added? || e.Removed?) && e.member in done
                                    && e in News(states, e.member, other[e.member]))
    && (forall m, e :: m in done && e in News(states, m, other[m]) ==> e in events)
    && (forall i, j :: 0 <= i < j < |events| ==> MemberLess(events[i].member, events[j].member))
    && (forall c :: c in changes <==> c.0 in done && c.1 == other[c.0] && IsNews(states, c.0, c.1))
  }

  lemma ProgressStart(states: States, other: States)
    ensures Progress(states, other, [], [], [])
  {
  }

  lemma ProgressStep(states: States, other: States, done: seq<Member>, events: seq<ClusterEvent>,
                     changes: seq<(Member, MachineState)>, m: Member)
    requires forall d :: d in done ==> d in other && MemberLess(d, m)
    requires m in other && Progress(states, other, done, events, changes)
    ensures forall d :: d in done + [m] ==> d in other
    ensures Progress(states, other, done + [m], events + News(states, m, other[m]),
                     changes + if IsNews(states, m, other[m]) then [(m, other[m])] else [])
  {
  }

  lemma ProgressReports(states: States, other: States, done: seq<Member>, events: seq<ClusterEvent>,
                        changes: seq<(Member, MachineState)>)
    requires forall m :: m in done <==> m in other
    requires Progress(states, other, done, events, changes)
    ensures Reports(events, states, Merged(states, other))
    ensures forall c :: c in changes <==> c.0 in other && c.1 == other[c.0] && IsNews(states, c.0, c.1)
  {
  }

  /** Walks both maps in member order with two cursors. */
  method Compare(states: States, other: States)
    returns (events: seq<ClusterEvent>, changes: seq<(Member, MachineState)>)
    ensures Reports(events, states, Merged(states, other))
    ensures forall c :: c in changes <==> c.0 in other && c.1 == other[c.0] && IsNews(states, c.0, c.1)
  {
    hide Progress, Reports, Merged, SortedBy, UpSet;
    events, changes := [], [];
    ProgressStart(states, other);
    var left := Iterate(states.Keys);
    var right := Iterate(other.Keys);
    var i, j := 0, 0;
    while j < |right|
      invariant i <= |left| && j <= |right|
      invariant j < |right| ==> forall a :: 0 <= a < i ==> MemberLess(left[a], right[j])
      invariant forall m :: m in right[..j] ==> m in other
      invariant Progress(states, other, right[..j], events, changes)
      decreases |left| - i + |right| - j
    {
      assert right[j] in right;
      var mem, state := right[j], other[right[j]];
      if i < |left| && MemberLess(left[i], mem) {
        i := i + 1;
      } else {
        Cursors(left, i, right, j);
        ProgressStep(states, other, right[..j], events, changes, mem);
        assert right[..j + 1] == right[..j] + [mem];
        ghost var nextEvents := events + News(states, mem, state);
        ghost var nextChanges := changes + if IsNews(states, mem, state) then [(mem, state)] else [];
        if i < |left| && left[i] == mem {
          assert left[i] in left;
          if StateLess(states[left[i]], state) {
            var event := match state { case Up => Added(mem) case Down => Removed(mem) };
            changes := changes + [(mem, state)];
            events := events + [event];
          }
          i := i + 1;
        } else {
          if state.Up? {
            events := events + [Added(mem)];
          }
          changes := changes + [(mem, state)];
        }
        assert events == nextEvents && changes == nextChanges;
        j := j + 1;
      }
    }
    assert right[..|right|] == right;
    ProgressReports(states, other, right, events, changes);
  }

  /** With everything before the left cursor smaller than `right[j]`, and the left cursor not smaller: the
      left map has `right[j]` only under its cursor, and the order carries over to the next position. */
  lemma Cursors(left: seq<Member>, i: nat, right: seq<Member>, j: nat)
    requires SortedBy(MemberLess, left) && SortedBy(MemberLess, right) && i <= |left| && j < |right|
    requires forall a :: 0 <= a < i ==> MemberLess(left[a], right[j])
    requires i < |left| ==> !MemberLess(left[i], right[j])
    ensures right[j] in left <==> i < |left| && left[i] == right[j]
    ensures forall d :: d in right[..j] ==> MemberLess(d, right[j])
    ensures j + 1 < |right| ==> MemberLess(right[j], right[j + 1])
                                && forall a :: 0 <= a < i ==> MemberLess(left[a], right[j + 1])
  {
    MemberOrder();
    forall a | 0 <= a < |left| && a != i ensures left[a] != right[j] {
      if i < a {
        assert MemberLess(left[i], left[a]);
      }
    }
  }

  class Gossip {
    var states: States

    constructor (states: States)
      ensures this.states == states
    {
      this.states := states;
    }

    /** Collects what is new in the other map and applies it in the end. The result is the key-wise later
        state, and the events say exactly who came and who went. */
    method Merge(other: States) returns (events: seq<ClusterEvent>)
      modifies this
      ensures states == Merged(old(states), other)
      ensures forall m :: m in states <==> m in old(states) || m in other
      ensures forall m :: m in states ==>
                (states[m].Down? <==> (m in old(states) && old(states)[m].Down?) || (m in other && other[m].Down?))
      ensures Reports(events, old(states), states)
      ensures forall m :: Added(m) in events <==> m !in old(states) && m in other && other[m].Up?
      ensures forall m :: Removed(m) in events <==>
                m in old(states) && old(states)[m].Up? && m in other && other[m].Down?
      ensures forall e :: e in events ==> e.Added? || e.Removed?
    {
      var changes;
      events, changes := Compare(states, other);
      ApplyChanges(changes);
      forall m | m in other && IsNews(old(states), m, other[m]) ensures m in states && states[m] == other[m] {
        assert (m, other[m]) in changes;
      }
    }

    method ApplyChanges(changes: seq<(Member, MachineState)>)
      requires forall c, d :: c in changes && d in changes && c.0 == d.0 ==> c == d
      modifies this
      ensures forall c :: c in changes ==> c.0 in states && states[c.0] == c.1
      ensures forall m :: (forall s :: (m, s) !in changes) ==>
                (m in states <==> m in old(states)) && (m in states ==> states[m] == old(states)[m])
    {
      for k := 0 to |changes|
        invariant forall c :: c in changes[..k] ==> c.0 in states && states[c.0] == c.1
        invariant forall m :: (forall s :: (m, s) !in changes[..k]) ==>
                    (m in states <==> m in old(states)) && (m in states ==> states[m] == old(states)[m])
      {
        states := states[changes[k].0 := changes[k].1];
        assert changes[..k + 1] == changes[..k] + [changes[k]];
      }
      assert changes[..|changes|] == changes;
    }
  }
}
