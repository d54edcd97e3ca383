/** The ring's `is_manager`, which counts slots where `node_managers` counts members. */
module IsManager {
  import opened Members
  import opened Monitoring
  import opened Ordered
  import opened Ring

  /** `.skip(1).take(rep_factor).any(..)` on the forward walk from the target. */
  predicate IsManager(h: Hashing, slots: Slots, repFactor: nat, m: Member, x: Member)
    requires IsRing(slots)
  {
    m in NextMembers(h, slots, repFactor, x)
  }

  /** Whose slots the walk looks at. */
  function NextMembers(h: Hashing, slots: Slots, repFactor: nat, x: Member): seq<Member>
    requires IsRing(slots)
  {
    ForwardOrder(slots.Keys, h.code(x));
    AfterFirst(MembersAt(slots, Forward(slots.Keys, h.code(x))), repFactor)
  }

  function AfterFirst(met: seq<Member>, n: nat): seq<Member> {
    Take(if met == [] then [] else met[1..], n)
  }

  /** The slots passed on the way up from `a` before reaching `k`. */
  function Between(slots: Slots, a: nat, k: nat): set<nat> {
    set y | y in slots && Distance(a, y) < Distance(a, k)
  }

  lemma PositionIsBetween(slots: Slots, a: nat, w: seq<nat>, p: nat)
    requires p < |w| && forall k :: k in w <==> k in slots
    requires forall i, j :: 0 <= i < j < |w| ==> Distance(a, w[i]) < Distance(a, w[j])
    ensures |Between(slots, a, w[p])| == p
  {
    assert Elements(w[..p]) == Between(slots, a, w[p]) by {
      forall y | y in slots && Distance(a, y) < Distance(a, w[p]) ensures y in w[..p] {
        assert y in w;
        var i :| 0 <= i < |w| && w[i] == y;
        assert w[..p][i] == y;
      }
      forall y | y in w[..p] ensures y in Between(slots, a, w[p]) {
        var i :| 0 <= i < p && w[i] == y;
        assert w[i] in w;
      }
    }
    DistinctSize(w[..p]);
  }

  /** It holds exactly when one of the manager's slots is among the next `rep_factor` slots. */
  lemma IsManagerBySlots(h: Hashing, slots: Slots, repFactor: nat, m: Member, x: Member)
    requires IsRing(slots)
    ensures IsManager(h, slots, repFactor, m, x)
       <==> exists k :: k in slots && slots[k].member == m && 0 < |Between(slots, h.code(x), k)| <= repFactor
  {
    var a := h.code(x);
    ForwardOrder(slots.Keys, a);
    var w := Forward(slots.Keys, a);
    WalkBySlots(slots, a, w, repFactor, m);
  }

  lemma AfterFirstMeans(met: seq<Member>, n: nat)
    ensures |AfterFirst(met, n)| == if met == [] then 0 else if n < |met| then n else |met| - 1
    ensures forall i :: 0 <= i < |AfterFirst(met, n)| ==> AfterFirst(met, n)[i] == met[i + 1]
  {
    var rest := if met == [] then [] else met[1..];
    assert forall i :: 0 <= i < |rest| ==> rest[i] == met[i + 1];
    assert AfterFirst(met, n) == Take(rest, n);
  }

  lemma WalkBySlots(slots: Slots, a: nat, w: seq<nat>, repFactor: nat, m: Member)
    requires forall k :: k in w <==> k in slots
    requires forall i, j :: 0 <= i < j < |w| ==> Distance(a, w[i]) < Distance(a, w[j])
    ensures m in AfterFirst(MembersAt(slots, w), repFactor)
       <==> exists k :: k in slots && slots[k].member == m && 0 < |Between(slots, a, k)| <= repFactor
  {
    forall p | 0 <= p < |w|
      ensures |Between(slots, a, w[p])| == p
    {
      PositionIsBetween(slots, a, w, p);
    }
    hide *;
    WalkByRank(slots, a, w, repFactor, m);
  }

  lemma WalkByRank(slots: Slots, a: nat, w: seq<nat>, repFactor: nat, m: Member)
    requires forall k :: k in w <==> k in slots
    requires forall p :: 0 <= p < |w| ==> |Between(slots, a, w[p])| == p
    ensures m in AfterFirst(MembersAt(slots, w), repFactor)
       <==> exists k :: k in slots && slots[k].member == m && 0 < |Between(slots, a, k)| <= repFactor
  {
    var met := MembersAt(slots, w);
    AfterFirstMeans(met, repFactor);
    hide AfterFirst, Between, MembersAt;
    var next := AfterFirst(met, repFactor);
    if m in next {
      var i :| 0 <= i < |next| && next[i] == m;
      assert w[i + 1] in w && slots[w[i + 1]].member == m;
    }
    if k :| k in slots && slots[k].member == m && 0 < |Between(slots, a, k)| <= repFactor {
      assert k in w;
      var p :| 0 <= p < |w| && w[p] == k;
      assert next[p - 1] == met[p];
    }
  }

  lemma {:induction false} MembersPassed(slots: Slots, keys: set<nat>)
    requires keys <= slots.Keys
    ensures |set y | y in keys :: slots[y].member| <= |keys|
    ensures (forall y, z :: y in keys && z in keys && slots[y].member == slots[z].member ==> y == z) ==>
              |set y | y in keys :: slots[y].member| == |keys|
    decreases |keys|
  {
    if keys != {} {
      var k :| k in keys;
      var rest := keys - {k};
      MembersPassed(slots, rest);
      assert (set y | y in keys :: slots[y].member) == (set y | y in rest :: slots[y].member) + {slots[k].member};
    }
  }

  lemma PassedWithin(slots: Slots, a: nat, k: nat)
    ensures |Passed(slots, a, k)| <= |Between(slots, a, k)|
    ensures (forall y, z :: y in slots && z in slots && slots[y].member == slots[z].member ==> y == z) ==>
              |Passed(slots, a, k)| == |Between(slots, a, k)|
  {
    MembersPassed(slots, Between(slots, a, k));
    assert Passed(slots, a, k) == set y | y in Between(slots, a, k) :: slots[y].member;
  }

  /** What it accepts, other than the target itself, is a manager; a member may go unnoticed behind several slots of
      another one. */
  lemma IsManagerIsSound(h: Hashing, slots: Slots, members: set<Member>, repFactor: nat, m: Member, x: Member)
    requires Represents(h, slots, members) && x in members && m != x
    requires IsManager(h, slots, repFactor, m, x)
    ensures m in NodeManagers(h, slots, repFactor, x)
  {
    hide IsManager, NodeManagers;
    IsManagerBySlots(h, slots, repFactor, m, x);
    NodeManagersByDistance(h, slots, members, repFactor, x, m);
    var k :| k in slots && slots[k].member == m && 0 < |Between(slots, h.code(x), k)| <= repFactor;
    PassedWithin(slots, h.code(x), k);
  }

  lemma WalkMeetsAll(h: Hashing, slots: Slots, members: set<Member>, w: seq<nat>)
    requires Represents(h, slots, members) && forall k :: k in w <==> k in slots
    ensures Elements(MembersAt(slots, w)) == members
  {
    var met := MembersAt(slots, w);
    forall m | m in members
      ensures m in met
    {
      assert Keys(h, m)[0] in w;
      var p :| 0 <= p < |w| && w[p] == Keys(h, m)[0];
      assert met[p] == m;
    }
    forall p | 0 <= p < |met|
      ensures met[p] in members
    {
      assert w[p] in w;
    }
  }

  lemma TailOfTake<T>(s: seq<T>, n: nat)
    requires Distinct(s) && s != []
    ensures Distinct(Take(s, n + 1)[1..]) && |Take(s, n + 1)[1..]| == if n < |s| then n else |s| - 1
  {
  }

  /** Every other member is a manager, as far as there is room. */
  lemma ManagerCount(h: Hashing, slots: Slots, members: set<Member>, repFactor: nat, x: Member)
    requires Represents(h, slots, members) && x in members
    ensures var list := NodeManagers(h, slots, repFactor, x);
            Distinct(list) && |list| == if repFactor < |members| then repFactor else |members| - 1
  {
    var a := h.code(x);
    ForwardOrder(slots.Keys, a);
    WalkMeetsAll(h, slots, members, Forward(slots.Keys, a));
    var met := MembersAt(slots, Forward(slots.Keys, a));
    hide Represents, MembersAt, Unique, Distinct, Elements, Take;
    UniqueElements(met);
    assert |Unique(met)| == |members| && members != {};
    TailOfTake(Unique(met), repFactor);
    TakeOfSome(Unique(met), repFactor + 1);
  }

  lemma TakeOfSome<T>(s: seq<T>, n: nat)
    requires s != [] && n > 0
    ensures Take(s, n) != []
  {
  }

  lemma SameSize<T>(some: set<T>, all: set<T>)
    requires some <= all && |some| == |all|
    ensures some == all
  {
    assert all == some + (all - some);
  }

  lemma ManagersAreOthers(h: Hashing, slots: Slots, members: set<Member>, repFactor: nat, x: Member)
    requires Represents(h, slots, members) && CollisionFree(h, members) && x in members
    ensures x !in NodeManagers(h, slots, repFactor, x)
    ensures var next, list := NextMembers(h, slots, repFactor, x), NodeManagers(h, slots, repFactor, x);
            x !in next ==> Elements(next) <= Elements(list)
  {
    NodeManagersByDistance(h, slots, members, repFactor, x, x);
    hide NodeManagers, NextMembers, Represents, CollisionFree;
    forall m | m in NextMembers(h, slots, repFactor, x) && m != x
      ensures m in NodeManagers(h, slots, repFactor, x)
    {
      IsManagerIsSound(h, slots, members, repFactor, m, x);
    }
  }

  /** The two agree about a target exactly when its own slots are not among the next `rep_factor` and those belong to as
      many members as there are managers. */
  lemma AgreesExactly(h: Hashing, slots: Slots, members: set<Member>, repFactor: nat, x: Member)
    requires Represents(h, slots, members) && CollisionFree(h, members) && x in members
    ensures (forall m :: IsManager(h, slots, repFactor, m, x) <==> m in NodeManagers(h, slots, repFactor, x))
       <==> && x !in NextMembers(h, slots, repFactor, x)
            && |Elements(NextMembers(h, slots, repFactor, x))|
               == if repFactor < |members| then repFactor else |members| - 1
  {
    var next, list := NextMembers(h, slots, repFactor, x), NodeManagers(h, slots, repFactor, x);
    ManagerCount(h, slots, members, repFactor, x);
    DistinctSize(list);
    ManagersAreOthers(h, slots, members, repFactor, x);
    assert forall m :: IsManager(h, slots, repFactor, m, x) <==> m in Elements(next);
    hide Represents, CollisionFree, NodeManagers, NextMembers, IsManager, Distinct;
    if x !in next && |Elements(next)| == |Elements(list)| {
      SameSize(Elements(next), Elements(list));
    }
    if forall m :: IsManager(h, slots, repFactor, m, x) <==> m in list {
      assert Elements(next) == Elements(list);
    }
  }

  /** A manager behind two slots of the target goes unnoticed. */
  lemma OverlooksManager(h: Hashing, slots: Slots, x: Member, m: Member)
    requires Represents(h, slots, {m, x}) && CollisionFree(h, {m, x}) && m != x && x.vnodes == 2 && m.vnodes == 1
    requires Distance(h.code(x), h.next(h.code(x))) < Distance(h.code(x), h.code(m))
    ensures m in NodeManagers(h, slots, 1, x) && !IsManager(h, slots, 1, m, x)
  {
    var a, b, c := h.code(x), h.next(h.code(x)), h.code(m);
    hide IsManager, NodeManagers;
    IsManagerBySlots(h, slots, 1, m, x);
    NodeManagersByDistance(h, slots, {m, x}, 1, x, m);
    ThreeSlots(h, slots, x, m);
    hide Represents, CollisionFree;
    assert Between(slots, a, c) == {a, b};
    assert Passed(slots, a, c) == {x};
    assert c in slots && slots[c].member == m && |Passed(slots, h.code(x), c)| <= 1;
  }

  lemma ThreeSlots(h: Hashing, slots: Slots, x: Member, m: Member)
    requires Represents(h, slots, {m, x}) && CollisionFree(h, {m, x}) && m != x && x.vnodes == 2 && m.vnodes == 1
    ensures h.code(x) != h.next(h.code(x))
    ensures slots.Keys == {h.code(x), h.next(h.code(x)), h.code(m)}
    ensures slots[h.code(x)].member == slots[h.next(h.code(x))].member == x && slots[h.code(m)].member == m
  {
    var a, b, c := h.code(x), h.next(h.code(x)), h.code(m);
    KeysDistinct(h, {m, x}, x);
    assert VnodeKey(h, x, 1) == h.next(VnodeKey(h, x, 0));
    assert Keys(h, x) == [a, b] && Keys(h, m) == [c];
    assert Keys(h, x)[0] in slots && Keys(h, x)[1] in slots && Keys(h, m)[0] in slots;
  }

  /** With one slot per member the two agree. */
  lemma OneSlotEachAgrees(h: Hashing, slots: Slots, members: set<Member>, repFactor: nat, m: Member, x: Member)
    requires Represents(h, slots, members) && CollisionFree(h, members) && x in members
    requires forall n :: n in members ==> SlotCount(n) == 1
    ensures IsManager(h, slots, repFactor, m, x) <==> m in NodeManagers(h, slots, repFactor, x)
  {
    hide IsManager, NodeManagers;
    var a := h.code(x);
    IsManagerBySlots(h, slots, repFactor, m, x);
    NodeManagersByDistance(h, slots, members, repFactor, x, m);
    MembersAreContained(h, slots, members, x);
    OnlySlot(h, slots, members);
    forall k | k in slots
      ensures |Passed(slots, a, k)| == |Between(slots, a, k)|
      ensures 0 < |Between(slots, a, k)| <==> slots[k].member != x
    {
      PassedWithin(slots, a, k);
      assert k != a ==> a in Between(slots, a, k);
    }
  }

  lemma OnlySlot(h: Hashing, slots: Slots, members: set<Member>)
    requires Represents(h, slots, members)
    requires forall n :: n in members ==> SlotCount(n) == 1
    ensures forall k :: k in slots ==> k == h.code(slots[k].member)
  {
    forall k | k in slots ensures k == h.code(slots[k].member) {
      var n := slots[k].member;
      var i :| 0 <= i < |Keys(h, n)| && Keys(h, n)[i] == k;
    }
  }

  /** With several they need not: a member alone in the ring with two slots is its own manager by this test, and has no
      manager by the other. */
  lemma CountsItself(h: Hashing, slots: Slots, repFactor: nat, x: Member)
    requires Represents(h, slots, {x}) && CollisionFree(h, {x}) && x.vnodes == 2 && repFactor > 0
    ensures IsManager(h, slots, repFactor, x, x) && x !in NodeManagers(h, slots, repFactor, x)
  {
    hide IsManager, NodeManagers;
    var a, b := Keys(h, x)[0], Keys(h, x)[1];
    IsManagerBySlots(h, slots, repFactor, x, x);
    NodeManagersByDistance(h, slots, {x}, repFactor, x, x);
    KeysDistinct(h, {x}, x);
    assert a == h.code(x) && a in slots && b in slots;
    assert Between(slots, a, b) == {a} by {
      forall y | y in slots ensures y == a || y == b {
        var i :| 0 <= i < |Keys(h, x)| && Keys(h, x)[i] == y;
      }
    }
    assert slots[b].member == x && 0 < |Between(slots, h.code(x), b)| <= repFactor;
  }
}
