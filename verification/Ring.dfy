/** The consistent-hash ring as a map from keys to slots, its walks in both directions, and what the walks
    mean in terms of the circular distance between keys. */
module Ring {
  import opened Members
  import opened Ordered

  const SPACE: nat := 0x1_0000_0000_0000_0000

  type Key = k: nat | k < SPACE

  /** `hash_code` and `wyrng`, about which nothing is assumed. */
  datatype Hashing = Hashing(code: Member -> Key, next: Key -> Key)

  datatype Slot = Slot(first: bool, member: Member)

  type Slots = map<nat, Slot>

  /** A member's keys: its hash, then one `wyrng` step after another. */
  function VnodeKey(h: Hashing, m: Member, i: nat): Key {
    if i == 0 then h.code(m) else h.next(VnodeKey(h, m, i - 1))
  }

  function VnodeKeys(h: Hashing, m: Member, n: nat): (keys: seq<nat>)
    ensures |keys| == n && forall i :: 0 <= i < n ==> keys[i] == VnodeKey(h, m, i)
    ensures forall k :: k in keys ==> k < SPACE
  {
    seq(n, i requires 0 <= i < n => VnodeKey(h, m, i))
  }

  /** Even a member that asks for no virtual nodes occupies one slot. */
  function SlotCount(m: Member): nat {
    if m.vnodes == 0 then 1 else m.vnodes
  }

  function Keys(h: Hashing, m: Member): seq<nat> {
    VnodeKeys(h, m, SlotCount(m))
  }

  /** As many keys as virtual nodes, but at least one: the hash of the member, and each further key drawn from the one
      before. */
  lemma KeysAreDrawn(h: Hashing, m: Member)
    ensures |Keys(h, m)| == if m.vnodes == 0 then 1 else m.vnodes
    ensures Keys(h, m)[0] == h.code(m)
    ensures forall i :: 0 <= i < |Keys(h, m)| - 1 ==> Keys(h, m)[i + 1] == h.next(Keys(h, m)[i])
  {
  }

  ghost predicate KeysApart(h: Hashing, m: Member, n: Member) {
    forall i, j | 0 <= i < |Keys(h, m)| && 0 <= j < |Keys(h, n)| ::
      Keys(h, m)[i] == Keys(h, n)[j] ==> m == n && i == j
  }

  /** The keys of the given members are pairwise different. */
  ghost predicate CollisionFree(h: Hashing, members: set<Member>) {
    forall m, n {:trigger KeysApart(h, m, n)} | m in members && n in members :: KeysApart(h, m, n)
  }

  ghost predicate IsRing(slots: Slots) {
    forall k :: k in slots ==> k < SPACE
  }

  /** The ring holds the slots of exactly these members. */
  ghost predicate Represents(h: Hashing, slots: Slots, members: set<Member>) {
    && (forall m, i :: m in members && 0 <= i < |Keys(h, m)| ==>
          Keys(h, m)[i] in slots && slots[Keys(h, m)[i]] == Slot(i == 0, m))
    && (forall k :: k in slots ==> slots[k].member in members && k in Keys(h, slots[k].member))
  }

  /** The slots are determined by the members: how they came about does not matter. */
  lemma RepresentsOne(h: Hashing, a: Slots, b: Slots, members: set<Member>)
    requires Represents(h, a, members) && Represents(h, b, members)
    ensures a == b
  {
  }

  lemma RepresentsIsRing(h: Hashing, slots: Slots, members: set<Member>)
    requires Represents(h, slots, members)
    ensures IsRing(slots)
  {
  }

  // ----- inserting and removing -----

  /** Writes the first `n` slots of a member, the first one marked; later keys overwrite. */
  function Put(h: Hashing, slots: Slots, m: Member, n: nat): Slots {
    if n == 0 then slots else Put(h, slots, m, n - 1)[VnodeKey(h, m, n - 1) := Slot(n == 1, m)]
  }

  function WithMember(h: Hashing, slots: Slots, m: Member): Slots {
    Put(h, slots, m, SlotCount(m))
  }

  lemma {:induction false} PutSlots(h: Hashing, slots: Slots, m: Member, n: nat)
    requires Distinct(VnodeKeys(h, m, n))
    ensures forall i :: 0 <= i < n ==>
              VnodeKey(h, m, i) in Put(h, slots, m, n)
              && Put(h, slots, m, n)[VnodeKey(h, m, i)] == Slot(i == 0, m)
    ensures forall k :: k !in VnodeKeys(h, m, n) ==>
              (k in Put(h, slots, m, n) <==> k in slots)
              && (k in slots ==> Put(h, slots, m, n)[k] == slots[k])
  {
    if n > 0 {
      assert VnodeKeys(h, m, n) == VnodeKeys(h, m, n - 1) + [VnodeKey(h, m, n - 1)];
      PutSlots(h, slots, m, n - 1);
      forall i | 0 <= i < n - 1 ensures VnodeKey(h, m, i) != VnodeKey(h, m, n - 1) {
        assert VnodeKeys(h, m, n)[i] != VnodeKeys(h, m, n)[n - 1];
      }
    }
  }

  /** Removes the first `n` keys of a member one after another, counting those that were there. */
  function Drop(h: Hashing, slots: Slots, m: Member, n: nat): (Slots, nat) {
    if n == 0 then (slots, 0) else
      var key := VnodeKey(h, m, n - 1);
      var (rest, removed) := Drop(h, slots, m, n - 1);
      (rest - {key}, if key in rest then removed + 1 else removed)
  }

  function WithoutMember(h: Hashing, slots: Slots, m: Member): Slots {
    Drop(h, slots, m, SlotCount(m)).0
  }

  lemma {:induction false} DropSlots(h: Hashing, slots: Slots, m: Member, n: nat)
    ensures forall k :: k in Drop(h, slots, m, n).0 <==> k in slots && k !in VnodeKeys(h, m, n)
    ensures forall k :: k in Drop(h, slots, m, n).0 ==> Drop(h, slots, m, n).0[k] == slots[k]
  {
    if n > 0 {
      assert VnodeKeys(h, m, n) == VnodeKeys(h, m, n - 1) + [VnodeKey(h, m, n - 1)];
      DropSlots(h, slots, m, n - 1);
    }
  }

  lemma {:induction false} DropCount(h: Hashing, slots: Slots, m: Member, n: nat)
    requires Distinct(VnodeKeys(h, m, n))
    ensures (forall i :: 0 <= i < n ==> VnodeKey(h, m, i) in slots) ==> Drop(h, slots, m, n).1 == n
    ensures (forall i :: 0 <= i < n ==> VnodeKey(h, m, i) !in slots) ==> Drop(h, slots, m, n).1 == 0
  {
    if n > 0 {
      var keys := VnodeKeys(h, m, n - 1);
      assert VnodeKeys(h, m, n) == keys + [VnodeKey(h, m, n - 1)];
      assert VnodeKey(h, m, n - 1) !in keys by {
        assert forall i :: 0 <= i < n - 1 ==> VnodeKeys(h, m, n)[i] != VnodeKeys(h, m, n)[n - 1];
      }
      DropCount(h, slots, m, n - 1);
      DropSlots(h, slots, m, n - 1);
    }
  }

  lemma KeysDistinct(h: Hashing, members: set<Member>, m: Member)
    requires CollisionFree(h, members) && m in members
    ensures Distinct(Keys(h, m))
  {
    assert KeysApart(h, m, m);
  }

  lemma InsertRepresents(h: Hashing, slots: Slots, members: set<Member>, m: Member)
    requires Represents(h, slots, members) && CollisionFree(h, members + {m})
    ensures Represents(h, WithMember(h, slots, m), members + {m})
  {
    var keys := Keys(h, m);
    var slots' := WithMember(h, slots, m);
    KeysDistinct(h, members + {m}, m);
    PutSlots(h, slots, m, SlotCount(m));
    forall n, i | n in members + {m} && 0 <= i < |Keys(h, n)|
      ensures Keys(h, n)[i] in slots' && slots'[Keys(h, n)[i]] == Slot(i == 0, n)
    {
      if n != m {
        assert KeysApart(h, m, n);
        assert Keys(h, n)[i] !in keys;
      }
    }
    forall k | k in slots'
      ensures slots'[k].member in members + {m} && k in Keys(h, slots'[k].member)
    {
      if k in keys {
        var i :| 0 <= i < |keys| && keys[i] == k;
      } else {
        assert k in slots;
      }
    }
  }

  /** Removing a member leaves the ring of the others, and counts all of its slots or none. */
  lemma RemoveRepresents(h: Hashing, slots: Slots, members: set<Member>, m: Member)
    requires Represents(h, slots, members) && CollisionFree(h, members + {m})
    ensures Represents(h, WithoutMember(h, slots, m), members - {m})
    ensures Drop(h, slots, m, SlotCount(m)).1 == if m in members then SlotCount(m) else 0
  {
    var keys := Keys(h, m);
    KeysDistinct(h, members + {m}, m);
    DropSlots(h, slots, m, SlotCount(m));
    DropCount(h, slots, m, SlotCount(m));
    assert m in members + {m};
    forall n, i | n in members - {m} && 0 <= i < |Keys(h, n)| ensures Keys(h, n)[i] !in keys {
      assert KeysApart(h, m, n);
    }
    forall i | 0 <= i < |keys| && keys[i] in slots ensures slots[keys[i]].member == m {
      var n := slots[keys[i]].member;
      assert KeysApart(h, m, n);
      var j :| 0 <= j < |Keys(h, n)| && Keys(h, n)[j] == keys[i];
    }
    if m in members {
      assert forall i :: 0 <= i < |keys| ==> keys[i] in slots;
    } else {
      assert forall i :: 0 <= i < |keys| ==> keys[i] !in slots;
    }
  }

  /** Removing a member just inserted finds all of its slots and restores the ring. */
  lemma RemoveUndoesInsert(h: Hashing, slots: Slots, members: set<Member>, m: Member)
    requires Represents(h, slots, members) && CollisionFree(h, members + {m}) && m !in members
    ensures Drop(h, WithMember(h, slots, m), m, SlotCount(m)) == (slots, SlotCount(m))
  {
    var slots' := WithMember(h, slots, m);
    InsertRepresents(h, slots, members, m);
    assert members + {m} + {m} == members + {m} && members + {m} - {m} == members;
    RemoveRepresents(h, slots', members + {m}, m);
    RepresentsOne(h, WithoutMember(h, slots', m), slots, members);
  }

  datatype RingOp = Insert(member: Member) | Remove(member: Member)

  function Replay(h: Hashing, ops: seq<RingOp>): Slots {
    if ops == [] then map[] else
      var before := Replay(h, ops[..|ops| - 1]);
      match ops[|ops| - 1]
      case Insert(m) => WithMember(h, before, m)
      case Remove(m) => WithoutMember(h, before, m)
  }

  function Survivors(ops: seq<RingOp>): set<Member> {
    if ops == [] then {} else
      var before := Survivors(ops[..|ops| - 1]);
      match ops[|ops| - 1]
      case Insert(m) => before + {m}
      case Remove(m) => before - {m}
  }

  /** After any sequence of insertions and removals the ring is the ring of the surviving members. */
  lemma {:induction false} ReplayRepresents(h: Hashing, ops: seq<RingOp>, all: set<Member>)
    requires CollisionFree(h, all) && forall op :: op in ops ==> op.member in all
    ensures Survivors(ops) <= all && Represents(h, Replay(h, ops), Survivors(ops))
  {
    if ops != [] {
      var init := ops[..|ops| - 1];
      var op := ops[|ops| - 1];
      assert op in ops;
      ReplayRepresents(h, init, all);
      match op {
        case Insert(m) =>
          assert Survivors(init) + {m} <= all;
          InsertRepresents(h, Replay(h, init), Survivors(init), m);
        case Remove(m) =>
          assert Survivors(init) + {m} <= all;
          RemoveRepresents(h, Replay(h, init), Survivors(init), m);
      }
    }
  }

  /** History independence: two histories with the same survivors leave the same ring. */
  lemma SameSurvivorsSameRing(h: Hashing, ops: seq<RingOp>, others: seq<RingOp>, all: set<Member>)
    requires CollisionFree(h, all)
    requires forall op :: op in ops || op in others ==> op.member in all
    requires Survivors(ops) == Survivors(others)
    ensures Replay(h, ops) == Replay(h, others)
  {
    ReplayRepresents(h, ops, all);
    ReplayRepresents(h, others, all);
    RepresentsOne(h, Replay(h, ops), Replay(h, others), Survivors(ops));
  }

  // ----- walks -----

  function Reverse<T>(s: seq<T>): (r: seq<T>)
    ensures |r| == |s| && forall i {:trigger r[i]} :: 0 <= i < |s| ==> r[i] == s[|s| - 1 - i]
  {
    seq(|s|, i requires 0 <= i < |s| => s[|s| - 1 - i])
  }

  /** Keys in increasing order. */
  function Sorted(keys: set<nat>): (r: seq<nat>)
    ensures SortedBy(NatLess, r) && forall k :: k in r <==> k in keys
  {
    NatOrder();
    Ascending(NatLess, keys)
  }

  function AtLeast(keys: set<nat>, key: nat): set<nat> { set k | k in keys && k >= key }

  function Below(keys: set<nat>, key: nat): set<nat> { set k | k in keys && k < key }

  /** `range(key..).chain(range(..key))`. */
  function Forward(keys: set<nat>, key: nat): seq<nat> {
    Sorted(AtLeast(keys, key)) + Sorted(Below(keys, key))
  }

  /** `range(..key).rev().chain(range(key..).rev())`. */
  function Backward(keys: set<nat>, key: nat): seq<nat> {
    Reverse(Sorted(Below(keys, key))) + Reverse(Sorted(AtLeast(keys, key)))
  }

  /** Steps from `a` up to `b` around the circle. */
  function Distance(a: nat, b: nat): int {
    if a <= b then b - a else b + SPACE - a
  }

  lemma ForwardOrder(keys: set<nat>, key: nat)
    requires key < SPACE && forall k :: k in keys ==> k < SPACE
    ensures forall k :: k in Forward(keys, key) <==> k in keys
    ensures var w := Forward(keys, key);
            forall i, j :: 0 <= i < j < |w| ==> Distance(key, w[i]) < Distance(key, w[j])
  {
    var w := Forward(keys, key);
    forall k ensures k in w <==> k in keys {
      assert k in w <==> k in AtLeast(keys, key) || k in Below(keys, key);
    }
    forall i, j | 0 <= i < j < |w| ensures Distance(key, w[i]) < Distance(key, w[j]) {
      var up, low := Sorted(AtLeast(keys, key)), Sorted(Below(keys, key));
      assert forall a :: 0 <= a < |up| ==> up[a] in AtLeast(keys, key);
      assert forall a :: 0 <= a < |low| ==> low[a] in Below(keys, key);
      if j < |up| {
        assert NatLess(up[i], up[j]);
      } else if i >= |up| {
        assert NatLess(low[i - |up|], low[j - |up|]);
      }
    }
  }

  /** Upwards from the key to the end, and then upwards from the start to the key. */
  lemma ForwardWraps(keys: set<nat>, key: nat, i: nat, j: nat)
    requires i < j < |Forward(keys, key)|
    ensures var w := Forward(keys, key);
            key <= w[i] < w[j] || w[i] < w[j] < key || w[j] < key <= w[i]
  {
    var up, low := Sorted(AtLeast(keys, key)), Sorted(Below(keys, key));
    assert forall a :: 0 <= a < |up| ==> up[a] in AtLeast(keys, key);
    assert forall a :: 0 <= a < |low| ==> low[a] in Below(keys, key);
    if j < |up| {
      assert NatLess(up[i], up[j]);
    } else if i >= |up| {
      assert NatLess(low[i - |up|], low[j - |up|]);
    }
  }

  /** The two walks, written separately, are each other's reverse. */
  lemma BackwardIsReverse(keys: set<nat>, key: nat)
    ensures Backward(keys, key) == Reverse(Forward(keys, key))
  {
  }

  lemma ReverseHas<T>(s: seq<T>, x: T)
    ensures x in Reverse(s) <==> x in s
  {
    if i :| 0 <= i < |s| && s[i] == x {
      assert Reverse(s)[|s| - 1 - i] == x;
    }
  }

  lemma BackwardOrder(keys: set<nat>, key: nat)
    requires key < SPACE && forall k :: k in keys ==> k < SPACE
    ensures forall k :: k in Backward(keys, key) <==> k in keys
    ensures var w := Backward(keys, key);
            forall i, j :: 0 <= i < j < |w| ==> Distance(key, w[i]) > Distance(key, w[j])
  {
    hide Forward, Backward;
    BackwardIsReverse(keys, key);
    ForwardOrder(keys, key);
    var f, w := Forward(keys, key), Backward(keys, key);
    forall k ensures k in w <==> k in keys {
      ReverseHas(f, k);
    }
    forall i, j | 0 <= i < j < |w| ensures Distance(key, w[i]) > Distance(key, w[j]) {
      assert w[i] == f[|f| - 1 - i] && w[j] == f[|f| - 1 - j];
    }
  }

  function MembersAt(slots: Slots, keys: seq<nat>): (r: seq<Member>)
    requires forall k :: k in keys ==> k in slots
    ensures |r| == |keys| && forall i :: 0 <= i < |keys| ==> r[i] == slots[keys[i]].member
  {
    seq(|keys|, i requires 0 <= i < |keys| => assert keys[i] in keys; slots[keys[i]].member)
  }

  /** `.unique()`: the first occurrence of each element. */
  function Unique<T(==)>(s: seq<T>): seq<T> {
    if s == [] then [] else
      var front := Unique(s[..|s| - 1]);
      if s[|s| - 1] in front then front else front + [s[|s| - 1]]
  }

  /** `.take(n)`. */
  function Take<T>(s: seq<T>, n: nat): seq<T> {
    if n <= |s| then s[..n] else s
  }

  lemma {:induction false} UniqueElements<T>(s: seq<T>)
    ensures Distinct(Unique(s)) && Elements(Unique(s)) == Elements(s)
    ensures |Unique(s)| == |Elements(s)|
  {
    if s != [] {
      var init := s[..|s| - 1];
      UniqueElements(init);
      assert s == init + [s[|s| - 1]];
      ElementsPush(init, s[|s| - 1]);
      ElementsPush(Unique(init), s[|s| - 1]);
      assert s[|s| - 1] in Unique(init) <==> s[|s| - 1] in Elements(Unique(init));
    }
    DistinctSize(Unique(s));
  }

  /** An element is among the first `n` distinct ones when fewer than `n` distinct ones precede some
      occurrence of it. */
  lemma {:induction false} UniqueTake<T>(s: seq<T>, n: nat, x: T)
    ensures x in Take(Unique(s), n) <==> exists p :: 0 <= p < |s| && s[p] == x && |Elements(s[..p])| < n
  {
    if s != [] {
      var init := s[..|s| - 1];
      var last := s[|s| - 1];
      UniqueTake(init, n, x);
      UniqueElements(init);
      assert forall p :: 0 <= p < |init| ==> init[..p] == s[..p];
      assert forall p :: 0 <= p < |init| && s[p] == x ==> init[p] == x;
      if last in Unique(init) {
        if x == last && |Elements(init)| < n {
          assert x in Take(Unique(init), n);
        }
      } else {
        assert s[..|s| - 1] == init;
        assert Take(Unique(s), n) == if |Unique(init)| < n then Unique(init) + [last] else Take(Unique(init), n);
        if x == last && |Elements(init)| < n {
          assert s[|s| - 1] == x && |Elements(s[..|s| - 1])| < n;
        }
      }
    }
  }

  function Managers(slots: Slots, key: nat, num: nat): seq<Member>
    requires IsRing(slots) && key < SPACE
  {
    ForwardOrder(slots.Keys, key);
    Take(Unique(MembersAt(slots, Forward(slots.Keys, key))), num)
  }

  /** The members met on the way up from `a`, before reaching `k`. */
  function Passed(slots: Slots, a: nat, k: nat): set<Member> {
    set y | y in slots && Distance(a, y) < Distance(a, k) :: slots[y].member
  }

  /** Who manages a key, without walking: fewer than `num` members lie between. */
  lemma ManagersByDistance(slots: Slots, key: nat, num: nat, m: Member)
    requires IsRing(slots) && key < SPACE
    ensures m in Managers(slots, key, num)
       <==> exists k :: k in slots && slots[k].member == m && |Passed(slots, key, k)| < num
  {
    ForwardOrder(slots.Keys, key);
    var w := Forward(slots.Keys, key);
    UniqueTake(MembersAt(slots, w), num, m);
    WalkByDistance(slots, key, w, num, m);
  }

  lemma {:induction false} UniqueOrder<T>(s: seq<T>, i: nat, j: nat) returns (p: nat)
    requires i < j < |Unique(s)|
    ensures p < |s| && s[p] == Unique(s)[i] && Unique(s)[j] !in s[..p + 1]
  {
    var init, last := s[..|s| - 1], s[|s| - 1];
    var front := Unique(init);
    if j < |front| {
      p := UniqueOrder(init, i, j);
      assert s[..p + 1] == init[..p + 1];
    } else {
      UniqueElements(init);
      assert front[i] in Elements(front) && last !in Elements(front);
      p :| 0 <= p < |init| && init[p] == front[i];
      assert forall x :: x in s[..p + 1] ==> x in init;
    }
  }

  /** The list is ordered by distance: a manager has a slot that comes before all slots of those behind it. */
  lemma ManagersInOrder(slots: Slots, key: nat, num: nat, i: nat, j: nat) returns (k: nat)
    requires IsRing(slots) && key < SPACE && i < j < |Managers(slots, key, num)|
    ensures k in slots && slots[k].member == Managers(slots, key, num)[i]
    ensures forall l :: l in slots && slots[l].member == Managers(slots, key, num)[j] ==>
              Distance(key, k) < Distance(key, l)
  {
    ForwardOrder(slots.Keys, key);
    var w := Forward(slots.Keys, key);
    var ms := MembersAt(slots, w);
    var p := UniqueOrder(ms, i, j);
    k := w[p];
    assert w[p] in w;
    assert forall q :: 0 <= q <= p ==> ms[q] in ms[..p + 1];
    forall l | l in slots && slots[l].member == Unique(ms)[j]
      ensures Distance(key, k) < Distance(key, l)
    {
      assert l in w;
      var q :| 0 <= q < |w| && w[q] == l;
      assert ms[q] == Unique(ms)[j];
    }
  }

  lemma WalkByDistance(slots: Slots, key: nat, w: seq<nat>, num: nat, m: Member)
    requires forall k :: k in w <==> k in slots
    requires forall i, j :: 0 <= i < j < |w| ==> Distance(key, w[i]) < Distance(key, w[j])
    ensures (exists p :: 0 <= p < |w| && MembersAt(slots, w)[p] == m && |Elements(MembersAt(slots, w)[..p])| < num)
       <==> exists k :: k in slots && slots[k].member == m && |Passed(slots, key, k)| < num
  {
    var ms := MembersAt(slots, w);
    if k :| k in slots && slots[k].member == m && |Passed(slots, key, k)| < num {
      assert k in w;
      var p :| 0 <= p < |w| && w[p] == k;
      PrefixMembers(slots, key, w, p);
      assert ms[p] == m && |Elements(ms[..p])| < num;
    }
    if p :| 0 <= p < |ms| && ms[p] == m && |Elements(ms[..p])| < num {
      PrefixMembers(slots, key, w, p);
      assert w[p] in w;
    }
  }

  lemma PrefixMembers(slots: Slots, key: nat, w: seq<nat>, p: nat)
    requires p < |w| && forall k :: k in w <==> k in slots
    requires forall i, j :: 0 <= i < j < |w| ==> Distance(key, w[i]) < Distance(key, w[j])
    ensures Elements(MembersAt(slots, w)[..p]) == Passed(slots, key, w[p])
  {
  }
}
