/** Who monitors whom: the managers of a member, found walking forward, and the charges of a member,
    found walking backward, are inverse relations. */
module Monitoring {
  import opened Members
  import opened Ordered
  import opened Ring

  predicate Contains(h: Hashing, slots: Slots, m: Member) {
    h.code(m) in slots && slots[h.code(m)].member == m
  }

  /** `node_managers` of a member of the ring: the walk starts at the member itself, which is skipped. */
  function NodeManagers(h: Hashing, slots: Slots, repFactor: nat, m: Member): seq<Member>
    requires IsRing(slots)
  {
    var list := Managers(slots, h.code(m), repFactor + 1);
    if list == [] then [] else list[1..]
  }

  function SlotsAt(slots: Slots, keys: seq<nat>): (r: seq<Slot>)
    requires forall k :: k in keys ==> k in slots
    ensures |r| == |keys| && forall i :: 0 <= i < |keys| ==> r[i] == slots[keys[i]]
  {
    seq(|keys|, i requires 0 <= i < |keys| => assert keys[i] in keys; slots[keys[i]])
  }

  /** `.take_while(|x| x != member)`. */
  function Until(walk: seq<Slot>, m: Member): (r: seq<Slot>)
    ensures r <= walk && forall i :: 0 <= i < |r| ==> r[i].member != m
    ensures |r| < |walk| ==> walk[|r|].member == m
  {
    if walk == [] || walk[0].member == m then [] else [walk[0]] + Until(walk[1..], m)
  }

  /** The slots met going back from one of the member's keys to its previous one. */
  function Span(slots: Slots, key: nat, m: Member): seq<Slot>
    requires IsRing(slots) && key < SPACE
  {
    BackwardOrder(slots.Keys, key);
    Until(SlotsAt(slots, Backward(slots.Keys, key)), m)
  }

  function MembersIn(span: seq<Slot>): (r: seq<Member>)
    ensures |r| == |span| && forall i :: 0 <= i < |span| ==> r[i] == span[i].member
  {
    seq(|span|, i requires 0 <= i < |span| => span[i].member)
  }

  /** The distinct members among the first `n` slots. */
  ghost function Met(span: seq<Slot>, n: nat): set<Member>
    requires n <= |span|
  {
    Elements(MembersIn(span)[..n])
  }

  /** The span holds the first slot of `x` among its first `repFactor` distinct members. */
  ghost predicate ChargedIn(span: seq<Slot>, repFactor: nat, x: Member) {
    exists q :: 0 <= q < |span| && span[q] == Slot(true, x) && |Met(span, q + 1)| <= repFactor
  }

  lemma MetPush(span: seq<Slot>, n: nat)
    requires n < |span|
    ensures Met(span, n + 1) == Met(span, n) + {span[n].member}
  {
  }

  lemma {:induction false} MetGrows(span: seq<Slot>, a: nat, b: nat)
    requires a <= b <= |span|
    ensures Met(span, a) <= Met(span, b) && |Met(span, a)| <= |Met(span, b)|
    decreases b
  {
    if a < b {
      MetGrows(span, a, b - 1);
      MetPush(span, b - 1);
      assert Met(span, b) == Met(span, b - 1) + (Met(span, b) - Met(span, b - 1));
    }
  }

  /** The members whose first slot is among the first `n`. */
  ghost function FirstMet(span: seq<Slot>, n: nat): set<Member>
    requires n <= |span|
  {
    if n == 0 then {}
    else FirstMet(span, n - 1) + if span[n - 1].first then {span[n - 1].member} else {}
  }

  lemma {:induction false} FirstMetMeans(span: seq<Slot>, n: nat, x: Member)
    requires n <= |span|
    ensures x in FirstMet(span, n) <==> exists q :: 0 <= q < n && span[q] == Slot(true, x)
    ensures x in FirstMet(span, n) ==> x in Met(span, n)
  {
    if n > 0 {
      FirstMetMeans(span, n - 1, x);
      MetPush(span, n - 1);
      assert span[n - 1].first && span[n - 1].member == x <==> span[n - 1] == Slot(true, x);
    }
  }

  /** The flags kept along a walk: which members were met, and whether at their first slot. */
  ghost predicate Tally(span: seq<Slot>, n: nat, flags: map<Member, bool>)
    requires n <= |span|
  {
    && flags.Keys == Met(span, n)
    && forall x :: x in flags ==> (flags[x] <==> x in FirstMet(span, n))
  }

  lemma FirstMetPush(span: seq<Slot>, n: nat)
    requires n < |span|
    ensures forall x :: x in FirstMet(span, n + 1) <==> x in FirstMet(span, n) || span[n] == Slot(true, x)
  {
  }

  lemma TallyPush(span: seq<Slot>, n: nat, flags: map<Member, bool>, seen: bool)
    requires n < |span| && Tally(span, n, flags)
    requires var m := span[n].member; if m in flags then seen == flags[m] else !seen
    ensures Tally(span, n + 1, flags[span[n].member := span[n].first || seen])
    ensures |Met(span, n + 1)| == |Met(span, n)| + if span[n].member in flags then 0 else 1
  {
    hide Met, FirstMet;
    var m := span[n].member;
    MetPush(span, n);
    FirstMetPush(span, n);
    FirstMetMeans(span, n, m);
    if m in flags {
      assert Met(span, n + 1) == Met(span, n);
    }
  }

  /** A complete walk, or one cut short because one member too many came up at position `n`, has seen
      everything that counts. */
  lemma ChargedBeforeCut(span: seq<Slot>, repFactor: nat, n: nat, x: Member)
    requires n <= |span| && |Met(span, n)| <= repFactor
    requires n < |span| ==> |Met(span, n)| == repFactor && span[n].member !in Met(span, n)
    ensures ChargedIn(span, repFactor, x) <==> x in FirstMet(span, n)
  {
  }

  // ----- both walks in terms of distance -----

  lemma KeyIsSlot(h: Hashing, slots: Slots, members: set<Member>, m: Member, key: nat)
    requires Represents(h, slots, members) && m in members && key in Keys(h, m)
    ensures key in slots && slots[key].member == m
  {
  }

  lemma OnlyFirst(h: Hashing, slots: Slots, members: set<Member>, keys: seq<nat>, x: Member, q: nat)
    requires Represents(h, slots, members) && CollisionFree(h, members)
    requires (forall k :: k in keys ==> k in slots) && Distinct(keys)
    requires q < |keys| && keys[q] == h.code(x)
    ensures forall p :: 0 <= p < |keys| && SlotsAt(slots, keys)[p] == Slot(true, x) ==> p == q
  {
  }

  lemma MembersAreContained(h: Hashing, slots: Slots, members: set<Member>, m: Member)
    requires Represents(h, slots, members)
    ensures Contains(h, slots, m) ==> m in members
    ensures m in members ==> Contains(h, slots, m) && slots[h.code(m)] == Slot(true, m)
  {
    assert Keys(h, m)[0] == h.code(m);
  }

  /** The first slot of the forward walk is the one it starts from. */
  lemma WalkStartsAt(slots: Slots, key: nat)
    requires IsRing(slots) && key in slots
    ensures Forward(slots.Keys, key) != [] && Forward(slots.Keys, key)[0] == key
  {
    ForwardOrder(slots.Keys, key);
    var w := Forward(slots.Keys, key);
    assert key in w && w[0] in w;
    forall i | 0 < i < |w| ensures w[i] != key {
      assert Distance(key, w[0]) < Distance(key, w[i]);
    }
  }

  lemma {:induction false} UniqueHead<T>(s: seq<T>)
    requires s != []
    ensures Unique(s) != [] && Unique(s)[0] == s[0]
  {
    if |s| > 1 {
      UniqueHead(s[..|s| - 1]);
    }
  }

  lemma ManagersStartAt(slots: Slots, key: nat, num: nat)
    requires IsRing(slots) && key in slots
    ensures Distinct(Managers(slots, key, num + 1)) && Managers(slots, key, num + 1) != []
    ensures Managers(slots, key, num + 1)[0] == slots[key].member
  {
    WalkStartsAt(slots, key);
    ForwardOrder(slots.Keys, key);
    var ms := MembersAt(slots, Forward(slots.Keys, key));
    UniqueHead(ms);
    UniqueElements(ms);
  }

  lemma NodeManagersByDistance(
    h: Hashing, slots: Slots, members: set<Member>, repFactor: nat, x: Member, m: Member)
    requires Represents(h, slots, members) && x in members
    ensures m in NodeManagers(h, slots, repFactor, x)
       <==> m != x && exists k :: k in slots && slots[k].member == m && |Passed(slots, h.code(x), k)| <= repFactor
  {
    var key := h.code(x);
    MembersAreContained(h, slots, members, x);
    ManagersStartAt(slots, key, repFactor);
    var list := Managers(slots, key, repFactor + 1);
    assert m in list[1..] <==> m in list && m != x;
    ManagersByDistance(slots, key, repFactor + 1, m);
    forall k | k in slots
      ensures |Passed(slots, key, k)| < repFactor + 1 <==> |Passed(slots, key, k)| <= repFactor
    {
    }
  }

  /** Seen from the far end, the part of the span up to `x` is what lies between `x` and the key. */
  lemma BackwardPrefix(slots: Slots, a: nat, key: nat, w: seq<nat>, q: nat)
    requires IsRing(slots) && key < SPACE && a != key
    requires forall k :: k in w <==> k in slots
    requires forall i, j :: 0 <= i < j < |w| ==> Distance(key, w[i]) > Distance(key, w[j])
    requires q < |w| && w[q] == a
    ensures Elements(MembersAt(slots, w)[..q + 1]) == Passed(slots, a, key)
  {
    var ms := MembersAt(slots, w);
    assert a in w;
    forall m | m in ms[..q + 1] ensures m in Passed(slots, a, key) {
      var i :| 0 <= i < q + 1 && ms[i] == m;
      assert w[i] in w;
      assert Distance(a, w[i]) < Distance(a, key);
    }
    forall y | y in slots && Distance(a, y) < Distance(a, key) ensures slots[y].member in ms[..q + 1] {
      assert y in w;
      var i :| 0 <= i < |w| && w[i] == y;
      assert ms[..q + 1][i] == slots[y].member;
    }
  }

  lemma SpanByDistance(
    h: Hashing, slots: Slots, members: set<Member>, repFactor: nat, m: Member, key: nat, x: Member)
    requires Represents(h, slots, members) && CollisionFree(h, members)
    requires m in members && x in members && x != m && key in Keys(h, m)
    ensures ChargedIn(Span(slots, key, m), repFactor, x)
       <==> m !in Passed(slots, h.code(x), key) && |Passed(slots, h.code(x), key)| <= repFactor
  {
    BackwardOrder(slots.Keys, key);
    SpanAlong(h, slots, members, repFactor, m, key, x, Backward(slots.Keys, key));
  }

  lemma SpanAlong(h: Hashing, slots: Slots, members: set<Member>, repFactor: nat, m: Member, key: nat,
                  x: Member, w: seq<nat>)
    requires Represents(h, slots, members) && CollisionFree(h, members)
    requires m in members && x in members && x != m && key in Keys(h, m)
    requires forall k :: k in w <==> k in slots
    requires forall i, j :: 0 <= i < j < |w| ==> Distance(key, w[i]) > Distance(key, w[j])
    ensures ChargedIn(Until(SlotsAt(slots, w), m), repFactor, x)
       <==> m !in Passed(slots, h.code(x), key) && |Passed(slots, h.code(x), key)| <= repFactor
  {
    var a := h.code(x);
    MembersAreContained(h, slots, members, x);
    KeyIsSlot(h, slots, members, m, key);
    assert a in w;
    var q :| 0 <= q < |w| && w[q] == a;
    BackwardPrefix(slots, a, key, w, q);
    OnlyFirst(h, slots, members, w, x, q);
    ChargedInWalk(SlotsAt(slots, w), MembersAt(slots, w), m, repFactor, x, q);
  }

  lemma ChargedInWalk(walk: seq<Slot>, ms: seq<Member>, m: Member, repFactor: nat, x: Member, q: nat)
    requires |ms| == |walk| && forall i :: 0 <= i < |walk| ==> ms[i] == walk[i].member
    requires q < |walk| && walk[q] == Slot(true, x)
    requires forall p :: 0 <= p < |walk| && walk[p] == Slot(true, x) ==> p == q
    ensures ChargedIn(Until(walk, m), repFactor, x)
       <==> m !in Elements(ms[..q + 1]) && |Elements(ms[..q + 1])| <= repFactor
  {
    var span := Until(walk, m);
    SpanReaches(walk, ms, m, q);
    assert forall p :: 0 <= p < |span| ==> span[p] == walk[p];
    if q < |span| {
      assert MembersIn(span)[..q + 1] == ms[..q + 1];
      assert span[q] == Slot(true, x);
    }
  }

  /** The span contains position `q` exactly when the member does not occur up to there. */
  lemma SpanReaches(walk: seq<Slot>, ms: seq<Member>, m: Member, q: nat)
    requires |ms| == |walk| && forall i :: 0 <= i < |walk| ==> ms[i] == walk[i].member
    requires q < |walk|
    ensures q < |Until(walk, m)| <==> m !in Elements(ms[..q + 1])
  {
  }

  // ----- the inverse -----

  /** If `m` is near enough to `x`, then its nearest key is, and no key of `m` lies before that one. */
  lemma {:induction false} NearestKey(slots: Slots, a: nat, k: nat, m: Member, bound: nat)
    returns (nearest: nat)
    requires IsRing(slots) && a < SPACE
    requires k in slots && slots[k].member == m && |Passed(slots, a, k)| <= bound
    ensures nearest in slots && slots[nearest].member == m
    ensures |Passed(slots, a, nearest)| <= bound && m !in Passed(slots, a, nearest)
    decreases Distance(a, k)
  {
    nearest := k;
    if m in Passed(slots, a, k) {
      var y :| y in slots && Distance(a, y) < Distance(a, k) && slots[y].member == m;
      var nearer, near := Passed(slots, a, y), Passed(slots, a, k);
      assert nearer <= near;
      assert |near| == |nearer| + |near - nearer| by { assert near == nearer + (near - nearer); }
      nearest := NearestKey(slots, a, y, m, bound);
    }
  }

  ghost predicate ChargedBy(h: Hashing, slots: Slots, repFactor: nat, m: Member, x: Member)
    requires IsRing(slots)
  {
    exists key :: key in VnodeKeys(h, m, m.vnodes) && ChargedIn(Span(slots, key, m), repFactor, x)
  }

  /** The managers of a member are listed by their distance from it. */
  lemma NodeManagersInOrder(h: Hashing, slots: Slots, members: set<Member>, repFactor: nat, x: Member, i: nat, j: nat)
    returns (k: nat)
    requires Represents(h, slots, members) && x in members && i < j < |NodeManagers(h, slots, repFactor, x)|
    ensures k in slots && slots[k].member == NodeManagers(h, slots, repFactor, x)[i]
    ensures forall l :: l in slots && slots[l].member == NodeManagers(h, slots, repFactor, x)[j] ==>
              Distance(h.code(x), k) < Distance(h.code(x), l)
  {
    hide *;
    ManagersTail(h, slots, members, repFactor, x, i);
    ManagersTail(h, slots, members, repFactor, x, j);
    k := ManagersInOrder(slots, h.code(x), repFactor + 1, i + 1, j + 1);
  }

  lemma ManagersTail(h: Hashing, slots: Slots, members: set<Member>, repFactor: nat, x: Member, i: nat)
    requires Represents(h, slots, members) && i < |NodeManagers(h, slots, repFactor, x)|
    ensures IsRing(slots) && i + 1 < |Managers(slots, h.code(x), repFactor + 1)|
    ensures NodeManagers(h, slots, repFactor, x)[i] == Managers(slots, h.code(x), repFactor + 1)[i + 1]
  {
    hide Managers;
  }

  /** The two relations are inverse, for every collision-free ring, every replication factor and every
      number of virtual nodes that is not zero. A member that asks for no virtual nodes does occupy a
      slot, and so may be a manager, but its list of charges is always empty. */
  lemma ChargesInvertManagers(
    h: Hashing, slots: Slots, members: set<Member>, repFactor: nat, m: Member, x: Member)
    requires Represents(h, slots, members) && CollisionFree(h, members)
    requires m in members && x in members
    ensures m.vnodes > 0 ==>
              (ChargedBy(h, slots, repFactor, m, x) <==> m in NodeManagers(h, slots, repFactor, x))
    ensures m.vnodes == 0 ==> !ChargedBy(h, slots, repFactor, m, x)
  {
    NodeManagersByDistance(h, slots, members, repFactor, x, m);
    var a := h.code(x);
    if x == m {
      forall key | key in VnodeKeys(h, m, m.vnodes) ensures !ChargedIn(Span(slots, key, m), repFactor, x) {
      }
    } else if m.vnodes > 0 {
      if key :| key in Keys(h, m) && ChargedIn(Span(slots, key, m), repFactor, x) {
        SpanByDistance(h, slots, members, repFactor, m, key, x);
        KeyIsSlot(h, slots, members, m, key);
      }
      if k :| k in slots && slots[k].member == m && |Passed(slots, a, k)| <= repFactor {
        var key := NearestKey(slots, a, k, m, repFactor);
        SpanByDistance(h, slots, members, repFactor, m, key, x);
        assert key in VnodeKeys(h, m, m.vnodes);
      }
    }
  }

  /** So for one member the relations are inverse exactly when it asks for virtual nodes or manages nobody. */
  lemma InverseExactly(h: Hashing, slots: Slots, members: set<Member>, repFactor: nat, m: Member)
    requires Represents(h, slots, members) && CollisionFree(h, members) && m in members
    ensures (forall x :: x in members ==>
               (ChargedBy(h, slots, repFactor, m, x) <==> m in NodeManagers(h, slots, repFactor, x)))
       <==> m.vnodes > 0 || forall x :: x in members ==> m !in NodeManagers(h, slots, repFactor, x)
  {
    hide CollisionFree, ChargedBy, NodeManagers;
    forall x | x in members
      ensures m.vnodes > 0 ==>
                (ChargedBy(h, slots, repFactor, m, x) <==> m in NodeManagers(h, slots, repFactor, x))
      ensures m.vnodes == 0 ==> !ChargedBy(h, slots, repFactor, m, x)
    {
      ChargesInvertManagers(h, slots, members, repFactor, m, x);
    }
  }

  /** Where they are not: of two members, the one without virtual nodes manages the other and is not told to. */
  lemma ManagesWithoutCharging(h: Hashing, slots: Slots, repFactor: nat, m: Member, x: Member)
    requires Represents(h, slots, {m, x}) && CollisionFree(h, {m, x}) && m != x
    requires m.vnodes == 0 && repFactor > 0
    ensures m in NodeManagers(h, slots, repFactor, x) && !ChargedBy(h, slots, repFactor, m, x)
  {
    ChargesInvertManagers(h, slots, {m, x}, repFactor, m, x);
    NodeManagersByDistance(h, slots, {m, x}, repFactor, x, m);
    var a := h.code(x);
    var k := Keys(h, m)[0];
    KeyIsSlot(h, slots, {m, x}, m, k);
    var nearest := NearestKey(slots, a, k, m, |Passed(slots, a, k)|);
    assert Passed(slots, a, nearest) <= {x};
    OneAtMost(Passed(slots, a, nearest), x);
  }

  lemma OneAtMost(s: set<Member>, x: Member)
    requires s <= {x}
    ensures |s| <= 1
  {
    assert s == {} || s == {x};
  }

  /** No member is charged through two virtual nodes. */
  lemma ChargedOnce(
    h: Hashing, slots: Slots, members: set<Member>, repFactor: nat, m: Member, x: Member, k: nat, l: nat)
    requires Represents(h, slots, members) && CollisionFree(h, members)
    requires m in members && x in members && k in Keys(h, m) && l in Keys(h, m)
    requires ChargedIn(Span(slots, k, m), repFactor, x) && ChargedIn(Span(slots, l, m), repFactor, x)
    ensures k == l
  {
    var a := h.code(x);
    if x != m {
      SpanByDistance(h, slots, members, repFactor, m, k, x);
      SpanByDistance(h, slots, members, repFactor, m, l, x);
      KeyIsSlot(h, slots, members, m, k);
      KeyIsSlot(h, slots, members, m, l);
      assert Distance(a, k) < Distance(a, l) ==> m in Passed(slots, a, l);
      assert Distance(a, l) < Distance(a, k) ==> m in Passed(slots, a, k);
    }
  }

  lemma ChargedAreMembers(
    h: Hashing, slots: Slots, members: set<Member>, repFactor: nat, m: Member, key: nat, x: Member)
    requires Represents(h, slots, members) && key < SPACE
    requires ChargedIn(Span(slots, key, m), repFactor, x)
    ensures x in members && x != m
  {
    BackwardOrder(slots.Keys, key);
    var w := Backward(slots.Keys, key);
    var span := Span(slots, key, m);
    var q :| 0 <= q < |span| && span[q] == Slot(true, x);
    assert w[q] in w && span[q] == slots[w[q]];
  }
}
