/** Adding or removing one member moves the responsibility for an item as little as it can. */
module Disruption {
  import opened Members
  import opened Ordered
  import opened Ring

  /** The sequence with some elements filtered out. */
  function Minus<T(==)>(s: seq<T>, drop: set<T>): seq<T> {
    if s == [] then [] else
      var front := Minus(s[..|s| - 1], drop);
      if s[|s| - 1] in drop then front else front + [s[|s| - 1]]
  }

  lemma {:induction false} MinusConcat<T>(a: seq<T>, b: seq<T>, drop: set<T>)
    ensures Minus(a + b, drop) == Minus(a, drop) + Minus(b, drop)
    decreases |b|
  {
    if b == [] {
      assert a + b == a;
    } else {
      var init := b[..|b| - 1];
      assert (a + b)[..|a + b| - 1] == a + init;
      MinusConcat(a, init, drop);
    }
  }

  lemma {:induction false} MinusElements<T>(s: seq<T>, drop: set<T>)
    ensures forall x :: x in Minus(s, drop) <==> x in s && x !in drop
  {
    if s != [] {
      MinusElements(s[..|s| - 1], drop);
      assert s == s[..|s| - 1] + [s[|s| - 1]];
    }
  }

  lemma {:induction false} MinusNothing<T>(s: seq<T>, drop: set<T>)
    requires forall x :: x in s ==> x !in drop
    ensures Minus(s, drop) == s
  {
    if s != [] {
      var init := s[..|s| - 1];
      assert s == init + [s[|s| - 1]];
      assert forall x :: x in init ==> x in s;
      MinusNothing(init, drop);
    }
  }

  lemma {:induction false} MinusSorted(s: seq<nat>, drop: set<nat>)
    requires SortedBy(NatLess, s)
    ensures SortedBy(NatLess, Minus(s, drop))
  {
    if s != [] {
      var init := s[..|s| - 1];
      MinusSorted(init, drop);
      MinusElements(init, drop);
      var front := Minus(init, drop);
      forall i | 0 <= i < |front| ensures NatLess(front[i], s[|s| - 1]) {
        assert front[i] in front;
        var j :| 0 <= j < |init| && init[j] == front[i];
        assert NatLess(s[j], s[|s| - 1]);
      }
    }
  }

  lemma SortedMinus(keys: set<nat>, drop: set<nat>)
    ensures Sorted(keys - drop) == Minus(Sorted(keys), drop)
  {
    NatOrder();
    MinusSorted(Sorted(keys), drop);
    MinusElements(Sorted(keys), drop);
    SortedUnique(NatLess, Sorted(keys - drop), Minus(Sorted(keys), drop));
  }

  lemma ForwardMinus(keys: set<nat>, drop: set<nat>, key: nat)
    ensures Forward(keys - drop, key) == Minus(Forward(keys, key), drop)
  {
    assert AtLeast(keys - drop, key) == AtLeast(keys, key) - drop;
    assert Below(keys - drop, key) == Below(keys, key) - drop;
    SortedMinus(AtLeast(keys, key), drop);
    SortedMinus(Below(keys, key), drop);
    MinusConcat(Sorted(AtLeast(keys, key)), Sorted(Below(keys, key)), drop);
  }

  /** Dropping all slots of a member from a walk drops the member from what is met. */
  lemma {:induction false} MembersMinus(slots: Slots, slots': Slots, w: seq<nat>, drop: set<nat>, m: Member)
    requires forall k :: k in w ==> k in slots && (k in drop <==> slots[k].member == m)
    requires forall k :: k in slots && k !in drop ==> k in slots' && slots'[k] == slots[k]
    requires forall k :: k in Minus(w, drop) ==> k in slots'
    ensures MembersAt(slots', Minus(w, drop)) == Minus(MembersAt(slots, w), {m})
  {
    if w != [] {
      var init := w[..|w| - 1];
      var last := w[|w| - 1];
      assert w == init + [last] && last in w;
      MinusElements(init, drop);
      MembersMinus(slots, slots', init, drop, m);
      assert MembersAt(slots, w)[..|w| - 1] == MembersAt(slots, init);
    }
  }

  lemma {:induction false} UniqueMinus<T>(s: seq<T>, drop: set<T>)
    ensures Unique(Minus(s, drop)) == Minus(Unique(s), drop)
  {
    if s != [] {
      var init := s[..|s| - 1];
      var last := s[|s| - 1];
      UniqueMinus(init, drop);
      MinusElements(Unique(init), drop);
      if last !in drop {
        assert Minus(s, drop)[..|Minus(s, drop)| - 1] == Minus(init, drop);
      }
      if last !in Unique(init) {
        assert Unique(s)[..|Unique(s)| - 1] == Unique(init);
      }
    }
  }

  lemma MinusOne<T>(a: seq<T>, m: T, b: seq<T>)
    requires m !in a && m !in b
    ensures Minus(a + [m] + b, {m}) == a + b
  {
    MinusConcat(a + [m], b, {m});
    MinusConcat(a, [m], {m});
    MinusNothing(a, {m});
    MinusNothing(b, {m});
    assert Minus([m], {m}) == [] by { assert [m][..0] == []; }
  }

  lemma SplitAt<T>(u: seq<T>, m: T) returns (a: seq<T>, b: seq<T>)
    requires Distinct(u) && m in u
    ensures u == a + [m] + b && m !in a && m !in b
  {
    var p :| 0 <= p < |u| && u[p] == m;
    a, b := u[..p], u[p + 1..];
    assert forall i :: 0 <= i < |b| ==> b[i] == u[p + 1 + i];
  }

  /** One more is enough when one is to be filtered out. */
  lemma TakeMinus<T>(u: seq<T>, m: T, n: nat)
    requires Distinct(u)
    ensures Take(Minus(u, {m}), n) == Take(Minus(Take(u, n + 1), {m}), n)
  {
    if m in u {
      var a, b := SplitAt(u, m);
      MinusOne(a, m, b);
      if |a| <= n {
        var c := Take(b, n - |a|);
        assert Take(a + [m] + b, n + 1) == a + [m] + c;
        MinusOne(a, m, c);
        assert Take(a + b, n) == a + c == Take(a + c, n);
      } else {
        assert Take(a + [m] + b, n + 1) == Take(a, n + 1);
        MinusNothing(Take(a, n + 1), {m});
        assert Take(a + b, n) == Take(a, n) == Take(Take(a, n + 1), n);
      }
    } else {
      MinusNothing(u, {m});
      MinusNothing(Take(u, n + 1), {m});
    }
  }

  /** Without a member, the managers of an item are those before, one more than needed, without it. */
  lemma RemovalDisruption(h: Hashing, slots: Slots, members: set<Member>, m: Member, key: nat, n: nat)
    requires Represents(h, slots, members) && CollisionFree(h, members + {m}) && key < SPACE
    ensures IsRing(WithoutMember(h, slots, m))
    ensures Managers(WithoutMember(h, slots, m), key, n) == Take(Minus(Managers(slots, key, n + 1), {m}), n)
  {
    var slots' := WithoutMember(h, slots, m);
    RemoveRepresents(h, slots, members, m);
    DropSlots(h, slots, m, SlotCount(m));
    var drop := set k | k in slots && slots[k].member == m;
    OwnKeys(h, slots, members, m);
    assert slots'.Keys == slots.Keys - drop;
    ForwardMinus(slots.Keys, drop, key);
    ForwardOrder(slots.Keys, key);
    ForwardOrder(slots'.Keys, key);
    var w := Forward(slots.Keys, key);
    MembersMinus(slots, slots', w, drop, m);
    UniqueMinus(MembersAt(slots, w), {m});
    UniqueElements(MembersAt(slots, w));
    TakeMinus(Unique(MembersAt(slots, w)), m, n);
  }

  lemma OwnKeys(h: Hashing, slots: Slots, members: set<Member>, m: Member)
    requires Represents(h, slots, members) && CollisionFree(h, members + {m})
    ensures forall k :: k in slots ==> (slots[k].member == m <==> k in Keys(h, m))
  {
    forall k | k in slots && k in Keys(h, m) ensures slots[k].member == m {
      var n := slots[k].member;
      assert KeysApart(h, m, n);
      var i :| 0 <= i < |Keys(h, m)| && Keys(h, m)[i] == k;
      var j :| 0 <= j < |Keys(h, n)| && Keys(h, n)[j] == k;
    }
  }

  /** A new member either leaves the managers of an item alone, or enters at one place and pushes the last
      one out. */
  lemma InsertionDisruption(h: Hashing, slots: Slots, members: set<Member>, m: Member, key: nat, n: nat)
    requires Represents(h, slots, members) && CollisionFree(h, members + {m}) && key < SPACE
    requires m !in members
    ensures IsRing(slots) && IsRing(WithMember(h, slots, m))
    ensures var before, after := Managers(slots, key, n), Managers(WithMember(h, slots, m), key, n);
            || after == before
            || exists i :: 0 <= i <= |before| && after == Take(before[..i] + [m] + before[i..], n)
  {
    var slots' := WithMember(h, slots, m);
    InsertRepresents(h, slots, members, m);
    RemoveUndoesInsert(h, slots, members, m);
    assert members + {m} + {m} == members + {m};
    RemovalDisruption(h, slots', members + {m}, m, key, n);
    ForwardOrder(slots'.Keys, key);
    var u := Unique(MembersAt(slots', Forward(slots'.Keys, key)));
    UniqueElements(MembersAt(slots', Forward(slots'.Keys, key)));
    TakeMinus(u, m, n);
    EntersOnce(u, m, n);
  }

  lemma EntersOnce<T>(u: seq<T>, m: T, n: nat)
    requires Distinct(u)
    ensures var before, after := Take(Minus(u, {m}), n), Take(u, n);
            || after == before
            || exists i :: 0 <= i <= |before| && after == Take(before[..i] + [m] + before[i..], n)
  {
    if m in u {
      var a, b := SplitAt(u, m);
      MinusOne(a, m, b);
      var before := Take(a + b, n);
      if |a| < n {
        assert before == a + Take(b, n - |a|);
        assert before[..|a|] == a && before[|a|..] == Take(b, n - |a|);
        assert Take(u, n) == Take(before[..|a|] + [m] + before[|a|..], n);
      } else {
        assert Take(u, n) == before;
      }
    } else {
      MinusNothing(u, {m});
    }
  }
}
