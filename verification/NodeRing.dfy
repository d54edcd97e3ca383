/** The ring as the cluster actor uses it. `members` is what the ring means; the slots are kept by
    inserting and removing one key after another. */
module NodeRing {
  import opened Members
  import opened Monitoring
  import opened Ordered
  import opened Ring
  import opened Wrappers

  /** The flags that the walk over one span leaves behind: which members were met, and whether at their
      first slot. The walk stops at the first member too many. */
  method Collect(span: seq<Slot>, repFactor: nat) returns (flags: map<Member, bool>)
    ensures forall x :: x in flags && flags[x] <==> ChargedIn(span, repFactor, x)
  {
    flags := map[];
    var i := 0;
    var n := 0;
    while n < |span|
      invariant n <= |span| && Tally(span, n, flags)
      invariant i == |Met(span, n)| && i <= repFactor
    {
      var Slot(first, mbr) := span[n];
      if mbr in flags {
        TallyPush(span, n, flags, flags[mbr]);
        flags := flags[mbr := first || flags[mbr]];
      } else {
        if i == repFactor {
          break;
        }
        TallyPush(span, n, flags, false);
        i := i + 1;
        flags := flags[mbr := first];
      }
      n := n + 1;
    }
    forall x ensures x in flags && flags[x] <==> ChargedIn(span, repFactor, x) {
      ChargedBeforeCut(span, repFactor, n, x);
      FirstMetMeans(span, n, x);
    }
  }

  /** The flagged members. The order in which the map is iterated is left open. */
  method Flagged(flags: map<Member, bool>) returns (charged: seq<Member>)
    ensures Distinct(charged)
    ensures forall x :: x in charged <==> x in flags && flags[x]
  {
    charged := [];
    var rest := flags.Keys;
    while rest != {}
      invariant rest <= flags.Keys && Distinct(charged)
      invariant forall x :: x in charged <==> x in flags && x !in rest && flags[x]
      decreases |rest|
    {
      var x :| x in rest;
      rest := rest - {x};
      if flags[x] {
        charged := charged + [x];
      }
    }
  }

  class NodeRing {
    const hashing: Hashing
    const repFactor: nat
    var ring: Slots
    ghost var members: set<Member>

    ghost predicate Valid()
      reads this
    {
      Represents(hashing, ring, members) && CollisionFree(hashing, members)
    }

    constructor (hashing: Hashing, repFactor: nat)
      ensures Valid() && members == {} && this.hashing == hashing && this.repFactor == repFactor
    {
      this.hashing := hashing;
      this.repFactor := repFactor;
      this.ring := map[];
      this.members := {};
    }

    predicate Contains(m: Member)
      requires Valid()
      reads this
      ensures Contains(m) <==> m in members
    {
      MembersAreContained(hashing, ring, members, m);
      Monitoring.Contains(hashing, ring, m)
    }

    /** `node_managers`. */
    function NodeManagers(m: Member): (r: Option<seq<Member>>)
      requires Valid()
      reads this
      ensures r.None? <==> m !in members
      ensures r.Some? ==> m !in r.value && |r.value| <= repFactor
    {
      if !Contains(m) then None else
        MembersAreContained(hashing, ring, members, m);
        ManagersStartAt(ring, hashing.code(m), repFactor);
        Some(Monitoring.NodeManagers(hashing, ring, repFactor, m))
    }

    /** The managers of a member are other members, each listed once. */
    lemma ManagersAreMembers(m: Member)
      requires Valid() && m in members
      ensures Distinct(NodeManagers(m).value)
      ensures forall x :: x in NodeManagers(m).value ==> x in members && x != m
    {
      hide CollisionFree, Managers, Passed;
      MembersAreContained(hashing, ring, members, m);
      ManagersStartAt(ring, hashing.code(m), repFactor);
      forall x | x in NodeManagers(m).value ensures x in members {
        NodeManagersByDistance(hashing, ring, members, repFactor, m, x);
      }
    }

    method Insert(m: Member)
      requires Valid() && CollisionFree(hashing, members + {m})
      modifies this
      ensures Valid() && members == old(members) + {m}
    {
      InsertRepresents(hashing, ring, members, m);
      PutSlots(m);
      members := members + {m};
    }

    method PutSlots(m: Member)
      modifies this`ring
      ensures ring == WithMember(hashing, old(ring), m)
    {
      var key := hashing.code(m);
      ring := ring[key := Slot(true, m)];
      for n := 1 to SlotCount(m)
        invariant key == VnodeKey(hashing, m, n - 1)
        invariant ring == Put(hashing, old(ring), m, n)
      {
        key := hashing.next(key);
        ring := ring[key := Slot(false, m)];
      }
    }

    /** Succeeds when as many slots went as the member asked for, and reports their number otherwise: a stranger has
        none, and a member of the ring that asked for none has one. */
    method Remove(m: Member) returns (r: Outcome<nat>)
      requires Valid() && CollisionFree(hashing, members + {m})
      modifies this
      ensures Valid() && members == old(members) - {m}
      ensures r == if m in old(members) <==> m.vnodes > 0 then Pass else Fail(if m in old(members) then 1 else 0)
    {
      RemoveRepresents(hashing, ring, members, m);
      var removed := DropSlots(m);
      r := if removed == m.vnodes then Pass else Fail(removed);
      members := members - {m};
    }

    method DropSlots(m: Member) returns (removed: nat)
      modifies this`ring
      ensures (ring, removed) == Drop(hashing, old(ring), m, SlotCount(m))
    {
      var key := hashing.code(m);
      removed := 0;
      for n := 0 to SlotCount(m)
        invariant key == VnodeKey(hashing, m, n)
        invariant (ring, removed) == Drop(hashing, old(ring), m, n)
      {
        if key in ring {
          removed := removed + 1;
        }
        ring := ring - {key};
        key := hashing.next(key);
      }
    }

    method Segment(key: nat, m: Member) returns (charged: seq<Member>)
      requires Valid() && key < SPACE
      ensures Distinct(charged)
      ensures forall x {:trigger x in charged} :: x in charged <==> ChargedIn(Span(ring, key, m), repFactor, x)
    {
      var flags := Collect(Span(ring, key, m), repFactor);
      charged := Flagged(flags);
    }

    static lemma DistinctNone<T>(s: seq<T>)
      requires s == []
      ensures Distinct(s)
    {
    }

    lemma NotBefore(m: Member, keys: seq<nat>, i: nat, x: Member)
      requires Valid() && m in members && keys == VnodeKeys(hashing, m, m.vnodes) && i < |keys|
      requires forall k :: k in keys ==> k < SPACE
      requires keys[i] in keys && ChargedIn(Span(ring, keys[i], m), repFactor, x)
      ensures forall j | 0 <= j < i :: keys[j] in keys && !ChargedIn(Span(ring, keys[j], m), repFactor, x)
    {
      KeysDistinct(hashing, members, m);
      ChargedAreMembers(hashing, ring, members, repFactor, m, keys[i], x);
      forall j | 0 <= j < i ensures keys[j] in keys && !ChargedIn(Span(ring, keys[j], m), repFactor, x) {
        if ChargedIn(Span(ring, keys[j], m), repFactor, x) {
          ChargedOnce(hashing, ring, members, repFactor, m, x, keys[j], keys[i]);
        }
      }
    }

    /** Being charged through one of the member's keys is being managed by the member. */
    lemma ChargesMean(m: Member, keys: seq<nat>, x: Member)
      requires Valid() && m in members && keys == VnodeKeys(hashing, m, m.vnodes)
      requires forall k :: k in keys ==> k < SPACE
      ensures (exists j :: 0 <= j < |keys| && ChargedIn(Span(ring, keys[j], m), repFactor, x))
         <==> x in members && m.vnodes > 0 && m in NodeManagers(x).value
    {
      if j :| 0 <= j < |keys| && ChargedIn(Span(ring, keys[j], m), repFactor, x) {
        ChargedAreMembers(hashing, ring, members, repFactor, m, keys[j], x);
      }
      if x in members {
        ChargesInvertManagers(hashing, ring, members, repFactor, m, x);
      }
    }

    /** The concatenation of the segments of the first `n` keys: no member turns up twice. */
    method Gather(m: Member, keys: seq<nat>) returns (c: seq<Member>)
      requires Valid() && m in members && keys == VnodeKeys(hashing, m, m.vnodes)
      requires IsRing(ring) && forall k :: k in keys ==> k < SPACE
      ensures Distinct(c)
      ensures forall x {:trigger x in c} :: x in c <==>
                exists j :: 0 <= j < |keys| && ChargedIn(Span(ring, keys[j], m), repFactor, x)
    {
      hide *;
      c := [];
      DistinctNone(c);
      for i := 0 to |keys|
        invariant Distinct(c)
        invariant forall x {:trigger x in c} :: x in c <==>
                    exists j :: 0 <= j < i && ChargedIn(Span(ring, keys[j], m), repFactor, x)
      {
        assert keys[i] in keys;
        var charged := Segment(keys[i], m);
        forall x | x in charged ensures x !in c {
          NotBefore(m, keys, i, x);
        }
        DistinctConcat(c, charged);
        c := c + charged;
      }
    }

    /** `charges` lists, without repetition, exactly the members that `m` is a manager of. */
    method Charges(m: Member) returns (r: Option<seq<Member>>)
      requires Valid()
      ensures r.None? <==> m !in members
      ensures r.Some? ==> Distinct(r.value)
      ensures r.Some? ==> forall x {:trigger x in r.value} :: x in r.value <==>
                x in members && m.vnodes > 0 && m in NodeManagers(x).value
    {
      if !Contains(m) {
        return None;
      }
      var keys := VnodeKeys(hashing, m, m.vnodes);
      RepresentsIsRing(hashing, ring, members);
      hide *;
      var c := Gather(m, keys);
      forall x ensures x in c <==> x in members && m.vnodes > 0 && m in NodeManagers(x).value {
        ChargesMean(m, keys, x);
      }
      r := Some(c);
    }
  }
}
