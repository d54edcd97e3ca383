/** The bounded log of heartbeat senders, which counts runs and senders to notice a sender that comes back. */
module FrequencyBuffer {
  import opened Ordered

  /** Adjacent pairs that differ. */
  function Changes<T(==)>(s: seq<T>): nat {
    if |s| < 2 then 0 else (if s[0] != s[1] then 1 else 0) + Changes(s[1..])
  }

  /** Every sender's entries are next to each other. */
  ghost predicate Contiguous<T>(s: seq<T>) {
    forall i, j, k | 0 <= i < j < k < |s| && s[i] == s[k] :: s[j] == s[i]
  }

  lemma ContiguousTail<T>(s: seq<T>)
    requires |s| > 1
    ensures Contiguous(s) <==> Contiguous(s[1..]) && (s[0] == s[1] || s[0] !in s[1..])
  {
  }

  /** There is a run per sender at least, and exactly one per sender when no sender comes back. */
  lemma {:induction false} RunsAgainstSenders<T>(s: seq<T>)
    requires s != []
    ensures Changes(s) + 1 >= |Elements(s)|
    ensures Changes(s) + 1 == |Elements(s)| <==> Contiguous(s)
  {
    if |s| == 1 {
      assert Elements(s) == {s[0]};
    } else {
      var t := s[1..];
      RunsAgainstSenders(t);
      ContiguousTail(s);
      assert s == [s[0]] + t;
      if s[0] in t {
        assert Elements(s) == Elements(t);
      } else {
        assert Elements(s) == Elements(t) + {s[0]};
      }
    }
  }

  lemma {:induction false} ChangesAtTheBack<T>(s: seq<T>)
    requires s != []
    ensures Changes(s) == Changes(s[..|s| - 1]) + if |s| > 1 && s[|s| - 2] != s[|s| - 1] then 1 else 0
  {
    if |s| > 2 {
      ChangesAtTheBack(s[1..]);
      assert s[1..][..|s| - 2] == s[..|s| - 1][1..];
    }
  }

  lemma BagAtTheBack<T>(s: seq<T>)
    requires s != []
    ensures multiset(s) == multiset(s[..|s| - 1]) + multiset{s[|s| - 1]}
  {
    assert s == s[..|s| - 1] + [s[|s| - 1]];
  }

  /** The buffer without its oldest entry, if there is one. */
  function Popped<T>(s: seq<T>): seq<T> {
    if s == [] then [] else s[..|s| - 1]
  }

  function PoppedTimes<T>(s: seq<T>, n: nat): seq<T> {
    if n == 0 then s else Popped(PoppedTimes(s, n - 1))
  }

  lemma {:induction false} PoppedLength<T>(s: seq<T>, n: nat)
    ensures |PoppedTimes(s, n)| == if n <= |s| then |s| - n else 0
  {
    if n > 0 {
      PoppedLength(s, n - 1);
    }
  }

  /** The loop that makes room in `push` comes to an end exactly when there is a capacity at all: its guard goes on
      holding on an empty buffer otherwise. */
  lemma PushEnds<T>(s: seq<T>, capacity: nat)
    ensures (exists n: nat :: |PoppedTimes(s, n)| < capacity) <==> capacity > 0
  {
    PoppedLength(s, |s|);
    assert capacity > 0 ==> |PoppedTimes(s, |s|)| < capacity;
  }

  ghost predicate TallyOf<T>(f: map<T, nat>, bag: multiset<T>, x: T) {
    bag[x] == (if x in f then f[x] else 0) && (x in f ==> f[x] > 0)
  }

  /** The map is the multiset. */
  ghost predicate Tallies<T(!new)>(f: map<T, nat>, bag: multiset<T>) {
    forall x :: TallyOf(f, bag, x)
  }

  lemma TallyOneMore<T(!new)>(f: map<T, nat>, bag: multiset<T>, item: T)
    requires Tallies(f, bag)
    ensures Tallies(f[item := (if item in f then f[item] else 0) + 1], multiset{item} + bag)
  {
    var g := f[item := (if item in f then f[item] else 0) + 1];
    forall x
      ensures TallyOf(g, multiset{item} + bag, x)
    {
      assert TallyOf(f, bag, x);
    }
  }

  lemma TallyOneLess<T(!new)>(f: map<T, nat>, bag: multiset<T>, removed: T)
    requires Tallies(f, bag + multiset{removed})
    ensures removed in f && f[removed] > 0
    ensures Tallies(if f[removed] == 1 then f - {removed} else f[removed := f[removed] - 1], bag)
  {
    assert TallyOf(f, bag + multiset{removed}, removed);
    var g := if f[removed] == 1 then f - {removed} else f[removed := f[removed] - 1];
    forall x
      ensures TallyOf(g, bag, x)
    {
      assert TallyOf(f, bag + multiset{removed}, x);
    }
  }

  class FrequencyBuffer<T(==, !new)> {
    var buffer: seq<T>
    var frequencies: map<T, nat>
    var changes: nat
    const capacity: nat

    /** `frequencies` is the buffer as a multiset, `changes` its adjacent differences. */
    ghost predicate Consistent()
      reads this
    {
      && Tallies(frequencies, multiset(buffer))
      && changes == Changes(buffer)
    }

    ghost predicate Valid()
      reads this
    {
      |buffer| <= capacity && Consistent()
    }

    constructor (cap: nat)
      ensures Valid() && buffer == [] && capacity == cap
    {
      buffer, frequencies, changes, capacity := [], map[], 0, cap;
    }

    method Pop()
      requires Consistent()
      modifies this
      ensures Consistent()
      ensures buffer == Popped(old(buffer))
    {
      if buffer != [] {
        hide Changes, Tallies;
        ghost var was := buffer;
        var removed := buffer[|buffer| - 1];
        buffer := buffer[..|buffer| - 1];
        BagAtTheBack(was);
        TallyOneLess(frequencies, multiset(buffer), removed);
        ChangesAtTheBack(was);
        if buffer != [] && buffer[|buffer| - 1] != removed {
          changes := changes - 1;
        }
        if removed in frequencies {
          if frequencies[removed] == 1 {
            frequencies := frequencies - {removed};
          } else {
            frequencies := frequencies[removed := frequencies[removed] - 1];
          }
        }
      }
    }

    /** The newest entry goes to the front; the oldest ones make room. Without a capacity it does not return. */
    method Push(item: T)
      requires Valid() && capacity > 0
      modifies this
      ensures Valid()
      ensures buffer == [item] + if |old(buffer)| < capacity then old(buffer) else old(buffer)[..capacity - 1]
    {
      while |buffer| >= capacity
        invariant Consistent() && |buffer| <= |old(buffer)| <= capacity
        invariant buffer == old(buffer)[..|buffer|]
        invariant |buffer| < |old(buffer)| ==> |old(buffer)| == capacity && |buffer| == capacity - 1
        decreases |buffer|
      {
        Pop();
      }
      if buffer != [] && buffer[0] != item {
        changes := changes + 1;
      }
      TallyOneMore(frequencies, multiset(buffer), item);
      var count := if item in frequencies then frequencies[item] else 0;
      frequencies := frequencies[item := count + 1];
      ghost var was := buffer;
      buffer := [item] + buffer;
      assert buffer[1..] == was;
      assert multiset(buffer) == multiset{item} + multiset(was);
    }

    /** The client's check, after a push: do several servers believe they manage it? */
    method MultipleSenders() returns (multiple: bool)
      requires Valid() && buffer != []
      ensures multiple <==> !Contiguous(buffer)
      ensures multiple <==> exists i, j, k :: 0 <= i < j < k < |buffer| && buffer[i] == buffer[k] != buffer[j]
    {
      RunsAgainstSenders(buffer);
      assert frequencies.Keys == Elements(buffer) by {
        forall x
          ensures x in frequencies <==> x in buffer
        {
          assert TallyOf(frequencies, multiset(buffer), x);
        }
      }
      assert |frequencies| == |frequencies.Keys|;
      multiple := changes + 1 != |frequencies|;
    }
  }
}
