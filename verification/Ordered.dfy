/** Iteration in key order: what `BTreeMap`, `BTreeSet` and `RedBlackTreeMapSync` give their users.
    An ordered collection is a set or map here, and `Ascending` is the order its iterator follows. */
module Ordered {

  ghost predicate StrictTotal<T(!new)>(less: (T, T) -> bool) {
    && (forall a :: !less(a, a))
    && (forall a, b, c :: less(a, b) && less(b, c) ==> less(a, c))
    && (forall a, b :: a != b ==> less(a, b) || less(b, a))
  }

  ghost predicate SortedBy<T>(less: (T, T) -> bool, s: seq<T>) {
    forall i, j :: 0 <= i < j < |s| ==> less(s[i], s[j])
  }

  ghost predicate Distinct<T>(s: seq<T>) {
    forall i, j :: 0 <= i < j < |s| ==> s[i] != s[j]
  }

  predicate IsLeast<T(==)>(less: (T, T) -> bool, x: T, s: set<T>) {
    x in s && forall y :: y in s && y != x ==> less(x, y)
  }

  lemma LeastExists<T(!new)>(less: (T, T) -> bool, s: set<T>)
    requires StrictTotal(less) && s != {}
    ensures exists x :: IsLeast(less, x, s)
    decreases |s|
  {
    var y :| y in s;
    if s == {y} {
      assert IsLeast(less, y, s);
    } else {
      LeastExists(less, s - {y});
      var x :| IsLeast(less, x, s - {y});
      assert IsLeast(less, if less(x, y) then x else y, s);
    }
  }

  /** The elements of a finite set in increasing order. */
  function Ascending<T(==,!new)>(less: (T, T) -> bool, s: set<T>): (r: seq<T>)
    requires StrictTotal(less)
    ensures SortedBy(less, r)
    ensures forall x :: x in r <==> x in s
    ensures |r| == |s|
    decreases |s|
  {
    if s == {} then [] else
      LeastExists(less, s);
      var x :| IsLeast(less, x, s);
      var rest := Ascending(less, s - {x});
      assert forall y :: y in rest ==> less(x, y);
      [x] + rest
  }

  lemma SortedIsDistinct<T(!new)>(less: (T, T) -> bool, s: seq<T>)
    requires StrictTotal(less) && SortedBy(less, s)
    ensures Distinct(s)
  {
  }

  function Elements<T(==)>(s: seq<T>): set<T> {
    set x | x in s
  }

  lemma ElementsPush<T>(s: seq<T>, x: T)
    ensures Elements(s + [x]) == Elements(s) + {x}
  {
  }

  lemma DistinctConcat<T>(s: seq<T>, t: seq<T>)
    requires Distinct(s) && Distinct(t) && forall x :: x in t ==> x !in s
    ensures Distinct(s + t)
  {
    forall i, j | 0 <= i < j < |s + t| ensures (s + t)[i] != (s + t)[j] {
      if i < |s| <= j {
        assert (s + t)[i] in s && (s + t)[j] in t;
      }
    }
  }

  lemma DistinctSize<T>(s: seq<T>)
    requires Distinct(s)
    ensures |Elements(s)| == |s|
  {
    if |s| > 0 {
      var init := s[..|s| - 1];
      DistinctSize(init);
      assert s == init + [s[|s| - 1]];
      ElementsPush(init, s[|s| - 1]);
    }
  }

  /** An increasing sequence is determined by its elements. */
  lemma {:induction false} SortedUnique<T(!new)>(less: (T, T) -> bool, s: seq<T>, t: seq<T>)
    requires StrictTotal(less) && SortedBy(less, s) && SortedBy(less, t)
    requires forall x :: x in s <==> x in t
    ensures s == t
  {
    assert (forall i :: 0 <= i < |t| ==> t[i] in s) && (forall i :: 0 <= i < |s| ==> s[i] in t);
    if s == [] {
    } else {
      assert s[0] == t[0];
      SortedIsDistinct(less, s);
      SortedIsDistinct(less, t);
      forall x ensures x in s[1..] <==> x in t[1..] {
        assert x in s[1..] <==> x in s && x != s[0];
        assert x in t[1..] <==> x in t && x != t[0];
      }
      SortedUnique(less, s[1..], t[1..]);
      assert s == [s[0]] + s[1..] && t == [t[0]] + t[1..];
    }
  }

  predicate NatLess(a: nat, b: nat) {
    a < b
  }

  lemma NatOrder()
    ensures StrictTotal(NatLess)
  {
  }

  predicate PairLess(a: (nat, nat), b: (nat, nat)) {
    a.0 < b.0 || (a.0 == b.0 && a.1 < b.1)
  }

  lemma PairOrder()
    ensures StrictTotal(PairLess)
  {
  }
}
