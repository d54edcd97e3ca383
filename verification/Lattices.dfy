/** The `CRDT` trait: a minimum, a join and an emptiness test, with the laws that a delta-state CRDT
    is expected to obey. */
module Lattices {

  datatype Lattice<!S(==,!new)> = Lattice(minimum: S, join: (S, S) -> S, empty: S -> bool)
  {
    /** `a` carries nothing that `b` lacks. */
    predicate Le(a: S, b: S) {
      join(a, b) == b
    }

    // The laws are quantified over named instances, so that the solver uses one only where a proof
    // names it.
    ghost predicate Commutes(a: S, b: S) { join(a, b) == join(b, a) }
    ghost predicate Associates(a: S, b: S, c: S) { join(join(a, b), c) == join(a, join(b, c)) }
    ghost predicate Bounds(a: S) { join(a, a) == a && join(minimum, a) == a && (empty(a) <==> a == minimum) }

    ghost predicate Laws() {
      && (forall a, b :: Commutes(a, b))
      && (forall a, b, c :: Associates(a, b, c))
      && (forall a :: Bounds(a))
    }

    lemma LeReflexive(a: S)
      requires Laws()
      ensures Le(a, a) && Le(minimum, a)
    {
      assert Bounds(a);
    }

    lemma LeTransitive(a: S, b: S, c: S)
      requires Laws() && Le(a, b) && Le(b, c)
      ensures Le(a, c)
    {
      assert Associates(a, b, c);
    }

    lemma LeAntisymmetric(a: S, b: S)
      requires Laws() && Le(a, b) && Le(b, a)
      ensures a == b
    {
      assert Commutes(a, b);
    }

    lemma JoinIsUpper(a: S, b: S)
      requires Laws()
      ensures Le(a, join(a, b)) && Le(b, join(a, b))
    {
      assert Bounds(a) && Bounds(b);
      assert Associates(a, a, b) && Commutes(a, b) && Associates(b, b, a);
    }

    lemma JoinIsLeast(a: S, b: S, c: S)
      requires Laws() && Le(a, c) && Le(b, c)
      ensures Le(join(a, b), c)
    {
      assert Associates(a, b, c);
    }

    lemma JoinMonotone(a: S, b: S, c: S, d: S)
      requires Laws() && Le(a, c) && Le(b, d)
      ensures Le(join(a, b), join(c, d))
    {
      JoinIsUpper(c, d);
      LeTransitive(a, c, join(c, d));
      LeTransitive(b, d, join(c, d));
      JoinIsLeast(a, b, join(c, d));
    }

    /** The left fold `ds.fold(S::minimum(), S::join)`. */
    function JoinAll(ds: seq<S>): S {
      if ds == [] then minimum else join(JoinAll(ds[..|ds| - 1]), ds[|ds| - 1])
    }

    lemma JoinAllPush(ds: seq<S>, d: S)
      ensures JoinAll(ds + [d]) == join(JoinAll(ds), d)
    {
    }

    lemma {:induction false} JoinAllIsUpper(ds: seq<S>, i: nat)
      requires Laws() && i < |ds|
      ensures Le(ds[i], JoinAll(ds))
    {
      var init := ds[..|ds| - 1];
      JoinIsUpper(JoinAll(init), ds[|ds| - 1]);
      if i < |ds| - 1 {
        JoinAllIsUpper(init, i);
        LeTransitive(ds[i], JoinAll(init), JoinAll(ds));
      }
    }

    lemma {:induction false} JoinAllIsLeast(ds: seq<S>, x: S)
      requires Laws() && forall i :: 0 <= i < |ds| ==> Le(ds[i], x)
      ensures Le(JoinAll(ds), x)
    {
      if ds == [] {
        LeReflexive(x);
      } else {
        var init := ds[..|ds| - 1];
        JoinAllIsLeast(init, x);
        JoinIsLeast(JoinAll(init), ds[|ds| - 1], x);
      }
    }

    /** A fold depends only on which values occur: order, grouping and repetition do not matter. */
    lemma JoinAllIgnoresOrder(ds: seq<S>, es: seq<S>)
      requires Laws() && forall x :: x in ds <==> x in es
      ensures JoinAll(ds) == JoinAll(es)
    {
      forall i | 0 <= i < |ds| ensures Le(ds[i], JoinAll(es)) {
        assert ds[i] in es;
        var j :| 0 <= j < |es| && es[j] == ds[i];
        JoinAllIsUpper(es, j);
      }
      forall i | 0 <= i < |es| ensures Le(es[i], JoinAll(ds)) {
        assert es[i] in ds;
        var j :| 0 <= j < |ds| && ds[j] == es[i];
        JoinAllIsUpper(ds, j);
      }
      JoinAllIsLeast(ds, JoinAll(es));
      JoinAllIsLeast(es, JoinAll(ds));
      LeAntisymmetric(JoinAll(ds), JoinAll(es));
    }
  }
}
