/** Running sums over a bounded deque of heartbeat intervals. */
module IntervalStorage {

  function Sum(s: seq<nat>): nat {
    if s == [] then 0 else s[0] + Sum(s[1..])
  }

  function SumSquares(s: seq<nat>): nat {
    if s == [] then 0 else s[0] * s[0] + SumSquares(s[1..])
  }

  /** `init`, 0, `init`, 0, ... : two for each of `times`, cut to the capacity. */
  function Initial(cap: nat, init: nat, times: nat): (s: seq<nat>)
    ensures |s| == if 2 * times <= cap then 2 * times else cap
  {
    seq(if 2 * times <= cap then 2 * times else cap, k => if k % 2 == 0 then init else 0)
  }

  lemma {:induction false} SumsAtTheBack(s: seq<nat>, x: nat)
    ensures Sum(s + [x]) == Sum(s) + x && SumSquares(s + [x]) == SumSquares(s) + x * x
  {
    if s != [] {
      SumsAtTheBack(s[1..], x);
      assert (s + [x])[1..] == s[1..] + [x];
    }
  }

  // ----- what the standard deviation is taken from

  function Square(x: real): real {
    x * x
  }

  /** The sum of the squared distances from `m`. */
  function Deviations(s: seq<nat>, m: real): real {
    if s == [] then 0.0 else Square(s[0] as real - m) + Deviations(s[1..], m)
  }

  lemma ExpandStep(x: nat, m: real, squares: nat, sum: nat, n: nat)
    ensures Square(x as real - m) + (squares as real - 2.0 * m * sum as real + n as real * m * m)
            == (x * x + squares) as real - 2.0 * m * (x + sum) as real + (n + 1) as real * m * m
  {
  }

  lemma {:induction false} DeviationsExpand(s: seq<nat>, m: real)
    ensures Deviations(s, m) == SumSquares(s) as real - 2.0 * m * Sum(s) as real + |s| as real * m * m
  {
    if s != [] {
      var t := s[1..];
      assert Deviations(s, m) == Square(s[0] as real - m) + Deviations(t, m);
      assert SumSquares(s) == s[0] * s[0] + SumSquares(t) && Sum(s) == s[0] + Sum(t) && |s| == |t| + 1;
      hide *;
      DeviationsExpand(t, m);
      ExpandStep(s[0], m, SumSquares(t), Sum(t), |t|);
    }
  }

  lemma SquareZero(x: real)
    ensures x == 0.0 ==> Square(x) == 0.0
    ensures x != 0.0 ==> Square(x) > 0.0
  {
    if x != 0.0 {
      calc {
        Square(x);
        x * x;
        > 0.0 * x;
        0.0;
      }
    }
  }

  predicate AllAt(s: seq<nat>, m: real) {
    forall i | 0 <= i < |s| :: s[i] as real == m
  }

  lemma {:induction false} DeviationsZero(s: seq<nat>, m: real)
    ensures if AllAt(s, m) then Deviations(s, m) == 0.0 else Deviations(s, m) > 0.0
  {
    hide Square;
    if s != [] {
      DeviationsZero(s[1..], m);
      SquareZero(s[0] as real - m);
      assert AllAt(s, m) <==> s[0] as real == m && AllAt(s[1..], m) by {
        assert s == [s[0]] + s[1..];
      }
    }
  }

  function Mean(s: seq<nat>): real
    requires s != []
  {
    Sum(s) as real / |s| as real
  }

  /** The value under the square root. */
  function Variance(s: seq<nat>): real
    requires s != []
  {
    SumSquares(s) as real / |s| as real - Mean(s) * Mean(s)
  }

  lemma AtMean(n: real, m: real, q: real, sum: real)
    requires n > 0.0 && m == sum / n
    ensures n * m == sum
    ensures q - 2.0 * m * sum + n * m * m == n * (q / n - m * m)
    ensures n * (q / n - m * m) / n == q / n - m * m
    ensures n * (q / n - m * m) == 0.0 <==> q / n - m * m == 0.0
    ensures n * n * (q / n - m * m) == n * q - sum * sum
  {
  }

  lemma Quotient(x: real, n: real)
    requires n > 0.0 && x >= 0.0
    ensures x / n >= 0.0 && n * x >= 0.0
  {
  }

  /** It is the mean squared distance from the mean, so never negative. */
  lemma VarianceIsMeanDeviation(s: seq<nat>)
    requires s != []
    ensures Variance(s) == Deviations(s, Mean(s)) / |s| as real
    ensures Deviations(s, Mean(s)) == |s| as real * Variance(s)
    ensures Variance(s) >= 0.0
  {
    hide Deviations, Sum, SumSquares;
    DeviationsExpand(s, Mean(s));
    AtMean(|s| as real, Mean(s), SumSquares(s) as real, Sum(s) as real);
    DeviationsZero(s, Mean(s));
    Quotient(Deviations(s, Mean(s)), |s| as real);
  }

  /** And it is zero just when all intervals agree. */
  lemma VarianceZero(s: seq<nat>)
    requires s != []
    ensures Variance(s) == 0.0 <==> forall i, j | 0 <= i < |s| && 0 <= j < |s| :: s[i] == s[j]
  {
    hide Deviations, Variance, Mean;
    VarianceIsMeanDeviation(s);
    DeviationsZero(s, Mean(s));
    TimesZero(|s| as real, Variance(s));
    if forall i, j | 0 <= i < |s| && 0 <= j < |s| :: s[i] == s[j] {
      SumOfEqual(s, s[0]);
      assert AllAt(s, Mean(s));
    }
  }

  lemma TimesZero(n: real, v: real)
    requires n > 0.0
    ensures if v == 0.0 then n * v == 0.0 else n * v != 0.0
  {
  }

  lemma TimesOver(n: real, x: real)
    requires n > 0.0
    ensures n * x / n == x
  {
  }

  lemma {:induction false} SumOfEqual(s: seq<nat>, x: nat)
    requires s != []
    requires forall i | 0 <= i < |s| :: s[i] == x
    ensures Mean(s) == x as real
  {
    var n := |s| as real;
    SumOfEqualTimes(s, x);
    assert (|s| * x) as real == n * x as real;
    TimesOver(n, x as real);
  }

  lemma {:induction false} SumOfEqualTimes(s: seq<nat>, x: nat)
    requires forall i | 0 <= i < |s| :: s[i] == x
    ensures Sum(s) == |s| * x
  {
    if s != [] {
      SumOfEqualTimes(s[1..], x);
    }
  }

  /** The Cauchy-Schwarz inequality for the running sums. */
  lemma SumsObeyCauchySchwarz(s: seq<nat>)
    ensures |s| * SumSquares(s) >= Sum(s) * Sum(s)
  {
    hide Deviations, Sum, SumSquares;
    if s != [] {
      var n, q, sum := |s|, SumSquares(s), Sum(s);
      VarianceIsMeanDeviation(s);
      AtMean(n as real, Mean(s), q as real, sum as real);
      Quotient(Variance(s), n as real);
      Quotient(n as real * Variance(s), n as real);
      assert (n * q) as real == n as real * q as real && (sum * sum) as real == sum as real * sum as real;
    } else {
      assert Sum(s) == 0 by { SumsBounded(s, 0); }
    }
  }

  lemma ProductMonotone(a: nat, b: nat, c: nat)
    requires a <= b
    ensures a * c <= b * c
  {
  }

  lemma OneMore(n: nat, c: nat)
    ensures (n + 1) * c == n * c + c
  {
  }

  lemma {:induction false} SumsBounded(s: seq<nat>, max: nat)
    requires forall i | 0 <= i < |s| :: s[i] <= max
    ensures Sum(s) <= |s| * max && SumSquares(s) <= |s| * (max * max)
  {
    if s != [] {
      SumsBounded(s[1..], max);
      ProductMonotone(s[0], max, s[0]);
      ProductMonotone(s[0], max, max);
      OneMore(|s[1..]|, max);
      OneMore(|s[1..]|, max * max);
    }
  }

  const U64: nat := 0x1_0000_0000_0000_0000

  /** Neither sum leaves 64 bits while no interval exceeds `max`. */
  lemma SumsFit(s: seq<nat>, cap: nat, max: nat)
    requires |s| <= cap && cap * (max * max) < U64
    requires forall i | 0 <= i < |s| :: s[i] <= max
    ensures Sum(s) < U64 && SumSquares(s) < U64
  {
    hide Sum, SumSquares;
    SumsBounded(s, max);
    ProductMonotone(|s|, cap, max * max);
    if max > 0 {
      ProductMonotone(1, max, max);
      ProductMonotone(max, max * max, |s|);
    }
  }

  /** `duration_since` on a monotonic clock, which is zero for an instant that lies before. */
  function Since(earlier: nat, i: nat): nat {
    if earlier <= i then i - earlier else 0
  }

  class IntervalStorage {
    const capacity: nat
    var intervals: seq<nat>
    var sum: nat
    var sumSquares: nat
    var latest: nat

    ghost predicate Valid()
      reads this
    {
      |intervals| <= capacity && sum == Sum(intervals) && sumSquares == SumSquares(intervals)
    }

    constructor (cap: nat, init: nat, times: nat, start: nat)
      ensures Valid() && capacity == cap && latest == start
      ensures intervals == Initial(cap, init, times)
      ensures |intervals| == if 2 * times <= cap then 2 * times else cap
      ensures forall k | 0 <= k < |intervals| :: intervals[k] == if k % 2 == 0 then init else 0
    {
      capacity := cap;
      intervals := Initial(cap, init, times);
      sum := Sum(Initial(cap, init, times));
      sumSquares := SumSquares(Initial(cap, init, times));
      latest := start;
    }

    /** The time since the last push goes to the front; the oldest intervals make room. Without a capacity there is
        nothing to pop, which is a panic. */
    method PushInstant(i: nat) returns (panicked: bool)
      requires Valid()
      modifies this
      ensures Valid()
      ensures panicked <==> capacity == 0
      ensures panicked ==> intervals == [] && latest == old(latest)
      ensures !panicked ==> latest == i
      ensures !panicked ==> |intervals| == if |old(intervals)| < capacity then |old(intervals)| + 1 else capacity
      ensures !panicked && old(latest) <= i ==> old(latest) + intervals[0] == i
      ensures !panicked && i < old(latest) ==> intervals[0] == 0
      ensures !panicked ==> intervals == [Since(old(latest), i)] + old(intervals)[..|intervals| - 1]
    {
      panicked := false;
      while |intervals| >= capacity
        invariant latest == old(latest) && |intervals| <= |old(intervals)| <= capacity
        invariant intervals == old(intervals)[..|intervals|]
        invariant |intervals| < |old(intervals)| ==> |old(intervals)| == capacity && |intervals| == capacity - 1
        invariant capacity == 0 ==> intervals == []
        invariant sum == Sum(intervals) && sumSquares == SumSquares(intervals)
        decreases |intervals|
      {
        if intervals == [] {
          return true;
        }
        var last: nat := intervals[|intervals| - 1];
        ghost var kept := intervals[..|intervals| - 1];
        SumsAtTheBack(kept, last);
        assert intervals == kept + [last];
        intervals := intervals[..|intervals| - 1];
        sum := sum - last;
        sumSquares := sumSquares - last * last;
      }
      var first: nat := Since(latest, i);
      ghost var rest := intervals;
      intervals := [first] + intervals;
      assert intervals[1..] == rest;
      sum := sum + first;
      sumSquares := sumSquares + first * first;
      latest := i;
    }

    method Average() returns (mean: real)
      requires Valid() && intervals != []
      ensures mean == Mean(intervals)
    {
      mean := sum as real / |intervals| as real;
    }

    /** What `stdev` takes the square root of, in exact arithmetic. */
    method Spread() returns (variance: real)
      requires Valid() && intervals != []
      ensures variance == Deviations(intervals, Mean(intervals)) / |intervals| as real
      ensures variance >= 0.0
    {
      var mean := Average();
      variance := sumSquares as real / |intervals| as real - mean * mean;
      VarianceIsMeanDeviation(intervals);
    }
  }
}
