/** The numeric side of the engine over exact reals: the folds behind sum,
    mean, stddev, sample_stddev, min, max, absmin and absmax, the median of a
    sorted array, and the limits of `double` the scans are seeded with. */
module Numeric {
  import opened Sorting

  /** DBL_MAX, the largest finite double, (2 - 2^-52) * 2^1023. */
  const DBL_MAX: real := 179769313486231570814527423731704356798070567525844996598917476803157260780028538760589558632766878171540458953514382464234321326889464182768467546703537516986049910576551282076245490090389328944075868508455133942304583236903222948165808559332123348274797826204144723168738177180919299881250404026184124858368.0

  /** DBL_MIN, the smallest positive normal double, 2^-1022. */
  const DBL_MIN: real := 1.0 / 44942328371557897693232629769725618340449424473557664318357520289433168951375240783177119330601884005280028469967848339414697442203604155623211857659868531094441973356216371319075554900311523529863270738021251442209537670585615720368478277635206809290837627671146574559986811484619929076208839082406056034304.0

  /** INT_MAX of a 32-bit int. */
  const INT_MAX: int := 0x7fff_ffff

  /** A double result: NaN, or a number. */
  datatype Stat = NaN | Num(value: real)

  /** The order `less<double>` sorts by, and the one `greater<double>` sorts by. */
  const Ascending: (real, real) -> bool := (a: real, b: real) => a <= b
  const Descending: (real, real) -> bool := (a: real, b: real) => a >= b

  lemma RealOrders()
    ensures TotalOrder(Ascending) && TotalOrder(Descending)
  {
  }

  function Abs(x: real): real {
    if x < 0.0 then -x else x
  }

  function AbsAll(xs: seq<real>): (ys: seq<real>)
    ensures |ys| == |xs|
    ensures forall i :: 0 <= i < |xs| ==> ys[i] == Abs(xs[i])
  {
    if xs == [] then [] else AbsAll(xs[..|xs| - 1]) + [Abs(xs[|xs| - 1])]
  }

  /** The running total of a left-to-right accumulation. */
  function Total(xs: seq<real>): real {
    if xs == [] then 0.0 else Total(xs[..|xs| - 1]) + xs[|xs| - 1]
  }

  /** The running total of squared deviations from `avg`. */
  function SquareDiffSum(xs: seq<real>, avg: real): real {
    if xs == [] then 0.0
    else
      var d := xs[|xs| - 1] - avg;
      SquareDiffSum(xs[..|xs| - 1], avg) + d * d
  }

  /** A sum of squares is never negative, so neither variance is. */
  lemma {:induction false} SquareDiffSumNonNegative(xs: seq<real>, avg: real)
    ensures SquareDiffSum(xs, avg) >= 0.0
  {
    if xs != [] {
      SquareDiffSumNonNegative(xs[..|xs| - 1], avg);
      var d := xs[|xs| - 1] - avg;
      assert d * d >= 0.0;
    }
  }

  /** A total of values lying in [lo, hi] lies in [n * lo, n * hi]. */
  lemma {:induction false} TotalBounds(xs: seq<real>, lo: real, hi: real)
    requires forall i :: 0 <= i < |xs| ==> lo <= xs[i] <= hi
    ensures |xs| as real * lo <= Total(xs) <= |xs| as real * hi
  {
    if xs != [] {
      var n := |xs| as real;
      TotalBounds(xs[..|xs| - 1], lo, hi);
      assert (n - 1.0) * lo + lo == n * lo;
      assert (n - 1.0) * hi + hi == n * hi;
    }
  }

  /** Dividing bounds n * lo <= t <= n * hi by a positive n. */
  lemma DivideBounds(t: real, n: real, lo: real, hi: real)
    requires n > 0.0 && n * lo <= t <= n * hi
    ensures lo <= t / n <= hi
  {
    var q := t / n;
    assert q * n == t;
    assert n * (q - lo) >= 0.0;
    assert n * (hi - q) >= 0.0;
  }

  /** The mean lies between the smallest and the largest value. */
  lemma MeanBounds(xs: seq<real>, lo: real, hi: real)
    requires |xs| > 0
    requires forall i :: 0 <= i < |xs| ==> lo <= xs[i] <= hi
    ensures lo <= Total(xs) / |xs| as real <= hi
  {
    TotalBounds(xs, lo, hi);
    DivideBounds(Total(xs), |xs| as real, lo, hi);
  }

  /** min / absmin: a left-to-right scan keeping the smaller of the value and
      the running minimum, starting from `seed`. */
  function ScanMin(seed: real, xs: seq<real>): real {
    if xs == [] then seed
    else
      var m := ScanMin(seed, xs[..|xs| - 1]);
      var x := xs[|xs| - 1];
      if x < m then x else m
  }

  /** max / absmax: the same scan keeping the larger one. */
  function ScanMax(seed: real, xs: seq<real>): real {
    if xs == [] then seed
    else
      var m := ScanMax(seed, xs[..|xs| - 1]);
      var x := xs[|xs| - 1];
      if x > m then x else m
  }

  /** The scan yields the least of the seed and the values. */
  lemma {:induction false} ScanMinIsLeast(seed: real, xs: seq<real>)
    ensures ScanMin(seed, xs) <= seed
    ensures forall i :: 0 <= i < |xs| ==> ScanMin(seed, xs) <= xs[i]
    ensures ScanMin(seed, xs) == seed || ScanMin(seed, xs) in xs
  {
    if xs != [] {
      ScanMinIsLeast(seed, xs[..|xs| - 1]);
    }
  }

  /** The scan yields the greatest of the seed and the values. */
  lemma {:induction false} ScanMaxIsGreatest(seed: real, xs: seq<real>)
    ensures ScanMax(seed, xs) >= seed
    ensures forall i :: 0 <= i < |xs| ==> ScanMax(seed, xs) >= xs[i]
    ensures ScanMax(seed, xs) == seed || ScanMax(seed, xs) in xs
  {
    if xs != [] {
      ScanMaxIsGreatest(seed, xs[..|xs| - 1]);
    }
  }

  /** Seeded with DBL_MAX, the scan returns the true minimum of values that
      are finite doubles. */
  lemma ScanMinFromDblMax(xs: seq<real>)
    requires |xs| > 0
    requires forall i :: 0 <= i < |xs| ==> xs[i] <= DBL_MAX
    ensures ScanMin(DBL_MAX, xs) in xs
  {
    ScanMinIsLeast(DBL_MAX, xs);
    if ScanMin(DBL_MAX, xs) == DBL_MAX {
      assert xs[0] == DBL_MAX;
    }
  }

  /** The largest value, as max was evidently meant: the scan seeded with the
      first value instead of DBL_MIN. */
  function MaxElement(xs: seq<real>): (r: real)
    requires |xs| > 0
    ensures r in xs
    ensures forall i :: 0 <= i < |xs| ==> xs[i] <= r
  {
    ScanMaxIsGreatest(xs[0], xs[1..]);
    assert forall i :: 1 <= i < |xs| ==> xs[i] == xs[1..][i - 1];
    ScanMax(xs[0], xs[1..])
  }

  /** max as written on the group ["-1"]: the scan seeded with DBL_MIN
      reports DBL_MIN, a number not in the group, where -1 was meant. */
  lemma MaxSeedNotAnElement()
    ensures ScanMax(DBL_MIN, [-1.0]) == DBL_MIN
    ensures DBL_MIN !in [-1.0]
    ensures MaxElement([-1.0]) == -1.0
  {
    assert [-1.0][..0] == [];
  }

  /** absmax as written on the group ["0"]: the absolute value 0 never beats
      the seed DBL_MIN, which is reported instead of 0. */
  lemma AbsMaxSeedNotAnElement()
    ensures ScanMax(DBL_MIN, AbsAll([0.0])) == DBL_MIN
    ensures DBL_MIN !in AbsAll([0.0])
    ensures MaxElement(AbsAll([0.0])) == 0.0
  {
    assert AbsAll([0.0]) == [0.0];
    assert [0.0][..0] == [];
  }

  /** The median of an ascending array: its middle element for an odd
      length, the mean of the two middle elements for an even one. */
  function MedianOfSorted(v: seq<real>): real
    requires |v| > 0
  {
    if |v| % 2 == 1 then v[|v| / 2]
    else (v[|v| / 2 - 1] + v[|v| / 2]) / 2.0
  }

  /** How many values are at most `t`, and how many at least `t`. */
  function CountAtMost(xs: seq<real>, t: real): nat {
    if xs == [] then 0 else CountAtMost(xs[1..], t) + (if xs[0] <= t then 1 else 0)
  }

  function CountAtLeast(xs: seq<real>, t: real): nat {
    if xs == [] then 0 else CountAtLeast(xs[1..], t) + (if xs[0] >= t then 1 else 0)
  }

  lemma {:induction false} CountsOfConcat(a: seq<real>, b: seq<real>, t: real)
    ensures CountAtMost(a + b, t) == CountAtMost(a, t) + CountAtMost(b, t)
    ensures CountAtLeast(a + b, t) == CountAtLeast(a, t) + CountAtLeast(b, t)
  {
    if a == [] {
      assert a + b == b;
    } else {
      assert (a + b)[1..] == a[1..] + b;
      CountsOfConcat(a[1..], b, t);
    }
  }

  /** Taking out the element at j takes its contribution out of the counts. */
  lemma CountsOfRemoval(b: seq<real>, j: nat, t: real)
    requires j < |b|
    ensures CountAtMost(b, t) == CountAtMost(b[..j] + b[j + 1..], t) + (if b[j] <= t then 1 else 0)
    ensures CountAtLeast(b, t) == CountAtLeast(b[..j] + b[j + 1..], t) + (if b[j] >= t then 1 else 0)
  {
    assert b == b[..j] + ([b[j]] + b[j + 1..]);
    CountsOfConcat(b[..j], [b[j]] + b[j + 1..], t);
    CountsOfConcat([b[j]], b[j + 1..], t);
    CountsOfConcat(b[..j], b[j + 1..], t);
    assert ([b[j]])[1..] == [];
  }

  lemma MultisetOfRemoval(b: seq<real>, j: nat)
    requires j < |b|
    ensures multiset(b[..j] + b[j + 1..]) == multiset(b) - multiset{b[j]}
  {
    assert b == b[..j] + [b[j]] + b[j + 1..];
  }

  /** The counts depend only on the values, not on their order. */
  lemma {:induction false} CountsOfPermutation(a: seq<real>, b: seq<real>, t: real)
    requires multiset(a) == multiset(b)
    ensures CountAtMost(a, t) == CountAtMost(b, t)
    ensures CountAtLeast(a, t) == CountAtLeast(b, t)
  {
    if a != [] {
      assert a[0] in multiset(b);
      var j :| 0 <= j < |b| && b[j] == a[0];
      MultisetOfRemoval(b, j);
      assert a == [a[0]] + a[1..];
      assert multiset(a[1..]) == multiset(a) - multiset{a[0]};
      CountsOfPermutation(a[1..], b[..j] + b[j + 1..], t);
      CountsOfRemoval(b, j, t);
    }
  }

  /** The leading k values of an ascending array are at most its k-th, and the
      trailing ones at least. */
  lemma {:induction false} SortedCounts(v: seq<real>, k: nat, t: real)
    requires SortedBy(v, Ascending)
    requires k < |v|
    ensures v[k] <= t ==> CountAtMost(v, t) >= k + 1
    ensures t <= v[k] ==> CountAtLeast(v, t) >= |v| - k
  {
    if k > 0 {
      assert SortedBy(v[1..], Ascending);
      SortedCounts(v[1..], k - 1, t);
      assert v[1..][k - 1] == v[k];
      assert Ascending(v[0], v[k]);
    } else {
      assert SortedBy(v, Ascending);
      SortedCountsFromStart(v, t);
    }
  }

  lemma {:induction false} SortedCountsFromStart(v: seq<real>, t: real)
    requires SortedBy(v, Ascending) && |v| > 0
    ensures v[0] <= t ==> CountAtMost(v, t) >= 1
    ensures t <= v[0] ==> CountAtLeast(v, t) == |v|
  {
    if |v| > 1 {
      assert SortedBy(v[1..], Ascending);
      SortedCountsFromStart(v[1..], t);
      assert Ascending(v[0], v[1]);
    }
  }

  /** The median splits the group: at least half of the values are at most
      the median and at least half are at least the median. */
  lemma MedianSplitsGroup(xs: seq<real>, v: seq<real>)
    requires |xs| > 0
    requires SortedBy(v, Ascending) && multiset(v) == multiset(xs)
    ensures |v| == |xs|
    ensures 2 * CountAtMost(xs, MedianOfSorted(v)) >= |xs|
    ensures 2 * CountAtLeast(xs, MedianOfSorted(v)) >= |xs|
  {
    var n := |v|;
    assert n == |multiset(v)| == |xs|;
    var med := MedianOfSorted(v);
    CountsOfPermutation(xs, v, med);
    if n % 2 == 1 {
      SortedCounts(v, n / 2, med);
    } else {
      assert Ascending(v[n / 2 - 1], v[n / 2]);
      SortedCounts(v, n / 2 - 1, med);
      SortedCounts(v, n / 2, med);
    }
  }

  /** mean: the total divided by the number of values. */
  function MeanOf(xs: seq<real>): (r: real)
    requires |xs| > 0
  {
    Total(xs) / |xs| as real
  }

  /** stddev as computed: the mean squared deviation from the mean (the
      population variance; no square root is taken). */
  function Variance(xs: seq<real>): (r: real)
    requires |xs| > 0
  {
    SquareDiffSum(xs, MeanOf(xs)) / |xs| as real
  }

  /** sample_stddev as computed: the squared deviations divided by N - 1
      (the sample variance). */
  function SampleVariance(xs: seq<real>): (r: real)
    requires |xs| > 1
  {
    SquareDiffSum(xs, MeanOf(xs)) / (|xs| as real - 1.0)
  }

  /** The two statistics differ only in the divisor. */
  lemma VarianceFromSample(xs: seq<real>)
    requires |xs| > 1
    ensures Variance(xs) == SampleVariance(xs) * (|xs| as real - 1.0) / |xs| as real
  {
    var n := |xs| as real;
    var q := SquareDiffSum(xs, MeanOf(xs));
    assert q / (n - 1.0) * (n - 1.0) == q;
  }

  lemma VarianceNonNegative(xs: seq<real>)
    requires |xs| > 0
    ensures Variance(xs) >= 0.0
    ensures |xs| > 1 ==> SampleVariance(xs) >= 0.0
  {
    SquareDiffSumNonNegative(xs, MeanOf(xs));
  }

  lemma {:induction false} SquareDiffSumOfConstant(xs: seq<real>, c: real)
    requires forall i :: 0 <= i < |xs| ==> xs[i] == c
    ensures SquareDiffSum(xs, c) == 0.0
  {
    if xs != [] {
      SquareDiffSumOfConstant(xs[..|xs| - 1], c);
    }
  }

  /** A group whose values are all equal has that value as its mean and no spread. */
  lemma ConstantGroup(xs: seq<real>, c: real)
    requires |xs| > 0
    requires forall i :: 0 <= i < |xs| ==> xs[i] == c
    ensures MeanOf(xs) == c
    ensures Variance(xs) == 0.0
  {
    TotalBounds(xs, c, c);
    SquareDiffSumOfConstant(xs, c);
  }

  /** The scan seeded with `seed` yields the larger of the seed and the
      largest value, so it is the largest value exactly when that is at
      least the seed. */
  lemma ScanMaxOfSeed(seed: real, xs: seq<real>)
    requires |xs| > 0
    ensures ScanMax(seed, xs) == if MaxElement(xs) > seed then MaxElement(xs) else seed
  {
    ScanMaxIsGreatest(seed, xs);
    var m := MaxElement(xs);
    var i :| 0 <= i < |xs| && xs[i] == m;
    if ScanMax(seed, xs) != seed {
      var j :| 0 <= j < |xs| && xs[j] == ScanMax(seed, xs);
    }
  }
}
