/** Streaming statistics: running sums beside a sliding window of the last values. */
module Variance {
  import opened Bytes
  import opened Rings
  import opened Sums

  function Squares(vs: seq<nat>): nat {
    if vs == [] then 0 else Squares(vs[..|vs| - 1]) + vs[|vs| - 1] * vs[|vs| - 1]
  }

  /** The squared deviations from `m`. */
  function Deviations(vs: seq<nat>, m: real): (r: real)
    ensures r >= 0.0
  {
    if vs == [] then 0.0
    else
      var d := vs[|vs| - 1] as real - m;
      assert d * d >= 0.0;
      Deviations(vs[..|vs| - 1], m) + d * d
  }

  function RealSum(vs: seq<nat>): real {
    if vs == [] then 0.0 else RealSum(vs[..|vs| - 1]) + vs[|vs| - 1] as real
  }

  function RealSquares(vs: seq<nat>): real {
    if vs == [] then 0.0
    else
      var x := vs[|vs| - 1] as real;
      RealSquares(vs[..|vs| - 1]) + x * x
  }

  function Mean(vs: seq<nat>): real {
    if vs == [] then 0.0 else RealSum(vs) / |vs| as real
  }

  /** The population variance, by its definition. */
  function PopulationVariance(vs: seq<nat>): (r: real)
    ensures r >= 0.0
  {
    if vs == [] then 0.0 else TwoPass(|vs| as real, Deviations(vs, Mean(vs)))
  }

  /** Of 1 and 3 the mean is 2 and the variance 1. */
  lemma VarianceExample()
    ensures Mean([1, 3]) == 2.0 && PopulationVariance([1, 3]) == 1.0
  {
    assert [1, 3][..1] == [1] && [1][..0] == [];
    assert RealSum([1]) == 1.0 && RealSum([1, 3]) == 4.0;
    assert Deviations([1], 2.0) == 1.0;
  }

  // ---- One pass against two ----

  /** A product, named so that equal factors are seen to give equal products. */
  function Times(a: real, b: real): real { a * b }

  lemma Binomial(x: real, m: real)
    ensures (x - m) * (x - m) == x * x - 2.0 * (x * m) + m * m
  {
  }

  lemma Distribute(a: real, b: real, c: real)
    ensures (a + b) * c == a * c + b * c
  {
  }

  lemma SquareCast(x: nat)
    ensures (x * x) as real == x as real * x as real
  {
  }

  /** The integer sums, once turned into reals. */
  lemma {:induction false} Casts(vs: seq<nat>)
    ensures Sum(vs) as real == RealSum(vs) && Squares(vs) as real == RealSquares(vs)
  {
    if vs != [] {
      Casts(vs[..|vs| - 1]);
      SquareCast(vs[|vs| - 1]);
    }
  }

  /** The sum of the values times `m`, and `m * m` once for each value. */
  function Cross(vs: seq<nat>, m: real): real {
    if vs == [] then 0.0 else Cross(vs[..|vs| - 1], m) + vs[|vs| - 1] as real * m
  }

  function Repeated(n: nat, c: real): real {
    if n == 0 then 0.0 else Repeated(n - 1, c) + c
  }

  lemma {:induction false} CrossIsProduct(vs: seq<nat>, m: real)
    ensures Cross(vs, m) == Times(RealSum(vs), m)
  {
    if vs != [] {
      var n := |vs| - 1;
      CrossIsProduct(vs[..n], m);
      Distribute(RealSum(vs[..n]), vs[n] as real, m);
    }
  }

  lemma {:induction false} RepeatedIsProduct(n: nat, c: real)
    ensures Repeated(n, c) == Times(n as real, c)
  {
    if n > 0 {
      RepeatedIsProduct(n - 1, c);
      Distribute((n - 1) as real, 1.0, c);
    }
  }

  lemma {:induction false} DeviationsExpand(vs: seq<nat>, m: real)
    ensures Deviations(vs, m) == RealSquares(vs) - 2.0 * Cross(vs, m) + Repeated(|vs|, m * m)
  {
    if vs != [] {
      var n := |vs| - 1;
      DeviationsExpand(vs[..n], m);
      Binomial(vs[n] as real, m);
    }
  }

  lemma Regroup(n: real, m: real, s: real)
    requires Times(n, m) == s
    ensures Times(n, m * m) == Times(s, m)
  {
    assert n * (m * m) == n * m * m;
  }

  lemma SpreadGiven(vs: seq<nat>, n: real, s: real, m: real)
    requires n == |vs| as real && s == RealSum(vs) && Times(n, m) == s
    ensures Deviations(vs, m) == RealSquares(vs) - Times(s, m)
  {
    DeviationsExpand(vs, m);
    CrossIsProduct(vs, m);
    RepeatedIsProduct(|vs|, m * m);
    Regroup(n, m, s);
  }

  /** What `ndpi_data_variance` computes before its guard against negative values. */
  function OnePass(n: real, sum: real, squares: real): real
    requires n > 0.0
  {
    (squares - sum * sum / n) / n
  }

  function TwoPass(n: real, spread: real): real
    requires n > 0.0
  {
    spread / n
  }

  lemma Agree(n: real, s: real, q: real, m: real)
    requires n > 0.0 && m == s / n
    ensures Times(n, m) == s && OnePass(n, s, q) == TwoPass(n, q - Times(s, m))
  {
    assert s * m == s * s / n;
  }

  lemma SpreadAround(vs: seq<nat>, n: real, s: real, q: real, m: real, spread: real)
    requires n == |vs| as real && n > 0.0 && s == RealSum(vs) && q == RealSquares(vs)
    requires m == s / n && spread == Deviations(vs, m)
    ensures OnePass(n, s, q) == TwoPass(n, spread)
  {
    Agree(n, s, q, m);
    SpreadGiven(vs, n, s, m);
  }

  /** The running sums give the population variance, so the guard never acts. */
  lemma OnePassIsTwoPass(vs: seq<nat>)
    requires vs != []
    ensures OnePass(|vs| as real, RealSum(vs), RealSquares(vs)) == PopulationVariance(vs)
  {
    SpreadAround(vs, |vs| as real, RealSum(vs), RealSquares(vs), Mean(vs), Deviations(vs, Mean(vs)));
  }

  lemma SquareOfSum(s: nat, x: nat, q: nat)
    requires q <= s * s
    ensures q + x * x <= (s + x) * (s + x)
  {
    assert (s + x) * (s + x) == s * s + 2 * s * x + x * x;
  }

  lemma {:induction false} SquaresExtremes(vs: seq<nat>)
    ensures Squares(vs) <= Sum(vs) * Sum(vs)
  {
    if vs != [] {
      var n := |vs| - 1;
      SquaresExtremes(vs[..n]);
      SquareOfSum(Sum(vs[..n]), vs[n], Squares(vs[..n]));
    }
  }

  lemma Monotone(a: nat, b: nat, c: nat)
    requires a < b
    ensures c > 0 ==> a * c < b * c
    ensures c == 0 ==> a * c == 0
  {
  }

  lemma ProductBelow(s: nat)
    requires s < TWO32
    ensures s * s < TWO64
  {
    Monotone(s, TWO32, s);
    Monotone(s, TWO32, TWO32);
  }

  /** While the 32-bit sum is right, the 64-bit sum of squares is right too. */
  lemma SquaresFit(vs: seq<nat>)
    requires Sum(vs) < TWO32
    ensures Squares(vs) < TWO64
  {
    SquaresExtremes(vs);
    ProductBelow(Sum(vs));
  }

  // ---- Rotation: the window keeps the last values, not their order ----

  lemma {:induction false} SumSplit(a: seq<nat>, b: seq<nat>)
    ensures RealSum(a + b) == RealSum(a) + RealSum(b)
    decreases |b|
  {
    if b == [] {
      assert a + b == a;
    } else {
      var n := |b| - 1;
      SumSplit(a, b[..n]);
      assert (a + b)[..|a| + n] == a + b[..n];
    }
  }

  lemma DeviationsLast(vs: seq<nat>, m: real)
    requires vs != []
    ensures var d := vs[|vs| - 1] as real - m;
            Deviations(vs, m) == Deviations(vs[..|vs| - 1], m) + d * d
  {
  }

  lemma {:induction false} DeviationsSplit(a: seq<nat>, b: seq<nat>, m: real)
    ensures Deviations(a + b, m) == Deviations(a, m) + Deviations(b, m)
    decreases |b|
  {
    if b == [] {
      assert a + b == a;
    } else {
      var n := |b| - 1;
      DeviationsSplit(a, b[..n], m);
      assert (a + b)[..|a| + n] == a + b[..n] && (a + b)[|a| + n] == b[n];
      DeviationsLast(a + b, m);
      DeviationsLast(b, m);
    }
  }

  lemma RotationKeepsVariance(a: seq<nat>, b: seq<nat>)
    ensures Mean(a + b) == Mean(b + a) && PopulationVariance(a + b) == PopulationVariance(b + a)
  {
    SumSplit(a, b);
    SumSplit(b, a);
    DeviationsSplit(a, b, Mean(a + b));
    DeviationsSplit(b, a, Mean(a + b));
    assert |a + b| == |b + a|;
    assert a + b == [] <==> b + a == [];
  }

  // ---- Smallest and largest ----

  predicate Smallest(vs: seq<nat>, m: nat) { m in vs && forall i :: 0 <= i < |vs| ==> m <= vs[i] }

  predicate Largest(vs: seq<nat>, m: nat) { m in vs && forall i :: 0 <= i < |vs| ==> vs[i] <= m }

  /** Where the extremes were last started anew: the last value before which the 32-bit total was zero. */
  function LastReset(vs: seq<nat>): (r: nat)
    ensures vs != [] ==> r < |vs| && Sum(vs[..r]) % TWO32 == 0
    ensures forall i :: r < i < |vs| ==> Sum(vs[..i]) % TWO32 != 0
  {
    if vs == [] then 0
    else
      var n := |vs| - 1;
      assert vs[..0] == [];
      if Sum(vs[..n]) % TWO32 == 0 then n
      else
        var front := vs[..n];
        assert forall i :: 0 <= i <= n ==> front[..i] == vs[..i];
        LastReset(front)
  }

  /** What the two extremes are: those of the values since the last reset. */
  predicate Extremes(vs: seq<nat>, lo: nat, hi: nat) {
    vs != [] ==> Smallest(vs[LastReset(vs)..], lo) && Largest(vs[LastReset(vs)..], hi)
  }

  lemma TailSmallest(vs: seq<nat>, z: nat, lo: nat)
    requires z < |vs| && Smallest(vs[z..], lo)
    ensures Smallest(vs, lo) <==> exists i :: z <= i < |vs| && Smallest(vs, vs[i])
  {
    var j :| 0 <= j < |vs[z..]| && vs[z..][j] == lo;
    assert vs[z + j] == lo;
    forall i | z <= i < |vs|
      ensures lo <= vs[i]
    {
      assert vs[z..][i - z] == vs[i];
    }
  }

  lemma TailLargest(vs: seq<nat>, z: nat, hi: nat)
    requires z < |vs| && Largest(vs[z..], hi)
    ensures Largest(vs, hi) <==> exists i :: z <= i < |vs| && Largest(vs, vs[i])
  {
    var j :| 0 <= j < |vs[z..]| && vs[z..][j] == hi;
    assert vs[z + j] == hi;
    forall i | z <= i < |vs|
      ensures vs[i] <= hi
    {
      assert vs[z..][i - z] == vs[i];
    }
  }

  /** The recorded minimum is the minimum exactly if a smallest value occurs since the last reset ... */
  lemma MinimumExactly(vs: seq<nat>, lo: nat, hi: nat)
    requires vs != [] && Extremes(vs, lo, hi)
    ensures Smallest(vs, lo) <==> exists i :: LastReset(vs) <= i < |vs| && Smallest(vs, vs[i])
  {
    TailSmallest(vs, LastReset(vs), lo);
  }

  /** ... and the recorded maximum the maximum exactly if a largest one does. */
  lemma MaximumExactly(vs: seq<nat>, lo: nat, hi: nat)
    requires vs != [] && Extremes(vs, lo, hi)
    ensures Largest(vs, hi) <==> exists i :: LastReset(vs) <= i < |vs| && Largest(vs, vs[i])
  {
    TailLargest(vs, LastReset(vs), hi);
  }

  lemma LastOfTwo(a: nat, b: nat)
    requires a % TWO32 == 0
    ensures LastReset([a, b]) == 1 && Extremes([a, b], b, b)
  {
    var vs := [a, b];
    assert vs[..1] == [a] && [a][..0] == [] && Sum([a]) == a;
    assert vs[1..] == [b];
  }

  /** Zero, then five: five is recorded as the minimum. */
  lemma MinimumExample()
    ensures Extremes([0, 5], 5, 5) && Smallest([0, 5], 0) && !Smallest([0, 5], 5)
  {
    LastOfTwo(0, 5);
    var vs: seq<nat> := [0, 5];
    assert vs[0] == 0 && vs[1] == 5;
  }

  /** One, 2^32 - 1, seven: the total passes zero, and seven is recorded as minimum and as maximum. */
  lemma WrapExample()
    ensures var vs := [1, TWO32 - 1, 7];
            Extremes(vs, 7, 7) && Smallest(vs, 1) && Largest(vs, TWO32 - 1) && !Smallest(vs, 7) && !Largest(vs, 7)
  {
    var vs: seq<nat> := [1, TWO32 - 1, 7];
    assert vs[..2] == [1, TWO32 - 1] && [1, TWO32 - 1][..1] == [1] && [1][..0] == [];
    assert Sum([1]) == 1 && Sum([1, TWO32 - 1]) == TWO32;
    assert LastReset(vs) == 2 && vs[2..] == [7];
    assert vs[0] == 1 && vs[1] == TWO32 - 1 && vs[2] == 7;
  }

  lemma SumExtend(vs: seq<nat>, v: nat)
    ensures Sum(vs + [v]) == Sum(vs) + v && Squares(vs + [v]) == Squares(vs) + v * v
  {
    assert (vs + [v])[..|vs|] == vs;
  }

  lemma FirstExtreme(vs: seq<nat>, v: nat)
    requires Sum(vs) % TWO32 == 0
    ensures Extremes(vs + [v], v, v)
  {
    var now := vs + [v];
    assert now[..|vs|] == vs && now[|vs|..] == [v];
  }

  lemma NextExtremes(vs: seq<nat>, v: nat, lo: nat, hi: nat)
    requires Sum(vs) % TWO32 != 0 && Extremes(vs, lo, hi)
    ensures Extremes(vs + [v], if v < lo then v else lo, if v > hi then v else hi)
  {
    var now := vs + [v];
    var z := LastReset(vs);
    assert vs != [];
    assert now[..|vs|] == vs;
    assert LastReset(now) == z && now[z..] == vs[z..] + [v];
    LowerOf(vs[z..], v, lo);
    UpperOf(vs[z..], v, hi);
  }

  lemma LowerOf(vs: seq<nat>, v: nat, lo: nat)
    requires Smallest(vs, lo)
    ensures Smallest(vs + [v], if v < lo then v else lo)
  {
    var m := if v < lo then v else lo;
    assert (vs + [v])[|vs|] == v;
    assert forall i :: 0 <= i < |vs| ==> lo <= vs[i];
  }

  lemma UpperOf(vs: seq<nat>, v: nat, hi: nat)
    requires Largest(vs, hi)
    ensures Largest(vs + [v], if v > hi then v else hi)
  {
    assert (vs + [v])[|vs|] == v;
    assert forall i :: 0 <= i < |vs| ==> vs[i] <= hi;
  }

  // ---- The window ----

  /** The last values fill the ring, each at its number modulo the length. */
  predicate Window(ring: seq<nat>, vs: seq<nat>) {
    forall j :: 0 <= j < |vs| && |vs| - |ring| <= j ==> ring[j % |ring|] == vs[j]
  }

  lemma WindowExtend(ring: seq<nat>, vs: seq<nat>, v: nat)
    requires |ring| > 0 && Window(ring, vs)
    ensures Window(ring[|vs| % |ring| := v], vs + [v])
  {
    var n, m := |vs|, |ring|;
    forall j | 0 <= j < n + 1 && n + 1 - m <= j
      ensures ring[n % m := v][j % m] == (vs + [v])[j]
    {
      if j < n {
        ModDistinct(j, n, m);
      }
    }
  }

  /** The last `m` values. */
  function LastOf(vs: seq<nat>, m: nat): seq<nat> {
    if |vs| <= m then vs else vs[|vs| - m..]
  }

  /** The filled part of the ring is the last values, rotated. */
  lemma RingIsRotated(ring: seq<nat>, vs: seq<nat>, r: nat)
    requires |ring| > 0 && Window(ring, vs)
    requires r == if |vs| <= |ring| then 0 else |vs| % |ring|
    ensures var n := |LastOf(vs, |ring|)|;
            n <= |ring| && r <= n && ring[..n] == LastOf(vs, |ring|)[n - r..] + LastOf(vs, |ring|)[..n - r]
  {
    var m, k := |ring|, |vs|;
    if k <= m {
      forall j | 0 <= j < k
        ensures ring[j] == vs[j]
      {
        SmallMod(j, m);
      }
    } else {
      var last := LastOf(vs, m);
      forall i | 0 <= i < m
        ensures ring[i] == (last[m - r..] + last[..m - r])[i]
      {
        var j := if i < r then k - r + i else k - m - r + i;
        PlaceInRing(k, m, i);
        assert ring[j % m] == vs[j];
      }
    }
  }

  lemma PlaceInRing(k: nat, m: nat, i: nat)
    requires 0 < m < k && i < m
    ensures var r := k % m; (if i < r then k - r + i else k - m - r + i) % m == i
  {
    var q, r := k / m, k % m;
    assert k == q * m + r;
    SmallMod(i, m);
    if i < r {
      ModShift(q, i, m);
    } else {
      assert (q - 1) * m == q * m - m;
      ModShift(q - 1, i, m);
    }
  }

  lemma RingVariance(ring: seq<nat>, vs: seq<nat>)
    requires |ring| > 0 && Window(ring, vs)
    ensures var last := LastOf(vs, |ring|);
            |last| <= |ring| && Mean(ring[..|last|]) == Mean(last)
            && PopulationVariance(ring[..|last|]) == PopulationVariance(last)
  {
    var last := LastOf(vs, |ring|);
    var r := if |vs| <= |ring| then 0 else |vs| % |ring|;
    RingIsRotated(ring, vs, r);
    var a, b := last[..|last| - r], last[|last| - r..];
    assert last == a + b;
    RotationKeepsVariance(a, b);
  }

  /** The plain sum of the first values, and their squared deviations, as the two loops form them. */
  method SumFirst(values: array<nat>, n: nat) returns (sum: real)
    requires n <= values.Length
    ensures sum == RealSum(values[..n])
  {
    sum := 0.0;
    var i := 0;
    while i < n
      invariant 0 <= i <= n && sum == RealSum(values[..i])
    {
      assert values[..i + 1][..i] == values[..i];
      sum := sum + values[i] as real;
      i := i + 1;
    }
  }

  method SpreadFirst(values: array<nat>, n: nat, average: real) returns (sum: real)
    requires n <= values.Length
    ensures sum == Deviations(values[..n], average)
  {
    sum := 0.0;
    var i := 0;
    while i < n
      invariant 0 <= i <= n && sum == Deviations(values[..i], average)
    {
      assert values[..i + 1][..i] == values[..i];
      var d := values[i] as real - average;
      sum := sum + d * d;
      i := i + 1;
    }
  }

  /** The counters after the values `vs`, each at its own width. */
  ghost predicate Counted(vs: seq<nat>, sum: nat, n: nat, squares: nat) {
    sum == Sum(vs) % TWO32 && n == |vs| % TWO32 && squares == Squares(vs) % TWO64
  }

  class Analysis {
    const values: array<nat>
    var minVal: nat
    var maxVal: nat
    var sumTotal: nat
    var entries: nat
    var nextIndex: nat
    var sumSquares: nat

    ghost predicate Keeps(vs: seq<nat>)
      reads this`nextIndex, values
    {
      values.Length > 0 ==> nextIndex == |vs| % values.Length && Window(values[..], vs)
    }

    constructor (length: nat)
      ensures fresh(values) && values.Length == (if length > 512 then 512 else length)
      ensures Counted([], sumTotal, entries, sumSquares) && Keeps([]) && Extremes([], minVal, maxVal)
    {
      values := new nat[if length > 512 then 512 else length](_ => 0);
      minVal, maxVal, sumTotal, entries, nextIndex, sumSquares := 0, 0, 0, 0, 0, 0;
    }

    method KeepExtremes(v: nat, ghost vs: seq<nat>)
      requires sumTotal == Sum(vs) % TWO32 && Extremes(vs, minVal, maxVal)
      modifies this`minVal, this`maxVal
      ensures Extremes(vs + [v], minVal, maxVal)
    {
      if sumTotal == 0 {
        FirstExtreme(vs, v);
        minVal, maxVal := v, v;
      } else {
        NextExtremes(vs, v, minVal, maxVal);
        if v < minVal { minVal := v; }
        if v > maxVal { maxVal := v; }
      }
    }

    method Store(v: nat, ghost vs: seq<nat>)
      requires Keeps(vs)
      modifies this`nextIndex, values
      ensures Keeps(vs + [v])
    {
      if values.Length > 0 {
        WindowExtend(values[..], vs, v);
        NextIndex(|vs|, values.Length);
        values[nextIndex] := v;
        nextIndex := nextIndex + 1;
        if nextIndex == values.Length {
          nextIndex := 0;
        }
      }
    }

    method Count(v: nat, ghost vs: seq<nat>)
      requires Counted(vs, sumTotal, entries, sumSquares)
      modifies this`sumTotal, this`entries, this`sumSquares
      ensures Counted(vs + [v], sumTotal, entries, sumSquares)
    {
      SumExtend(vs, v);
      var square := v * v;
      ModAdd(Sum(vs), v, TWO32);
      ModAdd(Squares(vs), square, TWO64);
      ModAdd(|vs|, 1, TWO32);
      sumTotal := (sumTotal + v) % TWO32;
      entries := (entries + 1) % TWO32;
      sumSquares := (sumSquares + square) % TWO64;
    }

    /** `ndpi_data_add_value`. */
    method AddValue(v: nat, ghost vs: seq<nat>)
      requires v < TWO32 && Counted(vs, sumTotal, entries, sumSquares) && Keeps(vs) && Extremes(vs, minVal, maxVal)
      modifies this, values
      ensures Counted(vs + [v], sumTotal, entries, sumSquares) && Keeps(vs + [v]) && Extremes(vs + [v], minVal, maxVal)
    {
      KeepExtremes(v, vs);
      Store(v, vs);
      Count(v, vs);
    }

    /** `ndpi_data_variance`, in exact arithmetic. */
    method DataVariance(ghost vs: seq<nat>) returns (r: real)
      requires Counted(vs, sumTotal, entries, sumSquares)
      ensures Sum(vs) < TWO32 && |vs| < TWO32 ==> r == PopulationVariance(vs)
      ensures r >= 0.0
    {
      r := if entries > 0 then OnePass(entries as real, sumTotal as real, sumSquares as real) else 0.0;
      ghost var computed := r;
      if r < 0.0 {
        r := 0.0;
      }
      if Sum(vs) < TWO32 && |vs| < TWO32 {
        VarianceFits(vs, entries, sumTotal, sumSquares);
        assert computed == PopulationVariance(vs);
      }
    }

    /** How much of the window the two functions below look at: a count that wrapped may hide some of it. */
    function Visible(): nat
      reads this`entries
    {
      if entries < values.Length then entries else values.Length
    }

    /** `ndpi_data_window_average`, in exact arithmetic. */
    method WindowAverage(ghost vs: seq<nat>) returns (r: real)
      requires Keeps(vs) && entries == |vs| % TWO32
      ensures r == Mean(values[..Visible()])
      ensures |vs| < TWO32 || entries >= values.Length ==> r == Mean(LastOf(vs, values.Length))
    {
      if values.Length == 0 {
        return 0.0;
      }
      var n := Visible();
      WindowVisible(values[..], vs, n);
      assert values[..][..n] == values[..n];
      if n == 0 {
        return 0.0;
      }
      var sum := SumFirst(values, n);
      r := sum / n as real;
    }

    /** `ndpi_data_window_variance`, in exact arithmetic. */
    method WindowVariance(ghost vs: seq<nat>) returns (r: real)
      requires Keeps(vs) && entries == |vs| % TWO32
      ensures r == PopulationVariance(values[..Visible()])
      ensures |vs| < TWO32 || entries >= values.Length ==> r == PopulationVariance(LastOf(vs, values.Length))
    {
      if values.Length == 0 {
        return 0.0;
      }
      var average := WindowAverage(vs);
      var n := Visible();
      WindowVisible(values[..], vs, n);
      assert values[..][..n] == values[..n];
      if n == 0 {
        return 0.0;
      }
      var sum := SpreadFirst(values, n, average);
      r := TwoPass(n as real, sum);
    }
  }

  lemma VisibleLength(k: nat, m: nat, n: nat)
    requires n == (if k % TWO32 < m then k % TWO32 else m) && (k < TWO32 || k % TWO32 >= m)
    ensures n == if k <= m then k else m
  {
  }

  /** Unless the count wrapped to less than the window, the visible part holds the last values. */
  lemma WindowVisible(ring: seq<nat>, vs: seq<nat>, n: nat)
    requires |ring| > 0 && Window(ring, vs)
    requires var entries := |vs| % TWO32; n == if entries < |ring| then entries else |ring|
    ensures var last := LastOf(vs, |ring|);
            |vs| < TWO32 || |vs| % TWO32 >= |ring| ==>
              Mean(ring[..n]) == Mean(last) && PopulationVariance(ring[..n]) == PopulationVariance(last)
  {
    if |vs| < TWO32 || |vs| % TWO32 >= |ring| {
      VisibleLength(|vs|, |ring|, n);
      RingVariance(ring, vs);
      assert n == |LastOf(vs, |ring|)|;
    }
  }

  lemma VarianceFits(vs: seq<nat>, n: nat, sum: nat, squares: nat)
    requires Sum(vs) < TWO32 && |vs| < TWO32
    requires n == |vs| % TWO32 && sum == Sum(vs) % TWO32 && squares == Squares(vs) % TWO64
    ensures PopulationVariance(vs) == if n > 0 then OnePass(n as real, sum as real, squares as real) else 0.0
  {
    SquaresFit(vs);
    assert n == |vs| && sum == Sum(vs) && squares == Squares(vs);
    Casts(vs);
    if n > 0 {
      OnePassIsTwoPass(vs);
    }
  }
}
