/** Clustering of bins: a bounded k-means whose centroids are percentages. */
module KMeans {
  import opened Sums

  type Bin = seq<nat>

  const MAX_CLUSTERS := 128
  const MAX_ITERATIONS := 25

  datatype Centroid = Empty | Full(values: Bin)

  // ---- Counting ----

  /** How many bins have the cluster `c`. */
  function Count(ids: seq<nat>, c: nat): nat {
    if ids == [] then 0 else Count(ids[..|ids| - 1], c) + (if ids[|ids| - 1] == c then 1 else 0)
  }

  predicate Below(ids: seq<nat>, k: nat) { forall i :: 0 <= i < |ids| ==> ids[i] < k }

  /** Each counter is the size of its cluster. */
  predicate Tallied(ids: seq<nat>, elems: seq<nat>) {
    forall c :: 0 <= c < |elems| ==> elems[c] == Count(ids, c)
  }

  lemma {:induction false} CountUpdate(ids: seq<nat>, i: nat, v: nat, c: nat)
    requires i < |ids|
    ensures Count(ids[i := v], c) + (if ids[i] == c then 1 else 0) == Count(ids, c) + (if v == c then 1 else 0)
    decreases |ids|
  {
    var n := |ids| - 1;
    if i < n {
      CountUpdate(ids[..n], i, v, c);
      assert ids[i := v][..n] == ids[..n][i := v];
    } else {
      assert ids[i := v][..n] == ids[..n];
    }
  }

  lemma {:induction false} CountSelf(ids: seq<nat>, i: nat)
    requires i < |ids|
    ensures Count(ids, ids[i]) > 0
    decreases |ids|
  {
    if i < |ids| - 1 {
      CountSelf(ids[..|ids| - 1], i);
    }
  }

  /** The cluster sizes add up to the number of bins. */
  lemma {:induction false} SizesAddUp(ids: seq<nat>, elems: seq<nat>)
    requires Below(ids, |elems|) && Tallied(ids, elems)
    ensures Sum(elems) == |ids|
    decreases |ids|
  {
    if ids == [] {
      SumZeros(elems);
    } else {
      var n := |ids| - 1;
      var c := ids[n];
      CountSelf(ids, n);
      var before := elems[c := elems[c] - 1];
      SizesAddUp(ids[..n], before);
      SumUpdate(elems, c, elems[c] - 1);
    }
  }

  // ---- Centroids ----

  /** The centroids have `d` slots; without any, no bin may have one. */
  predicate Suits(bins: seq<Bin>, d: nat) { d > 0 || forall i :: 0 <= i < |bins| ==> bins[i] == [] }

  /** What a bin adds to slot `j`: a value there, and in the first slot all values beyond the last one. */
  function Share(b: Bin, d: nat, j: nat): nat
    requires j < d
  {
    (if j < |b| then b[j] else 0) + (if j == 0 && |b| > d then Sum(b[d..]) else 0)
  }

  /** What the bins of cluster `c` add to slot `j`, together. */
  function SlotTotal(bins: seq<Bin>, ids: seq<nat>, d: nat, c: nat, j: nat): nat
    requires |ids| <= |bins| && j < d
  {
    if ids == [] then 0
    else
      var n := |ids| - 1;
      SlotTotal(bins, ids[..n], d, c, j) + (if ids[n] == c then Share(bins[n], d, j) else 0)
  }

  /** A cluster has a centroid once one of its bins has a slot. */
  predicate Touched(bins: seq<Bin>, ids: seq<nat>, c: nat)
    requires |ids| <= |bins|
  {
    exists i :: 0 <= i < |ids| && ids[i] == c && bins[i] != []
  }

  function Percent(x: nat, total: nat): nat
    requires total > 0
  {
    x * 100 / total
  }

  /** Percentages, rounded down. */
  function Normalized(b: Bin): (r: Bin)
    ensures |r| == |b|
  {
    var total := Sum(b);
    if total == 0 then b else seq(|b|, j requires 0 <= j < |b| => Percent(b[j], total))
  }

  /** `x` percent is the share of `part`, rounded down. */
  predicate RoundedDown(x: nat, part: nat, total: nat) {
    x * total <= 100 * part < (x + 1) * total
  }

  /** Each percentage is the share of its slot, rounded down. */
  lemma PercentExactly(b: Bin, j: nat)
    requires j < |b| && Sum(b) > 0
    ensures RoundedDown(Normalized(b)[j], b[j], Sum(b))
  {
    DivideExactly(b[j] * 100, Sum(b));
  }

  lemma DivideExactly(x: nat, d: nat)
    requires d > 0
    ensures x / d * d <= x < (x / d + 1) * d
  {
  }

  lemma AddRounded(s: nat, part: nat, n: nat, x: nat, more: nat, total: nat)
    requires s * total <= 100 * part <= (s + n) * total && RoundedDown(x, more, total)
    ensures (s + x) * total <= 100 * (part + more) < (s + x + n + 1) * total
  {
    assert (s + x) * total == s * total + x * total;
    assert (s + x + n + 1) * total == (s + n) * total + (x + 1) * total;
  }

  lemma {:induction false} PercentsOfPrefix(b: Bin, r: Bin, total: nat, n: nat)
    requires n <= |b| == |r| && total > 0 && forall j :: 0 <= j < n ==> RoundedDown(r[j], b[j], total)
    ensures Sum(r[..n]) * total <= 100 * Sum(b[..n]) <= (Sum(r[..n]) + n) * total
    ensures n > 0 ==> 100 * Sum(b[..n]) < (Sum(r[..n]) + n) * total
    decreases n
  {
    if n > 0 {
      PercentsOfPrefix(b, r, total, n - 1);
      assert b[..n][..n - 1] == b[..n - 1] && r[..n][..n - 1] == r[..n - 1];
      AddRounded(Sum(r[..n - 1]), Sum(b[..n - 1]), n - 1, r[n - 1], b[n - 1], total);
    }
  }

  /** Together the percentages come to at most 100, and to more than 100 less one for each slot. */
  lemma PercentsAddUp(b: Bin)
    requires Sum(b) > 0
    ensures 100 - |b| < Sum(Normalized(b)) <= 100
  {
    var r, total := Normalized(b), Sum(b);
    forall j | 0 <= j < |b|
      ensures RoundedDown(r[j], b[j], total)
    {
      PercentExactly(b, j);
    }
    PercentsOfPrefix(b, r, total, |b|);
    assert b[..|b|] == b && r[..|r|] == r;
    Cancel(Sum(r), |b|, total);
  }

  lemma TimesMonotone(x: int, y: int, d: nat)
    requires x <= y
    ensures x * d <= y * d
  {
  }

  lemma Cancel(sum: nat, n: nat, total: nat)
    requires total > 0 && sum * total <= 100 * total < (sum + n) * total
    ensures 100 - n < sum <= 100
  {
    if sum > 100 {
      TimesMonotone(101, sum, total);
    }
    if sum + n <= 100 {
      TimesMonotone(sum + n, 100, total);
    }
  }

  /** What all slots below `m` get of a bin. */
  function ShareUpTo(b: Bin, d: nat, m: nat): nat
    requires m <= d
  {
    if m == 0 then 0 else ShareUpTo(b, d, m - 1) + Share(b, d, m - 1)
  }

  lemma SumTail(b: Bin, m: nat)
    requires m < |b|
    ensures Sum(b[..m + 1]) == Sum(b[..m]) + b[m]
  {
    assert b[..m + 1][..m] == b[..m];
  }

  lemma {:induction false} SharesOfPrefix(b: Bin, d: nat, m: nat)
    requires 0 < m <= d
    ensures ShareUpTo(b, d, m) == Sum(b[..if m < |b| then m else |b|]) + (if |b| > d then Sum(b[d..]) else 0)
    decreases m
  {
    if m == 1 {
      if b != [] {
        SumTail(b, 0);
        assert b[..0] == [];
      } else {
        assert b[..0] == b;
      }
      assert ShareUpTo(b, d, 0) == 0;
    } else {
      SharesOfPrefix(b, d, m - 1);
      if m <= |b| {
        SumTail(b, m - 1);
      }
    }
  }

  lemma {:induction false} SumParts(b: Bin, m: nat)
    requires m <= |b|
    ensures Sum(b[..m]) + Sum(b[m..]) == Sum(b)
    decreases |b|
  {
    if m == |b| {
      assert b[..m] == b && b[m..] == [];
    } else {
      var n := |b| - 1;
      SumParts(b[..n], m);
      assert b[..n][..m] == b[..m] && b[..n][m..] == b[m..][..n - m];
    }
  }

  /** Whatever the sizes, a centroid takes over every value of a bin once. */
  lemma SharesAddUp(b: Bin, d: nat)
    requires d > 0
    ensures ShareUpTo(b, d, d) == Sum(b)
  {
    SharesOfPrefix(b, d, d);
    if |b| > d {
      SumParts(b, d);
    } else {
      assert b[..|b|] == b;
    }
  }

  /** The values of all bins of cluster `c`. */
  function ClusterSum(bins: seq<Bin>, ids: seq<nat>, c: nat): nat
    requires |ids| <= |bins|
  {
    if ids == [] then 0
    else ClusterSum(bins, ids[..|ids| - 1], c) + (if ids[|ids| - 1] == c then Sum(bins[|ids| - 1]) else 0)
  }

  function SlotsUpTo(bins: seq<Bin>, ids: seq<nat>, d: nat, c: nat, m: nat): nat
    requires |ids| <= |bins| && m <= d
  {
    if m == 0 then 0 else SlotsUpTo(bins, ids, d, c, m - 1) + SlotTotal(bins, ids, d, c, m - 1)
  }

  lemma {:induction false} SlotsNext(bins: seq<Bin>, ids: seq<nat>, d: nat, c: nat, m: nat)
    requires 0 < |ids| <= |bins| && m <= d
    ensures var n := |ids| - 1;
            SlotsUpTo(bins, ids, d, c, m)
            == SlotsUpTo(bins, ids[..n], d, c, m) + (if ids[n] == c then ShareUpTo(bins[n], d, m) else 0)
    decreases m
  {
    if m > 0 {
      SlotsNext(bins, ids, d, c, m - 1);
    }
  }

  lemma {:induction false} NoSlots(bins: seq<Bin>, d: nat, c: nat, m: nat)
    requires m <= d
    ensures SlotsUpTo(bins, [], d, c, m) == 0
    decreases m
  {
    if m > 0 {
      NoSlots(bins, d, c, m - 1);
    }
  }

  /** A centroid, before it is normalized, holds every value of its bins once, and nothing else. */
  lemma {:induction false} CentroidConserves(bins: seq<Bin>, ids: seq<nat>, d: nat, c: nat)
    requires |ids| <= |bins| && d > 0
    ensures SlotsUpTo(bins, ids, d, c, d) == ClusterSum(bins, ids, c)
    decreases |ids|
  {
    if ids == [] {
      NoSlots(bins, d, c, d);
    } else {
      var n := |ids| - 1;
      CentroidConserves(bins, ids[..n], d, c);
      SlotsNext(bins, ids, d, c, d);
      SharesAddUp(bins[n], d);
    }
  }

  /** Of the same size, slot by slot. */
  lemma SharesInPlace(b: Bin, j: nat)
    requires j < |b|
    ensures Share(b, |b|, j) == b[j]
  {
  }

  /** The centroid of cluster `c`: the sum of its bins, normalized. */
  ghost function CentroidOf(bins: seq<Bin>, ids: seq<nat>, d: nat, c: nat): Centroid
    requires |ids| == |bins|
  {
    if !Touched(bins, ids, c) then Empty
    else Full(Normalized(seq(d, j requires 0 <= j < d => SlotTotal(bins, ids, d, c, j))))
  }

  ghost predicate Centroids(cs: seq<Centroid>, bins: seq<Bin>, ids: seq<nat>, d: nat)
    requires |ids| == |bins|
  {
    forall c :: 0 <= c < |cs| ==> cs[c] == CentroidOf(bins, ids, d, c)
  }

  /** `ndpi_normalize_bin`. */
  method Normalize(b: Bin) returns (r: Bin)
    ensures r == Normalized(b)
  {
    var total := 0;
    var i := 0;
    while i < |b|
      invariant 0 <= i <= |b| && total == Sum(b[..i])
    {
      assert b[..i + 1][..i] == b[..i];
      total := total + b[i];
      i := i + 1;
    }
    assert b[..i] == b;
    r := b;
    if total > 0 {
      i := 0;
      while i < |b|
        invariant 0 <= i <= |b| && |r| == |b|
        invariant forall j :: 0 <= j < i ==> r[j] == Percent(b[j], total)
        invariant forall j :: i <= j < |b| ==> r[j] == b[j]
      {
        r := r[i := Percent(b[i], total)];
        i := i + 1;
      }
    }
  }

  /** The sums so far: every row counts the bins in `ids`, only those of its own cluster. */
  ghost predicate Summed(rows: seq<Bin>, empty: seq<bool>, bins: seq<Bin>, ids: seq<nat>, d: nat)
    requires |ids| <= |bins|
  {
    |rows| == |empty|
    && (forall c :: 0 <= c < |rows| ==> |rows[c]| == d && (empty[c] <==> !Touched(bins, ids, c)))
    && forall c, j :: 0 <= c < |rows| && 0 <= j < d ==> rows[c][j] == SlotTotal(bins, ids, d, c, j)
  }

  lemma ShareNext(b: Bin, d: nat, j: nat, i: nat)
    requires j < d && i < |b|
    ensures Share(b[..i + 1], d, j) == Share(b[..i], d, j) + (if (if i >= d then 0 else i) == j then b[i] else 0)
  {
    if i >= d {
      var now, was := b[..i + 1][d..], b[..i][d..];
      assert now[..|now| - 1] == was && now[|now| - 1] == b[i];
    }
  }

  /** `ndpi_inc_bin` for every slot of a bin: a slot the centroid does not have counts as its first one. */
  method Increase(row: Bin, b: Bin) returns (r: Bin)
    requires row != [] || b == []
    ensures |r| == |row| && forall j :: 0 <= j < |row| ==> r[j] == row[j] + Share(b, |row|, j)
  {
    r := row;
    var i := 0;
    while i < |b|
      invariant 0 <= i <= |b| && |r| == |row|
      invariant forall j :: 0 <= j < |row| ==> r[j] == row[j] + Share(b[..i], |row|, j)
    {
      var slot := if i >= |row| then 0 else i;
      forall j | 0 <= j < |row|
        ensures Share(b[..i + 1], |row|, j) == Share(b[..i], |row|, j) + (if slot == j then b[i] else 0)
      {
        ShareNext(b, |row|, j, i);
      }
      r := r[slot := r[slot] + b[i]];
      i := i + 1;
    }
    assert b[..i] == b;
  }

  lemma TouchedNext(bins: seq<Bin>, ids: seq<nat>, i: nat, c: nat)
    requires i < |ids| <= |bins|
    ensures Touched(bins, ids[..i + 1], c) <==> Touched(bins, ids[..i], c) || (ids[i] == c && bins[i] != [])
  {
    var now, was := ids[..i + 1], ids[..i];
    if Touched(bins, was, c) {
      var k :| 0 <= k < |was| && was[k] == c && bins[k] != [];
      assert now[k] == c;
    }
    if ids[i] == c && bins[i] != [] {
      assert now[i] == c;
    }
    if Touched(bins, now, c) {
      var k :| 0 <= k < |now| && now[k] == c && bins[k] != [];
      assert k < i ==> was[k] == c;
    }
  }

  /** One bin is added to the sums of its cluster. */
  method AddBin(bins: seq<Bin>, ids: seq<nat>, d: nat, i: nat, rows: seq<Bin>, empty: seq<bool>)
    returns (rows': seq<Bin>, empty': seq<bool>)
    requires Suits(bins, d) && i < |ids| == |bins| && ids[i] < |rows| && Summed(rows, empty, bins, ids[..i], d)
    ensures |rows'| == |rows| && Summed(rows', empty', bins, ids[..i + 1], d)
  {
    assert ids[..i + 1][..i] == ids[..i];
    var row := Increase(rows[ids[i]], bins[i]);
    rows' := rows[ids[i] := row];
    empty' := if bins[i] != [] then empty[ids[i] := false] else empty;
    forall c | 0 <= c < |rows|
      ensures empty'[c] <==> !Touched(bins, ids[..i + 1], c)
    {
      TouchedNext(bins, ids, i, c);
    }
  }

  /** The first part of an iteration: the centroids of the present clusters. */
  method ComputeCentroids(bins: seq<Bin>, ids: seq<nat>, d: nat, k: nat) returns (cs: seq<Centroid>)
    requires Suits(bins, d) && |ids| == |bins| && Below(ids, k)
    ensures |cs| == k && Centroids(cs, bins, ids, d)
  {
    var rows := seq(k, _ => seq(d, _ => 0));
    var empty := seq(k, _ => true);
    var i := 0;
    while i < |bins|
      invariant 0 <= i <= |bins| && |rows| == k && Summed(rows, empty, bins, ids[..i], d)
    {
      rows, empty := AddBin(bins, ids, d, i, rows, empty);
      i := i + 1;
    }
    assert ids[..i] == ids;
    cs := [];
    var c := 0;
    while c < k
      invariant 0 <= c <= k && |cs| == c && Centroids(cs, bins, ids, d)
    {
      var row := Normalize(rows[c]);
      assert rows[c] == seq(d, j requires 0 <= j < d => SlotTotal(bins, ids, d, c, j));
      cs := cs + [if empty[c] then Empty else Full(row)];
      c := c + 1;
    }
  }

  // ---- Nearest centroids ----

  /** The squared distance; its root orders centroids the same way. */
  function Distance(a: Bin, b: Bin): nat
    requires |a| == |b|
  {
    if a == [] then 0
    else
      var n := |a| - 1;
      var diff: nat := if a[n] > b[n] then a[n] - b[n] else b[n] - a[n];
      Distance(a[..n], b[..n]) + diff * diff
  }

  function Dot(a: Bin, b: Bin): nat
    requires |a| == |b|
  {
    if a == [] then 0 else Dot(a[1..], b[1..]) + a[0] * b[0]
  }

  lemma {:induction false} DotLast(a: Bin, b: Bin)
    requires |a| == |b| > 0
    ensures var n := |a| - 1; Dot(a, b) == Dot(a[..n], b[..n]) + a[n] * b[n]
    decreases |a|
  {
    var n := |a| - 1;
    if n > 0 {
      DotLast(a[1..], b[1..]);
      assert a[1..][..n - 1] == a[..n][1..] && b[1..][..n - 1] == b[..n][1..];
    }
  }

  lemma Square(x: nat, y: nat, diff: nat)
    requires diff == if x > y then x - y else y - x
    ensures diff * diff + 2 * (x * y) == x * x + y * y
  {
  }

  /** The distance is the Euclidean one, squared: |a - b|^2 = |a|^2 + |b|^2 - 2ab. */
  lemma {:induction false} DistanceIsEuclidean(a: Bin, b: Bin)
    requires |a| == |b|
    ensures Distance(a, b) + 2 * Dot(a, b) == Dot(a, a) + Dot(b, b)
    decreases |a|
  {
    if a != [] {
      var n := |a| - 1;
      var diff: nat := if a[n] > b[n] then a[n] - b[n] else b[n] - a[n];
      DistanceIsEuclidean(a[..n], b[..n]);
      DotLast(a, b);
      DotLast(a, a);
      DotLast(b, b);
      Square(a[n], b[n], diff);
    }
  }

  /** Only equal bins are not apart. */
  lemma {:induction false} DistanceZero(a: Bin, b: Bin)
    requires |a| == |b|
    ensures Distance(a, b) == 0 <==> a == b
    decreases |a|
  {
    if a != [] {
      var n := |a| - 1;
      DistanceZero(a[..n], b[..n]);
      assert a == a[..n] + [a[n]] && b == b[..n] + [b[n]];
      if a[n] != b[n] {
        assert Distance(a, b) > 0;
      }
    }
  }

  /** Squares decide: 2400 is nearer than 3042, although the plain differences are 80 and 78. */
  lemma SquaresDecide()
    ensures Distance([50, 50, 0], [30, 30, 40]) == 2400 && Distance([50, 50, 0], [89, 11, 0]) == 3042
    ensures var cs := [Full([30, 30, 40]), Full([89, 11, 0])];
            Nearest([50, 50, 0], cs, 0) && !Nearest([50, 50, 0], cs, 1)
  {
    assert [50, 50, 0][..2] == [50, 50] && [50, 50][..1] == [50] && [50][..0] == [];
    assert [30, 30, 40][..2] == [30, 30] && [30, 30][..1] == [30] && [30][..0] == [];
    assert [89, 11, 0][..2] == [89, 11] && [89, 11][..1] == [89] && [89][..0] == [];
    assert Distance([50], [30]) == 400 && Distance([50, 50], [30, 30]) == 800;
    assert Distance([50], [89]) == 1521 && Distance([50, 50], [89, 11]) == 3042;
  }

  /** `ndpi_bin_similarity`, squared: bins of different sizes are -1 apart. */
  method Similarity(a: Bin, b: Bin) returns (r: int)
    ensures r == Apart(a, b)
  {
    if |a| != |b| {
      return -1;
    }
    r := 0;
    for i := 0 to |a|
      invariant r == Distance(a[..i], b[..i])
    {
      assert a[..i + 1][..i] == a[..i] && b[..i + 1][..i] == b[..i];
      var diff := if a[i] > b[i] then a[i] - b[i] else b[i] - a[i];
      if a[i] != b[i] {
        r := r + diff * diff;
      }
    }
    assert a[..|a|] == a && b[..|b|] == b;
  }

  function Apart(a: Bin, b: Bin): int { if |a| != |b| then -1 else Distance(a, b) }

  predicate Nearest(b: Bin, cs: seq<Centroid>, c: nat) {
    c < |cs| && cs[c].Full?
    && forall j :: 0 <= j < |cs| && cs[j].Full? ==> Apart(b, cs[c].values) <= Apart(b, cs[j].values)
  }

  predicate FirstNearest(b: Bin, cs: seq<Centroid>, c: nat) {
    Nearest(b, cs, c)
    && forall j :: 0 <= j < c && cs[j].Full? ==> Apart(b, cs[c].values) < Apart(b, cs[j].values)
  }

  predicate AllEmpty(cs: seq<Centroid>) { forall j :: 0 <= j < |cs| ==> cs[j].Empty? }

  /** Where a bin stays: at a nearest centroid, and at the first nearest one when it is alone there. */
  predicate Settled(b: Bin, cs: seq<Centroid>, own: nat, size: nat) {
    if AllEmpty(cs) then own == 0
    else Nearest(b, cs, own) && (size <= 1 ==> FirstNearest(b, cs, own))
  }

  /** Bins of different sizes are nearer than any others: -1 apart. */
  lemma SizesDiffer(a: Bin, b: Bin)
    ensures Apart(a, b) == -1 <==> |a| != |b|
    ensures |a| == |b| ==> Apart(a, b) >= 0
  {
  }

  /** Between two equal centroids a bin stays with the second one in company, and goes to the first one alone. */
  lemma TieExample()
    ensures var cs := [Full([7]), Full([7])];
            Settled([9], cs, 1, 2) && !Settled([9], cs, 1, 1) && Settled([9], cs, 0, 1)
  {
    var cs := [Full([7]), Full([7])];
    assert cs[0].Full? && cs[1].Full? && Apart([9], cs[0].values) == Apart([9], cs[1].values);
  }

  lemma FirstIsUnique(b: Bin, cs: seq<Centroid>, c: nat, e: nat)
    requires FirstNearest(b, cs, c) && FirstNearest(b, cs, e)
    ensures c == e
  {
  }

  /** A bin whose own cluster has no centroid has no slots, and no centroid has its size. */
  predicate Fitting(b: Bin, cs: seq<Centroid>, own: nat) {
    own < |cs| && (cs[own].Full? || AllEmpty(cs) || forall j :: 0 <= j < |cs| && cs[j].Full? ==> |cs[j].values| != |b|)
  }

  /** The search over all centroids and the rule for ties. */
  method Decide(b: Bin, cs: seq<Centroid>, own: nat, size: nat) returns (c: nat)
    requires Fitting(b, cs, own)
    ensures c < |cs|
    ensures !AllEmpty(cs) ==> Nearest(b, cs, c)
    ensures c == own <==> Settled(b, cs, own, size)
  {
    c := 0;
    var found, best, current := false, 0, 0;
    var j := 0;
    while j < |cs|
      invariant 0 <= j <= |cs| && c < |cs|
      invariant !found ==> c == 0 && forall i :: 0 <= i < j ==> cs[i].Empty?
      invariant found ==> c < j && cs[c].Full? && best == Apart(b, cs[c].values)
      invariant found ==> forall i :: 0 <= i < j && cs[i].Full? ==> best <= Apart(b, cs[i].values)
      invariant found ==> forall i :: 0 <= i < c && cs[i].Full? ==> best < Apart(b, cs[i].values)
      invariant if own < j && cs[own].Full? then current == Apart(b, cs[own].values) else current == 0
    {
      if cs[j].Full? {
        var similarity := Similarity(b, cs[j].values);
        if j == own {
          current := similarity;
        }
        if !found || similarity < best {
          found, c, best := true, j, similarity;
        }
      }
      j := j + 1;
    }
    if found {
      assert FirstNearest(b, cs, c);
      assert best == current <==> Nearest(b, cs, own);
      if best == current && size > 1 {
        c := own;
      } else if Nearest(b, cs, own) && FirstNearest(b, cs, own) {
        FirstIsUnique(b, cs, c, own);
      }
    }
  }

  // ---- One pass over the bins ----

  ghost predicate AllSettled(bins: seq<Bin>, cs: seq<Centroid>, ids: seq<nat>, elems: seq<nat>)
    requires |ids| == |bins| && Below(ids, |elems|)
  {
    forall i :: 0 <= i < |bins| ==> Settled(bins[i], cs, ids[i], elems[ids[i]])
  }

  /** With the centroids of the present clusters, every bin fits its own. */
  lemma CentroidsFit(cs: seq<Centroid>, bins: seq<Bin>, ids: seq<nat>, d: nat)
    requires Suits(bins, d) && |ids| == |bins| && Centroids(cs, bins, ids, d) && Below(ids, |cs|)
    ensures forall i :: 0 <= i < |bins| ==> Fitting(bins[i], cs, ids[i])
  {
    forall i | 0 <= i < |bins|
      ensures Fitting(bins[i], cs, ids[i])
    {
      var own := ids[i];
      assert cs[own] == CentroidOf(bins, ids, d, own);
      if cs[own].Empty? {
        assert bins[i] == [];
        forall j | 0 <= j < |cs| && cs[j].Full?
          ensures |cs[j].values| == d > 0
        {
          assert cs[j] == CentroidOf(bins, ids, d, j);
          var k :| 0 <= k < |ids| && ids[k] == j && bins[k] != [];
        }
      }
    }
  }

  lemma MoveKeepsTally(ids: seq<nat>, elems: seq<nat>, i: nat, c: nat)
    requires i < |ids| && Below(ids, |elems|) && Tallied(ids, elems) && c < |elems| && c != ids[i]
    ensures elems[ids[i]] > 0
    ensures var less := elems[ids[i] := elems[ids[i]] - 1];
            Tallied(ids[i := c], less[c := less[c] + 1]) && Below(ids[i := c], |elems|)
  {
    CountSelf(ids, i);
    var less := elems[ids[i] := elems[ids[i]] - 1];
    var now := less[c := less[c] + 1];
    forall e | 0 <= e < |elems|
      ensures now[e] == Count(ids[i := c], e)
    {
      CountUpdate(ids, i, c, e);
    }
  }

  method Move(ids: array<nat>, elems: array<nat>, i: nat, c: nat)
    requires ids != elems && i < ids.Length && c < elems.Length && c != ids[i]
    requires Below(ids[..], elems.Length) && Tallied(ids[..], elems[..])
    modifies ids, elems
    ensures ids[..] == old(ids[..])[i := c]
    ensures Below(ids[..], elems.Length) && Tallied(ids[..], elems[..])
  {
    MoveKeepsTally(ids[..], elems[..], i, c);
    elems[ids[i]] := elems[ids[i]] - 1;
    elems[c] := elems[c] + 1;
    ids[i] := c;
  }

  /** The second part of an iteration: every bin goes to a nearest centroid. */
  method Reassign(bins: seq<Bin>, cs: seq<Centroid>, d: nat, ids: array<nat>, elems: array<nat>) returns (moves: nat)
    requires ids != elems && ids.Length == |bins| && elems.Length == |cs| && Suits(bins, d)
    requires Below(ids[..], |cs|) && Tallied(ids[..], elems[..]) && Centroids(cs, bins, ids[..], d)
    modifies ids, elems
    ensures Below(ids[..], |cs|) && Tallied(ids[..], elems[..])
    ensures !AllEmpty(cs) ==> forall i :: 0 <= i < |bins| ==> Nearest(bins[i], cs, ids[i])
    ensures moves == 0 <==> AllSettled(bins, cs, old(ids[..]), old(elems[..]))
    ensures moves == 0 ==> ids[..] == old(ids[..]) && elems[..] == old(elems[..])
  {
    CentroidsFit(cs, bins, ids[..], d);
    ghost var ids0, elems0 := ids[..], elems[..];
    moves := 0;
    var i := 0;
    while i < |bins|
      invariant 0 <= i <= |bins|
      invariant Below(ids[..], |cs|) && Tallied(ids[..], elems[..])
      invariant forall j :: i <= j < |bins| ==> ids[j] == ids0[j]
      invariant !AllEmpty(cs) ==> forall j :: 0 <= j < i ==> Nearest(bins[j], cs, ids[j])
      invariant moves == 0 ==> ids[..] == ids0 && elems[..] == elems0
      invariant moves == 0 <==> forall j :: 0 <= j < i ==> Settled(bins[j], cs, ids0[j], elems0[ids0[j]])
    {
      assert ids[i] == ids0[i];
      var c := Decide(bins[i], cs, ids[i], elems[ids[i]]);
      if ids[i] != c {
        Move(ids, elems, i, c);
        moves := moves + 1;
      }
      i := i + 1;
    }
  }

  // ---- The whole clustering ----

  /** `num_clusters` after its two caps. */
  function Clusters(wanted: nat, bins: nat): nat {
    var k := if wanted > bins then bins else wanted;
    if k > MAX_CLUSTERS then MAX_CLUSTERS else k
  }

  /** The least of what is wanted, the number of bins, and 128. */
  lemma ClustersExactly(wanted: nat, bins: nat)
    ensures var k := Clusters(wanted, bins);
            k <= wanted && k <= bins && k <= 128 && (k == wanted || k == bins || k == 128)
  {
  }

  lemma PickKeepsTally(ids: seq<nat>, elems: seq<nat>, c: nat)
    requires Tallied(ids, elems) && c < |elems|
    ensures Tallied(ids + [c], elems[c := elems[c] + 1])
  {
    assert (ids + [c])[..|ids|] == ids;
  }

  /** The random start: `picks` are the numbers drawn. */
  method Scatter(picks: seq<nat>, k: nat, ids: array<nat>, elems: array<nat>)
    requires ids != elems && ids.Length == |picks| && elems.Length == k && (|picks| > 0 ==> k > 0)
    requires forall c :: 0 <= c < k ==> elems[c] == 0
    modifies ids, elems
    ensures Below(ids[..], k) && Tallied(ids[..], elems[..])
  {
    var i := 0;
    while i < |picks|
      invariant 0 <= i <= |picks| && Below(ids[..i], k) && Tallied(ids[..i], elems[..])
    {
      var c := picks[i] % k;
      PickKeepsTally(ids[..i], elems[..], c);
      ids[i] := c;
      assert ids[..i + 1] == ids[..i] + [c];
      elems[c] := elems[c] + 1;
      i := i + 1;
    }
    assert ids[..i] == ids[..];
  }

  /** `ndpi_cluster_bins`. */
  method ClusterBins(bins: seq<Bin>, d: nat, wanted: nat, picks: seq<nat>, ids: array<nat>)
    returns (elems: array<nat>, cs: seq<Centroid>, stable: bool, iterations: nat)
    requires Suits(bins, d) && ids.Length == |bins| == |picks| && (|bins| > 0 ==> wanted > 0)
    modifies ids
    ensures fresh(elems) && elems.Length == |cs| == Clusters(wanted, |bins|)
    ensures Below(ids[..], |cs|) && Tallied(ids[..], elems[..]) && Sum(elems[..]) == |bins|
    ensures iterations <= 25 && (stable || iterations == 25)
    ensures stable ==> Centroids(cs, bins, ids[..], d) && AllSettled(bins, cs, ids[..], elems[..])
  {
    var k := Clusters(wanted, |bins|);
    elems := new nat[k](_ => 0);
    Scatter(picks, k, ids, elems);
    cs := seq(k, _ => Empty);
    iterations, stable := 0, false;
    while iterations < MAX_ITERATIONS
      invariant fresh(elems) && elems.Length == |cs| == k && !stable && iterations <= MAX_ITERATIONS
      invariant Below(ids[..], k) && Tallied(ids[..], elems[..])
    {
      iterations := iterations + 1;
      cs := ComputeCentroids(bins, ids[..], d, k);
      var moves := Reassign(bins, cs, d, ids, elems);
      if moves == 0 {
        stable := true;
        break;
      }
    }
    SizesAddUp(ids[..], elems[..]);
  }
}
