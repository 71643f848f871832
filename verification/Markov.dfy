/** The Markov-chain features of a sequence of lengths or gaps: one row of frequencies for each bin. */
module Markov {

  const BINS := 10

  /** The bin of a value; the last bin takes everything above. */
  function Bin(v: nat, size: nat): (b: nat)
    requires size > 0
    ensures b < BINS
  {
    if v / size < BINS then v / size else BINS - 1
  }

  /** The values of a bin: bin `b` holds those from `b` times its size on, below the next one; the tenth has no upper end. */
  lemma BinExactly(v: nat, size: nat, b: nat)
    requires size > 0 && b < 10
    ensures Bin(v, size) == b <==> b * size <= v && (b < 9 ==> v < (b + 1) * size)
  {
    QuotientExactly(v, size, b);
    QuotientAtLeast(v, size, 9);
  }

  lemma QuotientExactly(v: nat, size: nat, b: nat)
    requires size > 0
    ensures v / size == b <==> b * size <= v < (b + 1) * size
  {
    QuotientAtLeast(v, size, b);
    QuotientAtLeast(v, size, b + 1);
  }

  lemma QuotientAtLeast(v: nat, size: nat, b: nat)
    requires size > 0
    ensures v / size >= b <==> b * size <= v
  {
    var q, r := v / size, v % size;
    assert v == q * size + r && r < size;
    if q >= b {
      Times(b, q, size);
    } else {
      Times(q + 1, b, size);
    }
  }

  lemma Times(a: nat, b: nat, size: nat)
    requires a <= b
    ensures a * size <= b * size
  {
  }

  /** A row and a column of the flat matrix. */
  function Cell(m: seq<real>, i: nat, j: nat): real
    requires |m| == BINS * BINS && i < BINS && j < BINS
  {
    m[i * BINS + j]
  }

  lemma CellUpdate(m: seq<real>, i: nat, j: nat, v: real, a: nat, b: nat)
    requires |m| == BINS * BINS && i < BINS && j < BINS && a < BINS && b < BINS
    ensures Cell(m[i * BINS + j := v], a, b) == if a == i && b == j then v else Cell(m, a, b)
  {
  }

  // ---- Transitions ----

  /** How many packets of bin `i` were followed by one of bin `j`. */
  function Steps(vs: seq<nat>, size: nat, i: nat, j: nat): nat
    requires size > 0
  {
    var n := |vs| - 1;
    if n < 1 then 0
    else Steps(vs[..n], size, i, j) + (if Bin(vs[n - 1], size) == i && Bin(vs[n], size) == j then 1 else 0)
  }

  /** How many packets of bin `i` were followed by any. */
  function Leavers(vs: seq<nat>, size: nat, i: nat): nat
    requires size > 0
  {
    var n := |vs| - 1;
    if n < 1 then 0 else Leavers(vs[..n], size, i) + (if Bin(vs[n - 1], size) == i then 1 else 0)
  }

  /** The places at which a packet of bin `i` is followed by one of bin `j`. */
  ghost function Places(vs: seq<nat>, size: nat, i: nat, j: nat): set<nat>
    requires size > 0
  {
    set k: nat | k < |vs| && StepAt(vs, size, i, j, k)
  }

  predicate StepAt(vs: seq<nat>, size: nat, i: nat, j: nat, k: nat)
    requires size > 0
  {
    k + 1 < |vs| && Bin(vs[k], size) == i && Bin(vs[k + 1], size) == j
  }

  lemma StepAtMore(vs: seq<nat>, size: nat, i: nat, j: nat, k: nat)
    requires size > 0 && |vs| >= 2
    ensures var n := |vs| - 1;
            StepAt(vs, size, i, j, k) <==> StepAt(vs[..n], size, i, j, k) || (k == n - 1 && StepAt(vs, size, i, j, n - 1))
  {
  }

  /** The count is the number of those places. */
  lemma {:induction false} StepsExactly(vs: seq<nat>, size: nat, i: nat, j: nat)
    requires size > 0
    ensures Steps(vs, size, i, j) == |Places(vs, size, i, j)|
    decreases |vs|
  {
    var n := |vs| - 1;
    if n < 1 {
      assert Places(vs, size, i, j) == {};
    } else {
      var front := vs[..n];
      StepsExactly(front, size, i, j);
      var more: set<nat> := if StepAt(vs, size, i, j, n - 1) then {n - 1} else {};
      forall k: nat
        ensures StepAt(vs, size, i, j, k) <==> StepAt(front, size, i, j, k) || k in more
      {
        StepAtMore(vs, size, i, j, k);
      }
      assert Places(vs, size, i, j) == Places(front, size, i, j) + more;
    }
  }

  function StepsUpTo(vs: seq<nat>, size: nat, i: nat, m: nat): nat
    requires size > 0
  {
    if m == 0 then 0 else StepsUpTo(vs, size, i, m - 1) + Steps(vs, size, i, m - 1)
  }

  lemma {:induction false} NoSteps(vs: seq<nat>, size: nat, i: nat, m: nat)
    requires size > 0 && |vs| < 2
    ensures StepsUpTo(vs, size, i, m) == 0
  {
    if m > 0 {
      NoSteps(vs, size, i, m - 1);
    }
  }

  lemma {:induction false} OneMoreStep(vs: seq<nat>, size: nat, i: nat, m: nat)
    requires size > 0 && |vs| >= 2
    ensures var n := |vs| - 1;
            StepsUpTo(vs, size, i, m) ==
            StepsUpTo(vs[..n], size, i, m) + (if Bin(vs[n - 1], size) == i && Bin(vs[n], size) < m then 1 else 0)
    decreases m
  {
    if m > 0 {
      OneMoreStep(vs, size, i, m - 1);
    }
  }

  /** Every packet but the last leaves its bin for exactly one bin. */
  lemma {:induction false} StepsAddUp(vs: seq<nat>, size: nat, i: nat)
    requires size > 0
    ensures StepsUpTo(vs, size, i, BINS) == Leavers(vs, size, i)
    decreases |vs|
  {
    if |vs| < 2 {
      NoSteps(vs, size, i, BINS);
    } else {
      StepsAddUp(vs[..|vs| - 1], size, i);
      OneMoreStep(vs, size, i, BINS);
    }
  }

  /** A packet other than the last fell in the bin `i`. */
  ghost predicate Left(vs: seq<nat>, size: nat, i: nat)
    requires size > 0
  {
    exists k :: 0 <= k < |vs| - 1 && Bin(vs[k], size) == i
  }

  /** A bin has leavers exactly if a packet other than the last fell in it. */
  lemma {:induction false} LeaversExactly(vs: seq<nat>, size: nat, i: nat)
    requires size > 0
    ensures Leavers(vs, size, i) > 0 <==> Left(vs, size, i)
    decreases |vs|
  {
    var n := |vs| - 1;
    if n >= 1 {
      LeaversExactly(vs[..n], size, i);
      if Leavers(vs[..n], size, i) > 0 {
        var k :| 0 <= k < n - 1 && Bin(vs[..n][k], size) == i;
        assert Bin(vs[k], size) == i;
      }
      if k :| 0 <= k < n && Bin(vs[k], size) == i {
        assert k < n - 1 ==> Bin(vs[..n][k], size) == i;
      }
    }
  }

  // ---- Rows ----

  /** The sum of the first `m` cells of a row. */
  function RowSum(mc: seq<real>, i: nat, m: nat): real
    requires |mc| == BINS * BINS && i < BINS && m <= BINS
  {
    if m == 0 then 0.0 else RowSum(mc, i, m - 1) + Cell(mc, i, m - 1)
  }

  /** The counts, before the rows are normalized. */
  ghost predicate Counts(mc: seq<real>, vs: seq<nat>, size: nat)
    requires size > 0
  {
    |mc| == BINS * BINS
    && forall i, j :: 0 <= i < BINS && 0 <= j < BINS ==> Cell(mc, i, j) == Steps(vs, size, i, j) as real
  }

  lemma {:induction false} CountRow(mc: seq<real>, vs: seq<nat>, size: nat, i: nat, m: nat)
    requires size > 0 && Counts(mc, vs, size) && i < BINS && m <= BINS
    ensures RowSum(mc, i, m) == StepsUpTo(vs, size, i, m) as real
    decreases m
  {
    if m > 0 {
      CountRow(mc, vs, size, i, m - 1);
    }
  }

  lemma DivideSum(a: real, b: real, d: real)
    requires d != 0.0
    ensures a / d + b / d == (a + b) / d
  {
  }

  lemma {:induction false} DividedRow(mc: seq<real>, was: seq<real>, i: nat, m: nat, d: real)
    requires |mc| == |was| == BINS * BINS && i < BINS && m <= BINS && d != 0.0
    requires forall j :: 0 <= j < BINS ==> Cell(mc, i, j) == Cell(was, i, j) / d
    ensures RowSum(mc, i, m) == RowSum(was, i, m) / d
    decreases m
  {
    if m > 0 {
      DividedRow(mc, was, i, m - 1, d);
      DivideSum(RowSum(was, i, m - 1), Cell(was, i, m - 1), d);
    }
  }

  lemma {:induction false} ZeroRow(mc: seq<real>, i: nat, m: nat)
    requires |mc| == BINS * BINS && i < BINS && m <= BINS
    requires forall j :: 0 <= j < BINS ==> Cell(mc, i, j) == 0.0
    ensures RowSum(mc, i, m) == 0.0
    decreases m
  {
    if m > 0 {
      ZeroRow(mc, i, m - 1);
    }
  }

  /** The frequency of going from bin `i` to bin `j`. */
  function Frequency(vs: seq<nat>, size: nat, i: nat, j: nat): real
    requires size > 0
  {
    var leavers := Leavers(vs, size, i);
    if leavers == 0 then 0.0 else Steps(vs, size, i, j) as real / leavers as real
  }

  ghost predicate Frequencies(mc: seq<real>, vs: seq<nat>, size: nat)
    requires size > 0
  {
    |mc| == BINS * BINS
    && forall i, j :: 0 <= i < BINS && 0 <= j < BINS ==> Cell(mc, i, j) == Frequency(vs, size, i, j)
  }

  /** The counts as a matrix, for reasoning about a row. */
  function CountMatrix(vs: seq<nat>, size: nat): (mc: seq<real>)
    requires size > 0
    ensures |mc| == BINS * BINS
  {
    seq(BINS * BINS, k requires 0 <= k < BINS * BINS => Steps(vs, size, k / BINS, k % BINS) as real)
  }

  lemma CountMatrixCounts(vs: seq<nat>, size: nat)
    requires size > 0
    ensures Counts(CountMatrix(vs, size), vs, size)
  {
    var mc := CountMatrix(vs, size);
    forall i, j | 0 <= i < BINS && 0 <= j < BINS
      ensures Cell(mc, i, j) == Steps(vs, size, i, j) as real
    {
      assert (i * BINS + j) / BINS == i && (i * BINS + j) % BINS == j;
    }
  }

  lemma FullRow(mc: seq<real>, vs: seq<nat>, size: nat, i: nat, d: real)
    requires size > 0 && Frequencies(mc, vs, size) && i < BINS
    requires Leavers(vs, size, i) > 0 && d == Leavers(vs, size, i) as real
    ensures RowSum(mc, i, BINS) == 1.0
  {
    var counts := CountMatrix(vs, size);
    CountMatrixCounts(vs, size);
    CountRow(counts, vs, size, i, BINS);
    StepsAddUp(vs, size, i);
    DividedRow(mc, counts, i, BINS, d);
    DivideSelf(d);
  }

  lemma DivideSelf(d: real)
    requires d != 0.0
    ensures d / d == 1.0
  {
  }

  /** Each row sums to 1 if a packet other than the last fell in its bin, and to 0 otherwise. */
  lemma RowsSumToOne(mc: seq<real>, vs: seq<nat>, size: nat, i: nat)
    requires size > 0 && Frequencies(mc, vs, size) && i < BINS
    ensures RowSum(mc, i, BINS) == if Left(vs, size, i) then 1.0 else 0.0
  {
    LeaversExactly(vs, size, i);
    if Leavers(vs, size, i) == 0 {
      ZeroRow(mc, i, BINS);
    } else {
      FullRow(mc, vs, size, i, Leavers(vs, size, i) as real);
    }
  }

  // ---- The builder ----

  method Count(vs: seq<nat>, size: nat, mc: array<real>)
    requires size > 0 && mc.Length == BINS * BINS && forall k :: 0 <= k < mc.Length ==> mc[k] == 0.0
    modifies mc
    ensures Counts(mc[..], vs, size)
  {
    if |vs| < 2 {
      return;
    }
    var k := 1;
    while k < |vs|
      invariant 1 <= k <= |vs| && Counts(mc[..], vs[..k], size)
    {
      var i, j := Bin(vs[k - 1], size), Bin(vs[k], size);
      ghost var was := mc[..];
      mc[i * BINS + j] := mc[i * BINS + j] + 1.0;
      assert mc[..] == was[i * BINS + j := Cell(was, i, j) + 1.0];
      CountMore(was, vs, size, k, i, j);
      k := k + 1;
    }
    assert vs[..k] == vs;
  }

  lemma CountMore(was: seq<real>, vs: seq<nat>, size: nat, k: nat, i: nat, j: nat)
    requires size > 0 && 1 <= k < |vs| && Counts(was, vs[..k], size)
    requires i == Bin(vs[k - 1], size) && j == Bin(vs[k], size)
    ensures Counts(was[i * BINS + j := Cell(was, i, j) + 1.0], vs[..k + 1], size)
  {
    var now := was[i * BINS + j := Cell(was, i, j) + 1.0];
    assert vs[..k + 1][..k] == vs[..k];
    forall a, b | 0 <= a < BINS && 0 <= b < BINS
      ensures Cell(now, a, b) == Steps(vs[..k + 1], size, a, b) as real
    {
      CellUpdate(was, i, j, Cell(was, i, j) + 1.0, a, b);
    }
  }

  /** A row after it was divided by its sum, if that is not zero. */
  ghost predicate RowDivided(now: seq<real>, was: seq<real>, i: nat)
    requires |now| == |was| == BINS * BINS && i < BINS
  {
    var sum := RowSum(was, i, BINS);
    forall j :: 0 <= j < BINS ==> Cell(now, i, j) == if sum == 0.0 then Cell(was, i, j) else Cell(was, i, j) / sum
  }

  ghost predicate RowKept(now: seq<real>, was: seq<real>, i: nat)
    requires |now| == |was| == BINS * BINS && i < BINS
  {
    forall j :: 0 <= j < BINS ==> Cell(now, i, j) == Cell(was, i, j)
  }

  method NormalizeRow(mc: array<real>, i: nat)
    requires mc.Length == BINS * BINS && i < BINS
    modifies mc
    ensures RowDivided(mc[..], old(mc[..]), i)
    ensures forall a :: 0 <= a < BINS && a != i ==> RowKept(mc[..], old(mc[..]), a)
  {
    ghost var was := mc[..];
    var sum := 0.0;
    var j := 0;
    while j < BINS
      invariant 0 <= j <= BINS && mc[..] == was && sum == RowSum(was, i, j)
    {
      sum := sum + mc[i * BINS + j];
      j := j + 1;
    }
    if sum != 0.0 {
      j := 0;
      while j < BINS
        invariant 0 <= j <= BINS
        invariant forall a, b :: 0 <= a < BINS && 0 <= b < BINS ==>
                    Cell(mc[..], a, b) == if a == i && b < j then Cell(was, a, b) / sum else Cell(was, a, b)
      {
        ghost var before := mc[..];
        mc[i * BINS + j] := mc[i * BINS + j] / sum;
        assert mc[..] == before[i * BINS + j := Cell(before, i, j) / sum];
        forall a, b | 0 <= a < BINS && 0 <= b < BINS
          ensures Cell(mc[..], a, b) == if a == i && b == j then Cell(before, a, b) / sum else Cell(before, a, b)
        {
          CellUpdate(before, i, j, Cell(before, i, j) / sum, a, b);
        }
        j := j + 1;
      }
    }
  }

  lemma DividedRowIsFrequency(now: seq<real>, was: seq<real>, vs: seq<nat>, size: nat, i: nat, j: nat)
    requires size > 0 && |now| == BINS * BINS && Counts(was, vs, size) && i < BINS && j < BINS
    requires RowDivided(now, was, i)
    ensures Cell(now, i, j) == Frequency(vs, size, i, j)
  {
    CountRow(was, vs, size, i, BINS);
    StepsAddUp(vs, size, i);
    StepsBounded(vs, size, i, j);
  }

  lemma {:induction false} StepsBounded(vs: seq<nat>, size: nat, i: nat, j: nat)
    requires size > 0
    ensures Steps(vs, size, i, j) <= Leavers(vs, size, i)
    decreases |vs|
  {
    if |vs| >= 2 {
      StepsBounded(vs[..|vs| - 1], size, i, j);
    }
  }

  lemma RowChain(now: seq<real>, mid: seq<real>, was: seq<real>, i: nat, a: nat)
    requires |now| == |mid| == |was| == BINS * BINS && i < BINS && a < BINS
    requires a < i ==> RowDivided(mid, was, a) && RowKept(now, mid, a)
    requires a > i ==> RowKept(mid, was, a) && RowKept(now, mid, a)
    requires a == i ==> RowKept(mid, was, a) && RowDivided(now, mid, a)
    ensures a <= i ==> RowDivided(now, was, a)
    ensures a > i ==> RowKept(now, was, a)
  {
    if a == i {
      SameRowSum(mid, was, a, BINS);
    }
  }

  lemma {:induction false} SameRowSum(x: seq<real>, y: seq<real>, i: nat, m: nat)
    requires |x| == |y| == BINS * BINS && i < BINS && m <= BINS && RowKept(x, y, i)
    ensures RowSum(x, i, m) == RowSum(y, i, m)
    decreases m
  {
    if m > 0 {
      SameRowSum(x, y, i, m - 1);
    }
  }

  method NormalizeRows(mc: array<real>)
    requires mc.Length == BINS * BINS
    modifies mc
    ensures forall a :: 0 <= a < BINS ==> RowDivided(mc[..], old(mc[..]), a)
  {
    ghost var was := mc[..];
    var i := 0;
    while i < BINS
      invariant 0 <= i <= BINS
      invariant forall a :: 0 <= a < i ==> RowDivided(mc[..], was, a)
      invariant forall a :: i <= a < BINS ==> RowKept(mc[..], was, a)
    {
      ghost var mid := mc[..];
      NormalizeRow(mc, i);
      forall a | 0 <= a < BINS
        ensures a <= i ==> RowDivided(mc[..], was, a)
        ensures a > i ==> RowKept(mc[..], was, a)
      {
        RowChain(mc[..], mid, was, i, a);
      }
      i := i + 1;
    }
  }

  /** `ndpi_get_mc_rep_lens` with bins of 150 bytes, `ndpi_get_mc_rep_times` with bins of 50 milliseconds. */
  method Build(vs: seq<nat>, size: nat, mc: array<real>)
    requires size > 0 && mc.Length == BINS * BINS
    modifies mc
    ensures |vs| != 1 ==> Frequencies(mc[..], vs, size)
    ensures |vs| == 1 ==> forall i, j :: 0 <= i < BINS && 0 <= j < BINS ==>
              Cell(mc[..], i, j) == if i == j == Bin(vs[0], size) then 1.0 else 0.0
  {
    Clear(mc);
    if |vs| == 1 {
      var b := Bin(vs[0], size);
      mc[b + b * BINS] := 1.0;
    } else {
      Count(vs, size, mc);
      ghost var was := mc[..];
      if |vs| > 1 {
        NormalizeRows(mc);
        forall i, j | 0 <= i < BINS && 0 <= j < BINS
          ensures Cell(mc[..], i, j) == Frequency(vs, size, i, j)
        {
          DividedRowIsFrequency(mc[..], was, vs, size, i, j);
        }
      }
    }
  }

  /** Lengths 100, 200, 100 in bins of 150: from bin 0 to bin 1 and back, in cells 1 and 10 of 100. */
  method BuildExample() returns (mc: array<real>)
    ensures mc.Length == 100 && mc[1] == 1.0 && mc[10] == 1.0
    ensures forall k :: 0 <= k < 100 && k != 1 && k != 10 ==> mc[k] == 0.0
  {
    mc := new real[100](_ => 0.0);
    var vs := [100, 200, 100];
    Build(vs, 150, mc);
    assert vs[..2] == [100, 200];
    assert Bin(100, 150) == 0 && Bin(200, 150) == 1;
    forall k | 0 <= k < 100
      ensures mc[k] == if k == 1 || k == 10 then 1.0 else 0.0
    {
      assert mc[..][k] == Cell(mc[..], k / 10, k % 10);
      assert Steps([100, 200], 150, k / 10, k % 10) == if k == 1 then 1 else 0;
      assert Leavers([100, 200], 150, k / 10) == if k / 10 == 0 then 1 else 0;
    }
  }

  method Clear(mc: array<real>)
    modifies mc
    ensures forall k :: 0 <= k < mc.Length ==> mc[k] == 0.0
  {
    var k := 0;
    while k < mc.Length
      invariant 0 <= k <= mc.Length && forall l :: 0 <= l < k ==> mc[l] == 0.0
    {
      mc[k] := 0.0;
      k := k + 1;
    }
  }
}
