/** The relative strength index over a ring of the latest gains and losses. */
module Rsi {
  import opened Bytes
  import opened Rings
  import opened Sums

  function Net(up: int, down: int): int { up - down }

  /** The change that value number `j` brought; the first one brings none. */
  function Delta(vs: seq<nat>, j: nat): int
    requires j < |vs|
  {
    if j == 0 then 0 else Net(vs[j], vs[j - 1])
  }

  /** From the value `n` steps back, or the first one, to the last one. */
  function Span(vs: seq<nat>, n: nat): int {
    if vs == [] then 0
    else if |vs| - 1 < n then Net(vs[|vs| - 1], vs[0])
    else Net(vs[|vs| - 1], vs[|vs| - 1 - n])
  }

  /** What the slot to be written next still holds. */
  function Leaving(vs: seq<nat>, n: nat): int {
    if |vs| < n || n == 0 then 0 else Delta(vs, |vs| - n)
  }

  lemma SpanStep(vs: seq<nat>, v: nat, n: nat)
    requires n > 0
    ensures Span(vs + [v], n) == Span(vs, n) - Leaving(vs, n) + Delta(vs + [v], |vs|)
  {
  }

  /** The rings after the values `vs`. */
  predicate Ring(vs: seq<nat>, gains: seq<nat>, losses: seq<nat>) {
    |gains| == |losses| > 0
    && (forall k :: 0 <= k < |gains| ==> gains[k] == 0 || losses[k] == 0)
    && (forall k :: |vs| <= k < |gains| ==> gains[k] == 0 && losses[k] == 0)
    && forall j :: 0 <= j < |vs| && |vs| - |gains| <= j ==>
         Net(gains[j % |gains|], losses[j % |gains|]) == Delta(vs, j)
  }

  /** What the slot to be written next still holds, read from the ring. */
  lemma LeavingSlot(vs: seq<nat>, gains: seq<nat>, losses: seq<nat>)
    requires Ring(vs, gains, losses)
    ensures var i := |vs| % |gains|; Net(gains[i], losses[i]) == Leaving(vs, |gains|)
  {
    var n := |gains|;
    if |vs| >= n {
      ModShift(1, |vs| - n, n);
    } else {
      SmallMod(|vs|, n);
    }
  }

  lemma RingStep(vs: seq<nat>, v: nat, gains: seq<nat>, losses: seq<nat>, g: nat, l: nat)
    requires Ring(vs, gains, losses) && (g == 0 || l == 0) && Net(g, l) == Delta(vs + [v], |vs|)
    ensures var i := |vs| % |gains|; Ring(vs + [v], gains[i := g], losses[i := l])
  {
    var n := |gains|;
    var i := |vs| % n;
    var now := vs + [v];
    forall j | 0 <= j < |now| && |now| - n <= j
      ensures Net(gains[i := g][j % n], losses[i := l][j % n]) == Delta(now, j)
    {
      if j < |vs| {
        ModDistinct(j, |vs|, n);
      }
    }
    if |vs| < n {
      SmallMod(|vs|, n);
    }
  }

  // ---- The index ----

  /** What is reported for total gains `g` and losses `l`. */
  function Index(g: nat, l: nat): real {
    if l == 0 then 100.0 else 100.0 - 100.0 / (1.0 + g as real / l as real)
  }

  lemma Share(g: real, l: real)
    requires g >= 0.0 && l > 0.0
    ensures 100.0 - 100.0 / (1.0 + g / l) == 100.0 * g / (g + l)
  {
    var q := g / l;
    assert q * l == g;
    assert (1.0 + q) * l == g + l;
    assert 1.0 + q > 0.0;
    var w := 100.0 / (1.0 + q);
    assert w * (1.0 + q) == 100.0;
    assert w * (g + l) == w * ((1.0 + q) * l) == 100.0 * l;
    assert (100.0 - w) * (g + l) == 100.0 * g;
    Quotient(100.0 - w, g + l, 100.0 * g);
  }

  lemma Quotient(a: real, b: real, c: real)
    requires b > 0.0 && a * b == c
    ensures a == c / b
  {
  }

  /** The index is the share of the gains in all changes, between 0 and 100. */
  lemma IndexIsShare(g: nat, l: nat)
    requires l > 0
    ensures Index(g, l) == 100.0 * g as real / (g as real + l as real)
  {
    Share(g as real, l as real);
  }

  /** Without losses it is 100; of gains 3 and losses 1 it is 75. */
  lemma IndexExample()
    ensures Index(0, 0) == Index(7, 0) == 100.0 && Index(3, 1) == 75.0 && Index(0, 5) == 0.0
  {
    IndexIsShare(3, 1);
    IndexIsShare(0, 5);
  }

  /** The totals, at 32 bits, and the whole change they stand for. */
  ghost predicate Totals(vs: seq<nat>, gains: seq<nat>, losses: seq<nat>, totalGains: nat, totalLosses: nat) {
    totalGains == Sum(gains) % TWO32 && totalLosses == Sum(losses) % TWO32
    && Net(Sum(gains), Sum(losses)) == Span(vs, |gains|)
  }

  /** Modulo 2^32 the totals differ by the last value less the one a window earlier. */
  lemma Telescopes(vs: seq<nat>, gains: seq<nat>, losses: seq<nat>, totalGains: nat, totalLosses: nat)
    requires Totals(vs, gains, losses, totalGains, totalLosses)
    ensures Net(totalGains, totalLosses) % TWO32 == Span(vs, |gains|) % TWO32
  {
  }

  /** A 32-bit total after `out` left and `in_` came. */
  function Swap(total: int, out: int, in_: int): nat {
    ((total - out) % TWO32 + in_) % TWO32
  }

  lemma SwapSum(sum: nat, out: nat, in_: nat)
    ensures Swap(sum % TWO32, out, in_) == (sum - out + in_) % TWO32
  {
    ModAdd(sum % TWO32 - out, in_, TWO32);
    ModAdd(sum, in_ - out, TWO32);
  }

  lemma TotalsStep(vs: seq<nat>, v: nat, gains: seq<nat>, losses: seq<nat>, tg: nat, tl: nat, g: nat, l: nat)
    requires Ring(vs, gains, losses) && Totals(vs, gains, losses, tg, tl)
    requires Net(g, l) == Delta(vs + [v], |vs|)
    ensures var i := |vs| % |gains|;
            Totals(vs + [v], gains[i := g], losses[i := l],
                   Swap(tg, gains[i], g), Swap(tl, losses[i], l))
  {
    var i := |vs| % |gains|;
    SumUpdate(gains, i, g);
    SumUpdate(losses, i, l);
    LeavingSlot(vs, gains, losses);
    SpanStep(vs, v, |gains|);
    SwapSum(Sum(gains), gains[i], g);
    SwapSum(Sum(losses), losses[i], l);
  }

  function Gain(from: nat, to: nat): nat { if to > from then to - from else 0 }

  class Tracker {
    const gains: array<nat>
    const losses: array<nat>
    var empty: bool
    var ready: bool
    var nextIndex: nat
    var lastValue: nat
    var totalGains: nat
    var totalLosses: nat

    /** The state after the values `vs`. */
    ghost predicate Holds(vs: seq<nat>)
      reads this, gains, losses
    {
      gains != losses && gains.Length == losses.Length > 0
      && Ring(vs, gains[..], losses[..]) && Totals(vs, gains[..], losses[..], totalGains, totalLosses)
      && nextIndex == |vs| % gains.Length && (empty <==> vs == []) && (ready <==> |vs| >= gains.Length)
      && (vs != [] ==> lastValue == vs[|vs| - 1])
    }

    constructor (length: nat)
      requires length > 0
      ensures fresh(gains) && fresh(losses) && gains.Length == length && Holds([])
    {
      gains := new nat[length](_ => 0);
      losses := new nat[length](_ => 0);
      empty, ready, nextIndex, lastValue, totalGains, totalLosses := true, false, 0, 0, 0, 0;
      new;
      SumZeros(gains[..]);
      SumZeros(losses[..]);
    }

    /** The slot of a new value takes its gain or its loss, and the totals follow. */
    method Replace(i: nat, v: nat)
      requires gains != losses && gains.Length == losses.Length && i < gains.Length
      modifies gains, losses, this`totalGains, this`totalLosses
      ensures gains[..] == old(gains[..])[i := Gain(lastValue, v)]
      ensures losses[..] == old(losses[..])[i := Gain(v, lastValue)]
      ensures totalGains == Swap(old(totalGains), old(gains[i]), Gain(lastValue, v))
      ensures totalLosses == Swap(old(totalLosses), old(losses[i]), Gain(v, lastValue))
    {
      totalGains := (totalGains - gains[i]) % TWO32;
      totalLosses := (totalLosses - losses[i]) % TWO32;
      if v > lastValue {
        var val := v - lastValue;
        gains[i], losses[i] := val, 0;
        totalGains := (totalGains + val) % TWO32;
      } else {
        var val := lastValue - v;
        losses[i], gains[i] := val, 0;
        totalLosses := (totalLosses + val) % TWO32;
      }
    }

    /** The rings and totals after one more value; the first one only starts the series. */
    method Enter(v: nat, ghost vs: seq<nat>)
      requires Holds(vs) && v < TWO32
      modifies gains, losses, this`totalGains, this`totalLosses
      ensures Ring(vs + [v], gains[..], losses[..])
      ensures Totals(vs + [v], gains[..], losses[..], totalGains, totalLosses)
    {
      ghost var g := if empty then 0 else Gain(lastValue, v);
      ghost var l := if empty then 0 else Gain(v, lastValue);
      RingStep(vs, v, gains[..], losses[..], g, l);
      TotalsStep(vs, v, gains[..], losses[..], totalGains, totalLosses, g, l);
      if !empty {
        Replace(nextIndex, v);
      } else {
        SmallMod(0, gains.Length);
        assert gains[..][0 := 0] == gains[..] && losses[..][0 := 0] == losses[..];
      }
    }

    /** The next slot; the index is ready once the ring has been gone round. */
    method Advance(v: nat, ghost n: nat)
      requires gains.Length > 0 && nextIndex == n % gains.Length && (ready <==> n >= gains.Length)
      modifies this`lastValue, this`nextIndex, this`empty, this`ready
      ensures nextIndex == (n + 1) % gains.Length && (ready <==> n + 1 >= gains.Length)
      ensures lastValue == v && !empty
    {
      ModAdd(n, 1, gains.Length);
      NextIndex(n, gains.Length);
      lastValue := v;
      nextIndex := (nextIndex + 1) % gains.Length;
      empty := false;
      if n < gains.Length {
        SmallMod(n, gains.Length);
      }
      if nextIndex == 0 {
        ready := true;
      }
    }

    /** `ndpi_rsi_add_value`, the index in exact arithmetic. */
    method AddValue(v: nat, ghost vs: seq<nat>) returns (r: real)
      requires Holds(vs) && v < TWO32
      modifies this, gains, losses
      ensures Holds(vs + [v])
      ensures r == if |vs| + 1 < gains.Length then -1.0 else Index(totalGains, totalLosses)
    {
      Enter(v, vs);
      Advance(v, |vs|);
      r := if !ready then -1.0 else Index(totalGains, totalLosses);
    }
  }
}
