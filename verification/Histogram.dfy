/** include/lob/histogram.hpp: nanosecond buckets below LINEAR_MAX, one bucket per octave above, and the rank
    scan of percentile, proved against the sorted samples. */
module Histogram {
  import opened Words

  const LINEAR_MAX: nat := 100_000
  const LOG_BUCKETS: nat := 30

  // ----- the samples ------------------------------------------------------------------------

  ghost predicate Ascending(t: seq<Word>) {
    forall i :: 0 < i < |t| ==> t[i - 1] <= t[i]
  }

  function Placed(x: Word, t: seq<Word>): (r: seq<Word>)
    requires Ascending(t)
    ensures Ascending(r) && multiset(r) == multiset(t) + multiset{x}
    ensures r != [] && (r[0] == x || (t != [] && r[0] == t[0]))
  {
    if t == [] || x <= t[0] then [x] + t
    else
      assert t == [t[0]] + t[1..];
      [t[0]] + Placed(x, t[1..])
  }

  /** The samples in ascending order. */
  function Sorted(ss: seq<Word>): (t: seq<Word>)
    ensures Ascending(t) && multiset(t) == multiset(ss)
  {
    if ss == [] then []
    else
      assert ss == ss[..|ss| - 1] + [ss[|ss| - 1]];
      Placed(ss[|ss| - 1], Sorted(ss[..|ss| - 1]))
  }

  function Below(ss: seq<Word>, y: nat): (n: nat)
    ensures n <= |ss|
  {
    if ss == [] then 0 else Below(ss[..|ss| - 1], y) + (if ss[|ss| - 1] < y then 1 else 0)
  }

  function Equal(ss: seq<Word>, y: nat): nat {
    if ss == [] then 0 else Equal(ss[..|ss| - 1], y) + (if ss[|ss| - 1] == y then 1 else 0)
  }

  /** Samples past the linear range whose octave is b. */
  function InOctave(ss: seq<Word>, b: nat): nat {
    if ss == [] then 0
    else InOctave(ss[..|ss| - 1], b) + (if LINEAR_MAX <= ss[|ss| - 1] && Octave(ss[|ss| - 1], 0) == b then 1 else 0)
  }

  /** Samples past the linear range in octaves before b. */
  function OctavesBelow(ss: seq<Word>, b: nat): nat {
    if ss == [] then 0
    else OctavesBelow(ss[..|ss| - 1], b) + (if LINEAR_MAX <= ss[|ss| - 1] && Octave(ss[|ss| - 1], 0) < b then 1 else 0)
  }

  function Largest(ss: seq<Word>): Word {
    if ss == [] then 0 else if ss[|ss| - 1] > Largest(ss[..|ss| - 1]) then ss[|ss| - 1] else Largest(ss[..|ss| - 1])
  }

  function Sum(ns: seq<nat>): nat {
    if ns == [] then 0 else Sum(ns[..|ns| - 1]) + ns[|ns| - 1]
  }

  // ----- octaves ------------------------------------------------------------------------------

  /** Halvings of v down to 1, counted on from b and stopped at the last bucket. */
  function Octave(v: nat, b: nat): nat
    decreases v
  {
    if v > 1 && b < LOG_BUCKETS - 1 then Octave(v / 2, b + 1) else b
  }

  /** Octave b holds [2^b, 2^(b+1)), the last one everything from 2^29 on. */
  lemma {:induction false} OctaveEdges(v: nat, b: nat)
    requires v > 0 && b < LOG_BUCKETS
    ensures var r := Octave(v, b);
      b <= r < LOG_BUCKETS && Pow2(r - b) <= v && (r < LOG_BUCKETS - 1 ==> v < 2 * Pow2(r - b))
    decreases v
  {
    if v > 1 && b < LOG_BUCKETS - 1 {
      OctaveEdges(v / 2, b + 1);
    }
  }

  /** So octaves are ordered as the samples are. */
  lemma OctaveOrder(v: nat, b: nat)
    requires v > 0 && b < LOG_BUCKETS
    ensures Octave(v, 0) < b <==> v < Pow2(b)
  {
    OctaveEdges(v, 0);
    var r := Octave(v, 0);
    if r < b { Pow2Mono(r + 1, b); } else { Pow2Mono(b, r); }
  }

  // ----- ranks ----------------------------------------------------------------------------------

  lemma {:induction false} BelowNext(ss: seq<Word>, y: nat)
    ensures Below(ss, y + 1) == Below(ss, y) + Equal(ss, y)
  {
    if ss != [] { BelowNext(ss[..|ss| - 1], y); }
  }

  lemma {:induction false} BelowZero(ss: seq<Word>)
    ensures Below(ss, 0) == 0 && OctavesBelow(ss, 0) == 0
  {
    if ss != [] { BelowZero(ss[..|ss| - 1]); }
  }

  lemma {:induction false} OctavesNext(ss: seq<Word>, b: nat)
    ensures OctavesBelow(ss, b + 1) == OctavesBelow(ss, b) + InOctave(ss, b)
  {
    if ss != [] { OctavesNext(ss[..|ss| - 1], b); }
  }

  /** Where octave b begins among the samples past the linear range. */
  function Start(b: nat): nat {
    if Pow2(b) < LINEAR_MAX then LINEAR_MAX else Pow2(b)
  }

  lemma {:induction false} OctavesAreRanks(ss: seq<Word>, b: nat)
    requires b < LOG_BUCKETS
    ensures Below(ss, LINEAR_MAX) + OctavesBelow(ss, b) == Below(ss, Start(b))
  {
    if ss != [] {
      OctavesAreRanks(ss[..|ss| - 1], b);
      var x := ss[|ss| - 1];
      if LINEAR_MAX <= x { OctaveOrder(x, b); }
    }
  }

  /** Every sample is in a linear bucket or in one of the octaves. */
  lemma {:induction false} AllBuckets(ss: seq<Word>)
    ensures Below(ss, LINEAR_MAX) + OctavesBelow(ss, LOG_BUCKETS) == |ss|
  {
    if ss != [] {
      AllBuckets(ss[..|ss| - 1]);
      var x := ss[|ss| - 1];
      if LINEAR_MAX <= x { OctaveEdges(x, 0); }
    }
  }

  lemma {:induction false} BelowAppend(s: seq<Word>, t: seq<Word>, y: nat)
    ensures Below(s + t, y) == Below(s, y) + Below(t, y)
  {
    if t == [] {
      assert s + t == s;
    } else {
      assert (s + t)[..|s + t| - 1] == s + t[..|t| - 1];
      BelowAppend(s, t[..|t| - 1], y);
    }
  }

  lemma {:induction false} BelowPlaced(x: Word, t: seq<Word>, y: nat)
    requires Ascending(t)
    ensures Below(Placed(x, t), y) == Below(t, y) + (if x < y then 1 else 0)
  {
    assert [x][..0] == [];
    assert Below([x], y) == if x < y then 1 else 0;
    if t == [] || x <= t[0] {
      BelowAppend([x], t, y);
    } else {
      assert t == [t[0]] + t[1..];
      BelowAppend([t[0]], t[1..], y);
      BelowPlaced(x, t[1..], y);
      BelowAppend([t[0]], Placed(x, t[1..]), y);
    }
  }

  lemma {:induction false} BelowSorted(ss: seq<Word>, y: nat)
    ensures Below(Sorted(ss), y) == Below(ss, y)
  {
    if ss != [] {
      BelowSorted(ss[..|ss| - 1], y);
      BelowPlaced(ss[|ss| - 1], Sorted(ss[..|ss| - 1]), y);
    }
  }

  lemma {:induction false} RankInSorted(t: seq<Word>, y: nat, j: nat)
    requires Ascending(t) && j < |t|
    ensures j < Below(t, y) <==> t[j] < y
  {
    var front := t[..|t| - 1];
    if j < |front| {
      RankInSorted(front, y, j);
      if t[|t| - 1] < y && |front| > 0 { RankInSorted(front, y, |front| - 1); }
    } else if |front| > 0 {
      RankInSorted(front, y, |front| - 1);
    }
  }

  /** The k-th smallest sample is below y exactly when at least k samples are. */
  lemma KthBelow(ss: seq<Word>, k: nat, y: nat)
    requires 1 <= k <= |ss|
    ensures |Sorted(ss)| == |ss|
    ensures k <= Below(ss, y) <==> Sorted(ss)[k - 1] < y
  {
    assert |multiset(Sorted(ss))| == |multiset(ss)|;
    BelowSorted(ss, y);
    RankInSorted(Sorted(ss), y, k - 1);
  }

  /** A reported value r stands for the sample x: exact in the linear range, else the lower edge of x's octave
      (the last octave has no upper edge). */
  ghost predicate StandsFor(r: nat, x: Word) {
    if x < LINEAR_MAX then r == x
    else exists b: nat :: b < LOG_BUCKETS && r == Pow2(b) && r <= x && (b < LOG_BUCKETS - 1 ==> x < 2 * r)
  }

  lemma LastOctave()
    ensures Pow2(29) == 536870912
  {
    assert Pow2(8) == 256;
    assert Pow2(16) == 65536;
    assert Pow2(24) == 16777216;
  }

  /** The power of two at or just below a sample, as an octave's lower edge. */
  lemma EdgeIs(r: nat, x: Word)
    requires LINEAR_MAX <= x
    ensures x < 536870912 ==> (StandsFor(r, x) <==> IsPow2(r) && r <= x < 2 * r)
    ensures 536870912 <= x ==> (StandsFor(r, x) <==> r == 536870912)
  {
    hide Pow2;
    LastOctave();
    if b: nat :| r == Pow2(b) {
      if b < 29 { Pow2Mono(b + 1, 29); Doubles(b); } else { Pow2Mono(29, b); }
      if b > 29 { Pow2Mono(30, b); Doubles(29); }
      if b': nat :| r == Pow2(b') && b' != b {
        if b' < b { Pow2Mono(b' + 1, b); Doubles(b'); } else { Pow2Mono(b + 1, b'); Doubles(b); }
      }
    }
  }

  lemma Doubles(b: nat)
    ensures Pow2(b + 1) == 2 * Pow2(b) && Pow2(b) > 0
  {
    if b > 0 { Doubles(b - 1); }
  }

  /** What is reported for a sample, in numbers: itself below 100000; up to 2^29 the power of two at or just below
      it; from there on 2^29. */
  lemma ReportIs(r: nat, x: Word)
    ensures StandsFor(r, x) <==>
      if x < 100000 then r == x
      else if x < 536870912 then IsPow2(r) && r <= x < 2 * r
      else r == 536870912
  {
    if x >= LINEAR_MAX { EdgeIs(r, x); }
  }

  /** max is the greatest sample, 0 when there is none. */
  lemma {:induction false} LargestIs(ss: seq<Word>)
    ensures if ss == [] then Largest(ss) == 0 else Largest(ss) in ss
    ensures forall i :: 0 <= i < |ss| ==> ss[i] <= Largest(ss)
  {
    if ss != [] {
      LargestIs(ss[..|ss| - 1]);
      if |ss| > 1 && Largest(ss) != ss[|ss| - 1] { assert Largest(ss) in ss[..|ss| - 1]; }
      forall i | 0 <= i < |ss| ensures ss[i] <= Largest(ss) {
        if i < |ss| - 1 { assert ss[i] == ss[..|ss| - 1][i]; }
      }
    }
  }

  /** Reports keep the order of the samples except in one place: the octave that straddles the end of the
      linear range reports 65536, below the linear samples above that. */
  lemma ReportsInOrder(x: Word, y: Word, r: nat, r': nat)
    requires x <= y && StandsFor(r, x) && StandsFor(r', y)
    ensures r <= r' <==> !(65536 < x < LINEAR_MAX <= y < 131072)
  {
    assert Pow2(16) == 65536 && Pow2(17) == 131072 by { assert Pow2(8) == 256; }
    if LINEAR_MAX <= y {
      var b': nat :| b' < LOG_BUCKETS && r' == Pow2(b') && r' <= y && (b' < LOG_BUCKETS - 1 ==> y < 2 * r');
      if b' < 17 { Pow2Mono(b' + 1, 17); Pow2Mono(b', 16); } else { Pow2Mono(17, b'); }
      if b' < 16 { Pow2Mono(b', 15); }
      if LINEAR_MAX <= x {
        var b: nat :| b < LOG_BUCKETS && r == Pow2(b) && r <= x && (b < LOG_BUCKETS - 1 ==> x < 2 * r);
        if b' < b { Pow2Mono(b' + 1, b); } else { Pow2Mono(b, b'); }
      }
    }
  }

  lemma {:induction false} AscendingRanks(t: seq<Word>, i: nat, j: nat)
    requires Ascending(t) && i <= j < |t|
    ensures t[i] <= t[j]
    decreases j - i
  {
    if i < j { AscendingRanks(t, i, j - 1); }
  }

  /** Of two ranks the higher one gets the higher report, except when the lower one's sample is a linear one
      above 65536 and the higher one's lies in the octave from there. */
  lemma RanksInOrder(ss: seq<Word>, k: nat, k': nat, r: nat, r': nat)
    requires 1 <= k <= k' <= |ss| == |Sorted(ss)|
    requires StandsFor(r, Sorted(ss)[k - 1]) && StandsFor(r', Sorted(ss)[k' - 1])
    ensures r <= r' <==> !(65536 < Sorted(ss)[k - 1] < LINEAR_MAX <= Sorted(ss)[k' - 1] < 131072)
  {
    hide StandsFor, Sorted, LINEAR_MAX;
    AscendingRanks(Sorted(ss), k - 1, k' - 1);
    ReportsInOrder(Sorted(ss)[k - 1], Sorted(ss)[k' - 1], r, r');
  }

  /** What one more sample does to the counts. */
  lemma OneMore(ss: seq<Word>, ns: Word)
    ensures forall i :: Equal(ss + [ns], i) == Equal(ss, i) + (if ns == i then 1 else 0)
    ensures forall b ::
      InOctave(ss + [ns], b) == InOctave(ss, b) + (if LINEAR_MAX <= ns && Octave(ns, 0) == b then 1 else 0)
    ensures Largest(ss + [ns]) == if ns > Largest(ss) then ns else Largest(ss)
    ensures Sum(ss + [ns]) == Sum(ss) + ns
  {
    assert (ss + [ns])[..|ss|] == ss;
  }

  class LatencyHistogram {
    const linear: array<nat>
    const log: array<nat>
    var total: nat
    var max: Word
    var sumNs: Word
    ghost var samples: seq<Word>

    ghost predicate Valid()
      reads this, linear, log
    {
      && linear != log && linear.Length == LINEAR_MAX && log.Length == LOG_BUCKETS
      && (forall i :: 0 <= i < LINEAR_MAX ==> linear[i] == Equal(samples, i))
      && (forall b :: 0 <= b < LOG_BUCKETS ==> log[b] == InOctave(samples, b))
      && total == |samples|
      && max == Largest(samples)
      && sumNs == Wrap64(Sum(samples))
    }

    constructor ()
      ensures Valid() && fresh(linear) && fresh(log) && samples == []
    {
      linear := new nat[LINEAR_MAX](_ => 0);
      log := new nat[LOG_BUCKETS](_ => 0);
      total, max, sumNs := 0, 0, 0;
      samples := [];
    }

    method Record(ns: Word)
      requires Valid()
      modifies this, linear, log
      ensures Valid() && samples == old(samples) + [ns]
    {
      hide Equal, InOctave, Largest, Sum, Wrap64;
      OneMore(samples, ns);
      Wrap64Sum(Sum(samples), ns);
      if ns < LINEAR_MAX {
        linear[ns] := linear[ns] + 1;
      } else {
        var bucket, v := 0, ns;
        while v > 1 && bucket < LOG_BUCKETS - 1
          modifies {}
          invariant bucket < LOG_BUCKETS && Octave(ns, 0) == Octave(v, bucket)
          decreases v
        {
          v := v / 2;
          bucket := bucket + 1;
        }
        log[bucket] := log[bucket] + 1;
      }
      total := total + 1;
      if ns > max { max := ns; }
      sumNs := Wrap64(sumNs + ns);
      samples := samples + [ns];
    }

    /** The bucket counts add up to the number of samples. */
    lemma BucketsSumToTotal()
      requires Valid()
      ensures Sum(linear[..]) + Sum(log[..]) == total
    {
      BelowZero(samples);
      LinearPrefix(LINEAR_MAX);
      LogPrefix(LOG_BUCKETS);
      assert linear[..LINEAR_MAX] == linear[..] && log[..LOG_BUCKETS] == log[..];
      AllBuckets(samples);
    }

    lemma {:induction false} LinearPrefix(n: nat)
      requires Valid() && n <= LINEAR_MAX
      ensures Sum(linear[..n]) == Below(samples, n)
    {
      if n == 0 {
        BelowZero(samples);
      } else {
        LinearPrefix(n - 1);
        assert linear[..n][..n - 1] == linear[..n - 1];
        BelowNext(samples, n - 1);
      }
    }

    lemma {:induction false} LogPrefix(n: nat)
      requires Valid() && n <= LOG_BUCKETS
      ensures Sum(log[..n]) == OctavesBelow(samples, n)
    {
      if n == 0 {
        BelowZero(samples);
      } else {
        LogPrefix(n - 1);
        assert log[..n][..n - 1] == log[..n - 1];
        OctavesNext(samples, n - 1);
      }
    }

    /** The scan of percentile, for a rank already computed from total and p. */
    method Percentile(rank: Word) returns (r: nat)
      requires Valid()
      ensures samples == [] ==> r == 0
      ensures var k := if rank == 0 then 1 else rank;
        && (k <= |samples| ==> |Sorted(samples)| == |samples| && StandsFor(r, Sorted(samples)[k - 1]))
        && (samples != [] && k > |samples| ==> r == Largest(samples))
    {
      hide Equal, Below, InOctave, OctavesBelow, Sorted, StandsFor, Pow2;
      if total == 0 { return 0; }
      var threshold := if rank == 0 then 1 else rank;
      var running := 0;
      BelowZero(samples);
      for i := 0 to LINEAR_MAX
        invariant running == Below(samples, i) < threshold
      {
        running := running + linear[i];
        BelowNext(samples, i);
        if running >= threshold {
          InThisBucket(samples, threshold, i);
          return i;
        }
      }
      for b := 0 to LOG_BUCKETS
        invariant running == Below(samples, LINEAR_MAX) + OctavesBelow(samples, b) < threshold
      {
        running := running + log[b];
        OctavesNext(samples, b);
        AtMostAll(samples, b + 1);
        if running >= threshold {
          InThisOctave(samples, threshold, b);
          return Pow2(b);
        }
      }
      AllBuckets(samples);
      return max;
    }
  }

  lemma {:induction false} AtMostAll(ss: seq<Word>, b: nat)
    ensures Below(ss, LINEAR_MAX) + OctavesBelow(ss, b) <= |ss|
  {
    if ss != [] { AtMostAll(ss[..|ss| - 1], b); }
  }

  /** Rank k first reached by linear bucket i: the k-th smallest sample is i. */
  lemma InThisBucket(ss: seq<Word>, k: nat, i: nat)
    requires 1 <= k <= |ss| && i < LINEAR_MAX && Below(ss, i) < k <= Below(ss, i + 1)
    ensures |Sorted(ss)| == |ss| && StandsFor(i, Sorted(ss)[k - 1])
  {
    KthBelow(ss, k, i);
    KthBelow(ss, k, i + 1);
  }

  /** Rank k first reached by octave b: the k-th smallest sample lies in it. */
  lemma InThisOctave(ss: seq<Word>, k: nat, b: nat)
    requires 1 <= k <= |ss| && b < LOG_BUCKETS
    requires Below(ss, LINEAR_MAX) + OctavesBelow(ss, b) < k <= Below(ss, LINEAR_MAX) + OctavesBelow(ss, b + 1)
    ensures |Sorted(ss)| == |ss| && StandsFor(Pow2(b), Sorted(ss)[k - 1])
  {
    OctavesAreRanks(ss, b);
    KthBelow(ss, k, LINEAR_MAX);
    KthBelow(ss, k, Start(b));
    if b < LOG_BUCKETS - 1 {
      OctavesAreRanks(ss, b + 1);
      KthBelow(ss, k, Start(b + 1));
    }
  }

  lemma SortedPair(a: Word, b: Word)
    requires a < b
    ensures Sorted([a, b]) == [a, b]
  {
    hide Sorted, Placed;
    assert [] + [a] == [a] && [a] + [b] == [a, b];
    SortedStep([], a);
    SortedStep([a], b);
    SortedNone();
    PlacedBehind(a, b);
  }

  lemma SortedNone()
    ensures Sorted([]) == []
  {
  }

  lemma PlacedBehind(a: Word, b: Word)
    requires a < b
    ensures Placed(a, []) == [a] && Placed(b, [a]) == [a, b]
  {
    assert [a][1..] == [];
    assert Placed(b, [a]) == [a] + Placed(b, [a][1..]);
  }

  lemma SortedStep(ss: seq<Word>, x: Word)
    ensures Sorted(ss + [x]) == Placed(x, Sorted(ss))
  {
    hide Placed;
    assert (ss + [x])[..|ss|] == ss;
  }

  /** Two samples, 70000 and 110000: the report drops from the first rank to the second. */
  method ReportDrops() returns (first: nat, second: nat)
    ensures first == 70000 && second == 65536
  {
    hide Sorted, LatencyHistogram.Valid;
    var h := new LatencyHistogram();
    h.Record(70000);
    h.Record(110000);
    assert h.samples == [70000, 110000];
    SortedPair(70000, 110000);
    first := h.Percentile(1);
    second := h.Percentile(2);
    OctaveOf110000(second);
  }

  lemma OctaveOf110000(r: nat)
    requires StandsFor(r, 110000)
    ensures r == 65536
  {
    assert Pow2(16) == 65536 by { assert Pow2(8) == 256; }
    var b: nat :| b < LOG_BUCKETS && r == Pow2(b) && r <= 110000 && (b < LOG_BUCKETS - 1 ==> 110000 < 2 * r);
    if b < 16 { Pow2Mono(b, 15); } else { Pow2Mono(16, b); }
    if b > 16 { Pow2Mono(17, b); }
  }
}
