/** Where a title is watched more than around it: histogram, local baseline, hot runs. */
module Hotspots {
  import opened Sorting

  datatype Options = Options(
    binSeconds: real, windowBins: int, quantile: real, shortSeconds: real, longSeconds: real, leadInSeconds: real,
    minimumSamples: int, minimumViewers: int, maximumPerTitle: int, longRunBins: int,
    relativeExcess: real, minimumExcessSamples: int, minimumExcessFraction: real)
  {
    /** What `__post_init__` insists on. */
    predicate Valid()
    {
      && binSeconds > 0.0
      && windowBins >= 3 && windowBins % 2 == 1
      && 0.0 <= quantile < 1.0
      && 0.0 < shortSeconds <= longSeconds
      && leadInSeconds >= 0.0
      && minimumSamples >= 1 && minimumViewers >= 1 && maximumPerTitle >= 1 && longRunBins >= 1
      && relativeExcess > 0.0 && minimumExcessSamples >= 1 && 0.0 <= minimumExcessFraction < 1.0
    }
  }

  // ---- histogram ----

  predicate InFile(p: real, duration: real)
  {
    0.0 <= p <= duration
  }

  /** `p` lies in the half-open interval of bin `b`. */
  predicate InBin(p: real, size: real, b: int)
  {
    b as real * size <= p < (b + 1) as real * size
  }

  /** How many samples inside the file fall into bin `b`. */
  function Samples(positions: seq<real>, duration: real, size: real, b: int): nat
  {
    if positions == [] then 0
    else
      var p := positions[|positions| - 1];
      (if InFile(p, duration) && InBin(p, size, b) then 1 else 0) + Samples(positions[..|positions| - 1], duration, size, b)
  }

  function SamplesInFile(positions: seq<real>, duration: real): nat
  {
    if positions == [] then 0
    else (if InFile(positions[|positions| - 1], duration) then 1 else 0) + SamplesInFile(positions[..|positions| - 1], duration)
  }

  function Sum(counts: seq<int>): int
  {
    if counts == [] then 0 else counts[0] + Sum(counts[1..])
  }

  lemma {:induction false} SumUpdate(counts: seq<int>, k: nat, v: int)
    requires k < |counts|
    ensures Sum(counts[k := v]) == Sum(counts) - counts[k] + v
  {
    if k == 0 {
      assert counts[0 := v][1..] == counts[1..];
    } else {
      SumUpdate(counts[1..], k - 1, v);
      assert counts[k := v][1..] == counts[1..][k - 1 := v];
    }
  }

  lemma {:induction false} SumZeros(counts: seq<int>)
    requires forall i :: 0 <= i < |counts| ==> counts[i] == 0
    ensures Sum(counts) == 0
  {
    if counts != [] { SumZeros(counts[1..]); }
  }

  lemma Scale(a: real, b: real, size: real)
    requires size > 0.0
    ensures a <= b <==> a * size <= b * size
    ensures a < b <==> a * size < b * size
  {
  }

  /** Floor division finds the one bin whose interval holds `p`. */
  lemma FloorBin(p: real, size: real, b: int)
    requires size > 0.0
    ensures (p / size).Floor == b <==> InBin(p, size, b)
  {
    var q := p / size;
    assert q * size == p;
    Scale(b as real, q, size);
    Scale(q, (b + 1) as real, size);
    assert q.Floor == b <==> b as real <= q < (b + 1) as real;
  }

  lemma FloorOrder(p: real, d: real, size: real)
    requires size > 0.0 && 0.0 <= p <= d
    ensures 0 <= (p / size).Floor <= (d / size).Floor
  {
    assert p / size * size == p && d / size * size == d;
    Scale(p / size, d / size, size);
    Scale(0.0, p / size, size);
  }

  /** Sample number `i` counts in bin `b` if it is in the file and in the bin. */
  predicate CountsOne(positions: seq<real>, i: nat, duration: real, size: real, b: int)
    requires i < |positions|
  {
    Samples(positions[..i + 1], duration, size, b)
      == Samples(positions[..i], duration, size, b)
         + (if InFile(positions[i], duration) && InBin(positions[i], size, b) then 1 else 0)
  }

  lemma OneMoreSample(positions: seq<real>, i: nat, duration: real, size: real)
    requires i < |positions|
    ensures SamplesInFile(positions[..i + 1], duration)
         == SamplesInFile(positions[..i], duration) + (if InFile(positions[i], duration) then 1 else 0)
    ensures forall b :: CountsOne(positions, i, duration, size, b)
  {
    hide InFile, InBin;
    assert positions[..i + 1][..i] == positions[..i] && positions[..i + 1][i] == positions[i];
  }

  lemma NoSamples(duration: real, size: real)
    ensures SamplesInFile([], duration) == 0 && forall b :: Samples([], duration, size, b) == 0
  {
  }

  /** `watch_histogram`: every sample inside the file is counted once, in the bin it falls into. */
  method WatchHistogram(positions: seq<real>, duration: real, options: Options) returns (result: seq<int>)
    requires options.Valid()
    ensures duration <= 0.0 ==> result == []
    ensures duration > 0.0 ==>
      && |result| > 0 && InBin(duration, options.binSeconds, |result| - 1)
      && (forall b :: 0 <= b < |result| ==> result[b] == Samples(positions, duration, options.binSeconds, b))
      && Sum(result) == SamplesInFile(positions, duration)
  {
    hide Samples, SamplesInFile, Sum, InBin;
    if duration <= 0.0 { return []; }
    var size := options.binSeconds;
    FloorOrder(0.0, duration, size);
    var bins := if (duration / size).Floor + 1 > 1 then (duration / size).Floor + 1 else 1;
    FloorBin(duration, size, bins - 1);
    var counts := new int[bins](_ => 0);
    SumZeros(counts[..]);
    NoSamples(duration, size);
    for i := 0 to |positions|
      invariant forall b :: 0 <= b < bins ==> counts[b] == Samples(positions[..i], duration, size, b)
      invariant Sum(counts[..]) == SamplesInFile(positions[..i], duration)
    {
      var p := positions[i];
      OneMoreSample(positions, i, duration, size);
      if p < 0.0 || p > duration {
        forall b | 0 <= b < bins ensures counts[b] == Samples(positions[..i + 1], duration, size, b) {
          assert CountsOne(positions, i, duration, size, b);
        }
        continue;
      }
      FloorOrder(p, duration, size);
      var bin := if (p / size).Floor < bins - 1 then (p / size).Floor else bins - 1;
      forall b ensures InBin(p, size, b) <==> b == bin { FloorBin(p, size, b); }
      ghost var before := counts[..];
      SumUpdate(before, bin, before[bin] + 1);
      counts[bin] := counts[bin] + 1;
      assert counts[..] == before[bin := before[bin] + 1];
      forall b | 0 <= b < bins ensures counts[b] == Samples(positions[..i + 1], duration, size, b) {
        assert CountsOne(positions, i, duration, size, b);
        assert counts[b] == before[b] + (if b == bin then 1 else 0);
      }
    }
    assert positions[..|positions|] == positions;
    return counts[..];
  }

  // ---- baseline ----

  function CountBelow(w: seq<int>, v: int): nat
  {
    if w == [] then 0 else (if w[0] < v then 1 else 0) + CountBelow(w[1..], v)
  }

  function CountAtMost(w: seq<int>, v: int): nat
  {
    if w == [] then 0 else (if w[0] <= v then 1 else 0) + CountAtMost(w[1..], v)
  }

  /** `v` is the element of rank `k`, counting from 0: at most `k` are smaller, more than `k` are no larger. */
  ghost predicate OfRank(w: seq<int>, k: int, v: int)
  {
    v in w && CountBelow(w, v) <= k < CountAtMost(w, v)
  }

  function Window(counts: seq<int>, half: nat, i: nat): seq<int>
    requires i < |counts|
  {
    counts[if i < half then 0 else i - half..if i + half + 1 < |counts| then i + half + 1 else |counts|]
  }

  function QuantileRank(size: nat, quantile: real): int
  {
    var k := (size as real * quantile).Floor;
    if k < size - 1 then k else size - 1
  }

  ghost predicate IsBaseline(counts: seq<int>, windowBins: nat, quantile: real, baseline: seq<int>)
  {
    && |baseline| == |counts|
    && forall i :: 0 <= i < |counts| ==>
         var w := Window(counts, windowBins / 2, i);
         OfRank(w, QuantileRank(|w|, quantile), baseline[i])
  }

  predicate IntLe(a: int, b: int)
  {
    a <= b
  }

  lemma {:induction false} CountsPermute(w: seq<int>, u: seq<int>, v: int)
    requires multiset(w) == multiset(u)
    ensures CountBelow(w, v) == CountBelow(u, v) && CountAtMost(w, v) == CountAtMost(u, v)
  {
    SameElements(w, u);
    if w != [] {
      assert w[0] in u;
      var front, back := TakeOut(w[0], u);
      assert w == [w[0]] + w[1..];
      assert multiset(w[1..]) == multiset(w) - multiset{w[0]};
      CountsPermute(w[1..], front + back, v);
      CountsConcat(front + [w[0]], back, v);
      CountsConcat(front, [w[0]], v);
      CountsConcat(front, back, v);
      hide CountBelow, CountAtMost;
    }
  }

  lemma {:induction false} CountsConcat(a: seq<int>, b: seq<int>, v: int)
    ensures CountBelow(a + b, v) == CountBelow(a, v) + CountBelow(b, v)
    ensures CountAtMost(a + b, v) == CountAtMost(a, v) + CountAtMost(b, v)
  {
    if a == [] {
      assert a + b == b;
    } else {
      CountsConcat(a[1..], b, v);
      assert (a + b)[1..] == a[1..] + b;
    }
  }

  lemma {:induction false} CountBounds(w: seq<int>, v: int)
    ensures 0 <= CountBelow(w, v) <= CountAtMost(w, v) <= |w|
    ensures (forall i :: 0 <= i < |w| ==> w[i] >= v) ==> CountBelow(w, v) == 0
    ensures (forall i :: 0 <= i < |w| ==> w[i] <= v) ==> CountAtMost(w, v) == |w|
  {
    if w != [] { CountBounds(w[1..], v); }
  }

  lemma SortedAround(w: seq<int>, k: nat)
    requires k < |w| && Sorted(IntLe, w)
    ensures forall i :: 0 <= i < |w| ==> (i <= k ==> w[i] <= w[k]) && (i >= k ==> w[i] >= w[k])
  {
    forall i | 0 <= i < |w| ensures (i <= k ==> w[i] <= w[k]) && (i >= k ==> w[i] >= w[k]) {
      if i < k { assert IntLe(w[i], w[k]); } else if i > k { assert IntLe(w[k], w[i]); }
    }
  }

  lemma CountsSplit(w: seq<int>, k: nat, v: int)
    requires k <= |w|
    ensures CountBelow(w, v) == CountBelow(w[..k], v) + CountBelow(w[k..], v)
    ensures CountAtMost(w, v) == CountAtMost(w[..k], v) + CountAtMost(w[k..], v)
  {
    CountsConcat(w[..k], w[k..], v);
    assert w == w[..k] + w[k..];
  }

  /** In a sorted window the element at an index has that rank. */
  lemma SortedRank(w: seq<int>, k: nat)
    requires k < |w| && Sorted(IntLe, w)
    ensures OfRank(w, k, w[k])
  {
    hide CountBelow, CountAtMost, Sorted;
    var v := w[k];
    CountsSplit(w, k, v);
    CountsSplit(w, k + 1, v);
    SortedAround(w, k);
    CountBounds(w[..k], v);
    CountBounds(w[k..], v);
    CountBounds(w[..k + 1], v);
    CountBounds(w[k + 1..], v);
  }

  lemma RankInRange(size: nat, quantile: real)
    requires size > 0 && 0.0 <= quantile < 1.0
    ensures 0 <= QuantileRank(size, quantile) < size
  {
  }

  lemma SortedWindow(w: seq<int>, quantile: real)
    requires w != [] && 0.0 <= quantile < 1.0
    ensures 0 <= QuantileRank(|w|, quantile) < |Sort(IntLe, w)|
    ensures OfRank(w, QuantileRank(|w|, quantile), Sort(IntLe, w)[QuantileRank(|w|, quantile)])
  {
    hide Sort, OfRank, QuantileRank, CountBelow, CountAtMost;
    var sorted, k := Sort(IntLe, w), QuantileRank(|w|, quantile);
    RankInRange(|w|, quantile);
    SortPermutes(IntLe, w);
    SortSorted(IntLe, w);
    SortedRank(sorted, k);
    RankPermutes(sorted, w, k, sorted[k]);
  }

  lemma RankPermutes(w: seq<int>, u: seq<int>, k: int, v: int)
    requires multiset(w) == multiset(u) && OfRank(w, k, v)
    ensures OfRank(u, k, v)
  {
    SameElements(w, u);
    CountsPermute(w, u, v);
  }

  // ---- the baseline, by what it means ----

  /** Bin `j` is at most half a window away from bin `i`. */
  predicate Near(windowBins: nat, i: int, j: int)
  {
    2 * (j - i) <= windowBins && 2 * (i - j) <= windowBins
  }

  /** `counts[a..b]` are the bins near bin `i`. */
  predicate Around(counts: seq<int>, windowBins: nat, i: nat, a: nat, b: nat)
  {
    a <= b <= |counts| && forall j :: 0 <= j < |counts| ==> (a <= j < b <==> Near(windowBins, i, j))
  }

  /** The rank with a fraction of `quantile` of the window before it. */
  predicate RankAt(size: int, quantile: real, k: nat)
  {
    k as real <= quantile * size as real < (k + 1) as real
  }

  /** The value of that rank among the bins near bin `i`. */
  ghost predicate LowQuantile(counts: seq<int>, windowBins: nat, quantile: real, i: nat, v: int)
  {
    exists a: nat, b: nat, k: nat ::
      Around(counts, windowBins, i, a, b) && RankAt(b - a, quantile, k) && OfRank(counts[a..b], k, v)
  }

  lemma WindowIsAround(counts: seq<int>, windowBins: nat, i: nat) returns (a: nat, b: nat)
    requires i < |counts|
    ensures a < b <= |counts| && Around(counts, windowBins, i, a, b) && Window(counts, windowBins / 2, i) == counts[a..b]
  {
    var half := windowBins / 2;
    a := if i < half then 0 else i - half;
    b := if i + half + 1 < |counts| then i + half + 1 else |counts|;
    forall j | 0 <= j < |counts| ensures a <= j < b <==> Near(windowBins, i, j) { HalfAway(windowBins, i, j); }
    hide Near;
  }

  lemma HalfAway(windowBins: nat, i: nat, j: nat)
    ensures Near(windowBins, i, j) <==> i - windowBins / 2 <= j <= i + windowBins / 2
  {
  }

  lemma QuantileRankIs(size: nat, quantile: real)
    requires size > 0 && 0.0 <= quantile < 1.0
    ensures QuantileRank(size, quantile) >= 0 && RankAt(size, quantile, QuantileRank(size, quantile))
  {
    var x := size as real * quantile;
    assert x < size as real && x >= 0.0;
    assert x.Floor as real <= x < (x.Floor + 1) as real;
  }

  lemma RankAtUnique(size: int, quantile: real, k: nat, l: nat)
    requires RankAt(size, quantile, k) && RankAt(size, quantile, l)
    ensures k == l
  {
    var x := quantile * size as real;
    assert k as real <= x < (k + 1) as real && l as real <= x < (l + 1) as real;
  }

  lemma BaselineIsLowQuantile(counts: seq<int>, windowBins: nat, quantile: real, baseline: seq<int>, i: nat)
    requires 0.0 <= quantile < 1.0 && IsBaseline(counts, windowBins, quantile, baseline) && i < |counts|
    ensures |baseline| == |counts| && LowQuantile(counts, windowBins, quantile, i, baseline[i])
  {
    hide OfRank, Window, QuantileRank, Around, RankAt;
    var a, b := WindowIsAround(counts, windowBins, i);
    assert Window(counts, windowBins / 2, i) == counts[a..b] && |counts[a..b]| == b - a;
    QuantileRankIs(b - a, quantile);
    hide LowQuantile;
    OneLowQuantile(counts, windowBins, quantile, i, a, b, QuantileRank(b - a, quantile), baseline[i]);
  }

  lemma OneLowQuantile(counts: seq<int>, windowBins: nat, quantile: real, i: nat, a: nat, b: nat, k: nat, v: int)
    requires a <= b <= |counts| && Around(counts, windowBins, i, a, b) && RankAt(b - a, quantile, k) && OfRank(counts[a..b], k, v)
    ensures LowQuantile(counts, windowBins, quantile, i, v)
  {
    hide OfRank, Around, RankAt;
  }

  lemma AroundUnique(counts: seq<int>, windowBins: nat, i: nat, a: nat, b: nat, c: nat, d: nat)
    requires i < |counts| && Around(counts, windowBins, i, a, b) && Around(counts, windowBins, i, c, d)
    ensures a == c && b == d
  {
    assert Near(windowBins, i, i);
    hide Near;
    assert a <= i < b && c <= i < d;
    assert Near(windowBins, i, a) && Near(windowBins, i, b - 1) && Near(windowBins, i, c) && Near(windowBins, i, d - 1);
  }

  /** Which is one value. */
  lemma LowQuantileUnique(counts: seq<int>, windowBins: nat, quantile: real, i: nat, u: int, v: int)
    requires i < |counts| && LowQuantile(counts, windowBins, quantile, i, u) && LowQuantile(counts, windowBins, quantile, i, v)
    ensures u == v
  {
    hide OfRank, RankAt, Near;
    var a: nat, b: nat, k: nat :|
      Around(counts, windowBins, i, a, b) && RankAt(b - a, quantile, k) && OfRank(counts[a..b], k, u);
    var c: nat, d: nat, l: nat :|
      Around(counts, windowBins, i, c, d) && RankAt(d - c, quantile, l) && OfRank(counts[c..d], l, v);
    AroundUnique(counts, windowBins, i, a, b, c, d);
    RankAtUnique(b - a, quantile, k, l);
    RankUnique(counts[a..b], k, u, v);
  }

  /** `local_baseline`. */
  method LocalBaseline(counts: seq<int>, windowBins: nat, quantile: real) returns (baseline: seq<int>)
    requires 0.0 <= quantile < 1.0
    ensures IsBaseline(counts, windowBins, quantile, baseline)
    ensures |baseline| == |counts| && forall i :: 0 <= i < |counts| ==> LowQuantile(counts, windowBins, quantile, i, baseline[i])
  {
    baseline := [];
    var half := windowBins / 2;
    for i := 0 to |counts|
      invariant |baseline| == i
      invariant forall j :: 0 <= j < i ==>
        var w := Window(counts, half, j);
        OfRank(w, QuantileRank(|w|, quantile), baseline[j])
    {
      hide OfRank, Sort, QuantileRank;
      var window := Window(counts, half, i);
      SortedWindow(window, quantile);
      baseline := baseline + [Sort(IntLe, window)[QuantileRank(|window|, quantile)]];
    }
    assert IsBaseline(counts, windowBins, quantile, baseline);
    hide IsBaseline, LowQuantile, OfRank, QuantileRank, Window;
    forall i | 0 <= i < |counts| ensures LowQuantile(counts, windowBins, quantile, i, baseline[i]) {
      BaselineIsLowQuantile(counts, windowBins, quantile, baseline, i);
    }
  }

  /** The rank pins the value down: a window has one element of each rank. */
  lemma RankUnique(w: seq<int>, k: int, u: int, v: int)
    requires OfRank(w, k, u) && OfRank(w, k, v)
    ensures u == v
  {
    if u < v { BelowCountsAtMost(w, u, v); }
    if v < u { BelowCountsAtMost(w, v, u); }
  }

  lemma {:induction false} BelowCountsAtMost(w: seq<int>, u: int, v: int)
    requires u < v
    ensures CountAtMost(w, u) <= CountBelow(w, v)
  {
    if w != [] { BelowCountsAtMost(w[1..], u, v); }
  }

  lemma {:induction false} CountAtMostGrows(w: seq<int>, u: int, v: int)
    requires u <= v
    ensures CountAtMost(w, u) <= CountAtMost(w, v)
  {
    if w != [] { CountAtMostGrows(w[1..], u, v); }
  }

  /** A spike cannot lift its own baseline: if more bins of the window than the rank are at most `v`,
      so is the baseline, whatever the other bins hold; and only then. */
  lemma BaselineIgnoresSpikes(counts: seq<int>, windowBins: nat, quantile: real, baseline: seq<int>, i: nat, v: int)
    requires 0.0 <= quantile < 1.0 && i < |counts| && IsBaseline(counts, windowBins, quantile, baseline)
    ensures
      var w := Window(counts, windowBins / 2, i);
      baseline[i] <= v <==> CountAtMost(w, v) > QuantileRank(|w|, quantile)
  {
    var w := Window(counts, windowBins / 2, i);
    var k := QuantileRank(|w|, quantile);
    assert OfRank(w, k, baseline[i]);
    if baseline[i] <= v {
      CountAtMostGrows(w, baseline[i], v);
    } else {
      BelowCountsAtMost(w, v, baseline[i]);
    }
  }

  // ---- a uniform lift cancels out ----

  function Lift(counts: seq<int>, c: int): (lifted: seq<int>)
    ensures |lifted| == |counts| && forall i :: 0 <= i < |counts| ==> lifted[i] == counts[i] + c
  {
    seq(|counts|, i requires 0 <= i < |counts| => counts[i] + c)
  }

  lemma {:induction false} CountsLift(w: seq<int>, v: int, c: int)
    ensures CountBelow(Lift(w, c), v + c) == CountBelow(w, v)
    ensures CountAtMost(Lift(w, c), v + c) == CountAtMost(w, v)
  {
    if w != [] {
      CountsLift(w[1..], v, c);
      assert Lift(w, c)[1..] == Lift(w[1..], c);
    }
  }

  lemma RankLift(w: seq<int>, k: int, v: int, c: int)
    requires OfRank(w, k, v)
    ensures OfRank(Lift(w, c), k, v + c)
  {
    CountsLift(w, v, c);
    var i :| 0 <= i < |w| && w[i] == v;
    assert Lift(w, c)[i] == v + c;
  }

  lemma WindowLifts(counts: seq<int>, half: nat, i: nat, c: int)
    requires i < |counts|
    ensures Window(Lift(counts, c), half, i) == Lift(Window(counts, half, i), c)
  {
  }

  /** Everybody starting at the beginning raises the baseline by as much as the bins. */
  lemma BaselineLifts(counts: seq<int>, windowBins: nat, quantile: real, baseline: seq<int>, lifted: seq<int>, c: int)
    requires IsBaseline(counts, windowBins, quantile, baseline)
    requires IsBaseline(Lift(counts, c), windowBins, quantile, lifted)
    ensures lifted == Lift(baseline, c)
  {
    hide OfRank, QuantileRank;
    forall i | 0 <= i < |counts| ensures lifted[i] == baseline[i] + c {
      var w := Window(counts, windowBins / 2, i);
      WindowLifts(counts, windowBins / 2, i, c);
      var k := QuantileRank(|w|, quantile);
      hide Window;
      assert OfRank(w, k, baseline[i]);
      assert OfRank(Lift(w, c), k, lifted[i]);
      hide IsBaseline;
      RankLift(w, k, baseline[i], c);
      RankUnique(Lift(w, c), k, lifted[i], baseline[i] + c);
    }
  }
}
