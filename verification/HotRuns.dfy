/** `find_hotspots`: one hotspot per maximal run of hot bins, strongest first. */
module HotRuns {

  import opened Optional
  import opened Sorting
  import opened Hotspots

  datatype Hotspot = Hotspot(position: real, excess: real, runBins: nat)

  datatype Span = Span(first: nat, end: nat)

  function Max(a: real, b: real): real
  {
    if b > a then b else a
  }

  function Times(count: int, factor: real): real
  {
    count as real * factor
  }

  function Excess(counts: seq<int>, baseline: seq<int>, i: nat): real
    requires |baseline| == |counts| && i < |counts|
  {
    counts[i] as real - baseline[i] as real
  }

  /** The bar a bin has to reach: an absolute floor that grows with the traffic, or its own baseline. */
  function Threshold(counts: seq<int>, baseline: seq<int>, options: Options, i: nat): real
    requires |baseline| == |counts| && i < |counts|
  {
    var floor := Max(options.minimumExcessSamples as real, Times(Sum(counts), options.minimumExcessFraction));
    Max(floor, Times(baseline[i], options.relativeExcess))
  }

  predicate Hot(counts: seq<int>, baseline: seq<int>, options: Options, i: nat)
    requires |baseline| == |counts| && i < |counts|
  {
    Excess(counts, baseline, i) >= Threshold(counts, baseline, options, i)
  }

  function HotBins(counts: seq<int>, baseline: seq<int>, options: Options): (hot: seq<bool>)
    requires |baseline| == |counts|
    ensures |hot| == |counts| && forall i :: 0 <= i < |counts| ==> hot[i] == Hot(counts, baseline, options, i)
  {
    seq(|counts|, i requires 0 <= i < |counts| => Hot(counts, baseline, options, i))
  }

  // ---- maximal runs ----

  ghost predicate AllHot(hot: seq<bool>, first: int, end: int)
  {
    0 <= first <= end <= |hot| && forall i :: first <= i < end ==> hot[i]
  }

  ghost predicate IsRun(hot: seq<bool>, run: Span)
  {
    && run.first < run.end && AllHot(hot, run.first, run.end)
    && (run.first == 0 || !hot[run.first - 1])
    && (run.end == |hot| || !hot[run.end])
  }

  ghost predicate InOrder(runs: seq<Span>)
  {
    forall i, j :: 0 <= i < j < |runs| ==> runs[i].end < runs[j].first
  }

  /** All the maximal runs, left to right. */
  ghost predicate RunsOf(hot: seq<bool>, runs: seq<Span>)
  {
    && InOrder(runs)
    && (forall k :: 0 <= k < |runs| ==> IsRun(hot, runs[k]))
    && (forall run :: IsRun(hot, run) ==> run in runs)
  }

  function Width(runs: seq<Span>): int
  {
    if runs == [] then 0 else Width(runs[..|runs| - 1]) + runs[|runs| - 1].end - runs[|runs| - 1].first
  }

  function CountHot(hot: seq<bool>, end: nat): nat
    requires end <= |hot|
  {
    if end == 0 then 0 else CountHot(hot, end - 1) + (if hot[end - 1] then 1 else 0)
  }

  lemma {:induction false} CountHotSpan(hot: seq<bool>, first: nat, end: nat)
    requires AllHot(hot, first, end)
    ensures CountHot(hot, end) == CountHot(hot, first) + end - first
    decreases end
  {
    if first < end { CountHotSpan(hot, first, end - 1); }
  }

  lemma {:induction false} CountColdSpan(hot: seq<bool>, first: nat, end: nat)
    requires first <= end <= |hot| && forall i :: first <= i < end ==> !hot[i]
    ensures CountHot(hot, end) == CountHot(hot, first)
    decreases end
  {
    if first < end { CountColdSpan(hot, first, end - 1); }
  }

  /** Every hot bin lies in a maximal run. */
  lemma RunAround(hot: seq<bool>, i: nat) returns (run: Span)
    requires i < |hot| && hot[i]
    ensures IsRun(hot, run) && run.first <= i < run.end
  {
    var first, end := i, i + 1;
    while first > 0 && hot[first - 1]
      invariant 0 <= first <= i && AllHot(hot, first, i + 1)
    {
      first := first - 1;
    }
    while end < |hot| && hot[end]
      invariant i < end <= |hot| && AllHot(hot, first, end)
    {
      end := end + 1;
    }
    run := Span(first, end);
  }

  lemma HotIsCovered(hot: seq<bool>, runs: seq<Span>, i: nat)
    requires RunsOf(hot, runs) && i < |hot| && hot[i]
    ensures exists j :: 0 <= j < |runs| && runs[j].first <= i < runs[j].end
  {
    var run := RunAround(hot, i);
    assert run in runs;
  }

  /** Between two neighbouring runs, before the first and behind the last, every bin is cold. */
  lemma ColdBetween(hot: seq<bool>, runs: seq<Span>, k: nat, i: nat)
    requires RunsOf(hot, runs) && k <= |runs| && i < |hot|
    requires k > 0 ==> runs[k - 1].end <= i
    requires k < |runs| ==> i < runs[k].first
    ensures !hot[i]
  {
    forall j | 0 <= j < |runs| ensures !(runs[j].first <= i < runs[j].end) {
      assert k > 0 && j < k - 1 ==> runs[j].end < runs[k - 1].first;
      assert k < |runs| && k < j ==> runs[k].end < runs[j].first;
    }
    if hot[i] { HotIsCovered(hot, runs, i); }
  }

  lemma WidthOneMore(runs: seq<Span>, n: nat)
    requires 0 < n <= |runs|
    ensures Width(runs[..n]) == Width(runs[..n - 1]) + runs[n - 1].end - runs[n - 1].first
  {
    assert runs[..n][..n - 1] == runs[..n - 1];
  }

  lemma RunFits(hot: seq<bool>, runs: seq<Span>, n: nat)
    requires RunsOf(hot, runs) && 0 < n <= |runs|
    ensures
      var from, run := if n == 1 then 0 else runs[n - 2].end, runs[n - 1];
      from <= run.first <= run.end <= |hot| && AllHot(hot, run.first, run.end)
  {
  }

  /** Up to the end of a run its bins are all the hot ones since the run before. */
  lemma HotThroughRun(hot: seq<bool>, runs: seq<Span>, n: nat)
    requires RunsOf(hot, runs) && 0 < n <= |runs|
    ensures
      var from, run := if n == 1 then 0 else runs[n - 2].end, runs[n - 1];
      from <= |hot| && run.end <= |hot| && CountHot(hot, run.end) == CountHot(hot, from) + run.end - run.first
  {
    hide CountHot, RunsOf, AllHot;
    var from, run := if n == 1 then 0 else runs[n - 2].end, runs[n - 1];
    RunFits(hot, runs, n);
    forall i | from <= i < run.first ensures !hot[i] { ColdBetween(hot, runs, n - 1, i); }
    CountColdSpan(hot, from, run.first);
    CountHotSpan(hot, run.first, run.end);
  }

  lemma {:induction false} WidthsUpTo(hot: seq<bool>, runs: seq<Span>, n: nat)
    requires RunsOf(hot, runs) && n <= |runs|
    ensures n > 0 ==> runs[n - 1].end <= |hot|
    ensures Width(runs[..n]) == CountHot(hot, if n == 0 then 0 else runs[n - 1].end)
    decreases n
  {
    hide RunsOf;
    if n > 0 {
      WidthsUpTo(hot, runs, n - 1);
      HotThroughRun(hot, runs, n);
      WidthOneMore(runs, n);
      hide CountHot, Width;
    }
  }

  /** The widths of the runs account for every hot bin. */
  lemma WidthsAreHotBins(hot: seq<bool>, runs: seq<Span>)
    requires RunsOf(hot, runs)
    ensures Width(runs) == CountHot(hot, |hot|)
  {
    WidthsUpTo(hot, runs, |runs|);
    var from := if runs == [] then 0 else runs[|runs| - 1].end;
    forall i | from <= i < |hot| ensures !hot[i] { ColdBetween(hot, runs, |runs|, i); }
    CountColdSpan(hot, from, |hot|);
    assert runs[..|runs|] == runs;
  }

  predicate SpanLe(a: Span, b: Span)
  {
    a.first <= b.first
  }

  lemma RunsSorted(hot: seq<bool>, runs: seq<Span>)
    requires RunsOf(hot, runs)
    ensures Sorted(SpanLe, runs) && Distinct(runs)
    ensures forall run :: run in runs <==> IsRun(hot, run)
  {
  }

  lemma RunsFromStart(hot: seq<bool>, a: Span, b: Span)
    requires IsRun(hot, a) && IsRun(hot, b) && a.first == b.first
    ensures a == b
  {
  }

  /** The runs are determined by the hot bins. */
  lemma RunsUnique(hot: seq<bool>, runs: seq<Span>, others: seq<Span>)
    requires RunsOf(hot, runs) && RunsOf(hot, others)
    ensures runs == others
  {
    RunsSorted(hot, runs);
    RunsSorted(hot, others);
    hide IsRun, RunsOf, Distinct;
    assert forall run :: run in runs <==> run in others;
    SameDistinct(runs, others);
    forall a, b | a in runs && b in runs && SpanLe(a, b) && SpanLe(b, a) ensures a == b { RunsFromStart(hot, a, b); }
    SortedUnique(SpanLe, runs, others);
  }

  // ---- the strongest bin of a run ----

  /** `max(run, key=...)`: the first of the largest. */
  function Peak(counts: seq<int>, baseline: seq<int>, run: Span): (peak: nat)
    requires |baseline| == |counts| && run.first < run.end <= |counts|
    ensures run.first <= peak < run.end
    ensures forall i :: run.first <= i < run.end ==> Excess(counts, baseline, i) <= Excess(counts, baseline, peak)
    ensures forall i :: run.first <= i < peak ==> Excess(counts, baseline, i) < Excess(counts, baseline, peak)
    decreases run.end
  {
    if run.first + 1 == run.end then run.first
    else
      var earlier := Peak(counts, baseline, Span(run.first, run.end - 1));
      if Excess(counts, baseline, run.end - 1) > Excess(counts, baseline, earlier) then run.end - 1 else earlier
  }

  function SpotOf(counts: seq<int>, baseline: seq<int>, options: Options, run: Span): Hotspot
    requires |baseline| == |counts| && run.first < run.end <= |counts|
  {
    var peak := Peak(counts, baseline, run);
    Hotspot(peak as real * options.binSeconds, Excess(counts, baseline, peak), run.end - run.first)
  }

  predicate SpotLe(a: Hotspot, b: Hotspot)
  {
    a.excess > b.excess || (a.excess == b.excess && a.position <= b.position)
  }

  ghost predicate StrictlyRanked(spots: seq<Hotspot>)
  {
    forall i, j :: 0 <= i < j < |spots| ==>
      spots[i].excess > spots[j].excess || (spots[i].excess == spots[j].excess && spots[i].position < spots[j].position)
  }

  ghost predicate SpotsOf(counts: seq<int>, baseline: seq<int>, options: Options, runs: seq<Span>, spots: seq<Hotspot>)
    requires |baseline| == |counts|
  {
    && |spots| == |runs|
    && forall k :: 0 <= k < |runs| ==>
         runs[k].first < runs[k].end <= |counts| && spots[k] == SpotOf(counts, baseline, options, runs[k])
  }

  lemma PeaksAscend(counts: seq<int>, baseline: seq<int>, options: Options, a: Span, b: Span)
    requires |baseline| == |counts| && options.Valid()
    requires a.first < a.end < b.first < b.end <= |counts|
    ensures SpotOf(counts, baseline, options, a).position < SpotOf(counts, baseline, options, b).position
  {
    hide Excess, Peak;
    var p, q := Peak(counts, baseline, a), Peak(counts, baseline, b);
    Scale(p as real, q as real, options.binSeconds);
  }

  /** Peaks of different runs are different bins, so no two hotspots tie completely. */
  lemma PositionsAscend(counts: seq<int>, baseline: seq<int>, options: Options, runs: seq<Span>, spots: seq<Hotspot>)
    requires |baseline| == |counts| && options.Valid() && InOrder(runs) && SpotsOf(counts, baseline, options, runs, spots)
    ensures forall i, j :: 0 <= i < j < |spots| ==> spots[i].position < spots[j].position
  {
    hide SpotOf;
    forall i, j | 0 <= i < j < |spots| ensures spots[i].position < spots[j].position {
      PeaksAscend(counts, baseline, options, runs[i], runs[j]);
    }
  }

  lemma SpotsExtend(counts: seq<int>, baseline: seq<int>, options: Options, runs: seq<Span>, spots: seq<Hotspot>, run: Span)
    requires |baseline| == |counts| && SpotsOf(counts, baseline, options, runs, spots)
    requires run.first < run.end <= |counts|
    ensures SpotsOf(counts, baseline, options, runs + [run], spots + [SpotOf(counts, baseline, options, run)])
  {
  }

  lemma SpotOrder()
    ensures TotalPreorder(SpotLe)
  {
  }

  lemma RankedStrictly(found: seq<Hotspot>)
    requires forall i, j :: 0 <= i < j < |found| ==> found[i].position < found[j].position
    ensures StrictlyRanked(Sort(SpotLe, found)) && multiset(Sort(SpotLe, found)) == multiset(found)
  {
    hide TotalPreorder, Sort;
    var spots := Sort(SpotLe, found);
    SpotOrder();
    SortSorted(SpotLe, found);
    SortPermutes(SpotLe, found);
    assert Distinct(found);
    DistinctCounts(found);
    DistinctCounts(spots);
    hide Distinct;
    forall i, j | 0 <= i < j < |spots|
      ensures spots[i].excess > spots[j].excess || (spots[i].excess == spots[j].excess && spots[i].position < spots[j].position)
    {
      assert SpotLe(spots[i], spots[j]);
      DifferentPlaces(found, spots, i, j);
    }
  }

  lemma DifferentPlaces(found: seq<Hotspot>, spots: seq<Hotspot>, i: nat, j: nat)
    requires forall k, l :: 0 <= k < l < |found| ==> found[k].position < found[l].position
    requires Distinct(spots) && (forall x :: x in spots <==> x in found) && i < j < |spots|
    ensures spots[i].position != spots[j].position
  {
    assert spots[i] in found && spots[j] in found && spots[i] != spots[j];
    var k :| 0 <= k < |found| && found[k] == spots[i];
    var l :| 0 <= l < |found| && found[l] == spots[j];
    if k < l { assert found[k].position < found[l].position; } else { assert found[l].position < found[k].position; }
  }

  // ---- what a hotspot is, without the bar ----

  /** The bin stands out by at least each of three amounts: so many samples, that part of all samples, and that many
      times what is usual around it. */
  predicate StandsOut(counts: seq<int>, baseline: seq<int>, options: Options, i: nat)
    requires |baseline| == |counts| && i < |counts|
  {
    var above := (counts[i] - baseline[i]) as real;
    && options.minimumExcessSamples as real <= above
    && options.minimumExcessFraction * Sum(counts) as real <= above
    && options.relativeExcess * baseline[i] as real <= above
  }

  lemma HotIffStandsOut(counts: seq<int>, baseline: seq<int>, options: Options, i: nat)
    requires |baseline| == |counts| && i < |counts|
    ensures Hot(counts, baseline, options, i) <==> StandsOut(counts, baseline, options, i)
  {
    TimesIs(Sum(counts), options.minimumExcessFraction);
    TimesIs(baseline[i], options.relativeExcess);
    hide Sum, Times;
  }

  lemma TimesIs(count: int, factor: real)
    ensures Times(count, factor) == factor * count as real
  {
  }

  /** The bins of the runs are exactly those that stand out. */
  ghost predicate RunsStandOut(counts: seq<int>, baseline: seq<int>, options: Options, runs: seq<Span>)
    requires |baseline| == |counts|
  {
    forall i :: 0 <= i < |counts| ==>
      ((exists k :: 0 <= k < |runs| && runs[k].first <= i < runs[k].end) <==> StandsOut(counts, baseline, options, i))
  }

  lemma HotRunsStandOut(counts: seq<int>, baseline: seq<int>, options: Options, runs: seq<Span>)
    requires |baseline| == |counts| && RunsOf(HotBins(counts, baseline, options), runs)
    ensures RunsStandOut(counts, baseline, options, runs)
  {
    hide Hot, StandsOut, InOrder, RunsOf;
    var hot := HotBins(counts, baseline, options);
    forall i | 0 <= i < |counts|
      ensures (exists k :: 0 <= k < |runs| && runs[k].first <= i < runs[k].end) <==> StandsOut(counts, baseline, options, i)
    {
      HotIffStandsOut(counts, baseline, options, i);
      if hot[i] { HotIsCovered(hot, runs, i); }
      if k :| 0 <= k < |runs| && runs[k].first <= i < runs[k].end { RunIsHot(hot, runs, k, i); }
    }
  }

  lemma RunIsHot(hot: seq<bool>, runs: seq<Span>, k: nat, i: nat)
    requires RunsOf(hot, runs) && k < |runs| && runs[k].first <= i < runs[k].end
    ensures i < |hot| && hot[i]
  {
  }

  /** The hotspot of a run: its first bin that is furthest above its surroundings, by how much, and the width of the run. */
  ghost predicate SpotIs(counts: seq<int>, baseline: seq<int>, options: Options, run: Span, spot: Hotspot)
    requires |baseline| == |counts|
  {
    exists peak: nat :: run.first <= peak < run.end <= |counts|
      && FirstHighest(counts, baseline, run, peak) && SpotAt(counts, baseline, options, run, peak, spot)
  }

  predicate SpotAt(counts: seq<int>, baseline: seq<int>, options: Options, run: Span, peak: nat, spot: Hotspot)
    requires |baseline| == |counts| && run.first <= peak < run.end <= |counts|
  {
    && spot.position == peak as real * options.binSeconds
    && spot.excess == (counts[peak] - baseline[peak]) as real
    && run.first + spot.runBins == run.end
  }

  ghost predicate FirstHighest(counts: seq<int>, baseline: seq<int>, run: Span, peak: nat)
    requires |baseline| == |counts| && run.first <= peak < run.end <= |counts|
  {
    && (forall i :: run.first <= i < run.end ==> counts[i] - baseline[i] <= counts[peak] - baseline[peak])
    && (forall i :: run.first <= i < peak ==> counts[i] - baseline[i] < counts[peak] - baseline[peak])
  }

  ghost predicate SpotsAre(counts: seq<int>, baseline: seq<int>, options: Options, runs: seq<Span>, spots: seq<Hotspot>)
    requires |baseline| == |counts|
  {
    |spots| == |runs| && forall k :: 0 <= k < |runs| ==> SpotIs(counts, baseline, options, runs[k], spots[k])
  }

  lemma SpotOfIs(counts: seq<int>, baseline: seq<int>, options: Options, run: Span)
    requires |baseline| == |counts| && run.first < run.end <= |counts|
    ensures SpotIs(counts, baseline, options, run, SpotOf(counts, baseline, options, run))
  {
    hide Peak, FirstHighest, SpotAt, SpotOf;
    PeakIsFirstHighest(counts, baseline, run);
    PeakSpot(counts, baseline, options, run);
  }

  lemma PeakSpot(counts: seq<int>, baseline: seq<int>, options: Options, run: Span)
    requires |baseline| == |counts| && run.first < run.end <= |counts|
    ensures SpotAt(counts, baseline, options, run, Peak(counts, baseline, run), SpotOf(counts, baseline, options, run))
  {
    hide Peak;
    ExcessIs(counts, baseline, Peak(counts, baseline, run));
  }

  lemma ExcessIs(counts: seq<int>, baseline: seq<int>, i: nat)
    requires |baseline| == |counts| && i < |counts|
    ensures Excess(counts, baseline, i) == (counts[i] - baseline[i]) as real
  {
  }

  lemma PeakIsFirstHighest(counts: seq<int>, baseline: seq<int>, run: Span)
    requires |baseline| == |counts| && run.first < run.end <= |counts|
    ensures FirstHighest(counts, baseline, run, Peak(counts, baseline, run))
  {
    hide Excess;
    var peak := Peak(counts, baseline, run);
    ExcessIs(counts, baseline, peak);
    forall i | run.first <= i < run.end
      ensures counts[i] - baseline[i] <= counts[peak] - baseline[peak]
      ensures i < peak ==> counts[i] - baseline[i] < counts[peak] - baseline[peak]
    {
      ExcessIs(counts, baseline, i);
      assert Excess(counts, baseline, i) <= Excess(counts, baseline, peak);
    }
  }

  lemma SpotsOfAre(counts: seq<int>, baseline: seq<int>, options: Options, runs: seq<Span>, spots: seq<Hotspot>)
    requires |baseline| == |counts| && SpotsOf(counts, baseline, options, runs, spots)
    ensures SpotsAre(counts, baseline, options, runs, spots)
  {
    hide SpotIs, SpotOf;
    forall k | 0 <= k < |runs| ensures SpotIs(counts, baseline, options, runs[k], spots[k]) {
      SpotOfIs(counts, baseline, options, runs[k]);
    }
  }

  // ---- the scan ----

  /** `runs` are the maximal runs that end before `index`. */
  ghost predicate Scanned(hot: seq<bool>, runs: seq<Span>, index: int)
  {
    && InOrder(runs)
    && (forall k :: 0 <= k < |runs| ==> IsRun(hot, runs[k]) && runs[k].end < index)
    && (forall run :: IsRun(hot, run) && run.end < index ==> run in runs)
  }

  /** A run has been entered and not left. */
  ghost predicate Open(hot: seq<bool>, runs: seq<Span>, first: nat, index: int)
  {
    && first < index <= |hot| && AllHot(hot, first, index)
    && (first == 0 || !hot[first - 1])
    && forall k :: 0 <= k < |runs| ==> runs[k].end < first
  }

  lemma ScanHot(hot: seq<bool>, runs: seq<Span>, index: nat)
    requires Scanned(hot, runs, index) && index < |hot| && hot[index]
    ensures Scanned(hot, runs, index + 1)
  {
  }

  lemma ScanCold(hot: seq<bool>, runs: seq<Span>, index: nat)
    requires Scanned(hot, runs, index) && index <= |hot| && (index == 0 || !hot[index - 1])
    ensures Scanned(hot, runs, index + 1)
  {
  }

  lemma ScanClose(hot: seq<bool>, runs: seq<Span>, first: nat, index: nat)
    requires Scanned(hot, runs, index) && Open(hot, runs, first, index)
    requires index == |hot| || !hot[index]
    ensures first < index <= |hot| && Scanned(hot, runs + [Span(first, index)], index + 1)
  {
  }

  lemma ScanOpens(hot: seq<bool>, runs: seq<Span>, index: nat)
    requires Scanned(hot, runs, index) && index < |hot| && hot[index] && (index == 0 || !hot[index - 1])
    ensures Open(hot, runs, index, index + 1)
  {
  }

  lemma OpenGrows(hot: seq<bool>, runs: seq<Span>, first: nat, index: nat)
    requires Open(hot, runs, first, index) && index < |hot| && hot[index]
    ensures Open(hot, runs, first, index + 1)
  {
  }

  lemma ScanStarts(hot: seq<bool>, counts: seq<int>, baseline: seq<int>, options: Options)
    requires |baseline| == |counts|
    ensures Scanned(hot, [], 0) && SpotsOf(counts, baseline, options, [], [])
  {
  }

  lemma BaselineLength(counts: seq<int>, options: Options, baseline: seq<int>)
    requires options.Valid() && IsBaseline(counts, options.windowBins, options.quantile, baseline)
    ensures |baseline| == |counts|
  {
  }

  lemma ScanDone(hot: seq<bool>, runs: seq<Span>)
    requires Scanned(hot, runs, |hot| + 1)
    ensures RunsOf(hot, runs) && InOrder(runs)
  {
  }

  /** `find_hotspots`. The hotspots are the maximal hot runs, each with its first strongest bin, ranked. */
  method FindHotspots(counts: seq<int>, options: Options)
    returns (spots: seq<Hotspot>, ghost baseline: seq<int>, ghost runs: seq<Span>, ghost found: seq<Hotspot>)
    requires options.Valid()
    ensures IsBaseline(counts, options.windowBins, options.quantile, baseline)
    ensures |baseline| == |counts|
      && forall i :: 0 <= i < |counts| ==> LowQuantile(counts, options.windowBins, options.quantile, i, baseline[i])
    ensures RunsOf(HotBins(counts, baseline, options), runs)
    ensures RunsStandOut(counts, baseline, options, runs)
    ensures forall k, l :: 0 <= k < l < |runs| ==> runs[k].end < runs[l].first
    ensures SpotsOf(counts, baseline, options, runs, found)
    ensures SpotsAre(counts, baseline, options, runs, found)
    ensures multiset(spots) == multiset(found) && StrictlyRanked(spots)
  {
    hide Hot, IsBaseline, LowQuantile, IsRun, RunsOf, RunsStandOut, SpotOf, SpotsOf, SpotsAre, Scanned, Open, StrictlyRanked, Sort;
    var base := LocalBaseline(counts, options.windowBins, options.quantile);
    baseline := base;
    BaselineLength(counts, options, base);
    ghost var hot := HotBins(counts, base, options);
    var spotted: seq<Hotspot> := [];
    var runStart: Option<nat> := None;
    runs := [];
    ScanStarts(hot, counts, base, options);
    for index := 0 to |counts| + 1
      invariant Scanned(hot, runs, index)
      invariant runStart.None? ==> index == 0 || index == |counts| + 1 || !hot[index - 1]
      invariant runStart.Some? ==> Open(hot, runs, runStart.value, index)
      invariant SpotsOf(counts, base, options, runs, spotted)
    {
      if index < |counts| && Hot(counts, base, options, index) {
        ScanHot(hot, runs, index);
        if runStart.None? {
          ScanOpens(hot, runs, index);
        } else {
          OpenGrows(hot, runs, runStart.value, index);
        }
        runStart := if runStart.None? then Some(index) else runStart;
        continue;
      }
      if runStart.None? {
        ScanCold(hot, runs, index);
        continue;
      }
      var run := Span(runStart.value, index);
      ScanClose(hot, runs, run.first, index);
      SpotsExtend(counts, base, options, runs, spotted, run);
      spotted := spotted + [SpotOf(counts, base, options, run)];
      runs := runs + [run];
      runStart := None;
    }
    ScanDone(hot, runs);
    PositionsAscend(counts, base, options, runs, spotted);
    RankedStrictly(spotted);
    HotRunsStandOut(counts, base, options, runs);
    SpotsOfAre(counts, base, options, runs, spotted);
    return Sort(SpotLe, spotted), base, runs, spotted;
  }

  // ---- lifting everything ----

  lemma TimesMore(a: int, b: int, factor: real)
    requires a <= b && factor >= 0.0
    ensures Times(a, factor) <= Times(b, factor)
  {
  }

  lemma MaxMore(m: real, a: real, a': real, b: real, b': real)
    requires a <= a' && b <= b'
    ensures Max(Max(m, a), b) <= Max(Max(m, a'), b')
  {
  }

  lemma ThresholdLifts(counts: seq<int>, options: Options, baseline: seq<int>, c: nat, i: nat)
    requires options.Valid() && |baseline| == |counts| && i < |counts|
    ensures Threshold(Lift(counts, c), Lift(baseline, c), options, i) >= Threshold(counts, baseline, options, i)
  {
    SumLift(counts, c);
    hide Sum, Max, Times;
    var lifted := Lift(baseline, c);
    TimesMore(Sum(counts), Sum(Lift(counts, c)), options.minimumExcessFraction);
    TimesMore(baseline[i], lifted[i], options.relativeExcess);
    MaxMore(options.minimumExcessSamples as real,
            Times(Sum(counts), options.minimumExcessFraction), Times(Sum(Lift(counts, c)), options.minimumExcessFraction),
            Times(baseline[i], options.relativeExcess), Times(lifted[i], options.relativeExcess));
  }

  /** The universal front-loading cancels out: watching that is higher everywhere by the same amount
      makes no cold bin hot. */
  lemma LiftNeverHeats(counts: seq<int>, options: Options, baseline: seq<int>, lifted: seq<int>, c: nat, i: nat)
    requires options.Valid() && i < |counts|
    requires IsBaseline(counts, options.windowBins, options.quantile, baseline)
    requires IsBaseline(Lift(counts, c), options.windowBins, options.quantile, lifted)
    ensures Lift(counts, c)[i] - lifted[i] == counts[i] - baseline[i]
    ensures StandsOut(Lift(counts, c), lifted, options, i) ==> StandsOut(counts, baseline, options, i)
  {
    BaselineLifts(counts, options.windowBins, options.quantile, baseline, lifted, c);
    assert |baseline| == |counts|;
    ThresholdLifts(counts, options, baseline, c, i);
    HotIffStandsOut(counts, baseline, options, i);
    HotIffStandsOut(Lift(counts, c), lifted, options, i);
    hide IsBaseline, Threshold, StandsOut;
    assert lifted[i] == baseline[i] + c;
  }

  lemma {:induction false} SumLift(counts: seq<int>, c: nat)
    ensures Sum(Lift(counts, c)) >= Sum(counts)
  {
    if counts != [] {
      SumLift(counts[1..], c);
      assert Lift(counts, c)[1..] == Lift(counts[1..], c);
    }
  }
}
