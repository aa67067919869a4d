/** `plan_shorts`: clips around hotspots, strongest first, never over one another. */
module Shorts {
  import opened Sorting
  import opened Hotspots
  import opened HotRuns

  datatype Plan = Plan(start: real, end: real, excess: real)

  type Interval = (real, real)

  function Distance(a: real, b: real): (d: real)
    ensures d >= a - b && d >= b - a && (d == a - b || d == b - a)
  {
    if a < b then b - a else a - b
  }

  function Near(points: seq<real>, start: real, tolerance: real): seq<real>
  {
    if points == [] then []
    else (if Distance(points[0], start) <= tolerance then [points[0]] else []) + Near(points[1..], start, tolerance)
  }

  lemma {:induction false} NearPoints(points: seq<real>, start: real, tolerance: real)
    ensures forall p :: p in Near(points, start, tolerance) <==> p in points && Distance(p, start) <= tolerance
  {
    if points != [] {
      NearPoints(points[1..], start, tolerance);
      assert points == [points[0]] + points[1..];
    }
  }

  function Nearest(points: seq<real>, start: real): (p: real)
    requires points != []
    ensures p in points && forall q :: q in points ==> Distance(p, start) <= Distance(q, start)
  {
    if |points| == 1 then points[0]
    else
      var rest := Nearest(points[1..], start);
      if Distance(points[0], start) <= Distance(rest, start) then points[0] else rest
  }

  /** `_snap`: the nearest scene boundary within the tolerance, if there is one. */
  function Snap(start: real, points: seq<real>, tolerance: real): (snapped: real)
    ensures snapped == start || (snapped in points && Distance(snapped, start) <= tolerance)
    ensures forall p :: p in points && Distance(p, start) <= tolerance ==>
      snapped in points && Distance(snapped, start) <= Distance(p, start)
  {
    var candidates := Near(points, start, tolerance);
    NearPoints(points, start, tolerance);
    if candidates != [] then Nearest(candidates, start) else start
  }

  function Min(a: real, b: real): real
  {
    if b < a then b else a
  }

  /** How long the clip of a hotspot should be. */
  function Length(spot: Hotspot, duration: real, options: Options): real
  {
    Min(if spot.runBins >= options.longRunBins then options.longSeconds else options.shortSeconds, duration)
  }

  function ClipOf(spot: Hotspot, duration: real, snapPoints: seq<real>, options: Options): Interval
  {
    var length := Length(spot, duration, options);
    var snapped := Snap(Max(0.0, spot.position - options.leadInSeconds), snapPoints, options.leadInSeconds);
    var start := Max(0.0, Min(snapped, duration - length));
    (start, Min(duration, start + length))
  }

  /** A clip lies inside the file and has exactly its nominal length. */
  lemma ClipFits(spot: Hotspot, duration: real, snapPoints: seq<real>, options: Options)
    requires options.Valid() && duration > 0.0
    ensures
      var clip := ClipOf(spot, duration, snapPoints, options);
      0.0 <= clip.0 < clip.1 <= duration && clip.1 - clip.0 == Length(spot, duration, options)
  {
  }

  // ---- the clip, by what it means ----

  predicate Within(a: real, b: real, tolerance: real)
  {
    a - b <= tolerance && b - a <= tolerance
  }

  /** Boundary number `k` is the first of those nearest to `aim`. */
  ghost predicate FirstNearest(points: seq<real>, aim: real, k: nat)
    requires k < |points|
  {
    && (forall j :: 0 <= j < |points| ==> Distance(points[k], aim) <= Distance(points[j], aim))
    && (forall j :: 0 <= j < k ==> Distance(points[k], aim) < Distance(points[j], aim))
  }

  /** The clip aims at a lead-in before the hotspot, but not before the file, and opens at the nearest boundary no
      further off than a lead-in; without one, where it aims. */
  ghost predicate OpensAt(spot: Hotspot, points: seq<real>, options: Options, opening: real)
  {
    var aim := if options.leadInSeconds < spot.position then spot.position - options.leadInSeconds else 0.0;
    if forall k :: 0 <= k < |points| ==> !Within(points[k], aim, options.leadInSeconds) then opening == aim
    else exists k: nat :: k < |points| && opening == points[k] && FirstNearest(points, aim, k)
  }

  /** A long run gets the long cut and a short one the short, either at most the whole file; it is moved into the file
      where it would reach out of it. */
  ghost predicate Cut(spot: Hotspot, duration: real, points: seq<real>, options: Options, clip: Interval)
  {
    exists opening ::
      var wanted := if options.longRunBins > spot.runBins then options.shortSeconds else options.longSeconds;
      var length := if duration < wanted then duration else wanted;
      && OpensAt(spot, points, options, opening)
      && clip.1 == clip.0 + length
      && clip.0 == if opening < 0.0 then 0.0 else if duration < opening + length then duration - length else opening
  }

  /** The first nearest of those within reach is the first nearest of all. */
  lemma {:induction false} NearKeepsFirst(points: seq<real>, aim: real, tolerance: real) returns (k: nat)
    requires Near(points, aim, tolerance) != []
    ensures k < |points| && Nearest(Near(points, aim, tolerance), aim) == points[k]
    ensures Distance(points[k], aim) <= tolerance && FirstNearest(points, aim, k)
    decreases |points|
  {
    hide Near, Nearest, Distance, FirstNearest;
    NearOfMore(points, aim, tolerance);
    var rest := points[1..];
    var tail := Near(rest, aim, tolerance);
    if tail == [] {
      k := 0;
      assert [points[0]] + tail == [points[0]];
      NearestOfOne(points[0], aim);
      OnlyNear(points, aim, tolerance);
    } else {
      k := NearKeepsFirst(rest, aim, tolerance);
      assert [] + tail == tail && points[k + 1] == rest[k];
      NearestOfMore(points[0], tail, aim);
      FirstOfMore(points, aim, k);
      k := if Distance(points[0], aim) <= Distance(rest[k], aim) then 0 else k + 1;
    }
  }

  lemma NearOfMore(points: seq<real>, aim: real, tolerance: real)
    requires points != [] || Near(points, aim, tolerance) != []
    ensures points != [] && Near(points, aim, tolerance)
         == (if Distance(points[0], aim) <= tolerance then [points[0]] else []) + Near(points[1..], aim, tolerance)
  {
  }

  lemma OnlyNear(points: seq<real>, aim: real, tolerance: real)
    requires points != [] && Distance(points[0], aim) <= tolerance && Near(points[1..], aim, tolerance) == []
    ensures FirstNearest(points, aim, 0)
  {
    hide Near, Distance;
    NearPoints(points[1..], aim, tolerance);
    forall j | 1 <= j < |points| ensures Distance(points[0], aim) < Distance(points[j], aim) {
      assert points[j] == points[1..][j - 1];
    }
  }

  lemma NearestOfOne(point: real, aim: real)
    ensures Nearest([point], aim) == point
  {
  }

  /** The first point takes the place of the nearest of the others if it is no further off. */
  lemma FirstOfMore(points: seq<real>, aim: real, k: nat)
    requires points != [] && k < |points| - 1 && FirstNearest(points[1..], aim, k)
    ensures Distance(points[0], aim) <= Distance(points[1..][k], aim) ==> FirstNearest(points, aim, 0)
    ensures Distance(points[0], aim) > Distance(points[1..][k], aim) ==> FirstNearest(points, aim, k + 1)
  {
    hide Distance;
    assert forall j :: 1 <= j < |points| ==> points[j] == points[1..][j - 1];
  }

  lemma NearestOfMore(first: real, rest: seq<real>, aim: real)
    requires rest != []
    ensures Nearest([first] + rest, aim)
         == if Distance(first, aim) <= Distance(Nearest(rest, aim), aim) then first else Nearest(rest, aim)
  {
    assert ([first] + rest)[1..] == rest;
  }

  lemma OpeningIs(spot: Hotspot, points: seq<real>, options: Options)
    ensures OpensAt(spot, points, options, Opening(spot, points, options))
  {
    hide Near, Nearest, FirstNearest, Distance, Within;
    var aim := Max(0.0, spot.position - options.leadInSeconds);
    NearIffWithin(points, aim, options.leadInSeconds);
    if Near(points, aim, options.leadInSeconds) != [] {
      var k := NearKeepsFirst(points, aim, options.leadInSeconds);
      assert FirstNearest(points, aim, k);
    }
  }

  lemma NearIffWithin(points: seq<real>, aim: real, tolerance: real)
    ensures Near(points, aim, tolerance) == [] <==> forall k :: 0 <= k < |points| ==> !Within(points[k], aim, tolerance)
  {
    hide Near;
    NearPoints(points, aim, tolerance);
    var near := Near(points, aim, tolerance);
    if near == [] {
      forall k | 0 <= k < |points| ensures !Within(points[k], aim, tolerance) { assert points[k] in points && points[k] !in near; }
    } else {
      assert near[0] in near;
      var k :| 0 <= k < |points| && points[k] == near[0];
      assert Within(points[k], aim, tolerance);
    }
  }

  lemma ClipIsCut(spot: Hotspot, duration: real, points: seq<real>, options: Options)
    requires options.Valid() && duration > 0.0
    ensures Cut(spot, duration, points, options, ClipOf(spot, duration, points, options))
  {
    OpeningIs(spot, points, options);
    hide OpensAt, Snap;
    assert OpensAt(spot, points, options, Opening(spot, points, options));
  }

  ghost predicate AllCut(spots: seq<Hotspot>, duration: real, points: seq<real>, options: Options, clips: seq<Interval>)
  {
    |clips| == |spots| && forall i :: 0 <= i < |spots| ==> Cut(spots[i], duration, points, options, clips[i])
  }

  lemma ClipsAreCut(spots: seq<Hotspot>, duration: real, points: seq<real>, options: Options)
    requires options.Valid() && duration > 0.0
    ensures AllCut(spots, duration, points, options, Clips(spots, duration, points, options))
  {
    hide Cut, ClipOf;
    forall i | 0 <= i < |spots| { ClipIsCut(spots[i], duration, points, options); }
  }

  /** Where the clip would open, boundaries considered, before it is fitted into the file. */
  function Opening(spot: Hotspot, snapPoints: seq<real>, options: Options): real
  {
    Snap(Max(0.0, spot.position - options.leadInSeconds), snapPoints, options.leadInSeconds)
  }

  predicate HoldsPosition(spot: Hotspot, duration: real, snapPoints: seq<real>, options: Options)
  {
    var clip := ClipOf(spot, duration, snapPoints, options);
    clip.0 <= spot.position <= clip.1
  }

  /** When the moment people jump to is in its clip: the clip does not open behind it, unless the end
      of the file pulls the clip back to it, and does not close in front of it. */
  lemma ClipHoldsPositionIff(spot: Hotspot, duration: real, snapPoints: seq<real>, options: Options)
    requires options.Valid() && 0.0 <= spot.position <= duration && 0.0 < duration
    ensures
      var opening, length := Opening(spot, snapPoints, options), Length(spot, duration, options);
      var opensBefore := duration - length <= spot.position || opening <= spot.position;
      var closesBehind := spot.position <= length || duration - length <= opening || spot.position <= opening + length;
      HoldsPosition(spot, duration, snapPoints, options) <==> opensBefore && closesBehind
  {
  }

  /** With a clip of at least two lead-ins only a boundary behind a hotspot of the first seconds can
      take the moment out of it. */
  lemma LongClipHoldsPositionIff(spot: Hotspot, duration: real, snapPoints: seq<real>, options: Options)
    requires options.Valid() && 0.0 <= spot.position <= duration && 0.0 < duration
    requires options.shortSeconds >= 2.0 * options.leadInSeconds
    ensures
      var pulledBack := duration - Length(spot, duration, options) <= spot.position;
      var opensBefore := options.leadInSeconds <= spot.position || Opening(spot, snapPoints, options) <= spot.position;
      HoldsPosition(spot, duration, snapPoints, options) <==> pulledBack || opensBefore
  {
  }

  /** The two ways to miss: a boundary behind the start of the file, and a clip shorter than the two
      lead-ins in front of its hotspot. */
  lemma ClipCanMiss()
    ensures
      var options := Options(10.0, 19, 0.25, 60.0, 300.0, 5.0, 40, 3, 3, 6, 1.0, 5, 0.02);
      options.Valid() && !HoldsPosition(Hotspot(0.0, 9.0, 1), 1000.0, [3.0], options)
    ensures
      var options := Options(10.0, 19, 0.25, 6.0, 300.0, 5.0, 40, 3, 3, 6, 1.0, 5, 0.02);
      options.Valid() && !HoldsPosition(Hotspot(100.0, 9.0, 1), 1000.0, [90.0], options)
  {
  }

  predicate Inside(t: real, a: Interval)
  {
    a.0 < t < a.1
  }

  predicate Overlap(a: Interval, b: Interval)
  {
    a.0 < b.1 && b.0 < a.1
  }

  /** The test of the code is what it should be: the two intervals have a moment in common. */
  lemma OverlapShares(a: Interval, b: Interval)
    requires a.0 < a.1 && b.0 < b.1
    ensures Overlap(a, b) <==> exists t: real :: Inside(t, a) && Inside(t, b)
  {
    if Overlap(a, b) {
      var t := (Max(a.0, b.0) + Min(a.1, b.1)) / 2.0;
      assert Inside(t, a) && Inside(t, b);
    }
  }

  // ---- the greedy choice ----

  function Clips(spots: seq<Hotspot>, duration: real, snapPoints: seq<real>, options: Options): (clips: seq<Interval>)
    ensures |clips| == |spots| && forall i :: 0 <= i < |spots| ==> clips[i] == ClipOf(spots[i], duration, snapPoints, options)
  {
    seq(|spots|, i requires 0 <= i < |spots| => ClipOf(spots[i], duration, snapPoints, options))
  }

  ghost predicate Ascending(chosen: seq<nat>, limit: nat)
  {
    && (forall k :: 0 <= k < |chosen| ==> chosen[k] < limit)
    && (forall j, k :: 0 <= j < k < |chosen| ==> chosen[j] < chosen[k])
  }

  /** Nothing that exists and nothing chosen before `i` is in the way of clip `i`. */
  ghost predicate Free(clips: seq<Interval>, existing: seq<Interval>, chosen: seq<nat>, i: nat)
    requires i < |clips|
  {
    && (forall e :: e in existing ==> !Overlap(clips[i], e))
    && (forall k :: 0 <= k < |chosen| && chosen[k] < i && chosen[k] < |clips| ==> !Overlap(clips[i], clips[chosen[k]]))
  }

  function Before(chosen: seq<nat>, i: nat): nat
  {
    if chosen == [] then 0 else (if chosen[|chosen| - 1] < i then 1 else 0) + Before(chosen[..|chosen| - 1], i)
  }

  lemma {:induction false} AllBefore(chosen: seq<nat>, i: nat)
    requires forall k :: 0 <= k < |chosen| ==> chosen[k] < i
    ensures Before(chosen, i) == |chosen|
  {
    if chosen != [] { AllBefore(chosen[..|chosen| - 1], i); }
  }

  /** The first `limit` hotspots are chosen exactly as a greedy packing would: a hotspot is taken if
      the cap is not reached and its clip is free, and for no other reason. */
  ghost predicate Greedy(clips: seq<Interval>, existing: seq<Interval>, maximum: int, chosen: seq<nat>, limit: nat)
    requires limit <= |clips|
  {
    && Ascending(chosen, limit)
    && forall i :: 0 <= i < limit ==>
         (i in chosen <==> Before(chosen, i) < maximum && Free(clips, existing, chosen, i))
  }

  lemma GreedySkips(clips: seq<Interval>, existing: seq<Interval>, maximum: int, chosen: seq<nat>, i: nat)
    requires i < |clips| && Greedy(clips, existing, maximum, chosen, i)
    requires |chosen| >= maximum || !Free(clips, existing, chosen, i)
    ensures Greedy(clips, existing, maximum, chosen, i + 1)
  {
    AllBefore(chosen, i);
  }

  lemma GreedyTakes(clips: seq<Interval>, existing: seq<Interval>, maximum: int, chosen: seq<nat>, i: nat)
    requires i < |clips| && Greedy(clips, existing, maximum, chosen, i)
    requires |chosen| < maximum && Free(clips, existing, chosen, i)
    ensures Greedy(clips, existing, maximum, chosen + [i], i + 1)
  {
    var more := chosen + [i];
    AllBefore(chosen, i);
    assert more[..|chosen|] == chosen;
    forall j | 0 <= j < i + 1 ensures j in more <==> Before(more, j) < maximum && Free(clips, existing, more, j) {
      assert Before(more, j) == Before(chosen, j);
      assert Free(clips, existing, more, j) <==> Free(clips, existing, chosen, j) by {
        if Free(clips, existing, more, j) {
          forall k | 0 <= k < |chosen| && chosen[k] < j ensures !Overlap(clips[j], clips[chosen[k]]) {
            assert more[k] == chosen[k];
          }
        }
      }
      assert j in more <==> j in chosen || j == i;
      assert i !in chosen;
    }
  }

  lemma {:induction false} GreedyFull(clips: seq<Interval>, existing: seq<Interval>, maximum: int, chosen: seq<nat>, i: nat)
    requires i <= |clips| && Greedy(clips, existing, maximum, chosen, i) && |chosen| >= maximum
    ensures Greedy(clips, existing, maximum, chosen, |clips|)
    decreases |clips| - i
  {
    if i < |clips| {
      GreedySkips(clips, existing, maximum, chosen, i);
      GreedyFull(clips, existing, maximum, chosen, i + 1);
    }
  }

  // ---- the plans ----

  ghost predicate PlansOf(spots: seq<Hotspot>, clips: seq<Interval>, chosen: seq<nat>, plans: seq<Plan>)
  {
    && |plans| == |chosen| && |clips| == |spots|
    && forall k :: 0 <= k < |chosen| ==>
         chosen[k] < |spots| && plans[k] == Plan(clips[chosen[k]].0, clips[chosen[k]].1, spots[chosen[k]].excess)
  }

  predicate StartLe(a: Plan, b: Plan)
  {
    a.start <= b.start
  }

  ghost predicate Fits(plan: Plan, duration: real, existing: seq<Interval>)
  {
    && 0.0 <= plan.start < plan.end <= duration
    && forall e :: e in existing ==> !Overlap((plan.start, plan.end), e)
  }

  ghost predicate Apart(plans: seq<Plan>)
  {
    forall i, j :: 0 <= i < j < |plans| ==>
      !Overlap((plans[i].start, plans[i].end), (plans[j].start, plans[j].end)) && plans[i] != plans[j]
  }

  /** What a greedy choice buys: every plan fits, and no two overlap. */
  lemma GreedyPlans(spots: seq<Hotspot>, duration: real, snapPoints: seq<real>, options: Options,
                    existing: seq<Interval>, chosen: seq<nat>, plans: seq<Plan>)
    requires options.Valid() && duration > 0.0
    requires Greedy(Clips(spots, duration, snapPoints, options), existing, options.maximumPerTitle, chosen, |spots|)
    requires PlansOf(spots, Clips(spots, duration, snapPoints, options), chosen, plans)
    ensures forall k :: 0 <= k < |plans| ==> Fits(plans[k], duration, existing)
    ensures Apart(plans)
  {
    var clips := Clips(spots, duration, snapPoints, options);
    hide Clips, ClipOf, Before;
    forall k | 0 <= k < |plans| ensures Fits(plans[k], duration, existing) {
      ClipFits(spots[chosen[k]], duration, snapPoints, options);
      assert chosen[k] in chosen;
      assert Free(clips, existing, chosen, chosen[k]);
    }
    forall i, j | 0 <= i < j < |plans|
      ensures !Overlap((plans[i].start, plans[i].end), (plans[j].start, plans[j].end)) && plans[i] != plans[j]
    {
      assert chosen[j] in chosen;
      assert Free(clips, existing, chosen, chosen[j]);
      assert !Overlap(clips[chosen[j]], clips[chosen[i]]);
    }
  }

  /** Sorting plans that keep apart by start puts each wholly before the next. */
  lemma SortedPlansLineUp(plans: seq<Plan>, duration: real, existing: seq<Interval>)
    requires forall k :: 0 <= k < |plans| ==> Fits(plans[k], duration, existing)
    requires Apart(plans)
    ensures
      var sorted := Sort(StartLe, plans);
      && |sorted| == |plans| && multiset(sorted) == multiset(plans)
      && (forall k :: 0 <= k < |sorted| ==> Fits(sorted[k], duration, existing))
      && (forall i, j :: 0 <= i < j < |sorted| ==> sorted[i].end <= sorted[j].start)
  {
    var sorted := Sort(StartLe, plans);
    StartOrder();
    SortSorted(StartLe, plans);
    SortPermutes(StartLe, plans);
    assert Distinct(plans);
    DistinctCounts(plans);
    DistinctCounts(sorted);
    hide Sort, TotalPreorder, Distinct;
    forall k | 0 <= k < |sorted| ensures Fits(sorted[k], duration, existing) {
      assert sorted[k] in plans;
    }
    forall i, j | 0 <= i < j < |sorted| ensures sorted[i].end <= sorted[j].start {
      assert StartLe(sorted[i], sorted[j]);
      ApartAt(plans, sorted, i, j);
    }
  }

  lemma StartOrder()
    ensures TotalPreorder(StartLe)
  {
  }

  lemma ApartAt(plans: seq<Plan>, sorted: seq<Plan>, i: nat, j: nat)
    requires Apart(plans) && Distinct(sorted) && (forall x :: x in sorted <==> x in plans) && i < j < |sorted|
    ensures !Overlap((sorted[i].start, sorted[i].end), (sorted[j].start, sorted[j].end))
  {
    assert sorted[i] in plans && sorted[j] in plans && sorted[i] != sorted[j];
    var k :| 0 <= k < |plans| && plans[k] == sorted[i];
    var l :| 0 <= l < |plans| && plans[l] == sorted[j];
    if k < l {
      assert !Overlap((plans[k].start, plans[k].end), (plans[l].start, plans[l].end));
    } else {
      assert !Overlap((plans[l].start, plans[l].end), (plans[k].start, plans[k].end));
    }
  }

  /** `plan_shorts`. */
  method PlanShorts(spots: seq<Hotspot>, duration: real, existing: seq<Interval>, snapPoints: seq<real>, options: Options)
    returns (sorted: seq<Plan>, ghost chosen: seq<nat>, ghost plans: seq<Plan>)
    requires options.Valid()
    ensures duration <= 0.0 ==> sorted == []
    ensures duration > 0.0 ==>
      && Greedy(Clips(spots, duration, snapPoints, options), existing, options.maximumPerTitle, chosen, |spots|)
      && PlansOf(spots, Clips(spots, duration, snapPoints, options), chosen, plans)
      && AllCut(spots, duration, snapPoints, options, Clips(spots, duration, snapPoints, options))
      && multiset(sorted) == multiset(plans)
    ensures |sorted| <= options.maximumPerTitle
    ensures forall k :: 0 <= k < |sorted| ==> Fits(sorted[k], duration, existing)
    ensures forall i, j :: 0 <= i < j < |sorted| ==> sorted[i].end <= sorted[j].start
  {
    hide Greedy, ClipOf, Clips, PlansOf, TakenIs, Free, Fits, Apart, AllCut, Sort;
    if duration <= 0.0 { return [], [], []; }
    ghost var clips := Clips(spots, duration, snapPoints, options);
    ClipsAreCut(spots, duration, snapPoints, options);
    NothingTaken(spots, clips, existing, options.maximumPerTitle);
    var taken := existing;
    var made: seq<Plan> := [];
    chosen := [];
    for i := 0 to |spots|
      invariant Greedy(clips, existing, options.maximumPerTitle, chosen, i)
      invariant |made| == |chosen| <= options.maximumPerTitle
      invariant PlansOf(spots, clips, chosen, made)
      invariant TakenIs(taken, existing, clips, chosen)
    {
      if |made| >= options.maximumPerTitle {
        GreedyFull(clips, existing, options.maximumPerTitle, chosen, i);
        break;
      }
      var clip := ClipOf(spots[i], duration, snapPoints, options);
      ClipFits(spots[i], duration, snapPoints, options);
      AscendingOf(clips, existing, options.maximumPerTitle, chosen, i);
      TakenBlocks(taken, existing, clips, chosen, i);
      if clip.1 - clip.0 <= 0.0 || exists other :: other in taken && Overlap(clip, other) {
        GreedySkips(clips, existing, options.maximumPerTitle, chosen, i);
        continue;
      }
      GreedyTakes(clips, existing, options.maximumPerTitle, chosen, i);
      TakeOne(spots, taken, existing, clips, chosen, made, i);
      taken := taken + [clip];
      made := made + [Plan(clip.0, clip.1, spots[i].excess)];
      chosen := chosen + [i];
    }
    plans := made;
    GreedyPlans(spots, duration, snapPoints, options, existing, chosen, made);
    SortedPlansLineUp(made, duration, existing);
    return Sort(StartLe, made), chosen, plans;
  }

  lemma NothingTaken(spots: seq<Hotspot>, clips: seq<Interval>, existing: seq<Interval>, maximum: int)
    requires |clips| == |spots|
    ensures Greedy(clips, existing, maximum, [], 0) && PlansOf(spots, clips, [], []) && TakenIs(existing, existing, clips, [])
  {
  }

  /** What is in the way: the intervals that exist, then the clips taken. */
  ghost predicate TakenIs(taken: seq<Interval>, existing: seq<Interval>, clips: seq<Interval>, chosen: seq<nat>)
  {
    && |taken| == |existing| + |chosen|
    && (forall e :: 0 <= e < |existing| ==> taken[e] == existing[e])
    && (forall k :: 0 <= k < |chosen| ==> chosen[k] < |clips| && taken[|existing| + k] == clips[chosen[k]])
  }

  lemma TakeOne(spots: seq<Hotspot>, taken: seq<Interval>, existing: seq<Interval>, clips: seq<Interval>,
                chosen: seq<nat>, made: seq<Plan>, i: nat)
    requires TakenIs(taken, existing, clips, chosen) && PlansOf(spots, clips, chosen, made) && i < |spots|
    ensures TakenIs(taken + [clips[i]], existing, clips, chosen + [i])
    ensures PlansOf(spots, clips, chosen + [i], made + [Plan(clips[i].0, clips[i].1, spots[i].excess)])
  {
  }

  lemma TakenBlocks(taken: seq<Interval>, existing: seq<Interval>, clips: seq<Interval>, chosen: seq<nat>, i: nat)
    requires TakenIs(taken, existing, clips, chosen) && Ascending(chosen, i) && i < |clips|
    ensures (exists other :: other in taken && Overlap(clips[i], other)) <==> !Free(clips, existing, chosen, i)
  {
    if other :| other in taken && Overlap(clips[i], other) {
      var k :| 0 <= k < |taken| && taken[k] == other;
      if k < |existing| {
        assert existing[k] in existing;
      } else {
        assert clips[chosen[k - |existing|]] == other;
      }
    }
    if e :| e in existing && Overlap(clips[i], e) {
      var k :| 0 <= k < |existing| && existing[k] == e;
      assert taken[k] in taken;
    }
    if k :| 0 <= k < |chosen| && Overlap(clips[i], clips[chosen[k]]) {
      assert taken[|existing| + k] in taken;
    }
  }

  lemma AscendingOf(clips: seq<Interval>, existing: seq<Interval>, maximum: int, chosen: seq<nat>, i: nat)
    requires i <= |clips| && Greedy(clips, existing, maximum, chosen, i)
    ensures Ascending(chosen, i)
  {
  }
}
