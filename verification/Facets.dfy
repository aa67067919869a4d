/** The numbers beside the search filters, and the promise they make. */
module Facets {

  import opened Optional
  import opened Sorting

  /** One title, reduced to the fields the facets count. */
  datatype Row = Row(studio: Option<string>, resolution: Option<string>, duration: Option<real>, rating: Option<real>, tags: set<string>)

  datatype Selection = Selection(studio: Option<string>, resolution: Option<string>, band: Option<string>, rating: Option<int>, tag: Option<string>)

  datatype Dimension = Studio | Resolution | Duration | Rating | Tag | Nothing

  datatype FacetValue = FacetValue(value: string, count: nat)

  datatype Facets = Facets(
    studio: seq<FacetValue>, resolution: seq<FacetValue>, duration: seq<FacetValue>, rating: seq<FacetValue>,
    tag: seq<FacetValue>, matched: nat, capped: bool)

  const BANDS: seq<string> := ["under_10", "10_20", "20_40", "over_40"]
  const RATING_FLOORS: seq<int> := [5, 4, 3]

  /** `duration_band`: half-open bands, the last one without an upper end. */
  function DurationBand(seconds: Option<real>): Option<string>
  {
    if seconds.None? || seconds.value < 0.0 then None
    else if seconds.value < 600.0 then Some(BANDS[0])
    else if seconds.value < 1200.0 then Some(BANDS[1])
    else if seconds.value < 2400.0 then Some(BANDS[2])
    else Some(BANDS[3])
  }

  /** `matches`: the row passes every selection but the ignored dimension's. */
  predicate Matches(row: Row, selected: Selection, ignore: Dimension)
  {
    if !ignore.Studio? && selected.studio.Some? && row.studio != selected.studio then false
    else if !ignore.Resolution? && selected.resolution.Some? && row.resolution != selected.resolution then false
    else if !ignore.Duration? && selected.band.Some? && DurationBand(row.duration) != selected.band then false
    else if !ignore.Rating? && selected.rating.Some? && (row.rating.None? || row.rating.value < selected.rating.value as real) then false
    else !(!ignore.Tag? && selected.tag.Some? && selected.tag.value !in row.tags)
  }

  // ---- the same, by what they mean ----

  /** At least `low` seconds, and under `high` if there is such a bound. */
  predicate Lasts(row: Row, low: real, high: Option<real>)
  {
    row.duration.Some? && low <= row.duration.value && (high.Some? ==> high.value > row.duration.value)
  }

  predicate InBand(row: Row, name: string)
  {
    || (name == "under_10" && Lasts(row, 0.0, Some(600.0)))
    || (name == "10_20" && Lasts(row, 600.0, Some(1200.0)))
    || (name == "20_40" && Lasts(row, 1200.0, Some(2400.0)))
    || (name == "over_40" && Lasts(row, 2400.0, None))
  }

  /** The row has what is selected in every dimension but the lifted one. */
  predicate Passes(row: Row, selected: Selection, lifted: Dimension)
  {
    && (lifted == Studio || selected.studio == None || selected.studio == row.studio)
    && (lifted == Resolution || selected.resolution == None || selected.resolution == row.resolution)
    && (lifted == Duration || selected.band == None || InBand(row, selected.band.value))
    && (lifted == Rating || selected.rating == None || RatedFrom(row.rating, selected.rating.value))
    && (lifted == Tag || selected.tag == None || selected.tag.value in row.tags)
  }

  predicate RatedFrom(rating: Option<real>, floor: int)
  {
    rating.Some? && floor as real <= rating.value
  }

  lemma BandMeans(row: Row, name: string)
    ensures DurationBand(row.duration) == Some(name) <==> InBand(row, name)
  {
  }

  lemma MatchesMeans(row: Row, selected: Selection, ignore: Dimension)
    ensures Matches(row, selected, ignore) <==> Passes(row, selected, ignore)
  {
    if selected.band.Some? { BandMeans(row, selected.band.value); }
    hide InBand, DurationBand;
  }

  /** Something a facet counts. All but `Unrated` can be selected. */
  datatype Facet = StudioIs(name: string) | ResolutionIs(name: string) | BandIs(name: string) | RatedAtLeast(floor: int) | Unrated | Tagged(name: string)

  function DimensionOf(facet: Facet): Dimension
  {
    match facet
    case StudioIs(_) => Studio
    case ResolutionIs(_) => Resolution
    case BandIs(_) => Duration
    case RatedAtLeast(_) => Rating
    case Unrated => Rating
    case Tagged(_) => Tag
  }

  predicate Has(row: Row, facet: Facet)
  {
    match facet
    case StudioIs(name) => row.studio == Some(name)
    case ResolutionIs(name) => row.resolution == Some(name)
    case BandIs(name) => InBand(row, name)
    case RatedAtLeast(floor) => RatedFrom(row.rating, floor)
    case Unrated => row.rating.None?
    case Tagged(name) => name in row.tags
  }

  /** A row is counted for a facet with that facet's own dimension lifted. */
  predicate Counted(row: Row, selected: Selection, facet: Facet)
  {
    Has(row, facet) && Passes(row, selected, DimensionOf(facet))
  }

  function One(b: bool): nat
  {
    if b then 1 else 0
  }

  function Tallied(rows: seq<Row>, selected: Selection, facet: Facet): nat
  {
    if rows == [] then 0
    else Tallied(rows[..|rows| - 1], selected, facet) + One(Counted(rows[|rows| - 1], selected, facet))
  }

  function Matched(rows: seq<Row>, selected: Selection): nat
  {
    if rows == [] then 0
    else Matched(rows[..|rows| - 1], selected) + One(Passes(rows[|rows| - 1], selected, Nothing))
  }

  /** The selection with `facet` chosen in its dimension. */
  function Select(selected: Selection, facet: Facet): Selection
    requires !facet.Unrated?
  {
    match facet
    case StudioIs(name) => selected.(studio := Some(name))
    case ResolutionIs(name) => selected.(resolution := Some(name))
    case BandIs(name) => selected.(band := Some(name))
    case RatedAtLeast(floor) => selected.(rating := Some(floor))
    case Tagged(name) => selected.(tag := Some(name))
  }

  /** Selecting a facet leaves exactly the rows it counted. */
  lemma {:induction false} TalliedIsMatched(rows: seq<Row>, selected: Selection, facet: Facet)
    requires !facet.Unrated?
    ensures Tallied(rows, selected, facet) == Matched(rows, Select(selected, facet))
  {
    if rows != [] {
      TalliedIsMatched(rows[..|rows| - 1], selected, facet);
      SelectMatches(rows[|rows| - 1], selected, facet);
    }
  }

  lemma SelectMatches(row: Row, selected: Selection, facet: Facet)
    requires !facet.Unrated?
    ensures Counted(row, selected, facet) <==> Passes(row, Select(selected, facet), Nothing)
  {
  }

  // ---- counters ----

  /** A `Counter`: absent keys count zero. */
  function At(counter: map<string, nat>, key: string): nat
  {
    if key in counter then counter[key] else 0
  }

  function Add(counter: map<string, nat>, key: string): map<string, nat>
  {
    counter[key := At(counter, key) + 1]
  }

  datatype Kind = Studios | Resolutions | Bands | Tags

  function FacetFor(kind: Kind, name: string): Facet
  {
    match kind
    case Studios => StudioIs(name)
    case Resolutions => ResolutionIs(name)
    case Bands => BandIs(name)
    case Tags => Tagged(name)
  }

  ghost predicate Counts(counter: map<string, nat>, rows: seq<Row>, selected: Selection, kind: Kind)
  {
    && (forall name :: At(counter, name) == Tallied(rows, selected, FacetFor(kind, name)))
    && (forall name :: name in counter ==> counter[name] > 0)
  }

  function FloorName(floor: int): string
  {
    if floor == 5 then "5" else if floor == 4 then "4" else "3"
  }

  const UNRATED: string := "unrated"

  ghost predicate RatingCounts(counter: map<string, nat>, rows: seq<Row>, selected: Selection)
  {
    && (forall floor :: floor in RATING_FLOORS ==> At(counter, FloorName(floor)) == Tallied(rows, selected, RatedAtLeast(floor)))
    && At(counter, UNRATED) == Tallied(rows, selected, Unrated)
  }

  // ---- what a tally is ----

  predicate RankLe(a: FacetValue, b: FacetValue)
  {
    a.count > b.count || (a.count == b.count && TextLe(a.value, b.value))
  }

  /** Commoner, or as common and earlier in the alphabet. */
  predicate Ahead(a: FacetValue, b: FacetValue)
  {
    if a.count == b.count then a.value != b.value && TextLe(a.value, b.value) else b.count < a.count
  }

  lemma AheadIsRank(a: FacetValue, b: FacetValue)
    ensures RankLe(a, b) && a.value != b.value ==> Ahead(a, b)
  {
  }

  /** Commonest first, then alphabetical, nothing twice. */
  ghost predicate Ranked(values: seq<FacetValue>)
  {
    forall i, j :: 0 <= i < j < |values| ==> Ahead(values[i], values[j])
  }

  ghost predicate Lists(values: seq<FacetValue>, rows: seq<Row>, selected: Selection, kind: Kind)
  {
    && (forall v :: v in values ==> v.count == Tallied(rows, selected, FacetFor(kind, v.value)) && v.count > 0)
    && (forall name :: Tallied(rows, selected, FacetFor(kind, name)) > 0 ==>
          FacetValue(name, Tallied(rows, selected, FacetFor(kind, name))) in values)
  }

  function Nonzero(name: string, count: nat): seq<FacetValue>
  {
    if count > 0 then [FacetValue(name, count)] else []
  }

  function BandList(rows: seq<Row>, selected: Selection): seq<FacetValue>
  {
    Nonzero("under_10", Tallied(rows, selected, BandIs("under_10"))) + Nonzero("10_20", Tallied(rows, selected, BandIs("10_20"))) +
    Nonzero("20_40", Tallied(rows, selected, BandIs("20_40"))) + Nonzero("over_40", Tallied(rows, selected, BandIs("over_40")))
  }

  function RatingList(rows: seq<Row>, selected: Selection): seq<FacetValue>
  {
    Nonzero("5", Tallied(rows, selected, RatedAtLeast(5))) + Nonzero("4", Tallied(rows, selected, RatedAtLeast(4))) +
    Nonzero("3", Tallied(rows, selected, RatedAtLeast(3))) + Nonzero("unrated", Tallied(rows, selected, Unrated))
  }

  /** Every dimension counted with its own selection lifted, in its own order. */
  ghost predicate IsTally(rows: seq<Row>, selected: Selection, f: Facets)
  {
    && Ranked(f.studio) && Lists(f.studio, rows, selected, Studios)
    && Ranked(f.resolution) && Lists(f.resolution, rows, selected, Resolutions)
    && Ranked(f.tag) && Lists(f.tag, rows, selected, Tags)
    && f.duration == BandList(rows, selected)
    && f.rating == RatingList(rows, selected)
    && f.matched == Matched(rows, selected)
  }

  // ---- counting ----

  lemma CountsNext(before: map<string, nat>, after: map<string, nat>, rows: seq<Row>, n: nat, selected: Selection, kind: Kind)
    requires n < |rows| && Counts(before, rows[..n], selected, kind)
    requires forall name :: At(after, name) == At(before, name) + One(Counted(rows[n], selected, FacetFor(kind, name)))
    requires forall name :: name in after ==> after[name] > 0
    ensures Counts(after, rows[..n + 1], selected, kind)
  {
    assert rows[..n + 1][..n] == rows[..n];
    hide Counted, At;
  }

  lemma RatingCountsNext(before: map<string, nat>, after: map<string, nat>, rows: seq<Row>, n: nat, selected: Selection)
    requires n < |rows| && RatingCounts(before, rows[..n], selected)
    requires forall floor :: floor in RATING_FLOORS ==>
      At(after, FloorName(floor)) == At(before, FloorName(floor)) + One(Counted(rows[n], selected, RatedAtLeast(floor)))
    requires At(after, UNRATED) == At(before, UNRATED) + One(Counted(rows[n], selected, Unrated))
    ensures RatingCounts(after, rows[..n + 1], selected)
  {
    assert rows[..n + 1][..n] == rows[..n];
    hide Counted, At;
  }

  lemma AddCounts(counter: map<string, nat>, key: string)
    ensures forall name :: At(Add(counter, key), name) == At(counter, name) + One(name == key)
    ensures forall name :: name in Add(counter, key) <==> name in counter || name == key
    ensures Add(counter, key)[key] > 0 && forall name :: name in counter && name != key ==> Add(counter, key)[name] == counter[name]
  {
  }

  /** Each of `names` was counted once more, and nothing else. */
  ghost predicate CountedOnce(counter: map<string, nat>, names: set<string>, after: map<string, nat>)
  {
    && (forall name :: At(after, name) == At(counter, name) + One(name in names))
    && (forall name :: name in after ==> after[name] > 0)
  }

  lemma CountedNoneYet(counter: map<string, nat>)
    requires forall name :: name in counter ==> counter[name] > 0
    ensures CountedOnce(counter, {}, counter)
  {
    hide At;
  }

  lemma CountOneMore(counter: map<string, nat>, names: set<string>, after: map<string, nat>, key: string)
    requires CountedOnce(counter, names, after) && key !in names
    ensures CountedOnce(counter, names + {key}, Add(after, key))
  {
    hide At, Add;
    AddCounts(after, key);
  }

  /** Count the tags of a row that passes. */
  method CountTags(counter: map<string, nat>, tags: set<string>) returns (after: map<string, nat>)
    requires forall name :: name in counter ==> counter[name] > 0
    ensures forall name :: At(after, name) == At(counter, name) + One(name in tags)
    ensures forall name :: name in after ==> after[name] > 0
  {
    hide At, Add;
    after := counter;
    var left := tags;
    CountedNoneYet(counter);
    assert tags - left == {};
    while left != {}
      invariant left <= tags && CountedOnce(counter, tags - left, after)
      decreases |left|
    {
      hide CountedOnce;
      var tag :| tag in left;
      CountOneMore(counter, tags - left, after, tag);
      assert tags - (left - {tag}) == tags - left + {tag};
      after := Add(after, tag);
      left := left - {tag};
    }
    assert tags - left == tags;
  }

  /** Count the floors a row that passes clears, or that it is unrated. */
  method CountRating(counter: map<string, nat>, rating: Option<real>) returns (after: map<string, nat>)
    ensures forall floor :: floor in RATING_FLOORS ==>
      At(after, FloorName(floor)) == At(counter, FloorName(floor)) + One(RatedFrom(rating, floor))
    ensures At(after, UNRATED) == At(counter, UNRATED) + One(rating.None?)
  {
    NamesDiffer();
    after := counter;
    for k := 0 to |RATING_FLOORS|
      invariant forall j :: 0 <= j < |RATING_FLOORS| ==>
        At(after, FloorName(RATING_FLOORS[j])) == At(counter, FloorName(RATING_FLOORS[j])) + (if j < k then One(RatedFrom(rating, RATING_FLOORS[j])) else 0)
      invariant At(after, UNRATED) == At(counter, UNRATED)
    {
      var floor := RATING_FLOORS[k];
      if rating.Some? && rating.value >= floor as real {
        after := Add(after, FloorName(floor));
      }
    }
    if rating.None? {
      after := Add(after, UNRATED);
    }
  }

  lemma NamesDiffer()
    ensures forall j, k :: 0 <= j < k < |RATING_FLOORS| ==> FloorName(RATING_FLOORS[j]) != FloorName(RATING_FLOORS[k])
    ensures forall j :: 0 <= j < |RATING_FLOORS| ==> FloorName(RATING_FLOORS[j]) != UNRATED
  {
  }

  lemma RankOrder()
    ensures TotalPreorder(RankLe)
  {
    forall x: FacetValue, y: FacetValue ensures RankLe(x, y) || RankLe(y, x) { TextTotal(x.value, y.value); }
    forall x: FacetValue, y: FacetValue, z: FacetValue | RankLe(x, y) && RankLe(y, z) ensures RankLe(x, z) {
      if TextLe(x.value, y.value) && TextLe(y.value, z.value) { TextTransitive(x.value, y.value, z.value); }
    }
  }

  /** `_ordered`: the items of a counter, ranked. */
  method Ordered(counter: map<string, nat>) returns (values: seq<FacetValue>)
    ensures Ranked(values)
    ensures forall v :: v in values <==> v.value in counter && v.count == counter[v.value]
  {
    var items: seq<FacetValue> := [];
    var left := counter.Keys;
    while left != {}
      invariant left <= counter.Keys
      invariant forall i, j :: 0 <= i < j < |items| ==> items[i].value != items[j].value
      invariant forall v :: v in items <==> v.value in counter && v.value !in left && v.count == counter[v.value]
      decreases |left|
    {
      var name :| name in left;
      items := items + [FacetValue(name, counter[name])];
      left := left - {name};
    }
    values := Sort(RankLe, items);
    RankItems(items);
    SortPermutes(RankLe, items);
  }

  lemma RankItems(items: seq<FacetValue>)
    requires forall i, j :: 0 <= i < j < |items| ==> items[i].value != items[j].value
    ensures Ranked(Sort(RankLe, items))
  {
    var values := Sort(RankLe, items);
    RankOrder();
    hide TotalPreorder, RankLe, Sort;
    SortSorted(RankLe, items);
    SortPermutes(RankLe, items);
    assert Distinct(items);
    DistinctCounts(items);
    DistinctCounts(values);
    hide Distinct;
    forall i, j | 0 <= i < j < |values| ensures Ahead(values[i], values[j]) {
      DifferentNames(items, values, i, j);
      AheadIsRank(values[i], values[j]);
    }
  }

  lemma DifferentNames(items: seq<FacetValue>, values: seq<FacetValue>, i: nat, j: nat)
    requires forall k, l :: 0 <= k < l < |items| ==> items[k].value != items[l].value
    requires Distinct(values) && (forall x :: x in values <==> x in items) && i < j < |values|
    ensures values[i].value != values[j].value
  {
    assert values[i] in items && values[j] in items && values[i] != values[j];
    var k :| 0 <= k < |items| && items[k] == values[i];
    var l :| 0 <= l < |items| && items[l] == values[j];
    if k < l { assert items[k].value != items[l].value; } else { assert items[l].value != items[k].value; }
  }

  lemma OrderedLists(counter: map<string, nat>, values: seq<FacetValue>, rows: seq<Row>, selected: Selection, kind: Kind)
    requires Counts(counter, rows, selected, kind)
    requires forall v :: v in values <==> v.value in counter && v.count == counter[v.value]
    ensures Lists(values, rows, selected, kind)
  {
  }

  /** The counting loop of `tally`. */
  method CountRows(rows: seq<Row>, selected: Selection)
    returns (studios: map<string, nat>, resolutions: map<string, nat>, durations: map<string, nat>,
             ratings: map<string, nat>, tags: map<string, nat>)
    ensures Counts(studios, rows, selected, Studios) && Counts(resolutions, rows, selected, Resolutions)
    ensures Counts(durations, rows, selected, Bands) && Counts(tags, rows, selected, Tags)
    ensures RatingCounts(ratings, rows, selected)
  {
    studios, resolutions, durations, ratings, tags := map[], map[], map[], map[], map[];
    for n := 0 to |rows|
      invariant Counts(studios, rows[..n], selected, Studios)
      invariant Counts(resolutions, rows[..n], selected, Resolutions)
      invariant Counts(durations, rows[..n], selected, Bands)
      invariant RatingCounts(ratings, rows[..n], selected)
      invariant Counts(tags, rows[..n], selected, Tags)
    {
      hide RatingCounts, Counts;
      studios := CountStudio(studios, rows, n, selected);
      resolutions := CountResolution(resolutions, rows, n, selected);
      durations := CountBand(durations, rows, n, selected);
      ratings := CountRatings(ratings, rows, n, selected);
      tags := CountAllTags(tags, rows, n, selected);
    }
    assert rows[..|rows|] == rows;
  }

  method CountMatching(rows: seq<Row>, selected: Selection) returns (matched: nat)
    ensures matched == Matched(rows, selected)
  {
    matched := 0;
    for n := 0 to |rows|
      invariant matched == Matched(rows[..n], selected)
    {
      hide Matches, Passes;
      MatchesMeans(rows[n], selected, Nothing);
      assert rows[..n + 1][..n] == rows[..n] && rows[..n + 1][n] == rows[n];
      matched := matched + (if Matches(rows[n], selected, Nothing) then 1 else 0);
    }
    assert rows[..|rows|] == rows;
  }

  /** `tally`. */
  method Tally(rows: seq<Row>, selected: Selection, capped: bool) returns (f: Facets)
    ensures IsTally(rows, selected, f) && f.capped == capped
    ensures f.duration
         == Nonzero("under_10", |Lasting(rows, selected, 0.0, Some(600.0))|) + Nonzero("10_20", |Lasting(rows, selected, 600.0, Some(1200.0))|)
          + Nonzero("20_40", |Lasting(rows, selected, 1200.0, Some(2400.0))|) + Nonzero("over_40", |Lasting(rows, selected, 2400.0, None)|)
  {
    BandListCounts(rows, selected);
    var studios, resolutions, durations, ratings, tags := CountRows(rows, selected);
    var matched := CountMatching(rows, selected);
    DurationItems(durations, rows, selected);
    RatingItems(ratings, rows, selected);
    hide Tallied, Matched, Ranked, Lists, RatingCounts, Counts, Lasting, BandList;
    var studio := Ordered(studios);
    OrderedLists(studios, studio, rows, selected, Studios);
    var resolution := Ordered(resolutions);
    OrderedLists(resolutions, resolution, rows, selected, Resolutions);
    var tag := Ordered(tags);
    OrderedLists(tags, tag, rows, selected, Tags);
    return Facets(studio, resolution, InDesignOrder(durations), ByFloor(ratings), tag, matched, capped);
  }

  /** The rows of a length that pass whatever length is selected. */
  function Lasting(rows: seq<Row>, selected: Selection, low: real, high: Option<real>): set<nat>
  {
    set i: nat | i < |rows| && Lasts(rows[i], low, high) && Passes(rows[i], selected, Duration)
  }

  lemma {:induction false} TalliedLasting(rows: seq<Row>, selected: Selection, name: string, low: real, high: Option<real>)
    requires forall row :: InBand(row, name) <==> Lasts(row, low, high)
    ensures Tallied(rows, selected, BandIs(name)) == |Lasting(rows, selected, low, high)|
    decreases |rows|
  {
    hide Passes, Lasts, InBand, Lasting;
    if rows == [] {
      NothingLasts(selected, low, high);
    } else {
      TalliedLasting(rows[..|rows| - 1], selected, name, low, high);
      LastingNext(rows, selected, low, high);
    }
  }

  lemma NothingLasts(selected: Selection, low: real, high: Option<real>)
    ensures Lasting([], selected, low, high) == {}
  {
  }

  lemma LastingNext(rows: seq<Row>, selected: Selection, low: real, high: Option<real>)
    requires rows != []
    ensures |Lasting(rows, selected, low, high)| == |Lasting(rows[..|rows| - 1], selected, low, high)|
      + One(Lasts(rows[|rows| - 1], low, high) && Passes(rows[|rows| - 1], selected, Duration))
  {
    hide Passes, Lasts, Lasting;
    LastingGrows(rows, selected, low, high);
  }

  lemma LastingGrows(rows: seq<Row>, selected: Selection, low: real, high: Option<real>)
    requires rows != []
    ensures
      var n := |rows| - 1;
      && n !in Lasting(rows[..n], selected, low, high)
      && Lasting(rows, selected, low, high) == Lasting(rows[..n], selected, low, high)
           + if Lasts(rows[n], low, high) && Passes(rows[n], selected, Duration) then {n} else {}
  {
    hide Passes, Lasts;
    var n := |rows| - 1;
    assert forall i :: 0 <= i < n ==> rows[..n][i] == rows[i];
  }

  /** The number beside a band is that of the rows as long as it says. */
  lemma BandListCounts(rows: seq<Row>, selected: Selection)
    ensures BandList(rows, selected)
         == Nonzero("under_10", |Lasting(rows, selected, 0.0, Some(600.0))|) + Nonzero("10_20", |Lasting(rows, selected, 600.0, Some(1200.0))|)
          + Nonzero("20_40", |Lasting(rows, selected, 1200.0, Some(2400.0))|) + Nonzero("over_40", |Lasting(rows, selected, 2400.0, None)|)
  {
    BandNames();
    hide Lasting, Tallied, InBand, Lasts;
    TalliedLasting(rows, selected, "under_10", 0.0, Some(600.0));
    TalliedLasting(rows, selected, "10_20", 600.0, Some(1200.0));
    TalliedLasting(rows, selected, "20_40", 1200.0, Some(2400.0));
    TalliedLasting(rows, selected, "over_40", 2400.0, None);
  }

  lemma BandNames()
    ensures forall row :: InBand(row, "under_10") <==> Lasts(row, 0.0, Some(600.0))
    ensures forall row :: InBand(row, "10_20") <==> Lasts(row, 600.0, Some(1200.0))
    ensures forall row :: InBand(row, "20_40") <==> Lasts(row, 1200.0, Some(2400.0))
    ensures forall row :: InBand(row, "over_40") <==> Lasts(row, 2400.0, None)
  {
    assert "under_10"[0] == 'u' && "10_20"[0] == '1' && "20_40"[0] == '2' && "over_40"[0] == 'o';
  }

  /** The duration list, in the designed order of the bands. */
  function InDesignOrder(durations: map<string, nat>): seq<FacetValue>
  {
    Nonzero(BANDS[0], At(durations, BANDS[0])) + Nonzero(BANDS[1], At(durations, BANDS[1])) +
    Nonzero(BANDS[2], At(durations, BANDS[2])) + Nonzero(BANDS[3], At(durations, BANDS[3]))
  }

  /** `_rating_order`. */
  function ByFloor(ratings: map<string, nat>): seq<FacetValue>
  {
    Nonzero("5", At(ratings, "5")) + Nonzero("4", At(ratings, "4")) + Nonzero("3", At(ratings, "3")) +
    Nonzero(UNRATED, At(ratings, UNRATED))
  }

  lemma DurationItems(durations: map<string, nat>, rows: seq<Row>, selected: Selection)
    requires Counts(durations, rows, selected, Bands)
    ensures InDesignOrder(durations) == BandList(rows, selected)
  {
  }

  lemma RatingItems(ratings: map<string, nat>, rows: seq<Row>, selected: Selection)
    requires RatingCounts(ratings, rows, selected)
    ensures ByFloor(ratings) == RatingList(rows, selected)
  {
  }

  method CountStudio(counter: map<string, nat>, rows: seq<Row>, n: nat, selected: Selection) returns (after: map<string, nat>)
    requires n < |rows| && Counts(counter, rows[..n], selected, Studios)
    ensures Counts(after, rows[..n + 1], selected, Studios)
  {
    var row := rows[n];
    after := counter;
    if row.studio.Some? && Matches(row, selected, Studio) { after := Add(counter, row.studio.value); }
    MatchesMeans(row, selected, Studio);
    hide Matches, Passes, Tallied;
    CountsNext(counter, after, rows, n, selected, Studios);
  }

  method CountResolution(counter: map<string, nat>, rows: seq<Row>, n: nat, selected: Selection) returns (after: map<string, nat>)
    requires n < |rows| && Counts(counter, rows[..n], selected, Resolutions)
    ensures Counts(after, rows[..n + 1], selected, Resolutions)
  {
    var row := rows[n];
    after := counter;
    if row.resolution.Some? && Matches(row, selected, Resolution) { after := Add(counter, row.resolution.value); }
    MatchesMeans(row, selected, Resolution);
    hide Matches, Passes, Tallied;
    CountsNext(counter, after, rows, n, selected, Resolutions);
  }

  method CountBand(counter: map<string, nat>, rows: seq<Row>, n: nat, selected: Selection) returns (after: map<string, nat>)
    requires n < |rows| && Counts(counter, rows[..n], selected, Bands)
    ensures Counts(after, rows[..n + 1], selected, Bands)
  {
    hide Matches, Tallied, Passes, InBand, DurationBand;
    var row := rows[n];
    MatchesMeans(row, selected, Duration);
    forall name ensures DurationBand(row.duration) == Some(name) <==> InBand(row, name) { BandMeans(row, name); }
    after := counter;
    if Matches(row, selected, Duration) {
      var band := DurationBand(row.duration);
      if band.Some? { after := Add(counter, band.value); }
    }
    CountsNext(counter, after, rows, n, selected, Bands);
  }

  method CountRatings(counter: map<string, nat>, rows: seq<Row>, n: nat, selected: Selection) returns (after: map<string, nat>)
    requires n < |rows| && RatingCounts(counter, rows[..n], selected)
    ensures RatingCounts(after, rows[..n + 1], selected)
  {
    hide Matches, Passes, Tallied, RatedFrom, At, FloorName;
    var row := rows[n];
    MatchesMeans(row, selected, Rating);
    after := counter;
    if Matches(row, selected, Rating) { after := CountRating(counter, row.rating); }
    RatingCountsNext(counter, after, rows, n, selected);
  }

  method CountAllTags(counter: map<string, nat>, rows: seq<Row>, n: nat, selected: Selection) returns (after: map<string, nat>)
    requires n < |rows| && Counts(counter, rows[..n], selected, Tags)
    ensures Counts(after, rows[..n + 1], selected, Tags)
  {
    hide Matches, Passes, Tallied, At;
    var row := rows[n];
    MatchesMeans(row, selected, Tag);
    after := counter;
    if Matches(row, selected, Tag) { after := CountTags(counter, row.tags); }
    CountsNext(counter, after, rows, n, selected, Tags);
  }

  // ---- the promise ----

  /** A listed value of an open dimension is the number of titles its selection will show; a value that
      is not listed would show none. */
  lemma ListedCountsKept(rows: seq<Row>, selected: Selection, f: Facets, kind: Kind, values: seq<FacetValue>, name: string, g: Facets)
    requires IsTally(rows, selected, f) && IsTally(rows, Select(selected, FacetFor(kind, name)), g)
    requires values == (match kind case Studios => f.studio case Resolutions => f.resolution case Bands => f.duration case Tags => f.tag)
    ensures g.matched > 0 <==> FacetValue(name, g.matched) in values
    ensures g.matched == 0 <==> forall v :: v in values ==> v.value != name
  {
    TalliedIsMatched(rows, selected, FacetFor(kind, name));
    if kind.Bands? { BandListLists(rows, selected); }
    assert Lists(values, rows, selected, kind);
    hide Tallied, Matched, Ranked, BandList, RatingList;
  }

  /** The duration list, too, holds each band with titles, and nothing else. */
  lemma BandListLists(rows: seq<Row>, selected: Selection)
    ensures Lists(BandList(rows, selected), rows, selected, Bands)
  {
    forall name | Tallied(rows, selected, BandIs(name)) > 0 ensures name in BANDS { BandsOnly(rows, selected, name); }
    hide Tallied;
    BandListHolds(rows, selected);
    hide BandList;
    forall name | Tallied(rows, selected, FacetFor(Bands, name)) > 0
      ensures FacetValue(name, Tallied(rows, selected, FacetFor(Bands, name))) in BandList(rows, selected)
    {
      assert FacetFor(Bands, name) == BandIs(name);
    }
    forall v | v in BandList(rows, selected) ensures v.count == Tallied(rows, selected, FacetFor(Bands, v.value)) && v.count > 0 {
      assert FacetFor(Bands, v.value) == BandIs(v.value);
    }
  }

  lemma BandListHolds(rows: seq<Row>, selected: Selection)
    ensures forall v :: v in BandList(rows, selected) <==>
      v.value in BANDS && v.count == Tallied(rows, selected, BandIs(v.value)) && v.count > 0
  {
  }

  lemma {:induction false} BandsOnly(rows: seq<Row>, selected: Selection, name: string)
    requires Tallied(rows, selected, BandIs(name)) > 0
    ensures name in BANDS
  {
    if !Counted(rows[|rows| - 1], selected, BandIs(name)) {
      BandsOnly(rows[..|rows| - 1], selected, name);
    }
  }

  /** A rating floor shows the number of titles it will leave, and is missing when that is none. */
  lemma RatingCountsKept(rows: seq<Row>, selected: Selection, f: Facets, floor: int, g: Facets)
    requires floor in RATING_FLOORS
    requires IsTally(rows, selected, f) && IsTally(rows, selected.(rating := Some(floor)), g)
    ensures g.matched > 0 <==> FacetValue(FloorName(floor), g.matched) in f.rating
    ensures g.matched == 0 <==> forall v :: v in f.rating ==> v.value != FloorName(floor)
  {
    hide Tallied, Matched, Ranked, Lists, BandList, RatingList;
    TalliedIsMatched(rows, selected, RatedAtLeast(floor));
    RatingListHolds(rows, selected);
    var shown := FacetValue(FloorName(floor), g.matched);
    assert RatingListed(rows, selected, floor, g.matched);
    forall v | v in f.rating && v.value == FloorName(floor) ensures v.count == g.matched && v.count > 0 {
      assert RatingListed(rows, selected, floor, v.count);
    }
  }

  ghost predicate RatingListed(rows: seq<Row>, selected: Selection, floor: int, count: nat)
  {
    FacetValue(FloorName(floor), count) in RatingList(rows, selected)
    <==> count == Tallied(rows, selected, RatedAtLeast(floor)) && count > 0
  }

  lemma RatingListHolds(rows: seq<Row>, selected: Selection)
    ensures forall floor, count :: floor in RATING_FLOORS ==> RatingListed(rows, selected, floor, count)
  {
  }
}
