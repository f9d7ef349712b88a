/**
 * One location sample and what is computed from it alone: the speed gate
 * against another sample and the merging of its activity observations.
 */
module Records {
  import opened Wrappers
  import opened ActivityTypes
  import opened Observations
  import opened Sorting
  import opened Sequences

  /** A coordinate pair, as handed to the great-circle distance. */
  datatype Point = Point(x: real, y: real)

  /**
   * The great-circle (haversine) distance in meters between two points. It is
   * computed by a geometry library in floating point; the model takes it as
   * a parameter and only compares its results.
   */
  type Distance = (Point, Point) -> real

  /**
   * A sample: time in milliseconds since the epoch, degrees, optional
   * accuracy and altitude, and its observations.
   */
  datatype Location = Location(
    timestamp: int,
    latitude: real,
    longitude: real,
    accuracy: Option<int>,
    altitude: Option<int>,
    activities: Option<seq<Activities>>)

  /** The point a sample converts to: latitude as x, longitude as y. */
  function ToPoint(loc: Location): Point {
    Point(loc.latitude, loc.longitude)
  }

  function HaversineDistance(loc: Location, other: Location, distance: Distance): real {
    distance(ToPoint(loc), ToPoint(other))
  }

  /**
   * The gap from `other` to `loc` in whole seconds: the difference of the two
   * times rounded down to the second. It is within a second of the exact gap.
   */
  function Gap(loc: Location, other: Location): (gap: int)
    ensures -1000 < gap * 1000 - (loc.timestamp - other.timestamp) < 1000
  {
    WholeSeconds(loc.timestamp) - WholeSeconds(other.timestamp)
  }

  /**
   * `speed_kmh`: the speed from `other` to `loc` in km/h, known only when
   * `loc` is strictly later than `other` by less than ten minutes, counted in
   * whole seconds.
   */
  function SpeedKmh(loc: Location, other: Location, distance: Distance): (speed: Option<real>)
    ensures speed.Some? <==> 0 < Gap(loc, other) < 600
    ensures speed.Some? ==> 0 < loc.timestamp - other.timestamp < 600_000
  {
    var time := Gap(loc, other);
    if 0 < time < 600 then Some(HaversineDistance(loc, other, distance) / time as real * 3.6) else None
  }

  /** A known speed, multiplied by the gap in seconds, is 3.6 times the distance in meters. */
  lemma SpeedKmhScaled(loc: Location, other: Location, distance: Distance)
    ensures var speed := SpeedKmh(loc, other, distance);
      speed.Some? ==> speed.value * Gap(loc, other) as real == 3.6 * HaversineDistance(loc, other, distance)
  {
    var time := Gap(loc, other);
    if 0 < time < 600 {
      var d := HaversineDistance(loc, other, distance);
      assert d / time as real * 3.6 * time as real == 3.6 * d;
    }
  }

  /** The observations of a sample, none when it has no activity field. */
  function ObservationsOf(loc: Location): seq<Activities> {
    if loc.activities.Some? then loc.activities.value else []
  }

  /** All pairs of a list of observations, in order. */
  function Flatten(obs: seq<Activities>): seq<Activity> {
    if obs == [] then [] else Flatten(obs[..|obs| - 1]) + obs[|obs| - 1].activities
  }

  /** `x` is the pair a ranking of `list` shows for its state. */
  ghost predicate IsEntryOf(list: seq<Activity>, x: Activity) {
    TypeOf(x) in TypesIn(list) && x == Activity(Name(TypeOf(x)), SumFor(list, TypeOf(x)))
  }

  /** In how many of `obs` the ranking shows pair `x`. */
  ghost function Occurrences(obs: seq<Activities>, x: Activity): nat {
    if obs == [] then 0
    else Occurrences(obs[..|obs| - 1], x) + (if IsEntryOf(obs[|obs| - 1].activities, x) then 1 else 0)
  }

  lemma RankingCount(list: seq<Activity>, r: seq<Activity>, x: Activity)
    requires Ranks(Totals(list), r)
    ensures multiset(r)[x] == if IsEntryOf(list, x) then 1 else 0
  {
    var m := Totals(list);
    DistinctCount(r, x);
    if IsEntryOf(list, x) {
      assert Entry(m, TypeOf(x)) == x;
    }
  }

  /**
   * `Location::top_activities`: the rankings of all observations put together
   * and sorted by confidence, highest first. A state that occurs in several
   * observations appears once per observation.
   */
  method LocationTopActivities(loc: Location) returns (r: seq<Activity>)
    ensures NonIncreasing(r)
    ensures forall x :: multiset(r)[x] == Occurrences(ObservationsOf(loc), x)
  {
    var result: seq<Activity> := [];
    var obs := ObservationsOf(loc);
    if loc.activities.Some? {
      for k := 0 to |obs|
        invariant forall x :: multiset(result)[x] == Occurrences(obs[..k], x)
      {
        var part := TopActivities(obs[k]);
        assert obs[..k + 1][..k] == obs[..k];
        forall x ensures multiset(part)[x] == if IsEntryOf(obs[k].activities, x) then 1 else 0 {
          RankingCount(obs[k].activities, part, x);
        }
        result := result + part;
      }
      assert obs[..|obs|] == obs;
    }
    r := SortBy(result, NegConfidence);
    SortByIsStableSort(result, NegConfidence);
    SortedByConfidence(r);
  }

  /**
   * The merging step of `merged_activities`: every entry of `m` is added to
   * the entry of the same state in `all`, which starts at 0 when absent.
   */
  method AddTotals(all: map<ActivityType, int>, m: map<ActivityType, int>)
    returns (sum: map<ActivityType, int>)
    ensures sum.Keys == all.Keys + m.Keys
    ensures forall t :: t in sum ==>
      sum[t] == (if t in all then all[t] else 0) + (if t in m then m[t] else 0)
  {
    sum := all;
    var keys := m.Keys;
    while keys != {}
      invariant keys <= m.Keys
      invariant sum.Keys == all.Keys + (m.Keys - keys)
      invariant forall t :: t in sum ==>
        sum[t] == (if t in all then all[t] else 0) + (if t in m.Keys - keys then m[t] else 0)
      decreases keys
    {
      var t :| t in keys;
      sum := sum[t := (if t in sum then sum[t] else 0) + m[t]];
      keys := keys - {t};
    }
  }

  /**
   * `merged_activities`: one observation at the sample's time whose pairs
   * are the totals over all of the sample's observations together, ranked.
   */
  method MergedActivities(loc: Location) returns (merged: Activities)
    ensures merged.timestamp == loc.timestamp
    ensures Ranks(Totals(Flatten(ObservationsOf(loc))), merged.activities)
  {
    var all: map<ActivityType, int> := map[];
    var obs := ObservationsOf(loc);
    if loc.activities.Some? {
      for k := 0 to |obs|
        invariant all == Totals(Flatten(obs[..k]))
      {
        var m := ConfidenceMap(obs[k]);
        var sum := AddTotals(all, m);
        SumOfTotals(sum, Flatten(obs[..k]), obs[k].activities);
        assert obs[..k + 1][..k] == obs[..k];
        all := sum;
      }
      assert obs[..|obs|] == obs;
    }
    var ranked := Rank(all);
    merged := Activities(loc.timestamp, ranked);
  }
}
