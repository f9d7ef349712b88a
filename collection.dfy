/**
 * The operations on a whole collection of samples (`LocationsExt` on
 * `Vec<Location>`). The collection is a sequence value; each filter consumes
 * one sequence and yields another.
 */
module Collection {
  import opened Wrappers
  import opened Sorting
  import opened Sequences
  import opened Observations
  import opened Records

  /** Why a call panics. */
  datatype Panic = DivideByZero | IndexOutOfBounds

  /** The label matcher (brace alternation and `*`), a foreign library taken as a parameter. */
  type Glob = (string, string) -> bool

  /**
   * The key the collection is ordered and searched by: the full instant in
   * milliseconds, as `DateTime` values compare, not its whole seconds.
   */
  function TimeOf(loc: Location): int {
    loc.timestamp
  }

  /** The collection invariant: ascending by timestamp. */
  ghost predicate Chronological(s: seq<Location>) {
    SortedBy(s, TimeOf)
  }

  // ---------------------------------------------------------------------------
  // sort_chronological

  /** `sort_chronological`: a stable sort on the timestamps. */
  function SortChronological(s: seq<Location>): seq<Location> {
    SortBy(s, TimeOf)
  }

  /**
   * The result is ascending, holds the same samples, keeps samples with equal
   * timestamps in their input order, and sorting again changes nothing.
   */
  lemma SortChronologicalSpec(s: seq<Location>)
    ensures Chronological(SortChronological(s))
    ensures multiset(SortChronological(s)) == multiset(s)
    ensures StableOrderOf(SortChronological(s), s, TimeOf)
    ensures SortChronological(SortChronological(s)) == SortChronological(s)
  {
    SortByIsStableSort(s, TimeOf);
    SortByIdempotent(s, TimeOf);
  }

  // ---------------------------------------------------------------------------
  // average_time

  /** Integer division rounding toward zero, as `/` on `i64` does. */
  function TruncDiv(a: int, b: int): (q: int)
    requires b > 0
    ensures a >= 0 ==> 0 <= a - q * b < b
    ensures a < 0 ==> -b < a - q * b <= 0
  {
    if a >= 0 then a / b else -((-a) / b)
  }

  /**
   * `average_time`: the sum of the gaps between neighbours in whole seconds,
   * later minus earlier, divided by the number of samples (not the number of
   * gaps). The gaps telescope, so only the first and last whole-second times
   * matter. An empty collection divides by zero.
   */
  method AverageTime(s: seq<Location>) returns (r: Result<int, Panic>)
    ensures |s| == 0 ==> r == Err(DivideByZero)
    ensures |s| > 0 ==> r == Ok(TruncDiv(WholeSeconds(s[|s| - 1].timestamp) - WholeSeconds(s[0].timestamp), |s|))
    ensures |s| > 0 && Chronological(s) ==> r.Ok? && r.value >= 0
  {
    var time := 0;
    var i := 1;
    while i < |s|
      invariant |s| > 0 ==> 1 <= i <= |s| && time == WholeSeconds(s[i - 1].timestamp) - WholeSeconds(s[0].timestamp)
      invariant |s| == 0 ==> time == 0
    {
      time := time + (WholeSeconds(s[i].timestamp) - WholeSeconds(s[i - 1].timestamp));
      i := i + 1;
    }
    if |s| == 0 {
      return Err(DivideByZero);
    }
    if Chronological(s) {
      assert TimeOf(s[0]) <= TimeOf(s[|s| - 1]) || |s| == 1;
      WholeSecondsMonotone(s[0].timestamp, s[|s| - 1].timestamp);
    }
    return Ok(TruncDiv(time, |s|));
  }

  // ---------------------------------------------------------------------------
  // find_closest

  /**
   * `binary_search_by` on the full times of an ascending collection: either
   * the index of some sample at the millisecond `t`, or the index at which
   * `t` would be inserted.
   */
  method BinarySearch(s: seq<Location>, t: int) returns (r: Result<nat, nat>)
    requires Chronological(s)
    ensures r.Ok? ==> r.value < |s| && s[r.value].timestamp == t
    ensures r.Err? ==>
      && r.error <= |s|
      && (forall j :: 0 <= j < r.error ==> s[j].timestamp < t)
      && (forall j :: r.error <= j < |s| ==> s[j].timestamp > t)
  {
    var lo, hi := 0, |s|;
    while lo < hi
      invariant 0 <= lo <= hi <= |s|
      invariant forall j :: 0 <= j < lo ==> s[j].timestamp < t
      invariant forall j :: hi <= j < |s| ==> s[j].timestamp > t
      decreases hi - lo
    {
      var mid := lo + (hi - lo) / 2;
      if s[mid].timestamp < t {
        forall j | 0 <= j <= mid ensures s[j].timestamp < t {
          assert j < mid ==> TimeOf(s[j]) <= TimeOf(s[mid]);
        }
        lo := mid + 1;
      } else if s[mid].timestamp > t {
        forall j | mid <= j < |s| ensures s[j].timestamp > t {
          assert mid < j ==> TimeOf(s[mid]) <= TimeOf(s[j]);
        }
        hi := mid;
      } else {
        return Ok(mid);
      }
    }
    return Err(lo);
  }

  /**
   * `find_closest`: a sample at exactly the millisecond `t` if there is one; otherwise
   * the first sample after `t`, but only when `t` falls strictly between the
   * first and the last sample; otherwise nothing.
   */
  method FindClosest(s: seq<Location>, t: int) returns (r: Option<Location>)
    requires Chronological(s)
    ensures (exists j :: 0 <= j < |s| && s[j].timestamp == t) ==>
      r.Some? && r.value in s && r.value.timestamp == t
    ensures (forall j :: 0 <= j < |s| ==> s[j].timestamp != t) ==>
      (r.Some? <==> |s| > 0 && s[0].timestamp < t < s[|s| - 1].timestamp)
    ensures (forall j :: 0 <= j < |s| ==> s[j].timestamp != t) && r.Some? ==>
      exists i :: 0 < i < |s| && r.value == s[i] && s[i - 1].timestamp < t < s[i].timestamp
  {
    var result := BinarySearch(s, t);
    var index: Option<nat>;
    match result {
      case Ok(x) =>
        index := Some(x);
      case Err(x) =>
        index := if x > 0 && x < |s| then Some(x) else None;
    }
    if index.Some? && index.value < |s| {
      if result.Err? {
        assert s[index.value - 1].timestamp < t < s[index.value].timestamp;
      }
      return Some(s[index.value]);
    }
    return None;
  }

  // ---------------------------------------------------------------------------
  // filter_outliers

  /** The pass keeps `candidate` after `tail` when its speed is unknown or below 300 km/h. */
  predicate Admits(candidate: Location, tail: Location, distance: Distance) {
    match SpeedKmh(candidate, tail, distance)
    case Some(speed) => speed < 300.0
    case None => true
  }

  /**
   * The gate: a candidate not strictly later than the tail in whole seconds,
   * or 600 whole seconds or more after it, is always kept; one inside the window is kept exactly when it
   * covered less than 300 km/h, i.e. 3.6 times its distance in meters is less
   * than 300 times its gap in seconds.
   */
  lemma AdmitsGate(candidate: Location, tail: Location, distance: Distance)
    ensures var gap := Gap(candidate, tail);
      && (gap <= 0 || gap >= 600 ==> Admits(candidate, tail, distance))
      && (0 < gap < 600 ==>
            (Admits(candidate, tail, distance) <==>
             3.6 * HaversineDistance(candidate, tail, distance) < 300.0 * gap as real))
  {
    var gap := Gap(candidate, tail);
    if 0 < gap < 600 {
      var speed := SpeedKmh(candidate, tail, distance).value;
      SpeedKmhScaled(candidate, tail, distance);
      ScaleByPositive(speed, 300.0, gap as real);
    }
  }

  lemma ScaleByPositive(a: real, b: real, g: real)
    requires g > 0.0
    ensures a < b <==> a * g < b * g
  {
    assert a * g - b * g == (a - b) * g;
    if a < b {
      assert (b - a) * g > 0.0;
    } else {
      assert (a - b) * g >= 0.0;
    }
  }

  /**
   * What the pass has kept after examining `candidates` in order, starting
   * from `kept`: each candidate is compared with the last sample kept so far.
   */
  function Retain(kept: seq<Location>, candidates: seq<Location>, distance: Distance): (r: seq<Location>)
    requires kept != []
    ensures |kept| <= |r| && r[..|kept|] == kept
  {
    if candidates == [] then kept
    else
      var before := Retain(kept, candidates[..|candidates| - 1], distance);
      var candidate := candidates[|candidates| - 1];
      Keep(before, candidate, distance)
  }

  /** One step of the pass: the candidate is appended when the gate admits it against the last kept sample. */
  function Keep(before: seq<Location>, candidate: Location, distance: Distance): (after: seq<Location>)
    requires before != []
    ensures after == before + [candidate] || after == before
  {
    if Admits(candidate, before[|before| - 1], distance) then before + [candidate] else before
  }

  /** One step of the pass, in terms of the gate. */
  lemma RetainStep(kept: seq<Location>, candidates: seq<Location>, candidate: Location, distance: Distance)
    requires kept != []
    ensures var before := Retain(kept, candidates, distance);
      var gap := Gap(candidate, before[|before| - 1]);
      && (gap <= 0 || gap >= 600 ==> Retain(kept, candidates + [candidate], distance) == before + [candidate])
      && (0 < gap < 600 ==>
            Retain(kept, candidates + [candidate], distance)
              == if 3.6 * HaversineDistance(candidate, before[|before| - 1], distance) < 300.0 * gap as real
                 then before + [candidate] else before)
  {
    var before := Retain(kept, candidates, distance);
    var tail := before[|before| - 1];
    RetainUnfold(kept, candidates, candidate, distance);
    AdmitsGate(candidate, tail, distance);
    assert Keep(before, candidate, distance) == if Admits(candidate, tail, distance) then before + [candidate] else before;
  }

  lemma RetainUnfold(kept: seq<Location>, candidates: seq<Location>, candidate: Location, distance: Distance)
    requires kept != []
    ensures Retain(kept, candidates + [candidate], distance) == Keep(Retain(kept, candidates, distance), candidate, distance)
  {
    assert (candidates + [candidate])[..|candidates|] == candidates;
  }

  /** Each step of the pass appends the candidate or nothing. */
  lemma RetainAppends(kept: seq<Location>, candidates: seq<Location>, distance: Distance)
    requires kept != [] && candidates != []
    ensures var before := Retain(kept, candidates[..|candidates| - 1], distance);
      var after := Retain(kept, candidates, distance);
      after == before + [candidates[|candidates| - 1]] || after == before
  {
  }

  /** Appending a candidate or nothing keeps the tail a subsequence of the extended candidates. */
  lemma AppendKeepsSubsequence(n: nat, before: seq<Location>, after: seq<Location>, init: seq<Location>, candidate: Location)
    requires n <= |before| && IsSubsequence(before[n..], init)
    requires after == before + [candidate] || after == before
    ensures IsSubsequence(after[n..], init + [candidate])
  {
    SubsequenceOfExtension(before[n..], init, candidate);
    if after == before + [candidate] {
      assert after[n..] == before[n..] + [candidate];
    }
  }

  /** What the pass adds after `kept` is a subsequence of the candidates. */
  lemma {:induction false} RetainIsSubsequence(kept: seq<Location>, candidates: seq<Location>, distance: Distance)
    requires kept != []
    ensures IsSubsequence(Retain(kept, candidates, distance)[|kept|..], candidates)
  {
    if candidates != [] {
      var init := candidates[..|candidates| - 1];
      var candidate := candidates[|candidates| - 1];
      RetainIsSubsequence(kept, init, distance);
      RetainAppends(kept, candidates, distance);
      AppendKeepsSubsequence(|kept|, Retain(kept, init, distance), Retain(kept, candidates, distance), init, candidate);
      assert init + [candidate] == candidates;
    }
  }

  /**
   * `filter_outliers`: the pass seeds its result with the first sample and
   * then examines every sample, the first one included; the kept samples are
   * then sorted. An empty collection panics on the first index.
   */
  method FilterOutliers(s: seq<Location>, distance: Distance) returns (r: Result<seq<Location>, Panic>)
    ensures |s| == 0 ==> r == Err(IndexOutOfBounds)
    ensures |s| > 0 ==> r == Ok(SortChronological(Retain([s[0]], s, distance)))
  {
    if |s| == 0 {
      return Err(IndexOutOfBounds);
    }
    var tmp := [s[0]];
    for i := 0 to |s|
      invariant tmp == Retain([s[0]], s[..i], distance)
    {
      assert s[..i + 1][..i] == s[..i];
      var location := s[i];
      var speed := SpeedKmh(location, tmp[|tmp| - 1], distance);
      if speed.Some? {
        if speed.value < 300.0 {
          tmp := tmp + [location];
        }
      } else {
        tmp := tmp + [location];
      }
    }
    assert s[..|s|] == s;
    return Ok(SortChronological(tmp));
  }

  /**
   * The first sample is compared with itself (a gap of 0 s, so its speed is
   * unknown) and is therefore kept twice.
   */
  lemma FirstSampleKeptTwice(s: seq<Location>, distance: Distance)
    requires |s| > 0
    ensures |Retain([s[0]], s, distance)| >= 2 && Retain([s[0]], s, distance)[..2] == [s[0], s[0]]
  {
    RetainPrefix([s[0]], s[..1], s, distance);
    assert s[..1][..0] == [];
    assert Retain([s[0]], s[..1], distance) == [s[0], s[0]];
  }

  /** Examining more candidates only appends to what was kept. */
  lemma {:induction false} RetainPrefix(kept: seq<Location>, a: seq<Location>, b: seq<Location>, distance: Distance)
    requires kept != [] && a <= b
    ensures var ra := Retain(kept, a, distance);
      |ra| <= |Retain(kept, b, distance)| && Retain(kept, b, distance)[..|ra|] == ra
    decreases |b|
  {
    if |a| < |b| {
      var init := b[..|b| - 1];
      RetainPrefix(kept, a, init, distance);
      var rInit := Retain(kept, init, distance);
      assert Retain(kept, b, distance)[..|rInit|] == rInit;
    } else {
      assert a == b;
    }
  }

  /** Beyond the seed, the pass keeps only input samples, each at most as often as the input has it. */
  lemma RetainMultiset(s: seq<Location>, distance: Distance)
    requires |s| > 0
    ensures multiset(Retain([s[0]], s, distance)) <= multiset(s) + multiset{s[0]}
  {
    RetainIsSubsequence([s[0]], s, distance);
    SeededSubsequence(Retain([s[0]], s, distance), s);
  }

  lemma SeededSubsequence(kept: seq<Location>, s: seq<Location>)
    requires |s| > 0 && |kept| >= 1 && kept[..1] == [s[0]] && IsSubsequence(kept[1..], s)
    ensures multiset(kept) <= multiset(s) + multiset{s[0]}
  {
    SubsequenceMultiset(kept[1..], s);
    assert kept == [s[0]] + kept[1..];
  }

  lemma CountsTwice(kept: seq<Location>, x: Location)
    requires |kept| >= 2 && kept[..2] == [x, x]
    ensures multiset(kept)[x] >= 2
  {
    assert kept == [x, x] + kept[2..];
  }

  /**
   * The result of `filter_outliers` is ascending, holds only input samples,
   * holds no more copies of a sample than the input plus one extra copy of
   * the first sample, and holds the first sample at least twice.
   */
  lemma FilterOutliersSpec(s: seq<Location>, distance: Distance)
    requires |s| > 0
    ensures var r := SortChronological(Retain([s[0]], s, distance));
      && Chronological(r)
      && multiset(r) <= multiset(s) + multiset{s[0]}
      && multiset(r)[s[0]] >= 2
      && (forall x :: x in r ==> x in s)
  {
    var kept := Retain([s[0]], s, distance);
    var r := SortChronological(kept);
    SortChronologicalSpec(kept);
    RetainMultiset(s, distance);
    FirstSampleKeptTwice(s, distance);
    CountsTwice(kept, s[0]);
    forall x | x in r ensures x in s {
      assert x in multiset(r);
    }
  }

  // ---------------------------------------------------------------------------
  // Order-preserving selection, shared by the activity and distance filters

  function Select<T>(s: seq<T>, keep: T -> bool): seq<T> {
    if s == [] then []
    else Select(s[..|s| - 1], keep) + (if keep(s[|s| - 1]) then [s[|s| - 1]] else [])
  }

  /** A selection keeps exactly the elements satisfying `keep`, each as often as before, in order. */
  lemma {:induction false} SelectSpec<T>(s: seq<T>, keep: T -> bool)
    ensures IsSubsequence(Select(s, keep), s)
    ensures forall x :: multiset(Select(s, keep))[x] == if keep(x) then multiset(s)[x] else 0
  {
    if s != [] {
      var init := s[..|s| - 1];
      var last := s[|s| - 1];
      SelectSpec(init, keep);
      assert init + [last] == s;
      SubsequenceOfExtension(Select(init, keep), init, last);
      if !keep(last) {
        assert Select(s, keep) == Select(init, keep);
      }
    }
  }

  // ---------------------------------------------------------------------------
  // filter_by_activity

  /**
   * `max_by_key` on confidence over a non-empty list: the index of a pair of
   * largest confidence, the last one among equals.
   */
  function LastMaxIndex(list: seq<Activity>): (i: nat)
    requires list != []
    ensures i < |list|
    ensures forall j :: 0 <= j < |list| ==> list[j].confidence <= list[i].confidence
    ensures forall j :: i < j < |list| ==> list[j].confidence < list[i].confidence
  {
    if |list| == 1 then 0
    else
      var i := LastMaxIndex(list[..|list| - 1]);
      if list[|list| - 1].confidence >= list[i].confidence then |list| - 1 else i
  }

  /** The observation's pair of largest confidence has a label that `pattern` matches. */
  predicate TopMatches(obs: Activities, pattern: string, matches: Glob) {
    obs.activities != [] && matches(pattern, obs.activities[LastMaxIndex(obs.activities)].activityType)
  }

  /** A sample is selected when some observation's top pair matches; one without observations never is. */
  predicate SelectedByActivity(loc: Location, pattern: string, matches: Glob) {
    loc.activities.Some?
    && exists k :: 0 <= k < |loc.activities.value| && TopMatches(loc.activities.value[k], pattern, matches)
  }

  function ActivityFilter(pattern: string, matches: Glob): Location -> bool {
    loc => SelectedByActivity(loc, pattern, matches)
  }

  /**
   * `filter_by_activity`: the samples some observation of which has a
   * top pair matching `pattern`, each once, sorted by time.
   */
  method FilterByActivity(s: seq<Location>, pattern: string, matches: Glob) returns (r: seq<Location>)
    ensures r == SortChronological(Select(s, ActivityFilter(pattern, matches)))
  {
    var tmp: seq<Location> := [];
    for i := 0 to |s|
      invariant tmp == Select(s[..i], ActivityFilter(pattern, matches))
    {
      assert s[..i + 1][..i] == s[..i];
      var location := s[i];
      if location.activities.Some? {
        var observations := location.activities.value;
        var k := 0;
        while k < |observations|
          invariant 0 <= k <= |observations|
          invariant forall j :: 0 <= j < k ==> !TopMatches(observations[j], pattern, matches)
        {
          var list := observations[k].activities;
          if list != [] {
            var top := list[LastMaxIndex(list)];
            if matches(pattern, top.activityType) {
              tmp := tmp + [location];
              break;
            }
          }
          k := k + 1;
        }
      }
    }
    assert s[..|s|] == s;
    r := SortChronological(tmp);
  }

  lemma FilterByActivitySpec(s: seq<Location>, pattern: string, matches: Glob)
    ensures var r := SortChronological(Select(s, ActivityFilter(pattern, matches)));
      && Chronological(r)
      && (forall x :: multiset(r)[x] == if SelectedByActivity(x, pattern, matches) then multiset(s)[x] else 0)
      && (forall x :: x in r <==> x in s && SelectedByActivity(x, pattern, matches))
      && (forall x :: x in r ==> x.activities.Some?)
  {
    var selected := Select(s, ActivityFilter(pattern, matches));
    SelectSpec(s, ActivityFilter(pattern, matches));
    SortChronologicalSpec(selected);
    var r := SortChronological(selected);
    forall x ensures x in r <==> x in s && SelectedByActivity(x, pattern, matches) {
      assert x in r <==> x in multiset(r);
      assert x in s <==> x in multiset(s);
    }
  }

  // ---------------------------------------------------------------------------
  // filter_by_distance

  function DistanceFilter(point: Point, radius: real, distance: Distance): Location -> bool {
    loc => distance(ToPoint(loc), point) < radius
  }

  /**
   * `filter_by_distance`: exactly the samples strictly closer than `radius`
   * meters to `point`, in input order (no sorting).
   */
  method FilterByDistance(s: seq<Location>, point: Point, radius: real, distance: Distance)
    returns (r: seq<Location>)
    ensures IsSubsequence(r, s)
    ensures forall x :: multiset(r)[x] == if distance(ToPoint(x), point) < radius then multiset(s)[x] else 0
    ensures forall x :: x in r <==> x in s && distance(ToPoint(x), point) < radius
  {
    var tmp: seq<Location> := [];
    for i := 0 to |s|
      invariant tmp == Select(s[..i], DistanceFilter(point, radius, distance))
    {
      assert s[..i + 1][..i] == s[..i];
      var location := s[i];
      if distance(ToPoint(location), point) < radius {
        tmp := tmp + [location];
      }
    }
    assert s[..|s|] == s;
    r := tmp;
    SelectSpec(s, DistanceFilter(point, radius, distance));
    forall x ensures x in r <==> x in s && distance(ToPoint(x), point) < radius {
      assert x in r <==> x in multiset(r);
      assert x in s <==> x in multiset(s);
    }
  }

  // ---------------------------------------------------------------------------
  // list_activities

  ghost function ListLabels(list: seq<Activity>): set<string> {
    if list == [] then {} else ListLabels(list[..|list| - 1]) + {list[|list| - 1].activityType}
  }

  ghost function ObservationLabels(obs: seq<Activities>): set<string> {
    if obs == [] then {} else ObservationLabels(obs[..|obs| - 1]) + ListLabels(obs[|obs| - 1].activities)
  }

  /** Every label of every pair of every observation of every sample. */
  ghost function Labels(s: seq<Location>): set<string> {
    if s == [] then {} else Labels(s[..|s| - 1]) + ObservationLabels(ObservationsOf(s[|s| - 1]))
  }

  /**
   * `list_activities`: every label that occurs, once each, in no particular
   * order (the order a hash set yields them in).
   */
  method ListActivities(s: seq<Location>) returns (r: seq<string>)
    ensures Distinct(r)
    ensures forall x :: x in r <==> x in Labels(s)
  {
    var activitiesSet: set<string> := {};
    for i := 0 to |s|
      invariant activitiesSet == Labels(s[..i])
    {
      assert s[..i + 1][..i] == s[..i];
      if s[i].activities.Some? {
        var observations := s[i].activities.value;
        for k := 0 to |observations|
          invariant activitiesSet == Labels(s[..i]) + ObservationLabels(observations[..k])
        {
          assert observations[..k + 1][..k] == observations[..k];
          var list := observations[k].activities;
          for j := 0 to |list|
            invariant activitiesSet
              == Labels(s[..i]) + ObservationLabels(observations[..k]) + ListLabels(list[..j])
          {
            assert list[..j + 1][..j] == list[..j];
            activitiesSet := activitiesSet + {list[j].activityType};
          }
          assert list[..|list|] == list;
        }
        assert observations[..|observations|] == observations;
      }
    }
    assert s[..|s|] == s;
    r := [];
    var rest := activitiesSet;
    while rest != {}
      invariant rest <= activitiesSet
      invariant forall x :: x in r <==> x in activitiesSet - rest
      invariant Distinct(r)
      decreases rest
    {
      var x :| x in rest;
      forall i | 0 <= i < |r| ensures r[i] != x {
        assert r[i] in r;
      }
      r := r + [x];
      rest := rest - {x};
    }
  }

  lemma {:induction false} ListLabelsMembership(list: seq<Activity>, x: string)
    ensures x in ListLabels(list) <==> exists j :: 0 <= j < |list| && list[j].activityType == x
  {
    if list != [] {
      var init := list[..|list| - 1];
      ListLabelsMembership(init, x);
      if x in ListLabels(init) {
        var j :| 0 <= j < |init| && init[j].activityType == x;
        assert list[j] == init[j];
      }
    }
  }

  lemma {:induction false} ObservationLabelsMembership(obs: seq<Activities>, x: string)
    ensures x in ObservationLabels(obs) <==>
      exists k, j :: 0 <= k < |obs| && 0 <= j < |obs[k].activities| && obs[k].activities[j].activityType == x
  {
    if obs != [] {
      var init := obs[..|obs| - 1];
      var last := obs[|obs| - 1];
      ObservationLabelsMembership(init, x);
      ListLabelsMembership(last.activities, x);
      if x in ObservationLabels(init) {
        var k, j :| 0 <= k < |init| && 0 <= j < |init[k].activities| && init[k].activities[j].activityType == x;
        assert obs[k] == init[k];
      }
      if exists k, j :: 0 <= k < |obs| && 0 <= j < |obs[k].activities| && obs[k].activities[j].activityType == x {
        var k, j :| 0 <= k < |obs| && 0 <= j < |obs[k].activities| && obs[k].activities[j].activityType == x;
        if k < |init| {
          assert init[k] == obs[k];
        }
      }
    }
  }

  /** A label is listed exactly when some pair of some observation of some sample carries it. */
  lemma {:induction false} LabelsMembership(s: seq<Location>, x: string)
    ensures x in Labels(s) <==>
      exists i, k, j :: 0 <= i < |s| && 0 <= k < |ObservationsOf(s[i])|
        && 0 <= j < |ObservationsOf(s[i])[k].activities|
        && ObservationsOf(s[i])[k].activities[j].activityType == x
  {
    if s != [] {
      var init := s[..|s| - 1];
      var last := s[|s| - 1];
      LabelsMembership(init, x);
      ObservationLabelsMembership(ObservationsOf(last), x);
      if x in Labels(init) {
        var i, k, j :| 0 <= i < |init| && 0 <= k < |ObservationsOf(init[i])|
          && 0 <= j < |ObservationsOf(init[i])[k].activities|
          && ObservationsOf(init[i])[k].activities[j].activityType == x;
        assert s[i] == init[i];
      }
      if x in ObservationLabels(ObservationsOf(last)) {
        var k, j :| 0 <= k < |ObservationsOf(last)| && 0 <= j < |ObservationsOf(last)[k].activities|
          && ObservationsOf(last)[k].activities[j].activityType == x;
        assert s[|s| - 1] == last;
      }
      if exists i, k, j ::
           && 0 <= i < |s| && 0 <= k < |ObservationsOf(s[i])|
           && 0 <= j < |ObservationsOf(s[i])[k].activities|
           && ObservationsOf(s[i])[k].activities[j].activityType == x
      {
        var i, k, j :| 0 <= i < |s| && 0 <= k < |ObservationsOf(s[i])|
          && 0 <= j < |ObservationsOf(s[i])[k].activities|
          && ObservationsOf(s[i])[k].activities[j].activityType == x;
        if i < |init| {
          assert init[i] == s[i];
        }
      }
    }
  }
}
