# location_history core, modelled in Dafny

This project models the core of `location_history`. That is a Rust library over Google location-history
exports: a collection of location samples (`Location`), each with a timestamp, coordinates and optional
activity observations (`Activities`). Each observation is a timestamped list of (label, confidence)
pairs (`Activity`). The model covers three parts:

- the collection operations of `LocationsExt`: averaging, closest-sample lookup, chronological sort,
  the speed-based outlier filter, and the activity and distance filters;
- the speed gate and the activity merging of `Location`;
- the ranking operations of `Activities`, the per-state totals conversion into a map, and the
  conversions between activity labels and the `ActivityType` enumeration.

Files, one module each:

- `wrappers.dfy`: `Option` and `Result`.
- `sorting.dfy`: a stable insertion sort on a key. It stands for Rust's `slice::sort_by`, and the
  project proves it sorted, a permutation, stable and idempotent.
- `sequences.dfy`: distinctness and subsequence facts shared by the rankings and the filters.
- `activity_type.dfy`: the `ActivityType` enumeration and its label conversions.
- `observations.dfy`: `Activity` and `Activities`, the totals map, the rankings, `top_activity`,
  `seconds_delta` and `is_similar_type`.
- `records.dfy`: `Location`, `speed_kmh`, `Location::top_activities` and `merged_activities`.
- `collection.dfy`: the `LocationsExt` operations on a collection.

How the model represents the source:

- Times are milliseconds since the epoch (`int`), the precision of the export. The collection is
  sorted and searched by this full instant, as `DateTime` values compare. Only the speed gate,
  `average_time` and `seconds_delta` use whole seconds (`DateTime::timestamp`), which the model
  takes as the millisecond time divided by 1000 and rounded down (`WholeSeconds`). Coordinates and
  distances are `real`.
- The great-circle distance is a function parameter (`Distance`), and so is the glob matcher (`Glob`).
- A `Vec<Location>` is a sequence value. Operations that consume the collection return a new
  sequence.
- `HashMap` iteration order is unspecified. The model takes it as an arbitrary choice among the keys
  left to visit, so the ranking methods are specified by the predicate `Ranks`: every state once, by
  name with its total, highest total first. Ties may come in any order.
- Panics are results: an empty collection gives `Err(DivideByZero)` in `average_time` and
  `Err(IndexOutOfBounds)` in `filter_outliers`.

Behaviours of the code a reader might not expect, all kept in the model:

- `speed_kmh` gives a speed only for a gap `0 < gap < 600` in whole seconds. A gap of exactly 600 s
  therefore keeps the candidate unconditionally, and so does a candidate in the same second as the
  last kept sample.
- `filter_outliers` seeds its result with the first sample and then examines every sample, the first
  included. The first sample is compared with itself (gap 0) and is always kept twice.
- `filter_outliers` on an empty collection panics on `self[0]`, as does `average_time` (a division
  by zero).
- `average_time` divides the sum of adjacent deltas, which telescopes to last − first, by the number
  of samples rather than the number of gaps. Division truncates toward zero.
- `filter_by_activity` takes the top pair of an observation with `max_by_key`, which returns the
  last of several equal maxima, not the first.
- `filter_by_distance` keeps input order and does not sort.

## Model

| member | source | states |
|---|---|---|
| ActivityTypes.Name | src/lib.rs:548-562 | every state's label decodes back to that state (`FromName(Name(t)) == t`) |
| ActivityTypes.FromNameKnown | src/lib.rs:524-546 | a label decodes to a state other than UNKNOWN exactly when it is the label of that state; every other string decodes to UNKNOWN |
| ActivityTypes.NameInjective | src/lib.rs:548-562 | distinct states have distinct labels |
| Observations.ConfidenceMap | src/lib.rs:408-428 | the map has one key per state occurring in the list, holding the sum of that state's confidences (`Totals`) |
| Observations.TotalsOfConcat | src/lib.rs:408-428 | the totals of two lists put together have the union of the keys, and each value is the sum of the two totals |
| Observations.Rank | src/lib.rs:367-380 | turning a totals map into a list gives every key once, by label with its total, sorted by total descending |
| Observations.TopActivities | src/lib.rs:361-381 | `Activities::top_activities` ranks the per-state totals of the observation |
| Observations.RanksDistinctTypes | src/lib.rs:361-381 | no two entries of a ranking carry the same state or label |
| Observations.TopActivity | src/lib.rs:348-359 | UNKNOWN/0 for an empty observation; otherwise a state with the highest total, given with its label and total |
| Observations.TopActivityType | src/lib.rs:383-386 | UNKNOWN for an empty observation; otherwise a state with the highest total |
| Observations.WholeSeconds | src/lib.rs:389 | the whole seconds of a millisecond time are rounded down: at most the time, and less than a second below it |
| Observations.SecondsDelta | src/lib.rs:388-390 | the whole-second delta is within one second of the exact difference of the two instants, and its sign never contradicts their order |
| Observations.IsSimilarType | src/lib.rs:392-403 | true only if a top state of `acts` occurs in `other` with fewer than three states strictly above it; always true when every top state has at most three states at or above it |
| Observations.AnyWithLabel | src/lib.rs:397-402 | the scan finds a match exactly when some entry carries the label |
| Observations.AboveBound | src/lib.rs:395 | at index i of a ranking (counting from 0), at most i states have a strictly larger total than the entry there |
| Observations.AtLeastBound | src/lib.rs:395 | at index j of a ranking (counting from 0), more than j states have a total at least as large as the entry there |
| Records.Gap | src/lib.rs:278 | the gap in whole seconds is within one second of the exact difference of the two instants |
| Records.SpeedKmh | src/lib.rs:276-287 | a speed exists exactly when the whole-second gap is strictly positive and below 600, and then the exact gap is below 600 000 ms |
| Records.SpeedKmhScaled | src/lib.rs:276-287 | a known speed times the gap in seconds is 3.6 times the distance in meters |
| Records.LocationTopActivities | src/lib.rs:289-304 | the result is ordered by confidence descending, and it holds each pair as often as it is an entry of an observation's ranking |
| Records.RankingCount | src/lib.rs:361-381 | a ranking holds a pair exactly once if it is the entry of its state, otherwise not at all |
| Records.AddTotals | src/lib.rs:321-324 | adding one map into another gives the union of the keys, each value the sum, with a missing key counting 0 |
| Records.MergedActivities | src/lib.rs:306-343 | keeps the sample's timestamp; the result ranks the per-state totals of all the sample's observations together |
| Collection.SortChronologicalSpec | src/lib.rs:89-91 | the sorted collection is ascending by millisecond time, a permutation, stable for equal times, and sorting again changes nothing |
| Sorting.SortByIsStableSort | src/lib.rs:89-91 | the sort orders by the key, is a permutation and keeps equal-key elements in input order |
| Sorting.SortByIdempotent | src/lib.rs:89-91 | sorting a sorted sequence again leaves it unchanged |
| Collection.TruncDiv | src/lib.rs:64 | the quotient truncates toward zero: the remainder has the dividend's sign and is smaller than the divisor |
| Collection.AverageTime | src/lib.rs:59-65 | empty input divides by zero; otherwise the result is (last − first) in whole seconds divided by the number of samples, truncated, and it is non-negative for ascending input |
| Collection.BinarySearch | src/lib.rs:68 | on ascending input, gives an index holding the millisecond time, or the insertion index with every earlier time smaller and every later one larger |
| Collection.FindClosest | src/lib.rs:67-87 | an exact match is returned when present; otherwise a sample exists exactly when the time lies strictly between the first and last timestamps, and it is the first sample after the time |
| Collection.AdmitsGate | src/lib.rs:97-104 | a candidate at a whole-second gap ≤ 0 or ≥ 600 is kept; one inside the window is kept exactly when 3.6 × distance < 300 × gap |
| Collection.Keep | src/lib.rs:97-103 | one step of the pass either appends the candidate or leaves the kept samples unchanged |
| Collection.Retain | src/lib.rs:94-105 | the pass only appends: the samples it started from stay at the front, unchanged |
| Collection.RetainStep | src/lib.rs:96-105 | each step of the pass appends the candidate or drops it, according to the gate against the last kept sample |
| Collection.RetainIsSubsequence | src/lib.rs:96-105 | what the pass adds after the seed is a subsequence of the input |
| Collection.RetainPrefix | src/lib.rs:96-105 | examining more candidates only appends to what was kept |
| Collection.FilterOutliers | src/lib.rs:93-108 | empty input panics on the first index; otherwise the result is the kept samples of the pass seeded with the first sample, sorted by time |
| Collection.FirstSampleKeptTwice | src/lib.rs:94-96 | the first sample opens the result twice: once as the seed, once after being compared with itself |
| Collection.FilterOutliersSpec | src/lib.rs:93-108 | the result is ascending, holds only input samples, no more copies than the input plus one extra copy of the first sample, and the first sample at least twice |
| Collection.SelectSpec | src/lib.rs:110-160 | a filter pass keeps, in order, exactly the elements satisfying its test, each as often as before |
| Collection.LastMaxIndex | src/lib.rs:118 | the chosen pair has the highest confidence, and every later pair has strictly less, so the last of equal maxima is chosen |
| Collection.FilterByActivity | src/lib.rs:110-130 | the result is the input samples selected by the activity test, sorted by time |
| Collection.FilterByActivitySpec | src/lib.rs:110-130 | the result is ascending and holds exactly the samples with an observation whose top pair matches the pattern, each as often as in the input; samples without observations are dropped |
| Collection.FilterByDistance | src/lib.rs:150-160 | the result is a subsequence of the input and holds exactly the samples strictly closer than the radius, each as often as in the input |
| Collection.ListActivities | src/lib.rs:132-148 | the result holds no label twice and holds exactly the labels occurring in the collection |
| Collection.LabelsMembership | src/lib.rs:132-148 | a label is among the collection's labels exactly when some pair of some observation of some sample carries it |

## Left out

- Decoding of the JSON export, including `deserialize`, `deserialize_streaming`, `parse_timestamp` and
  `parse_location`, is not part of this model. Nor is the thread and channel plumbing of streaming.
- The haversine formula is floating-point geometry. It is the parameter `distance`, taken as an
  arbitrary total function. `ToPoint` follows the source in putting the latitude in `x` and the
  longitude in `y`.
- The glob matcher is the parameter `matches`, an arbitrary total predicate on (pattern, label).
- Records.SpeedKmh: computes in exact real arithmetic. The rounding of `f64` is not modelled.
- Collection.AverageTime: does not model `i64` overflow of the differences.
- Times below the millisecond are not modelled. The export gives milliseconds, but a `DateTime`
  can hold nanoseconds, which would also take part in sorting and searching.
- Observations.ConfidenceMap: does not model `i32` overflow of the summed confidences. The same
  applies to Records.AddTotals and Records.MergedActivities.
- Collection.SortChronologicalSpec: the sort works on a sequence value, not in place on a `Vec`.
  Stability is stated because Rust's `sort_by` is stable.
- Observations.Rank: the iteration order of `HashMap` and `HashSet` is unspecified. It is modelled as
  a nondeterministic choice, so the order among equal totals and the order of `list_activities` are
  left open. This is why Observations.TopActivity, Observations.TopActivityType and
  Observations.IsSimilarType are specified only up to ties.
- The `Display` implementations, the `ColoredString` conversion, the command-line program and the
  unit test are presentation or driver code and are not part of this model.
