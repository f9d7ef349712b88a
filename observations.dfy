/**
 * Activity observations: the (label, confidence) pairs reported at one
 * instant, their conversion to per-state totals, and the rankings built from
 * those totals.
 */
module Observations {
  import opened ActivityTypes
  import opened Sorting
  import opened Sequences

  /** One reported pair. The label is kept as read, so it may be a name no state has. */
  datatype Activity = Activity(activityType: string, confidence: int)

  /** One observation: its time in milliseconds since the epoch and the pairs reported at it. */
  datatype Activities = Activities(timestamp: int, activities: seq<Activity>)

  /**
   * The whole seconds since the epoch of a time given in milliseconds, rounded
   * down, also before the epoch (what `DateTime::timestamp` gives).
   */
  function WholeSeconds(millis: int): (seconds: int)
    ensures seconds * 1000 <= millis < seconds * 1000 + 1000
  {
    millis / 1000
  }

  lemma WholeSecondsMonotone(a: int, b: int)
    requires a <= b
    ensures WholeSeconds(a) <= WholeSeconds(b)
  {
  }

  function TypeOf(a: Activity): ActivityType {
    FromName(a.activityType)
  }

  /** The sum of the confidences in `list` whose label decodes to `t`. */
  function SumFor(list: seq<Activity>, t: ActivityType): int {
    if list == [] then 0
    else SumFor(list[..|list| - 1], t)
         + (if TypeOf(list[|list| - 1]) == t then list[|list| - 1].confidence else 0)
  }

  /** The states that some pair of `list` decodes to. */
  ghost function TypesIn(list: seq<Activity>): set<ActivityType> {
    if list == [] then {} else TypesIn(list[..|list| - 1]) + {TypeOf(list[|list| - 1])}
  }

  /** The per-state totals of `list`: one key per occurring state. */
  ghost function Totals(list: seq<Activity>): map<ActivityType, int> {
    map t | t in TypesIn(list) :: SumFor(list, t)
  }

  lemma {:induction false} TypesInMembership(list: seq<Activity>, t: ActivityType)
    ensures t in TypesIn(list) <==> exists i :: 0 <= i < |list| && TypeOf(list[i]) == t
  {
    if list != [] {
      var init := list[..|list| - 1];
      TypesInMembership(init, t);
      if t in TypesIn(init) {
        var i :| 0 <= i < |init| && TypeOf(init[i]) == t;
        assert list[i] == init[i];
      }
    }
  }

  /** A state that does not occur contributes nothing. */
  lemma {:induction false} SumForAbsent(list: seq<Activity>, t: ActivityType)
    requires t !in TypesIn(list)
    ensures SumFor(list, t) == 0
  {
    if list != [] {
      SumForAbsent(list[..|list| - 1], t);
    }
  }

  /** Totals over a concatenation are the sums of the totals of the parts. */
  lemma {:induction false} ConcatTotals(a: seq<Activity>, b: seq<Activity>, t: ActivityType)
    ensures SumFor(a + b, t) == SumFor(a, t) + SumFor(b, t)
    ensures TypesIn(a + b) == TypesIn(a) + TypesIn(b)
  {
    if b == [] {
      assert a + b == a;
    } else {
      var bInit := b[..|b| - 1];
      assert (a + b)[..|a + b| - 1] == a + bInit;
      ConcatTotals(a, bInit, t);
    }
  }

  /** The totals of a concatenation are those of the parts, added state by state. */
  lemma TotalsOfConcat(a: seq<Activity>, b: seq<Activity>)
    ensures (Totals(a + b)).Keys == (Totals(a)).Keys + (Totals(b)).Keys
    ensures forall t :: t in Totals(a + b) ==>
      Totals(a + b)[t] == (if t in Totals(a) then Totals(a)[t] else 0) + (if t in Totals(b) then Totals(b)[t] else 0)
  {
    forall t ensures SumFor(a + b, t) == SumFor(a, t) + SumFor(b, t) && TypesIn(a + b) == TypesIn(a) + TypesIn(b) {
      ConcatTotals(a, b, t);
    }
    forall t | t !in TypesIn(a) ensures SumFor(a, t) == 0 { SumForAbsent(a, t); }
    forall t | t !in TypesIn(b) ensures SumFor(b, t) == 0 { SumForAbsent(b, t); }
  }

  /** A map holding the key-wise sums of the totals of `a` and of `b` is the totals of `a + b`. */
  lemma SumOfTotals(sum: map<ActivityType, int>, a: seq<Activity>, b: seq<Activity>)
    requires sum.Keys == (Totals(a)).Keys + (Totals(b)).Keys
    requires forall t :: t in sum ==>
      sum[t] == (if t in Totals(a) then Totals(a)[t] else 0) + (if t in Totals(b) then Totals(b)[t] else 0)
    ensures sum == Totals(a + b)
  {
    TotalsOfConcat(a, b);
  }

  lemma TotalsFromPointwise(m: map<ActivityType, int>, list: seq<Activity>)
    requires m.Keys == TypesIn(list)
    requires forall t :: t in m ==> m[t] == SumFor(list, t)
    ensures m == Totals(list)
  {
  }

  /**
   * The conversion of an observation into a map (`Into<HashMap<ActivityType, i32>>`):
   * each pair adds its confidence to the entry of the state its label decodes to.
   */
  method ConfidenceMap(acts: Activities) returns (m: map<ActivityType, int>)
    ensures m == Totals(acts.activities)
  {
    var list := acts.activities;
    m := map[];
    for i := 0 to |list|
      invariant m.Keys == TypesIn(list[..i])
      invariant forall t :: t in m ==> m[t] == SumFor(list[..i], t)
    {
      assert list[..i + 1][..i] == list[..i];
      var t := TypeOf(list[i]);
      if t in m {
        m := m[t := m[t] + list[i].confidence];
      } else {
        SumForAbsent(list[..i], t);
        m := m[t := list[i].confidence];
      }
    }
    assert list[..|list|] == list;
    TotalsFromPointwise(m, list);
  }

  /** The pair a ranking shows for state `t`: its name and its total. */
  function Entry(m: map<ActivityType, int>, t: ActivityType): Activity
    requires t in m
  {
    Activity(Name(t), m[t])
  }

  function NegConfidence(a: Activity): int {
    -a.confidence
  }

  ghost predicate NonIncreasing(r: seq<Activity>) {
    forall i, j :: 0 <= i < j < |r| ==> r[i].confidence >= r[j].confidence
  }

  /** `r` shows every key of `m` exactly once, by name with its total. */
  ghost predicate ListsEachOnce(m: map<ActivityType, int>, r: seq<Activity>) {
    && (forall i :: 0 <= i < |r| ==> TypeOf(r[i]) in m && r[i] == Entry(m, TypeOf(r[i])))
    && (forall t :: t in m ==> Entry(m, t) in r)
    && Distinct(r)
  }

  /** `r` shows every key of `m` exactly once, by name with its total, highest total first. */
  ghost predicate Ranks(m: map<ActivityType, int>, r: seq<Activity>) {
    ListsEachOnce(m, r) && NonIncreasing(r)
  }

  lemma PermutationListsEachOnce(m: map<ActivityType, int>, s: seq<Activity>, r: seq<Activity>)
    requires ListsEachOnce(m, s) && multiset(s) == multiset(r)
    ensures ListsEachOnce(m, r)
  {
    PermutationKeepsDistinct(s, r);
    forall i | 0 <= i < |r| ensures TypeOf(r[i]) in m && r[i] == Entry(m, TypeOf(r[i])) {
      assert r[i] in multiset(s);
    }
    forall t | t in m ensures Entry(m, t) in r {
      assert Entry(m, t) in multiset(s);
    }
  }

  lemma SortedByConfidence(r: seq<Activity>)
    requires SortedBy(r, NegConfidence)
    ensures NonIncreasing(r)
  {
    forall i, j | 0 <= i < j < |r| ensures r[i].confidence >= r[j].confidence {
      assert NegConfidence(r[i]) <= NegConfidence(r[j]);
    }
  }

  /**
   * Flattening a map of totals into a list sorted by confidence, highest
   * first. The map is visited in no particular order, as a hash map is, so
   * equal totals may come out in either order.
   */
  method Rank(m: map<ActivityType, int>) returns (r: seq<Activity>)
    ensures Ranks(m, r)
  {
    var pushed: seq<Activity> := [];
    var rest := m.Keys;
    while rest != {}
      invariant rest <= m.Keys
      invariant forall i :: 0 <= i < |pushed| ==>
        TypeOf(pushed[i]) in m.Keys - rest && pushed[i] == Entry(m, TypeOf(pushed[i]))
      invariant forall t :: t in m.Keys - rest ==> Entry(m, t) in pushed
      invariant Distinct(pushed)
      decreases rest
    {
      var t :| t in rest;
      assert TypeOf(Entry(m, t)) == t;
      pushed := pushed + [Entry(m, t)];
      rest := rest - {t};
    }
    r := SortBy(pushed, NegConfidence);
    SortByIsStableSort(pushed, NegConfidence);
    PermutationListsEachOnce(m, pushed, r);
    SortedByConfidence(r);
  }

  /** Every label in a ranking is a different state. */
  lemma RanksDistinctTypes(m: map<ActivityType, int>, r: seq<Activity>, i: nat, j: nat)
    requires Ranks(m, r) && i < j < |r|
    ensures TypeOf(r[i]) != TypeOf(r[j]) && r[i].activityType != r[j].activityType
  {
  }

  /** `top_activities` of an observation: its totals, ranked. */
  method TopActivities(acts: Activities) returns (r: seq<Activity>)
    ensures Ranks(Totals(acts.activities), r)
  {
    var m := ConfidenceMap(acts);
    r := Rank(m);
  }

  /** `t` has the largest total among the states of `list`. */
  ghost predicate IsTopType(list: seq<Activity>, t: ActivityType) {
    t in TypesIn(list) && forall u :: u in TypesIn(list) ==> SumFor(list, u) <= SumFor(list, t)
  }

  lemma RankingNonEmpty(list: seq<Activity>, r: seq<Activity>)
    requires Ranks(Totals(list), r) && list != []
    ensures |r| > 0
  {
    var t := TypeOf(list[|list| - 1]);
    assert t in Totals(list);
    assert Entry(Totals(list), t) in r;
  }

  /**
   * `top_activity`: the head of the ranking, that is a state of largest total
   * with that total, or the sentinel ("UNKNOWN", 0) for an empty observation.
   */
  method TopActivity(acts: Activities) returns (top: Activity)
    ensures acts.activities == [] ==> top == Activity("UNKNOWN", 0)
    ensures acts.activities != [] ==>
      && IsTopType(acts.activities, TypeOf(top))
      && top == Activity(Name(TypeOf(top)), SumFor(acts.activities, TypeOf(top)))
  {
    var act := TopActivities(acts);
    var list := acts.activities;
    ghost var m := Totals(list);
    if list != [] {
      RankingNonEmpty(list, act);
    }
    if |act| > 0 {
      top := act[0];
      forall u | u in TypesIn(list) ensures SumFor(list, u) <= SumFor(list, TypeOf(top)) {
        var k :| 0 <= k < |act| && act[k] == Entry(m, u);
        assert act[k].confidence <= act[0].confidence;
      }
    } else {
      top := Activity("UNKNOWN", 0);
    }
  }

  /** `top_activity_type`: the state the head of the ranking names. */
  method TopActivityType(acts: Activities) returns (t: ActivityType)
    ensures acts.activities == [] ==> t == Unknown
    ensures acts.activities != [] ==> IsTopType(acts.activities, t)
  {
    var top := TopActivity(acts);
    t := TypeOf(top);
  }

  /**
   * `seconds_delta`: the difference of the two whole-second times. It is
   * within a second of the exact difference, and its sign never contradicts
   * the order of the two instants.
   */
  function SecondsDelta(acts: Activities, other: Activities): (delta: int)
    ensures -1000 < delta * 1000 - (acts.timestamp - other.timestamp) < 1000
    ensures acts.timestamp >= other.timestamp ==> delta >= 0
    ensures acts.timestamp <= other.timestamp ==> delta <= 0
  {
    WholeSeconds(acts.timestamp) - WholeSeconds(other.timestamp)
  }

  /** The states `top_activity` may name: those of largest total, or `Unknown` for an empty observation. */
  ghost function TopTypes(list: seq<Activity>): set<ActivityType> {
    if list == [] then {Unknown} else set t | t in TypesIn(list) && IsTopType(list, t)
  }

  /** How many states of `list` have a larger total than `t`. */
  ghost function Above(list: seq<Activity>, t: ActivityType): nat {
    |set u | u in TypesIn(list) && SumFor(list, u) > SumFor(list, t)|
  }

  /** How many states of `list` (`t` among them) have a total at least that of `t`. */
  ghost function AtLeast(list: seq<Activity>, t: ActivityType): nat {
    |set u | u in TypesIn(list) && SumFor(list, u) >= SumFor(list, t)|
  }

  lemma {:induction false} SubsetSize<T>(a: set<T>, b: set<T>)
    requires a <= b
    ensures |a| <= |b|
  {
    if a != {} {
      var x :| x in a;
      SubsetSize(a - {x}, b - {x});
    }
  }

  lemma {:induction false} TypesInSize(list: seq<Activity>)
    ensures |TypesIn(list)| <= |list|
  {
    if list != [] {
      TypesInSize(list[..|list| - 1]);
    }
  }

  lemma {:induction false} TypesInSizeDistinct(list: seq<Activity>)
    requires forall i, j :: 0 <= i < j < |list| ==> TypeOf(list[i]) != TypeOf(list[j])
    ensures |TypesIn(list)| == |list|
  {
    if list != [] {
      var init := list[..|list| - 1];
      TypesInSizeDistinct(init);
      TypesInMembership(init, TypeOf(list[|list| - 1]));
    }
  }

  /** In a ranking, an entry with a strictly higher total comes earlier. */
  lemma RankedAbove(r: seq<Activity>, i: nat, k: nat)
    requires NonIncreasing(r) && i < |r| && k < |r|
    requires r[k].confidence > r[i].confidence
    ensures k < i
  {
  }

  /** In a ranking, at most `i` states total more than the state at position `i`. */
  lemma AboveBound(list: seq<Activity>, r: seq<Activity>, i: nat)
    requires Ranks(Totals(list), r) && i < |r|
    ensures Above(list, TypeOf(r[i])) <= i
  {
    var m := Totals(list);
    var t := TypeOf(r[i]);
    var higher := set u | u in TypesIn(list) && SumFor(list, u) > SumFor(list, t);
    forall u | u in higher ensures u in TypesIn(r[..i]) {
      var k :| 0 <= k < |r| && r[k] == Entry(m, u);
      RankedAbove(r, i, k);
      assert TypeOf(r[..i][k]) == u;
      TypesInMembership(r[..i], u);
    }
    SubsetSize(higher, TypesIn(r[..i]));
    TypesInSize(r[..i]);
  }

  /** In a ranking, the state at position `j` and all `j` before it total at least as much. */
  lemma AtLeastBound(list: seq<Activity>, r: seq<Activity>, j: nat)
    requires Ranks(Totals(list), r) && j < |r|
    ensures j < AtLeast(list, TypeOf(r[j]))
  {
    var m := Totals(list);
    var t := TypeOf(r[j]);
    var prefix := r[..j + 1];
    var atLeast := set u | u in TypesIn(list) && SumFor(list, u) >= SumFor(list, t);
    forall u | u in TypesIn(prefix) ensures u in atLeast {
      TypesInMembership(prefix, u);
      var k :| 0 <= k < |prefix| && TypeOf(prefix[k]) == u;
      assert r[k].confidence >= r[j].confidence;
    }
    forall a, b | 0 <= a < b < |prefix| ensures TypeOf(prefix[a]) != TypeOf(prefix[b]) {
      RanksDistinctTypes(m, r, a, b);
    }
    TypesInSizeDistinct(prefix);
    SubsetSize(TypesIn(prefix), atLeast);
  }

  /** What `top_activity` returns names one of the states `TopTypes` allows. */
  lemma TopIsTopType(list: seq<Activity>, top: Activity)
    requires list == [] ==> top == Activity("UNKNOWN", 0)
    requires list != [] ==>
      && IsTopType(list, TypeOf(top))
      && top == Activity(Name(TypeOf(top)), SumFor(list, TypeOf(top)))
    ensures TypeOf(top) in TopTypes(list) && top.activityType == Name(TypeOf(top))
  {
    if list == [] {
      assert Name(Unknown) == "UNKNOWN";
    }
  }

  /** A match at position `i` of a ranking has fewer than `i + 1` states above it. */
  lemma MatchIsHigh(list: seq<Activity>, r: seq<Activity>, i: nat, t0: ActivityType)
    requires Ranks(Totals(list), r) && i < |r| && r[i].activityType == Name(t0)
    ensures t0 in TypesIn(list) && Above(list, t0) <= i
  {
    var m := Totals(list);
    assert r[i] == Entry(m, TypeOf(r[i]));
    assert TypeOf(r[i]) == t0;
    AboveBound(list, r, i);
  }

  /** A ranking shows state `t0` within its first three entries when at most three states total at least as much. */
  lemma InFirstThree(list: seq<Activity>, r: seq<Activity>, t0: ActivityType)
    requires Ranks(Totals(list), r)
    requires t0 in TypesIn(list) && AtLeast(list, t0) <= 3
    ensures exists j :: 0 <= j < |r| && j < 3 && r[j].activityType == Name(t0)
  {
    var m := Totals(list);
    assert t0 in m;
    assert Entry(m, t0) in r;
    var j :| 0 <= j < |r| && r[j] == Entry(m, t0);
    AtLeastBound(list, r, j);
  }

  /** A top type of `a` found at rank `i < 3` of `b` witnesses similarity. */
  lemma Matched(a: seq<Activity>, b: seq<Activity>, r: seq<Activity>, i: nat, t0: ActivityType)
    requires t0 in TopTypes(a) && Ranks(Totals(b), r)
    requires i < |r| && i < 3 && r[i].activityType == Name(t0)
    ensures exists t :: t in TopTypes(a) && t in TypesIn(b) && Above(b, t) < 3
  {
    MatchIsHigh(b, r, i, t0);
  }

  /** A top type of `a` absent from the first three ranks of `b` rules out the sufficient condition. */
  lemma Unmatched(a: seq<Activity>, b: seq<Activity>, r: seq<Activity>, firstThree: seq<Activity>, t0: ActivityType)
    requires t0 in TopTypes(a) && Ranks(Totals(b), r)
    requires firstThree == if |r| <= 3 then r else r[..3]
    requires forall k :: 0 <= k < |firstThree| ==> firstThree[k].activityType != Name(t0)
    ensures !(forall t :: t in TopTypes(a) ==> t in TypesIn(b) && AtLeast(b, t) <= 3)
  {
    NotInFirstThree(b, r, firstThree, t0);
  }

  lemma NotInFirstThree(list: seq<Activity>, r: seq<Activity>, firstThree: seq<Activity>, t0: ActivityType)
    requires Ranks(Totals(list), r)
    requires firstThree == if |r| <= 3 then r else r[..3]
    requires forall k :: 0 <= k < |firstThree| ==> firstThree[k].activityType != Name(t0)
    ensures !(t0 in TypesIn(list) && AtLeast(list, t0) <= 3)
  {
    if t0 in TypesIn(list) && AtLeast(list, t0) <= 3 {
      InFirstThree(list, r, t0);
    }
  }

  /**
   * `is_similar_type`: whether the top label of `acts` is among the first
   * three labels of the ranking of `other`. As equal totals rank in no fixed
   * order, the result is pinned down by totals except at ties: a match needs
   * fewer than three states above, and a state with at most three at or
   * above it always matches.
   */
  method IsSimilarType(acts: Activities, other: Activities) returns (similar: bool)
    ensures similar ==>
      exists t :: t in TopTypes(acts.activities) && t in TypesIn(other.activities) && Above(other.activities, t) < 3
    ensures (forall t :: t in TopTypes(acts.activities) ==>
      t in TypesIn(other.activities) && AtLeast(other.activities, t) <= 3) ==> similar
  {
    var top := TopActivity(acts);
    var ranked := TopActivities(other);
    var firstThree := if |ranked| <= 3 then ranked else ranked[..3];
    ghost var t0 := TypeOf(top);
    TopIsTopType(acts.activities, top);
    similar := AnyWithLabel(firstThree, top.activityType);
    if similar {
      var i :| 0 <= i < |firstThree| && firstThree[i].activityType == top.activityType;
      assert firstThree[i] == ranked[i];
      Matched(acts.activities, other.activities, ranked, i, t0);
    } else {
      Unmatched(acts.activities, other.activities, ranked, firstThree, t0);
    }
  }

  /** The scan of `is_similar_type`: whether some entry of `list` carries `text`. */
  method AnyWithLabel(list: seq<Activity>, text: string) returns (found: bool)
    ensures found <==> exists i :: 0 <= i < |list| && list[i].activityType == text
  {
    for i := 0 to |list|
      invariant forall k :: 0 <= k < i ==> list[k].activityType != text
    {
      if list[i].activityType == text {
        return true;
      }
    }
    return false;
  }
}
