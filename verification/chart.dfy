/** The chart data `updateChart` (script.js) builds from the grouped records:
    the alphabetically first ten states as categories, the first ten distinct
    activities met while walking those states' activity keys, and one series
    per activity holding, for every category, that pair's summed gross value
    (0 where the pair never occurs). */
module ChartData {
  import opened Wrappers
  import opened Seqs
  import opened StringOrder
  import opened TradeParser
  import opened Grouping

  const MAX_CATEGORIES: nat := 10
  const MAX_ACTIVITIES: nat := 10

  /** One bar series: an activity and one value per category. */
  datatype Series = Series(name: string, points: seq<real>)

  /** What is handed to the chart library: categories and series. */
  datatype Chart = Chart(categories: seq<string>, series: seq<Series>)

  /** `Object.keys(groupedData).sort().slice(0, 10)`. */
  function Categories(g: Groups): (r: seq<string>)
    ensures |r| <= MAX_CATEGORIES
    ensures forall i :: 0 <= i < |r| ==> r[i] in g.keys
  {
    var sorted := Sort(g.keys);
    assert forall i :: 0 <= i < |sorted| ==> sorted[i] in multiset(g.keys);
    Take(sorted, MAX_CATEGORIES)
  }

  /** `Object.keys(groupedData[estado])` as a function of the state. */
  function KeysUnder(g: Groups): string -> seq<string> {
    (state: string) => ActivityKeys(g, state)
  }

  /** The activity keys of every category in turn: the order in which
      `allActivities.add` sees them. */
  function ActivityWalk(g: Groups, categories: seq<string>): (r: seq<string>)
    ensures forall k :: 0 <= k < |r| ==>
      exists i :: 0 <= i < |categories| && r[k] in ActivityKeys(g, categories[i])
  {
    FlatMapOrigin(KeysUnder(g), categories);
    FlatMap(KeysUnder(g), categories)
  }

  /** `Array.from(allActivities).slice(0, 10)`: a `Set` keeps first occurrences in order. */
  function Activities(g: Groups, categories: seq<string>): (r: seq<string>)
    ensures |r| <= MAX_ACTIVITIES
    ensures Distinct(r)
    ensures forall a :: a in r ==> a in ActivityWalk(g, categories)
  {
    var d := Dedup(ActivityWalk(g, categories));
    var r := Take(d, MAX_ACTIVITIES);
    assert forall i :: 0 <= i < |r| ==> r[i] == d[i] && r[i] in Elements(d);
    r
  }

  /** `groupedData[estado][descricaoNCM] || 0`. */
  function Point(g: Groups, state: string, activity: string): real {
    Lookup(g, state, activity).GetOr(0.0)
  }

  /** `categories.map(...)` for one activity: one point per category. */
  function Points(g: Groups, categories: seq<string>, activity: string): (r: seq<real>)
    ensures |r| == |categories|
    ensures forall i :: 0 <= i < |categories| ==> r[i] == Point(g, categories[i], activity)
  {
    if |categories| == 0 then []
    else Points(g, categories[..|categories| - 1], activity) + [Point(g, categories[|categories| - 1], activity)]
  }

  /** `activities.forEach(...)` pushing one series per activity, in order. */
  function SeriesFor(g: Groups, categories: seq<string>, activities: seq<string>): (r: seq<Series>)
    ensures |r| == |activities|
    ensures forall j :: 0 <= j < |activities| ==> r[j] == Series(activities[j], Points(g, categories, activities[j]))
  {
    if |activities| == 0 then []
    else
      var last := activities[|activities| - 1];
      SeriesFor(g, categories, activities[..|activities| - 1]) + [Series(last, Points(g, categories, last))]
  }

  /** `updateChart(data)` up to the chart configuration: nothing for empty data
      (the early return), otherwise the categories and series. */
  function Build(data: seq<Record>): (r: Option<Chart>)
    ensures r.None? <==> |data| == 0
    ensures r.Some? ==> |r.value.categories| <= MAX_CATEGORIES && |r.value.series| <= MAX_ACTIVITIES
    ensures r.Some? ==> forall j :: 0 <= j < |r.value.series| ==>
      |r.value.series[j].points| == |r.value.categories|
  {
    if |data| == 0 then None
    else
      var g := Group(data);
      var categories := Categories(g);
      Some(Chart(categories, SeriesFor(g, categories, Activities(g, categories))))
  }

  /** A point is the sum over exactly the records of its state and activity;
      a pair that never occurs reads as 0. */
  lemma PointIsSum(data: seq<Record>, state: string, activity: string)
    ensures Point(Group(data), state, activity) == GroupSum(data, state, activity)
  {
    GroupValue(data, state, activity);
  }

  /** Every series holds, for every category, the sum of the gross values of
      exactly the records with that state and the series' activity. */
  lemma SeriesAreSums(data: seq<Record>)
    requires |data| > 0
    ensures var chart := Build(data).value;
      forall j, i :: 0 <= j < |chart.series| && 0 <= i < |chart.categories| ==>
        chart.series[j].points[i] == GroupSum(data, chart.categories[i], chart.series[j].name)
  {
    var chart := Build(data).value;
    forall j, i | 0 <= j < |chart.series| && 0 <= i < |chart.categories|
      ensures chart.series[j].points[i] == GroupSum(data, chart.categories[i], chart.series[j].name)
    {
      PointIsSum(data, chart.categories[i], chart.series[j].name);
    }
  }

  /** The sorted state keys: strictly ascending, each distinct state once. */
  lemma SortedStates(data: seq<Record>)
    ensures var sorted := Sort(Group(data).keys);
      && StrictlySorted(sorted)
      && Elements(sorted) == Elements(StatesOf(data))
      && |sorted| == |Elements(StatesOf(data))|
  {
    var keys := Group(data).keys;
    GroupKeys(data);
    SortDistinct(keys);
    DedupCardinality(StatesOf(data));
    var sorted := Sort(keys);
    assert |sorted| == |multiset(sorted)| == |multiset(keys)| == |keys|;
  }

  /** The categories are strictly ascending states of the data, as many as there
      are distinct states up to ten, and every state left out sorts after all of
      them: they are the alphabetically first ten states. */
  lemma CategoriesSpec(data: seq<Record>)
    ensures var c := Categories(Group(data));
      var states := StatesOf(data);
      && StrictlySorted(c)
      && (forall i :: 0 <= i < |c| ==> c[i] in states)
      && |c| == Min(MAX_CATEGORIES, |Elements(states)|)
      && (forall st :: st in states && st !in c ==> forall i :: 0 <= i < |c| ==> Less(c[i], st))
  {
    var states := StatesOf(data);
    var sorted := Sort(Group(data).keys);
    SortedStates(data);
    TakeSorted(sorted, MAX_CATEGORIES);
    var c := Take(sorted, MAX_CATEGORIES);
    forall i | 0 <= i < |c|
      ensures c[i] in states
    {
      assert c[i] == sorted[i];
      assert c[i] in Elements(sorted);
    }
    forall st | st in states
      ensures st in sorted
    {
      assert st in Elements(states);
    }
  }

  /** With ten states or fewer, every state is a category. */
  lemma CategoriesComplete(data: seq<Record>)
    requires |Elements(StatesOf(data))| <= MAX_CATEGORIES
    ensures Elements(Categories(Group(data))) == Elements(StatesOf(data))
  {
    var sorted := Sort(Group(data).keys);
    SortedStates(data);
    assert Take(sorted, MAX_CATEGORIES) == sorted;
  }

  /** The categories do not depend on the order of the records. */
  lemma CategoriesPermutation(d1: seq<Record>, d2: seq<Record>)
    requires multiset(d1) == multiset(d2)
    ensures Categories(Group(d1)) == Categories(Group(d2))
  {
    var k1 := Group(d1).keys;
    var k2 := Group(d2).keys;
    GroupKeys(d1);
    GroupKeys(d2);
    StatesOfPermutation(d1, d2);
    SortDistinct(k1);
    SortDistinct(k2);
    StrictlySortedUnique(Sort(k1), Sort(k2));
  }

  /** An activity is met in the walk exactly when some record pairs it with one
      of the categories. */
  lemma WalkHasPair(data: seq<Record>, categories: seq<string>, a: string)
    ensures a in ActivityWalk(Group(data), categories) <==>
      exists i :: 0 <= i < |categories| && HasPair(data, categories[i], a)
  {
    var g := Group(data);
    var f := KeysUnder(g);
    if a in ActivityWalk(g, categories) {
      FlatMapOrigin(f, categories);
      var k :| 0 <= k < |FlatMap(f, categories)| && FlatMap(f, categories)[k] == a;
      var i :| 0 <= i < |categories| && a in f(categories[i]);
      UnderCategory(data, categories[i], a);
    }
    if exists i :: 0 <= i < |categories| && HasPair(data, categories[i], a) {
      var i :| 0 <= i < |categories| && HasPair(data, categories[i], a);
      UnderCategory(data, categories[i], a);
      FlatMapContains(f, categories, i, a);
    }
  }

  /** An activity key recorded under a state is exactly an activity some record
      pairs with that state. */
  lemma UnderCategory(data: seq<Record>, state: string, a: string)
    ensures a in KeysUnder(Group(data))(state) <==> HasPair(data, state, a)
  {
    GroupActivityKeys(data, state);
    ActivitiesOfPair(data, state, a);
    InDedup(ActivitiesOf(data, state), a);
  }

  /** The activities the records pair with `state`, in record order. */
  function ActivitiesUnder(data: seq<Record>): string -> seq<string> {
    (state: string) => ActivitiesOf(data, state)
  }

  /** The activities straight from the records: walk the categories, list every
      category's activities in record order, keep first occurrences, take ten. */
  lemma ActivitiesFromRecords(data: seq<Record>, categories: seq<string>)
    ensures Activities(Group(data), categories) ==
      Take(Dedup(FlatMap(ActivitiesUnder(data), categories)), MAX_ACTIVITIES)
  {
    var g := Group(data);
    forall i | 0 <= i < |categories|
      ensures KeysUnder(g)(categories[i]) == DedupEach(ActivitiesUnder(data))(categories[i])
    {
      GroupActivityKeys(data, categories[i]);
    }
    FlatMapAgree(KeysUnder(g), DedupEach(ActivitiesUnder(data)), categories);
    FlatMapDedup(ActivitiesUnder(data), categories);
  }

  /** The activities are distinct and at most ten. */
  lemma ActivitiesDistinct(g: Groups, categories: seq<string>)
    ensures Distinct(Activities(g, categories))
    ensures |Activities(g, categories)| <= MAX_ACTIVITIES
  {
    var d := Dedup(ActivityWalk(g, categories));
    var acts := Activities(g, categories);
    assert acts == d[..|acts|];
    forall i, j | 0 <= i < j < |acts|
      ensures acts[i] != acts[j]
    {
      assert acts[i] == d[i] && acts[j] == d[j];
    }
  }

  /** Every chosen activity occurs with one of the categories. */
  lemma ActivitiesOccur(data: seq<Record>, categories: seq<string>)
    ensures var acts := Activities(Group(data), categories);
      forall j :: 0 <= j < |acts| ==> exists i :: 0 <= i < |categories| && HasPair(data, categories[i], acts[j])
  {
    var d := Dedup(ActivityWalk(Group(data), categories));
    var acts := Activities(Group(data), categories);
    forall j | 0 <= j < |acts|
      ensures exists i :: 0 <= i < |categories| && HasPair(data, categories[i], acts[j])
    {
      assert acts[j] == d[j];
      assert acts[j] in Elements(d);
      WalkHasPair(data, categories, acts[j]);
    }
  }

  /** An activity that occurs with one of the categories is left out only when
      ten activities were already taken. */
  lemma ActivitiesLeftOut(data: seq<Record>, categories: seq<string>, a: string, i: int)
    requires 0 <= i < |categories| && HasPair(data, categories[i], a)
    requires a !in Activities(Group(data), categories)
    ensures |Activities(Group(data), categories)| == MAX_ACTIVITIES
  {
    var d := Dedup(ActivityWalk(Group(data), categories));
    var acts := Activities(Group(data), categories);
    WalkHasPair(data, categories, a);
    assert a in Elements(d);
    var k :| 0 <= k < |d| && d[k] == a;
    assert acts == d[..|acts|];
  }

  /** Every point is the pair's group sum, so with positive gross values it is
      never negative, and it is positive exactly when the pair occurs. */
  lemma PointsSign(data: seq<Record>)
    requires |data| > 0 && AllPositive(data)
    ensures var chart := Build(data).value;
      forall j, i :: 0 <= j < |chart.series| && 0 <= i < |chart.categories| ==>
        && chart.series[j].points[i] >= 0.0
        && (chart.series[j].points[i] > 0.0 <==> HasPair(data, chart.categories[i], chart.series[j].name))
  {
    var chart := Build(data).value;
    SeriesAreSums(data);
    forall j, i | 0 <= j < |chart.series| && 0 <= i < |chart.categories|
      ensures chart.series[j].points[i] >= 0.0
      ensures chart.series[j].points[i] > 0.0 <==> HasPair(data, chart.categories[i], chart.series[j].name)
    {
      GroupSumSign(data, chart.categories[i], chart.series[j].name);
    }
  }

  /** Rearranging the records keeps the categories, and two series of the same
      activity carry the same points. */
  lemma BuildPermutation(d1: seq<Record>, d2: seq<Record>)
    requires |d1| > 0 && multiset(d1) == multiset(d2)
    ensures |d2| > 0
    ensures Build(d1).value.categories == Build(d2).value.categories
    ensures var s1, s2 := Build(d1).value.series, Build(d2).value.series;
      forall j1, j2 :: 0 <= j1 < |s1| && 0 <= j2 < |s2| && s1[j1].name == s2[j2].name ==>
        s1[j1].points == s2[j2].points
  {
    assert |d2| == |multiset(d2)| == |multiset(d1)| == |d1|;
    CategoriesPermutation(d1, d2);
    var g1, g2 := Group(d1), Group(d2);
    var c := Categories(g1);
    var s1, s2 := SeriesFor(g1, c, Activities(g1, c)), SeriesFor(g2, c, Activities(g2, c));
    assert Build(d1).value == Chart(c, s1);
    assert Build(d2).value == Chart(c, s2);
    forall j1, j2 | 0 <= j1 < |s1| && 0 <= j2 < |s2| && s1[j1].name == s2[j2].name
      ensures s1[j1].points == s2[j2].points
    {
      PointsPermutation(d1, d2, c, s1[j1].name);
    }
  }

  /** Over fixed categories, an activity's points do not depend on the order of
      the records. */
  lemma PointsPermutation(d1: seq<Record>, d2: seq<Record>, categories: seq<string>, a: string)
    requires multiset(d1) == multiset(d2)
    ensures Points(Group(d1), categories, a) == Points(Group(d2), categories, a)
  {
    forall i | 0 <= i < |categories|
      ensures Point(Group(d1), categories[i], a) == Point(Group(d2), categories[i], a)
    {
      PointIsSum(d1, categories[i], a);
      PointIsSum(d2, categories[i], a);
      GroupSumPermutation(d1, d2, categories[i], a);
    }
  }


  /** Records repeated after themselves leave every state's activity keys as they were. */
  lemma DoubledActivityKeys(data: seq<Record>, state: string)
    ensures ActivityKeys(Group(data + data), state) == ActivityKeys(Group(data), state)
  {
    GroupActivityKeys(data, state);
    GroupActivityKeys(data + data, state);
    ActivitiesOfAppend(data, data, state);
    DedupAppendSeen(ActivitiesOf(data, state), ActivitiesOf(data, state));
  }

  /** Two grouped structures with the same state keys and the same activity keys
      under every state give the same categories and activities. */
  lemma SameKeysSameShape(g1: Groups, g2: Groups)
    requires g1.keys == g2.keys
    requires forall state :: ActivityKeys(g1, state) == ActivityKeys(g2, state)
    ensures Categories(g1) == Categories(g2)
    ensures Activities(g1, Categories(g1)) == Activities(g2, Categories(g2))
  {
    var categories := Categories(g1);
    FlatMapAgree(KeysUnder(g1), KeysUnder(g2), categories);
  }

  /** Records repeated after themselves give the same categories and activities. */
  lemma DoubledShape(data: seq<Record>)
    ensures Categories(Group(data + data)) == Categories(Group(data))
    ensures Activities(Group(data + data), Categories(Group(data + data))) ==
      Activities(Group(data), Categories(Group(data)))
  {
    var g1, g2 := Group(data), Group(data + data);
    GroupKeys(data);
    GroupKeys(data + data);
    StatesOfAppend(data, data);
    DedupAppendSeen(StatesOf(data), StatesOf(data));
    forall state
      ensures ActivityKeys(g1, state) == ActivityKeys(g2, state)
    {
      DoubledActivityKeys(data, state);
    }
    SameKeysSameShape(g1, g2);
  }

  /** Loading the same records twice (the same file chosen twice) keeps the
      categories and the series names and doubles every point. */
  lemma BuildDoubled(data: seq<Record>)
    requires |data| > 0
    ensures var c1, c2 := Build(data).value, Build(data + data).value;
      && c2.categories == c1.categories
      && |c2.series| == |c1.series|
      && (forall j :: 0 <= j < |c1.series| ==> c2.series[j].name == c1.series[j].name)
      && (forall j, i :: 0 <= j < |c1.series| && 0 <= i < |c1.categories| ==>
            c2.series[j].points[i] == 2.0 * c1.series[j].points[i])
  {
    var activities := DoubledParts(data);
    SeriesDoubled(data, Build(data).value.categories, activities);
  }

  /** The doubled build has the original's categories, and both builds lay out
      their series over the same activities. */
  lemma DoubledParts(data: seq<Record>) returns (activities: seq<string>)
    requires |data| > 0
    ensures var c1, c2 := Build(data).value, Build(data + data).value;
      && c2.categories == c1.categories
      && c1.series == SeriesFor(Group(data), c1.categories, activities)
      && c2.series == SeriesFor(Group(data + data), c1.categories, activities)
  {
    var g1, g2 := Group(data), Group(data + data);
    DoubledShape(data);
    var categories := Categories(g1);
    activities := Activities(g1, categories);
    assert Build(data).value == Chart(categories, SeriesFor(g1, categories, activities));
    assert Build(data + data).value == Chart(categories, SeriesFor(g2, categories, activities));
  }

  /** Over fixed categories and activities, every point of the doubled records
      is twice the original point. */
  lemma SeriesDoubled(data: seq<Record>, categories: seq<string>, activities: seq<string>)
    ensures var s1, s2 := SeriesFor(Group(data), categories, activities),
                          SeriesFor(Group(data + data), categories, activities);
      forall j, i :: 0 <= j < |activities| && 0 <= i < |categories| ==>
        s2[j].points[i] == 2.0 * s1[j].points[i]
  {
    forall j, i | 0 <= j < |activities| && 0 <= i < |categories|
      ensures Point(Group(data + data), categories[i], activities[j]) ==
        2.0 * Point(Group(data), categories[i], activities[j])
    {
      PointIsSum(data, categories[i], activities[j]);
      PointIsSum(data + data, categories[i], activities[j]);
      GroupSumDoubled(data, categories[i], activities[j]);
    }
  }
}
