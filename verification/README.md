# Trade dashboard core, modelled in Dafny

This project models the data path of the trade dashboard's `script.js`. The
dashboard reads tab-delimited interstate trade declarations from one or more
text files. `parseTradeData` turns each non-blank line into a record with three
fields:

- the origin state (field 1);
- the activity, i.e. the NCM description (field 6, trimmed);
- the gross value (field 9).

A line is kept only if it has at least 11 tab-run-separated fields and a gross
value above zero. `processNextFile` concatenates the records of all files in
the order they were chosen.

`updateChart` then builds the chart data from the records:

- It groups the gross values by state and, inside each state, by activity.
  Both levels keep their keys in first-insertion order, as JavaScript objects
  do.
- The categories are the states sorted by the default `sort()` (character code
  order), cut to the first ten. This is the alphabetically first ten states,
  not the ten largest.
- The activities are the first ten distinct activity keys met while walking
  the chosen states in order, as a `Set` keeps them.
- For every activity there is one series with one point per category. A point
  is `groupedData[state][activity] || 0`.

Modules, one per concern:

- `Wrappers`: `Option`, standing in for `undefined` and NaN.
- `Seqs`: distinctness, de-duplication in first-occurrence order, `slice`, and
  a generic concat-map.
- `Text`: the ECMAScript whitespace class, `trim`, `split("\n")` and
  `split(/\t+/)`.
- `Numbers`: `parseFloat` on decimal literals.
- `StringOrder`: the default `Array.prototype.sort` order, and an insertion
  sort.
- `TradeParser`: records and `parseTradeData`.
- `OrderedMaps`: insertion-ordered string-keyed objects.
- `Grouping`: `groupedData`.
- `ChartData`: categories, activities and series.
- `Ingest`: the file loop.

The grouping, the chart data, the line splitting and the key orders are each
proved equal to an independent reference definition:

- Group sums are proved equal to `GroupSum`, a plain fold over exactly the
  matching records.
- Key orders are proved equal to `Dedup` of the records' states and
  activities. The activities are also proved equal to a walk over the records
  themselves (`ChartData.ActivitiesFromRecords`).
- Tab-run splitting is proved equal to a single-character split with the empty
  interior pieces dropped.
- The sorted categories are pinned down by uniqueness of strictly ascending
  sequences.
- `trim` is proved to be the one cut of the text that has only whitespace
  around it and no whitespace at its ends (`Text.TrimUnique`).
- The blank-line filter is proved to keep exactly the non-blank lines, in
  order (`TradeParser.NonBlankLines`, `TradeParser.NonBlankLinesAppend`).

`parseFloat` is pinned down only partly: the model proves when it yields a
number and that number's sign, and its exact value for digit strings and for
`w.d` decimals.

## Model

| member | source | states |
|---|---|---|
| Text.Trim | script.js:31 | `trim()` yields nothing exactly for a blank string; otherwise the result neither starts nor ends with whitespace, and it is a piece of the text with only whitespace before and after it |
| Text.TrimUnique | script.js:31 | any cut of the text that has only whitespace around it and is empty or has no whitespace at either end is the trimmed text, so `trim()` removes exactly the leading and trailing whitespace |
| Text.TrimIdempotent | script.js:42 | trimming an already trimmed activity changes nothing |
| Text.Split | script.js:31 | `split("\n")` gives at least one piece, no piece contains a newline, and joining the pieces with newlines restores the text |
| Text.SplitJoin | script.js:31 | splitting a newline-join of newline-free lines gives those lines back |
| Text.SplitRuns | script.js:35 | `split(/\t+/)`: no field holds a tab, and every interior field is non-empty |
| Text.SplitRunsIsCompressedSplit | script.js:35 | splitting on tab runs equals splitting on single tabs and dropping the empty interior pieces |
| Text.SplitRunsJoin | script.js:35 | a line made of non-empty tab-free fields joined by tabs splits back into exactly those fields |
| Text.SplitRunsBlank | script.js:31-35 | every field of a blank line is blank |
| Numbers.ParseNumber | script.js:36 | `parseFloat` yields a number exactly when the text starts, after whitespace and a sign, with a digit or a point and a digit; the sign of the result follows the leading minus |
| Numbers.ParseFormatNat | script.js:36 | `parseFloat` reads the decimal digits of a natural number back as that number |
| Numbers.ParseFixedPoint | script.js:36 | `parseFloat("w.d")` for digit strings is w plus the fraction 0.d |
| TradeParser.ParseLine | script.js:34-45 | a kept record has gross value above zero; a line with fewer than 11 fields yields nothing |
| TradeParser.GrossValue | script.js:36 | `parseFloat(parts[9]) \|\| 0`: read through `ParseLineKept`, a line is kept exactly when this value is above zero, and it is then field 9 read as a number |
| TradeParser.OrElse | script.js:41-42 | `s \|\| fallback` on strings: `ParseLineFields` and `ActivityShape` show the state is field 1 as written and the activity is the trimmed field or the fallback when that is blank |
| TradeParser.ParseLineKept | script.js:36-39 | a line is kept exactly when it has at least 11 fields and field 9 reads as a number above zero, and the record carries that number |
| TradeParser.ParseLineFields | script.js:39-44 | the state is field 1 as written and is never empty; the activity is field 6 trimmed, or "Atividade Desconhecida" when that field is blank |
| TradeParser.ActivityShape | script.js:42 | `field.trim() \|\| "Atividade Desconhecida"` is never empty and has no surrounding whitespace |
| TradeParser.BlankLineYieldsNothing | script.js:31-39 | a blank line yields no record even without the blank-line filter |
| TradeParser.ParseJoinedFields | script.js:35-44 | a well-formed line with an integer gross value above zero parses to the record of fields 1, 6 and 9 |
| TradeParser.ParseJoinedDecimal | script.js:35-44 | a well-formed line whose gross value is a decimal such as `1000.00` is kept exactly when the value is above zero, and then carries it |
| TradeParser.NonBlankLines | script.js:31 | `filter(line => line.trim() !== "")` keeps a line exactly when it is not blank, and never adds lines |
| TradeParser.NonBlankLinesAppend | script.js:31 | the filter works line by line: filtering concatenated lines gives the filtered parts in order |
| TradeParser.Contribution | script.js:39-45 | one line adds at most one record, and only a positive one |
| TradeParser.ParseLines | script.js:34-46 | no more records than lines, all with positive gross values |
| TradeParser.Parse | script.js:30-49 | every record has a positive gross value; there are at most as many records as non-blank lines |
| TradeParser.ParseLinesAppend | script.js:34-46 | the records of concatenated lines are the records of each part in order: line order is kept |
| TradeParser.ParseOneLine | script.js:34-46 | a single line contributes its own record or nothing |
| TradeParser.ParseLinesOrigin | script.js:34-46 | every record is the record of some input line |
| TradeParser.BlankFilterRedundant | script.js:31 | filtering blank lines first yields the same records as parsing every line |
| TradeParser.AllPositiveAppend | script.js:19-20 | concatenated records all have positive gross values exactly when both parts do |
| OrderedMaps.Put | script.js:66-75 | `obj[k] = v` sets `k` to `v` and leaves every other key's value unchanged |
| OrderedMaps.PutValid | script.js:66-75 | assignment keeps the key list duplicate-free and in step with the table; only a new key is appended |
| OrderedMaps.EmptyValid | script.js:63 | `{}` is well formed and has no keys |
| Seqs.Dedup | script.js:85-94 | a `Set` filled in order holds each element once and exactly the elements added |
| Seqs.DedupPrefix | script.js:85-94 | de-duplicating a prefix gives a prefix of the de-duplicated whole, so first occurrences keep their order |
| Seqs.Take | script.js:82 | `slice(0, n)` is the prefix of length min(n, length) |
| Seqs.FlatMapAppend | script.js:19-20 | mapping and concatenating distributes over concatenation of inputs |
| StringOrder.Sort | script.js:81 | `sort()` gives an ascending rearrangement of its input |
| StringOrder.Less | script.js:81 | the default `sort()` comparison: `LessIrreflexive`, `LessAsymmetric`, `LessTransitive` and `LessTotal` make it a strict total order on strings |
| StringOrder.SortDistinct | script.js:81 | sorting distinct keys gives a strictly ascending sequence of the same keys |
| StringOrder.StrictlySortedUnique | script.js:81 | two strictly ascending sequences with the same elements are equal, so the sorted keys are determined by the set of states |
| StringOrder.TakeSorted | script.js:82 | the first n sorted keys stay strictly ascending, and every key left out sorts after all kept ones |
| StringOrder.LessTransitive | script.js:81 | the default sort order is transitive |
| StringOrder.LessTotal | script.js:81 | the default sort order is total on distinct strings |
| Grouping.StatesOf | script.js:65 | the states of the records, one per record, in order |
| Grouping.AddRecord | script.js:65-76 | one `forEach` step: `AddRecordKeys`, `AddRecordActivityKeys`, `AddRecordHas` and `AddRecordValue` state that only the record's own pair gains a counter or grows, by the record's gross value, and that new keys go to the end |
| Grouping.Group | script.js:63-76 | `groupedData` after the whole loop: `GroupKeys`, `GroupActivityKeys`, `GroupHas` and `GroupValue` state its keys in first-occurrence order and its values as the per-pair sums |
| Grouping.AddRecordKeys | script.js:66-68 | one `forEach` step appends the record's state to the state keys exactly when it was new |
| Grouping.AddRecordActivityKeys | script.js:70-72 | one step changes only the record's state's activity keys, and appends the activity exactly when it was new there |
| Grouping.AddRecordHas | script.js:65-76 | after one step a counter exists exactly when it existed before or belongs to the record's pair |
| Grouping.AddRecordValue | script.js:70-75 | one step adds the record's gross value to its own pair's counter and to no other |
| Grouping.GroupKeys | script.js:63-76 | the state keys are the records' states in order of first occurrence |
| Grouping.GroupActivityKeys | script.js:63-76 | under each state, the activity keys are that state's activities in order of first occurrence |
| Grouping.GroupHas | script.js:63-76 | `groupedData[s][a]` exists exactly when some record has state s and activity a |
| Grouping.GroupValue | script.js:63-76 | `groupedData[s][a] \|\| 0` is the sum of gross values over exactly the records with state s and activity a |
| Grouping.GroupLookup | script.js:63-76 | `groupedData[s][a]` is absent for a pair no record has, and is that pair's sum otherwise |
| Grouping.AddRecordValid | script.js:65-76 | one step keeps both levels of keys duplicate-free and in step with their tables |
| Grouping.GroupValid | script.js:63-76 | `groupedData` is well formed at every step |
| Grouping.HasPairIndex | script.js:65-76 | a pair is present exactly when some record position carries it |
| Grouping.AbsentSumsToZero | script.js:100 | a pair no record has sums to 0 |
| Grouping.GroupSumAppend | script.js:19-20 | sums over concatenated records are the sums of the parts added |
| Grouping.GroupSumDoubled | script.js:19-20 | loading the same records twice doubles every sum |
| Grouping.GroupSumPermutation | script.js:65-76 | the sums do not depend on the order of the records |
| Grouping.GroupSumSign | script.js:65-76 | with positive gross values, a sum is at least 0, and above 0 exactly when some record has the pair |
| Grouping.ActivitiesOfPair | script.js:70-72 | an activity is listed under a state exactly when some record has that pair |
| Grouping.StatesOfPermutation | script.js:81 | rearranging the records leaves the set of states unchanged |
| ChartData.Points | script.js:99-101 | one point per category, each the pair's value or 0 |
| ChartData.SeriesFor | script.js:98-106 | one series per chosen activity, in order, named by the activity |
| ChartData.Categories | script.js:81-82 | at most ten state keys of the grouped data; `CategoriesSpec` pins them down as the alphabetically first ten states |
| ChartData.ActivityWalk | script.js:88-92 | every activity met in the walk is a key under one of the categories; `WalkHasPair` makes this an if-and-only-if over the records |
| ChartData.Activities | script.js:85-94 | at most ten distinct activities, each one met in the walk; `ActivitiesFromRecords` states them straight from the records |
| ChartData.ActivitiesFromRecords | script.js:85-94 | the activities are the first ten distinct activities met when listing, category by category, the activities each category has in the records |
| ChartData.Point | script.js:100 | `groupedData[estado][descricaoNCM] \|\| 0`: `PointIsSum` proves it is the sum over exactly that pair's records, 0 when there are none |
| ChartData.Build | script.js:54-57 | no chart for no records; otherwise at most 10 categories and 10 series, each series with one point per category |
| ChartData.PointIsSum | script.js:100 | a point is the sum of gross values over exactly its state's and activity's records |
| ChartData.SeriesAreSums | script.js:97-106 | every point of every series is the sum over exactly the records of that category and that series' activity |
| ChartData.SortedStates | script.js:81 | the sorted state keys are strictly ascending and hold each distinct state once |
| ChartData.CategoriesSpec | script.js:81-82 | the categories are strictly ascending states of the data, there are min(10, number of distinct states) of them, and every state left out sorts after all of them |
| ChartData.CategoriesComplete | script.js:81-82 | with at most ten distinct states, every state is a category |
| ChartData.CategoriesPermutation | script.js:81-82 | the categories do not depend on the order of the records |
| ChartData.WalkHasPair | script.js:88-92 | an activity is met while walking the categories exactly when some record pairs it with one of them |
| ChartData.UnderCategory | script.js:89 | an activity key under a state is exactly an activity some record pairs with that state |
| ChartData.ActivitiesDistinct | script.js:85-94 | the chosen activities are distinct and at most ten |
| ChartData.ActivitiesOccur | script.js:88-94 | every chosen activity occurs with at least one category |
| ChartData.ActivitiesLeftOut | script.js:94 | an activity that occurs with a category is left out only when ten activities were already chosen |
| ChartData.PointsSign | script.js:99-101 | with positive gross values every point is at least 0, and above 0 exactly when some record has the pair |
| ChartData.BuildPermutation | script.js:63-106 | rearranging the records keeps the categories, and two series with the same name have the same points |
| ChartData.PointsPermutation | script.js:99-101 | over fixed categories, an activity's points do not depend on the order of the records |
| ChartData.DoubledActivityKeys | script.js:63-76 | repeating the records leaves every state's activity keys unchanged |
| ChartData.SameKeysSameShape | script.js:81-94 | categories and activities depend only on the key lists of the grouped data |
| ChartData.DoubledShape | script.js:81-94 | repeating the records gives the same categories and activities |
| ChartData.BuildDoubled | script.js:63-106 | the same records loaded twice give the same categories and series names, with every point doubled |
| ChartData.SeriesDoubled | script.js:98-106 | over fixed categories and activities, every point of the doubled records is twice the original point |
| Ingest.AddFile | script.js:19-21 | appending a file's records adds them after the accumulated ones; an empty batch changes nothing |
| Ingest.LoadAll | script.js:6-21 | every accumulated record has a positive gross value |
| Ingest.Dashboard | script.js:6-10 | no chart is built exactly when no chosen file yields a record |
| Ingest.LoadAllIsConcat | script.js:6-21 | the accumulated records are the records of each file, file after file |
| Ingest.LoadAllAppend | script.js:6-21 | reading two batches of files in turn accumulates the first batch's records, then the second's |
| Ingest.LoadAllEmpty | script.js:6-21 | nothing is accumulated exactly when no file yields a record |
| Ingest.DashboardEmpty | script.js:7-10 | no chart is built exactly when no file yields a record |
| Ingest.LoadOne | script.js:17-21 | a single file contributes exactly its own records |
| Ingest.SameFileTwice | script.js:17-21 | a file chosen twice contributes its records twice; nothing is de-duplicated |

## Left out

- File reading (`FileReader`, the `change` event, `setTimeout` between files) is left to the caller: a file is given as its text, and the files are read in the order chosen.
- The loading spinner, `console` output, `chartConfig` and the `JSC.chart` call produce no data and are not modelled. `Build` stops at the categories and series handed to the chart.
- Gross values are exact reals, not IEEE doubles: rounding in `parseFloat` and in the running sums is not modelled.
- Numbers.ParseNumber: does not read `Infinity` (it yields NaN here), because a trade value of `Infinity` is outside the declaration format.
- StringOrder.Less: compares characters by code point, whereas JavaScript compares UTF-16 code units. The two orders differ only between characters above U+FFFF and characters from U+E000 to U+FFFF, which state codes do not contain.
- Object quirks are not modelled. JavaScript lists integer-like keys such as `"12"` before other keys, and inherited names such as `constructor` read as present on an empty object. The model treats every key as an ordinary string key in insertion order.
- `!groupedData[s][a]` also resets a counter that holds 0. With the positive gross values the parser guarantees, the reset value equals the current one, so `AddRecord` reads the counter as `|| 0` and adds.
- The `"Desconhecido"` state fallback is never taken. A line with at least 11 fields has field 1 between two tab runs, so it is never empty (`TradeParser.ParseLineFields`). The fallback is kept in `ParseLine` as written.
- Other report variants in the repository rank states by total and align series by position. They are not part of this model. This file sorts states alphabetically and matches series by activity name, and the model follows it.
- The tax value (field 10) is not read by this file and is not modelled.
