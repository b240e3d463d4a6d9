# Relative grading: the grade ladder and the grading pass

This project models the grading core of a small relative-grading tool. The
tool reads student names and marks, then computes the class mean and
population standard deviation. It then grades every student on a fixed
ladder of six labels ("O", "A+", "A", "B+", "B", "Fail"). Each rung of the
ladder sits at the mean shifted by a multiple of the standard deviation.
While grading, it fills two insertion-ordered maps:

- `gradeDistribution`: grade to number of students.
- `gradeWiseStudents`: grade to the list of students with that grade.

The Dafny model has four modules:

- `OrderedMaps` (`ordered_maps.dfy`): the insertion-ordered map the tool uses
  (a `LinkedHashMap`). A key order is paired with a map. `Put` keeps the place
  of a key that is already present. `ComputeIfAbsent` only inserts when the
  key is absent. The module also has sums of counts and the multiset of
  grouped elements.
- `GradeLadder` (`grade_ladder.dfy`): `getGrade` as a function on reals, and
  a table-driven reference reading of the same ladder (`FirstRung`) with the
  lemmas relating the two.
- `Grouping` (`grouping.dfy`): what the grading pass does to the two maps,
  stated on values. `Tally` and `Bucket` are folds over the roster's grades,
  starting from whatever the maps already hold. They are tied to independent
  reference definitions: occurrence counts, the in-order filter `Filter` and
  the first-encounter order `FirstEncounter`.
- `GradingApp` (`grading_app.dfy`): the `Student` and `GradingSystem`
  classes. `AssignGrades` is an imperative loop that writes each student's
  `grade` field and reassigns the two map fields. It is proved against
  `Tally` and `Bucket`, and gives the from-empty properties directly.

## Model

| member | source | states |
|---|---|---|
| GradeLadder.GetGrade | AdvancedGradingApp.java:88-95 | `getGrade`, the five threshold tests in ladder order; specified by `GetGradeIsFirstMatch` (one of the six labels, the first rung that holds), `Band` (each label is exactly one band of marks) and `Monotone` |
| GradeLadder.GetGradeIsFirstMatch | AdvancedGradingApp.java:88-95 | the ladder always returns one of the six labels, and it is the label of the first rung (in ladder order) whose threshold the marks reach: that rung's threshold is reached and every rung above it is missed |
| GradeLadder.FirstRung | AdvancedGradingApp.java:88-95 | the table-driven reference: the first rung at or after `k` whose threshold holds, with every skipped rung failing |
| GradeLadder.Rank | AdvancedGradingApp.java:88-95 | the position of a label in the ladder, and that position names that label |
| GradeLadder.Monotone | AdvancedGradingApp.java:88-95 | higher marks never get a lower grade, for any mean and any spread |
| GradeLadder.ThresholdsNonIncreasing | AdvancedGradingApp.java:89-93 | with a non-negative spread the thresholds do not increase down the ladder |
| GradeLadder.Band | AdvancedGradingApp.java:88-95 | with a non-negative spread, a label is given exactly when the marks are below the rung above and reach its own rung, in both directions |
| GradeLadder.ZeroSpread | AdvancedGradingApp.java:88-95 | with zero spread, marks at or above the mean get "O" and any others get "Fail"; in particular marks equal to the mean get "O" |
| GradeLadder.ThreeStudentExample | AdvancedGradingApp.java:88-95 | marks 90, 70 and 50 (mean 70, spread the square root of 800/3) get "A+", "B+" and "B" |
| OrderedMaps.OrderedMap.GetOrDefault | AdvancedGradingApp.java:83 | `getOrDefault`: the stored value of a present key, the default otherwise; used by the `put` updates that `PutIncrementTotal`, `PutAppendMembers` and `TallyCounts` specify |
| OrderedMaps.OrderedMap.Put | AdvancedGradingApp.java:83 | `put`: the key takes the new value, an existing key keeps its place and a new key goes last; specified by `PutValid`, `PutTotal` and `PutAppendMembers`, and for key order by `TallyKeys` and `BucketKeys` |
| OrderedMaps.OrderedMap.ComputeIfAbsent | AdvancedGradingApp.java:84 | `computeIfAbsent`: inserts the given value only under an absent key; specified together with the following append by `AppendViaComputeIfAbsent` |
| OrderedMaps.Empty | AdvancedGradingApp.java:50-51 | a new map has no keys and no entries and is well formed |
| OrderedMaps.PutValid | AdvancedGradingApp.java:83 | `put` keeps every key listed exactly once in the key order, and makes the key present |
| OrderedMaps.AppendViaComputeIfAbsent | AdvancedGradingApp.java:84 | looking up or creating an empty list, then appending to it, is one `put` of the old list (or the empty one) plus the element |
| OrderedMaps.PutTotal | AdvancedGradingApp.java:83 | putting a count changes the sum of all counts by the new count minus the old one |
| OrderedMaps.PutIncrementTotal | AdvancedGradingApp.java:83 | adding one to a grade's count, created at zero if absent, adds one to the sum of counts |
| OrderedMaps.PutAppendMembers | AdvancedGradingApp.java:84 | appending a student to a grade's list adds exactly that student once to the students held across all lists |
| Grouping.Tally | AdvancedGradingApp.java:81-83 | the count map after the loop's `put(g, getOrDefault(g, 0) + 1)` for each grade in roster order, from any starting map; specified by `TallyCounts` (counts grow by occurrence counts), `TallyKeys` (first-encounter key order) and `TallyTotal` (the total grows by the roster size) |
| Grouping.Bucket | AdvancedGradingApp.java:81-84 | the group map after the loop appends each student to its grade's list in roster order, from any starting map; specified by `BucketGroups` (each list grows by the in-order `Filter`), `BucketKeys` (first-encounter key order) and `BucketMembers` (the lists gain exactly the roster) |
| Grouping.TallyValid | AdvancedGradingApp.java:83 | counting keeps the count map well formed |
| Grouping.BucketValid | AdvancedGradingApp.java:84 | grouping keeps the group map well formed |
| Grouping.TallyStep | AdvancedGradingApp.java:81-83 | loop-step helper for `AssignGrades`: one loop turn's `put` takes the count map of the first `i` grades to the count map of the first `i + 1` |
| Grouping.BucketStep | AdvancedGradingApp.java:81-84 | loop-step helper for `AssignGrades`: one loop turn's append takes the group map of the first `i` students to the group map of the first `i + 1` |
| Grouping.Filter | AdvancedGradingApp.java:84 | the in-order list of the students with a grade has as many elements as that grade has occurrences |
| Grouping.FirstIndex | AdvancedGradingApp.java:50-51 | the first position at which a grade occurs: it holds that grade and the grade is absent before it |
| Grouping.FirstEncounterOrder | AdvancedGradingApp.java:50-51 | the first-encounter list holds each occurring grade exactly once, nothing else, and grades that first occur earlier come earlier |
| Grouping.FilterMembers | AdvancedGradingApp.java:84 | a student is in the filtered list of a grade exactly when it occurs at some position with that grade |
| Grouping.TallyCounts | AdvancedGradingApp.java:83 | each grade's count grows by its number of occurrences, and a grade is a key exactly when it was a key before or occurs |
| Grouping.TallyKeys | AdvancedGradingApp.java:83 | existing keys keep their places and new grades are added in order of first appearance |
| Grouping.TallyTotal | AdvancedGradingApp.java:83 | the counts grow in total by exactly the number of students graded |
| Grouping.BucketGroups | AdvancedGradingApp.java:84 | each grade's list is extended by exactly the students with that grade, in roster order, and a grade is a key exactly when it was a key before or occurs |
| Grouping.BucketKeys | AdvancedGradingApp.java:84 | existing keys keep their places and new grades are added in order of first appearance |
| Grouping.BucketMembers | AdvancedGradingApp.java:84 | the lists together gain exactly the graded students, each once per occurrence |
| Grouping.DistributionFromEmpty | AdvancedGradingApp.java:80-86 | from an empty map the keys are the occurring grades in first-encounter order, each count is that grade's number of occurrences and never zero, and the counts add up to the roster size |
| Grouping.GroupsFromEmpty | AdvancedGradingApp.java:80-86 | from an empty map the keys are the occurring grades in first-encounter order, and each list is the students with that grade in roster order, as long as that grade's count of occurrences |
| Grouping.PartitionFromEmpty | AdvancedGradingApp.java:80-86 | from an empty map the lists partition the roster: together they hold every student exactly as often as the roster does |
| Grouping.ScanFromEmpty | AdvancedGradingApp.java:80-86 | from empty maps both maps have the same keys in first-encounter order, each count equals the length of that grade's list and is positive, the counts add up to the roster size, and the lists partition the roster |
| Grouping.OwnGroupOnly | AdvancedGradingApp.java:84 | with pairwise different students, a student is in the list of its own grade and of no other |
| GradingApp.GradesOf | AdvancedGradingApp.java:82 | the grade `getGrade` gives each student, in roster order; `AssignGrades` states its final maps as `Tally` and `Bucket` of this sequence |
| GradingApp.Student.constructor | AdvancedGradingApp.java:27-30 | a new student has the given name and marks and no grade yet |
| GradingApp.GradingSystem.constructor | AdvancedGradingApp.java:47-51 | a new system has no students, zero statistics and two empty maps |
| GradingApp.GradingSystem.GradeStudent | AdvancedGradingApp.java:81-85 | one loop turn: the student's grade is the ladder's, its count goes up by one from zero or the old count, and the student is appended to the old list or a new empty one |
| GradingApp.GradingSystem.AssignGrades | AdvancedGradingApp.java:80-86 | every student gets the ladder's grade; roster, marks and statistics are unchanged; the maps stay well formed and become the `Tally` and `Bucket` of the grades over their old contents; from empty maps, the two key orders are the same first-encounter order, counts equal list sizes and are positive, counts sum to the roster size, and the lists hold each student once |

## Left out

- `calculateStatistics` (lines 67-76) is not modelled. It uses floating-point division, `Math.pow` and `Math.sqrt`. `mean` and `stdDev` are plain fields of the model, and the properties hold for any values of them, except the ones stated for a non-negative spread. On an empty roster the code divides zero by zero and gets NaN rather than failing. The model follows the code here: it has no "empty input" error and no check that the statistics were computed before grading.
- `loadFromCSV` and `saveResultsToFile` (lines 54-64 and 98-107) are file I/O and are not modelled.
- `GradeVisualizer`, the click lookup into the grade lists, and `main` are GUI and program wiring, and are not modelled.
- `Person.toString`, `Student.toString` and the `Grading` interface only format text or declare signatures, and are not modelled.
- GradeLadder.ZeroSpread: stated on reals. With IEEE doubles, a class of equal marks need not have a computed mean exactly equal to the marks or a computed spread of exactly zero (three marks of 0.1 give a mean just above 0.1 and a tiny positive spread), so the code need not grade such a class "O"; the model does not promise that it does.
- GradeLadder.GetGrade: marks, mean and spread are `real`, not IEEE doubles, so rounding at a threshold is not modelled. NaN is also not modelled: with NaN every comparison fails and the code returns "Fail".
- GradingApp.Student.constructor: `name` and `marks` are `const`. The code never reassigns them after construction, and the inherited `Person` class is folded into `Student`.
- GradingApp.GradingSystem.AssignGrades: the loop body is the separate method `GradeStudent`. The Java `ArrayList` in each group is modelled as a value sequence inside the map, so two maps sharing one list object is not modelled. The code never shares them.
