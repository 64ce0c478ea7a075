# moodledb-exporter, modelled in Dafny

The exporter is a Prometheus exporter for a Moodle database. It declares
fourteen gauges. Seven are unlabeled; seven are labeled by a course, quiz,
certification or badge. On every tick of its main loop it:

1. runs a fixed catalog of thirteen SQL queries (`get_metrics`), keeping
   column 0 of the first row for seven of them and every row for the other
   six;
2. sets each unlabeled gauge to its scalar;
3. walks each row set in order, calling `.labels(...).set(v)` once per row.
   Three loops guard the call: completion rates need `total_enrolled > 0`,
   quiz success rates need `total_attempts > 0`, and grades need a non-NULL
   average.

This project models that core:

| file | module | what it holds |
|---|---|---|
| `wrappers.dfy` | `Wrappers` | `Option` and `Result` (with `:-` support) |
| `label_text.dfy` | `LabelText` | Python's `str(int)` on label values, and its inverse |
| `gauges.dfy` | `Gauges` | the fourteen gauge declarations; one `set` call on a series; `FoldSets`, which replays a loop of `set` calls, with its general lemmas |
| `catalog.dfy` | `Catalog` | the thirteen catalog groups in order, database cells, and `get_metrics` as the method `GetMetrics` with its loop |
| `rows.dfy` | `Rows` | the column shape of each row set; `Decode`, the unpacking the tick performs (including the exceptions it raises); `Encode`, a packing of a tick's values into a results dictionary that `Decode` undoes (a right inverse: an integer 5 and a decimal 5 unpack alike) |
| `cycle.dfy` | `Cycle` | the gauge state, `Tick` (one tick as a function), and the lemmas stating what a tick promises |
| `exporter.dfy` | `Exporter` | class `Registry`, whose fields are the gauges, updated in place by one loop per row-set group, and `Step`, one pass of the main loop |

The database is abstract. What the database does with the i-th catalog
query is the input `fetched[i]`: `None` when `cursor.execute` raises (a
missing table such as the add-on plugin's `mdl_customcert`, a lost
connection), otherwise the sequence of rows it returns, each a sequence of
`Cell`s (integer, decimal, text or NULL). A labeled gauge is a `map<seq<string>, real>` from
label tuples to the last value set. Numbers are exact reals.

Three contracts connect the layers:
- `Registry.ApplyTick` and `Registry.Step` are proved to leave `State()`
  equal to `Tick(old(State()), t)`.
- Each loop method is proved against `FoldSets`.
- The properties of the exporter are lemmas about `Tick` and `FoldSets`.

Where the code and its informal description differ, the model follows the code:
- No query is retried and nothing is reconnected. Any exception (a query
  that raises, a NULL scalar, a scalar query with no row, a row that does
  not unpack) escapes
  the main loop and ends the exporter. `Step` returns it as a `Failure`.
- A NULL average grade is skipped (line 240). A NULL scalar is not: setting
  a gauge to `None` raises.
- The series key of a two-label gauge is the whole `(str(id), name)`
  tuple. A course that is renamed gets a new series, and the old one
  stays with its last value. `Cycle.RenamedCourseKeepsOldSeries` proves this.

## Model

| member | source | states |
|---|---|---|
| Catalog.GetMetrics | moodledb-exporter.py:159-174 | Succeeds exactly when every query runs and every scalar query's answer has a first row with a column 0. On success the dictionary has every catalog group: the six row-set groups hold all rows and the others hold `row[0][0]`, in catalog order. On failure it names the first query, in catalog order, that raised: `QueryFailed` when `cursor.execute` raised, `NoRow` when `fetchone()` gave no row, `EmptyRow` when the row had no column 0. |
| Catalog.PrefixStep | moodledb-exporter.py:162-171 | Running query i adds exactly its group, with what that query kept, to the dictionary built by the queries before it. |
| Catalog.PrefixComplete | moodledb-exporter.py:162-174 | After the last query the dictionary holds every group, each with its own query's answer. |
| Catalog.Kept | moodledb-exporter.py:164-171 | Definition, no contract of its own: the value `results[key]` receives. Its properties are stated by `GetMetrics` and `PrefixComplete`. |
| Catalog.Collected | moodledb-exporter.py:159-174 | Definition, no contract of its own: the dictionary `get_metrics` returns. `GetMetrics` and `PrefixComplete` state its domain and values, and `Exporter.Registry.Step` is proved against it. |
| Catalog.CatalogShape | moodledb-exporter.py:85-157 | The catalog has 13 queries. Every group appears exactly once, and the i-th query is the group at position i. The last six are exactly the row-set groups listed at lines 164-168. |
| Catalog.Position | moodledb-exporter.py:85-157 | Every group has a place in the catalog, and the query there is that group. |
| Gauges.Set | moodledb-exporter.py:219 | One `.labels(k).set(v)`: afterwards `k` maps to `v`, every other entry is unchanged, and the domain grows by `k` only. |
| Gauges.FoldDomain | moodledb-exporter.py:218-245 | After a loop of `set` calls, an entry is present exactly when it was present before or some row set it. |
| Gauges.FoldUntouched | moodledb-exporter.py:218-245 | An entry that no row of the loop sets keeps its presence and its value. |
| Gauges.FoldLastWins | moodledb-exporter.py:218-245 | The last row that sets an entry decides its value. |
| Gauges.FoldOverride | moodledb-exporter.py:218-245 | A loop's effect is to override the old series with what the rows alone set; nothing is removed. |
| Gauges.FoldIdempotent | moodledb-exporter.py:218-245 | Running the same loop twice gives what running it once gives. |
| Gauges.FoldPreserves | moodledb-exporter.py:218-245 | A property of entries that holds before the loop and holds for every value the loop sets still holds afterwards. |
| Gauges.FoldStep | moodledb-exporter.py:218-245 | Walking one more row adds that row's `set` call, if it makes one, to the walk of the rows before it. |
| LabelText.NatToString | moodledb-exporter.py:219 | Decimal digits, at least one, no leading zero. |
| LabelText.IntToString | moodledb-exporter.py:219 | `str(id)` is non-empty and starts with `-` exactly when the id is negative. |
| LabelText.ParseNatToString | moodledb-exporter.py:219 | Reading back the digits of `n` gives `n`. |
| LabelText.ParseIntToString | moodledb-exporter.py:219 | Reading back `str(i)` gives `i`. |
| LabelText.IntToStringInjective | moodledb-exporter.py:219 | `str(i) == str(j)` exactly when `i == j`, so distinct ids give distinct label values. |
| Rows.Decode | moodledb-exporter.py:209-245 | Definition, no contract of its own: the unpacking of the results dictionary, in the order the tick reads it. Its properties are `DecodeEncode` and `DecodeEncodeCellKinds` (round trip), `DecodeOfParts`, `FirstFailureReported`, `NullActiveUsersFails` and `BadEnrolmentRowFails` (error paths). |
| Rows.ScalarOf | moodledb-exporter.py:209-215 | Definition, no contract of its own: `metrics[key]` handed to `set`. `ScalarsOfEncode` states that every scalar unpacks to its value under any packing `float()` undoes, so both for an integer cell (a COUNT scalar) and for a decimal cell, whole or not (`db_size`, `avg_time_on_site`); `NullActiveUsersFails` states the NULL case. |
| Rows.RowsOf | moodledb-exporter.py:218-245 | Definition, no contract of its own: iterating `metrics[key]` and unpacking each row. `RowsOfEncoded`, `RowSetsOfEncode` and `BadEnrolmentRowFails` state its properties. |
| Rows.DecodeEnrolled | moodledb-exporter.py:218 | Definition, no contract of its own: unpacking `courseid, coursename, count`. `RowRoundTrips` gives its round trip. |
| Rows.DecodeCompletion | moodledb-exporter.py:222 | Definition, no contract of its own: unpacking `course_id, course_name, total_enrolled, total_completed`. `RowRoundTrips` gives its round trip. |
| Rows.DecodeQuiz | moodledb-exporter.py:228 | Definition, no contract of its own: unpacking `quiz_id, total_attempts, total_success`. `RowRoundTrips` gives its round trip. |
| Rows.DecodeCertification | moodledb-exporter.py:235 | Definition, no contract of its own: unpacking `certification_id, certification_name, total_issued`. `RowRoundTrips` gives its round trip. |
| Rows.DecodeGrade | moodledb-exporter.py:239-240 | Definition, no contract of its own: unpacking `course_id, course_name, average_grade`, with NULL as `None`. `RowRoundTrips` gives its round trip. |
| Rows.DecodeBadge | moodledb-exporter.py:244 | Definition, no contract of its own: unpacking `badge_name, badge_count`. `RowRoundTrips` gives its round trip. |
| Rows.DecodeRows | moodledb-exporter.py:218 | A row set unpacks exactly when every row unpacks, row for row and in order. |
| Rows.NumberCell | moodledb-exporter.py:209-245 | One packing of a number: an integer cell exactly for a whole value, a decimal cell otherwise; `float()` of the cell gives the number back. |
| Rows.DecimalCell | moodledb-exporter.py:209-245 | Another packing: always a decimal cell, as SUM and AVG columns arrive even when whole (lines 98, 102, 122, 130, 145); `float()` of the cell gives the number back. |
| Rows.DecodeEncode | moodledb-exporter.py:209-245 | For every packing of numbers that `float()` undoes, unpacking the results dictionary built from any tick's values gives back those values. |
| Rows.DecodeEncodeCellKinds | moodledb-exporter.py:209-245 | The round trip holds both when every whole number arrives as an integer cell (COUNT columns) and when every number arrives as a decimal cell, whole or not (SUM and AVG columns). |
| Rows.DecodeEncodeRows | moodledb-exporter.py:218 | A row set encodes and then decodes to itself when each row does. |
| Rows.RowRoundTrips | moodledb-exporter.py:218-245 | For every packing `float()` undoes, each of the six row shapes decodes back from its encoding; a NULL average grade round-trips as `None`. |
| Rows.RowsOfEncoded | moodledb-exporter.py:218-245 | A group that holds encoded rows unpacks to those rows. |
| Rows.ScalarsOfEncode | moodledb-exporter.py:209-215 | For every packing `float()` undoes, each scalar group of an encoded tick unpacks to its value. |
| Rows.RowSetsOfEncode | moodledb-exporter.py:218-245 | Each row-set group of an encoded tick unpacks to its rows. |
| Rows.DecodeOfParts | moodledb-exporter.py:209-245 | When every group unpacks to a tick's value, the whole dictionary unpacks to that tick. |
| Rows.NullActiveUsersFails | moodledb-exporter.py:209 | A NULL active-user count makes the tick fail with `NotNumeric` at that gauge, whatever else the results hold. |
| Rows.FirstFailureReported | moodledb-exporter.py:209-245 | When a group does not unpack and every group the tick reads before it does, the tick fails with that group's error, whatever the later groups hold. |
| Rows.BadEnrolmentRowFails | moodledb-exporter.py:218 | When the scalars unpack, one enrolment row that does not unpack into `(courseid, coursename, count)` makes the tick fail at that group. |
| Gauges.FoldSets | moodledb-exporter.py:218-245 | Definition, no contract of its own: a `for` loop of guarded `set` calls, replayed row by row. Its properties are `FoldDomain`, `FoldUntouched`, `FoldLastWins`, `FoldOverride`, `FoldIdempotent`, `FoldPreserves` and `FoldStep`. The six loop methods of `Exporter.Registry` are proved against it. |
| Cycle.Tick | moodledb-exporter.py:209-245 | Definition, no contract of its own: one tick on the gauge state, scalars then the six loops. Its properties are the `Cycle` lemmas below. `Exporter.Registry.UpdateGauges`, `ApplyTick` and `Step` are proved against it. |
| Cycle.EnrolledWrite | moodledb-exporter.py:218-219 | Definition, no contract of its own: the unguarded `set` of the enrolment loop. `EnrolledDomain`, `EnrolledSet` and `EnrolledUnnamedUnchanged` state its effect. |
| Cycle.CompletionWrite | moodledb-exporter.py:222-225 | Definition, no contract of its own: the `set` of the completion loop, guarded by `total_enrolled > 0` (line 223). `CompletionSet`, `CompletionUnchangedWithoutEnrolment` and `CompletionAppearsOnlyWhenEnrolled` state its effect. |
| Cycle.QuizAttemptsWrite | moodledb-exporter.py:228-229 | Definition, no contract of its own: the unguarded attempts `set`. `QuizAttemptsSet` and `QuizAttemptsUnnamedUnchanged` state its effect. |
| Cycle.QuizSuccessWrite | moodledb-exporter.py:230-232 | Definition, no contract of its own: the success-rate `set`, guarded by `total_attempts > 0` (line 230). `QuizSuccessSet` and `QuizSuccessUnchangedWithoutAttempts` state its effect. |
| Cycle.CertificationWrite | moodledb-exporter.py:235-236 | Definition, no contract of its own: the unguarded certification `set`. `CertificationSet` and `CertificationUnnamedUnchanged` state its effect. |
| Cycle.GradeWrite | moodledb-exporter.py:239-241 | Definition, no contract of its own: the grades `set`, guarded by `average_grade is not None` (line 240). `GradeSet` and `GradeUnchangedWithoutAverage` state its effect. |
| Cycle.BadgeWrite | moodledb-exporter.py:244-245 | Definition, no contract of its own: the badge `set`, keyed by the badge name alone. `BadgeSet` and `BadgeUnnamedUnchanged` state its effect. |
| Cycle.IdNameKey | moodledb-exporter.py:219 | A two-label key has two values. |
| Cycle.QuizKey | moodledb-exporter.py:229 | A quiz key has one value. |
| Cycle.IdNameKeyInjective | moodledb-exporter.py:219 | Two `(str(id), name)` keys are equal exactly when both ids and names are. |
| Cycle.QuizKeyInjective | moodledb-exporter.py:229 | Two quiz keys are equal exactly when the quiz ids are. |
| Cycle.FoldKeepsArity | moodledb-exporter.py:218-245 | A loop whose every `set` call uses an `n`-value key keeps a series whose keys all have `n` values. |
| Cycle.TickWellShaped | moodledb-exporter.py:33-79 | After a tick, every key of a labeled gauge still has as many values as the gauge declares label names. |
| Cycle.DeclaredArities | moodledb-exporter.py:33-79 | The arities `WellShaped` checks are the lengths of the declared label-name lists. |
| Cycle.TickNeverRemoves | moodledb-exporter.py:218-245 | No tick removes a series from any of the seven labeled gauges. |
| Cycle.EnrolledDomain | moodledb-exporter.py:218-219 | An enrolment series exists after a tick exactly when it existed before or some row names its `(courseid, coursename)`. |
| Cycle.EnrolledUnnamedUnchanged | moodledb-exporter.py:218-219 | An enrolment series that no row names keeps its presence and value. |
| Cycle.CertificationSet | moodledb-exporter.py:235-236 | A row after which no row has the same `(certification_id, certification_name)` pair sets that series to its issued count. |
| Cycle.CertificationUnnamedUnchanged | moodledb-exporter.py:235-236 | A certification series that no row names keeps its presence and value. |
| Cycle.BadgeSet | moodledb-exporter.py:244-245 | A row after which no row has the same badge name sets that series to its count. |
| Cycle.BadgeUnnamedUnchanged | moodledb-exporter.py:244-245 | A badge series that no row names keeps its presence and value. |
| Cycle.EnrolledSet | moodledb-exporter.py:218-219 | A row after which no row has the same `(courseid, coursename)` pair sets that series to its enrolment count. |
| Cycle.CompletionUnchangedWithoutEnrolment | moodledb-exporter.py:222-225 | A completion series whose every row has `total_enrolled <= 0` (or that no row names) is untouched. |
| Cycle.CompletionAppearsOnlyWhenEnrolled | moodledb-exporter.py:222-225 | A completion series that is new after a tick came from a row with `total_enrolled > 0`. |
| Cycle.CompletionSet | moodledb-exporter.py:222-225 | A row with `total_enrolled > 0` sets the rate to `total_completed / total_enrolled * 100`, provided every later row with the same key is skipped by the guard. |
| Cycle.QuizAttemptsSet | moodledb-exporter.py:228-229 | The last row for a quiz sets its attempts to `total_attempts`, 0 included. |
| Cycle.QuizAttemptsUnnamedUnchanged | moodledb-exporter.py:228-229 | A quiz that no row names keeps its attempts series, presence and value. |
| Cycle.QuizSuccessSet | moodledb-exporter.py:230-232 | A row with attempts sets its quiz's success rate to `total_success / total_attempts * 100`, provided every later row for that quiz is skipped by the guard. |
| Cycle.QuizSuccessUnchangedWithoutAttempts | moodledb-exporter.py:230-232 | A quiz whose rows all have no attempts keeps its success-rate series as it was. |
| Cycle.GradeUnchangedWithoutAverage | moodledb-exporter.py:239-241 | A grade series whose rows all have a NULL average is untouched. |
| Cycle.GradeSet | moodledb-exporter.py:239-241 | A row with an average sets the series to exactly that average, provided every later row with the same key has a NULL average. |
| Cycle.RenamedCourseKeepsOldSeries | moodledb-exporter.py:218-219 | A row with a known id and a new name adds a new series; the old `(id, name)` series stays with its old value whenever no row of the tick names that pair, even if another course now has the old name. |
| Cycle.TickIdempotent | moodledb-exporter.py:209-245 | Applying the same results twice gives the state that applying them once gives. |
| Cycle.RateBounded | moodledb-exporter.py:224 | `part / whole * 100` lies in [0, 100] when `0 <= part <= whole` and `whole > 0`. |
| Cycle.CompletionRatesBounded | moodledb-exporter.py:120-127 | When every row has `0 <= total_completed <= total_enrolled`, which the query's COUNT and SUM-CASE shape ensures, every completion rate stays in [0, 100]. |
| Cycle.QuizSuccessRatesBounded | moodledb-exporter.py:128-136 | When every row has `0 <= total_success <= total_attempts`, every quiz success rate stays in [0, 100]. |
| Cycle.IntroAdvancedExample | moodledb-exporter.py:218-225 | A course with 10 enrolled and 5 completions gets a 50% rate. A course with no enrolment gets an enrolment series but no rate. |
| Exporter.Registry.constructor | moodledb-exporter.py:17-79 | Every gauge starts at 0 with no series. |
| Exporter.Registry.ApplyTick | moodledb-exporter.py:209-245 | Updates the gauges in place to `Tick` of the old state, keeping every key at its declared arity. |
| Exporter.Registry.UpdateGauges | moodledb-exporter.py:209-245 | The scalar gauges first, then the six loops; the new state is `Tick` of the old. |
| Exporter.Registry.SetScalars | moodledb-exporter.py:209-215 | Sets the seven unlabeled gauges to their values. |
| Exporter.Registry.SetSeries | moodledb-exporter.py:217-245 | Runs the six loops in source order; each labeled gauge becomes its loop's `FoldSets`. |
| Exporter.Registry.SetEnrolledPerCourse | moodledb-exporter.py:218-219 | The enrolment loop leaves the gauge equal to `FoldSets` of its rows. |
| Exporter.Registry.SetCourseCompletionRates | moodledb-exporter.py:222-225 | The completion loop, guarded by `total_enrolled > 0`, equals its `FoldSets`. |
| Exporter.Registry.SetQuizAttemptsAndSuccess | moodledb-exporter.py:228-232 | The one quiz loop updates both quiz gauges, each equal to its own `FoldSets`. |
| Exporter.Registry.SetCertificationAchievements | moodledb-exporter.py:235-236 | The certification loop equals its `FoldSets`. |
| Exporter.Registry.SetGradesDistribution | moodledb-exporter.py:239-241 | The grades loop, skipping NULL averages, equals its `FoldSets`. |
| Exporter.Registry.SetIssuedBadges | moodledb-exporter.py:244-245 | The badge loop, keyed by the badge name alone, equals its `FoldSets`. |
| Exporter.Registry.Step | moodledb-exporter.py:204-245 | One pass of the main loop. It succeeds exactly when `get_metrics` succeeds (every query runs and every scalar has a first cell) and its results unpack. It then applies `Tick`. On any failure the gauges are left as they were. |

## Left out

- The SQL text of each query and its meaning over Moodle's tables are not modelled. The rows each query returns are an input.
- The MySQL connection, its options, the `READ COMMITTED` session setting (lines 192-202) and the cursor's I/O are left out. Each query's outcome is an input: its rows, or `None` when `cursor.execute` raises.
- The HTTP server (`start_http_server`) and the text exposition format are left out, as are scrapes running concurrently with a tick.
- The environment configuration (lines 7-14), the banner and log lines, `time.sleep`, the endless repetition of the loop and the `KeyboardInterrupt` handler are left out. `Step` models one pass.
- Floating-point rounding: values and rates are exact reals, so IEEE 754 rounding of `total_completed / total_enrolled * 100` is not captured.
- Exporter.Registry.Step: when unpacking fails midway, Python has already made the `set` calls for the earlier gauges. The model leaves the gauges unchanged instead.
- Rows.Decode: requires every row to have its columns' types (an integer id, a text name, numeric measures) and rejects a text scalar. Python would pass any object to `str()` and would let `float()` parse a numeric string. Both are narrower than the code accepts.
- Rows.Decode: a NULL measure column is rejected in every row set except the grades average. Python fails on NULL in almost every such column too, but not in two: `total_completed` in a row whose `total_enrolled` is 0, and `total_success` in a row without attempts. A guard that is false keeps Python from reading either value.
- Label values other than integers (`str()` of names that are not strings) are not modelled. Names are text.
- Rows.Numeric: the conversion `set` applies to a cell (`float()` on an integer or a decimal) is a definition with no contract of its own. `NumberCell` and `DecimalCell` state that it gives back the number of an integer cell and of a decimal cell, whole or not; `DecodeEncode` and `RowRoundTrips` lift that to whole rows and ticks; `NullActiveUsersFails` states the NULL case.
- Catalog.RunQuery: one pass of the loop at lines 163-171, written as a method so the `get_metrics` loop body stays small. Its contract is its own case split, so it has no row; `GetMetrics` states the properties of `get_metrics`.
- Cycle.Rate: the rate computation has no contract of its own. Its properties are `RateBounded` and the `CompletionSet` and `QuizSuccessSet` lemmas.
