# VR user evaluation: metrics engine and its pure helpers

This project is a Dafny model of the analysis side of the VR user-evaluation
toolkit: Unity logs interaction events to MongoDB, and a Python pipeline turns them
into usability scores.

**The metrics engine (`MetricsCalculator`) is the centre of the model.**
- A frame of timestamped events gets default identifiers and a semantic role per
  event name.
- A fixed registry of statistics computes raw values over it:
  - hit ratio, success rate, the block learning curve;
  - durations and reaction times rebuilt from `task_start`/`task_end` pairs;
  - gaps and counts.
- Each value is normalised with min/max clipping and optional inversion.
- Each of the four categories (efectividad, eficiencia, satisfaccion, presencia)
  takes a weighted mean of its enabled metrics:
  - a metric that asks to be skipped (`None`) is left out;
  - a metric without data (NaN) counts as raw 0.0.
- The global score is the profile-weighted mean of the four category scores.
- Everything is repeated once per (user, group, session) partition, together with
  the partition's independent-variable tag.

**The smaller pieces around it are modelled as well:**
- the log-document normaliser (`LogParser.parse_logs`);
- the exporter's nested-dict flattening;
- the reconstruction of the experiment configuration from dotted `event_context.*`
  columns in the batch script;
- the `ConfigSystem` lookups and the default event-to-role table;
- the configurator's System Usability Scale scoring, safe path lookup and name
  sanitisation;
- the keys/values round trip of the Unity `SerializableDictionary`;
- the participant-turn state machine of `ParticipantFlowController`. It has an
  explicit clock, and the engine calls are recorded as a trace.

**How the data is represented.**
- Python values are one `Value` datatype: null, bool, number, string, timestamp,
  list, or dict as an ordered association list.
- A frame is a set of column names plus a sequence of rows. A cell missing from
  a row is NaN.
- Metric results are `Val(x)`, `NoData` (NaN) or `Skip` (`None`).
- Library calls are parameters of the model: `np.std`, `json.loads`,
  `json.dumps`, `float()` and `pd.to_datetime`.

**Modules.**
- `Wrappers`, `Values`, `Strings`, `Numeric`: shared vocabulary.
- `Events`: the event table.
- `TaskPairs`: `_derive_task_stats`.
- `Statistics`: the metric functions.
- `Registry`: the metric table.
- `Scoring`: `normalize`, `compute_category` and `compute_global_score`.
- `Calculator`: construction, `compute_all` and `compute_grouped_metrics`.
- `LogParser`, `Exporter`, `ConfigSystem`, `EventRoles`, `Configurator`,
  `Analysis`, `Serialization` and `ParticipantFlow`: the remaining files, one
  module each.

## Model

| member | source | states |
|---|---|---|
| EventRoles.NamesWithRole | python_analysis/event_roles.py:1-27 | a name is in the result exactly when the default table maps it to the given role |
| EventRoles.SuccessNames | python_analysis/event_roles.py:3-8 | exactly target_hit, goal_reached and object_placed_correctly map to action_success |
| EventRoles.FailNames | python_analysis/event_roles.py:3-8 | exactly target_miss, fall_detected and object_dropped map to action_fail |
| EventRoles.ControlEventsAreThemselves | python_analysis/event_roles.py:11-15 | task_start, task_end, task_restart, session_start and session_end map to themselves |
| EventRoles.ErrorNames | python_analysis/event_roles.py:18-21 | exactly collision and navigation_error map to navigation_error; exactly controller_error and wrong_button map to interface_error |
| EventRoles.HelpNames | python_analysis/event_roles.py:24-26 | exactly help_requested, guide_used and hint_used map to help_event |
| Calculator.FillRow | python_analysis/metrics.py:21-34 | missing user, group and session ids become UNKNOWN, GROUP and SESSION; the role is the configured one or custom_event |
| Calculator.AssignRoles | python_analysis/metrics.py:39-49 | same number of rows, and each row changes only its role, which becomes the one resolved from its name |
| Calculator.AssignRolesIdempotent | python_analysis/metrics.py:39-49 | resolving roles a second time, as the constructor does, changes nothing |
| Calculator.New | python_analysis/metrics.py:6-55 | the table keeps the frame's columns and row count; the metrics and profiles sections come from the configuration, or are empty without one |
| Calculator.ConstructedRows | python_analysis/metrics.py:21-49 | every constructed row keeps its timestamp, name, value and cells, has its ids defaulted, and carries the configured role for its name or custom_event |
| Calculator.UnconfiguredRoles | python_analysis/metrics.py:36-47 | without a configuration every row's role is custom_event |
| Scoring.Clip | python_analysis/metrics.py:66 | the result lies in [0, 1] and equals the input when the input already does |
| Scoring.Normalize | python_analysis/metrics.py:60-67 | NaN gives 0.0; a missing bound returns the raw value; with both bounds the result lies in [0, 1]; requires min != max, where the source divides by zero |
| Scoring.NormalizeInvert | python_analysis/metrics.py:67 | with inversion the result is exactly 1 minus the plain result |
| Scoring.NormalizeEnds | python_analysis/metrics.py:66-67 | min normalises to 0 and max to 1 |
| Scoring.NormalizeMonotone | python_analysis/metrics.py:66-67 | with min < max, normalisation preserves order |
| Statistics.HitRatio | python_analysis/metrics.py:73-79 | 0.0 on an empty table or without successes; 1.0 with successes and no fails; otherwise successes/(successes+fails); always in [0, 1] |
| Statistics.ActionCount | python_analysis/metrics.py:76-78 | the action rows are exactly the success rows plus the fail rows |
| Statistics.PrecisionIsHitRatio | python_analysis/metrics.py:73-86 | precision is NaN without action rows and equals the hit ratio otherwise |
| Statistics.Precision | python_analysis/metrics.py:81-86 | NaN exactly when no row is an action; otherwise the number of success rows over the number of action rows, in [0, 1]; never skipped |
| Events.CountIsMatching | python_analysis/metrics.py:197-199 | the length of a filtered frame is the number of row positions that satisfy the mask |
| Events.FilterMultiset | python_analysis/metrics.py:462-464 | a mask keeps every copy of a row it selects and none of a row it rejects |
| Events.Positions | python_analysis/metrics.py:462-464 | the selected row positions, strictly increasing, each in range and satisfying the mask, and every satisfying position is listed |
| Events.FilterAtPositions | python_analysis/metrics.py:462-464 | the filtered frame has one row per selected position, and its j-th row is the row at the j-th selected position |
| Statistics.SuccessRate | python_analysis/metrics.py:88-93 | NaN exactly when there is no task_end row, otherwise a share in [0, 1]; never skipped |
| Statistics.SuccessRateIsProgressionShare | python_analysis/metrics.py:88-93 | success rate is the progression count divided by the number of task_end rows |
| Statistics.Progression | python_analysis/metrics.py:271-278 | the number of task_end rows whose value reads success in any letter case |
| Statistics.BlockRatios | python_analysis/metrics.py:95-103 | one ratio per block of actions, each in [0, 1]; empty exactly for no actions; at most one block up to the block size, at least two beyond it |
| Statistics.LearningCurve | python_analysis/metrics.py:95-103 | empty exactly without action rows; each block ratio in [0, 1]; one block up to the block size, two or more beyond |
| Statistics.BlockCount | python_analysis/metrics.py:97-103 | the number of blocks is the number of actions divided by the block size, rounded up |
| Statistics.BlockValues | python_analysis/metrics.py:97-103 | block j is the success share of the actions from j times the block size up to the next block or the end |
| Statistics.LearningCurveExact | python_analysis/metrics.py:95-103 | the curve has one entry per started block of action rows, and entry j is the success share of block j |
| Statistics.SingleBlockCurve | python_analysis/metrics.py:95-103 | with at most one block of actions the curve is the single hit ratio |
| Statistics.LearningCurveMean | python_analysis/metrics.py:265-269 | in [0, 1], and 0.0 without action rows |
| TaskPairs.SortedColumn | python_analysis/metrics.py:113-128 | the sorted timestamps are non-decreasing with NaT last, one per row |
| TaskPairs.InWindow | python_analysis/metrics.py:141-148 | keeps exactly the action times inside the closed window |
| TaskPairs.Reaction | python_analysis/metrics.py:141-152 | NaN exactly when no action lies in [start, end]; otherwise the first such action minus start, so between 0 and the duration |
| TaskPairs.PairStat | python_analysis/metrics.py:130-152 | a pair is dropped exactly when start > end; a NaT end gives a NaN row; otherwise duration end - start and the windowed reaction |
| TaskPairs.Pairs | python_analysis/metrics.py:130-152 | kept plus dropped pairs equal the shorter column's length, and every row is coherent (0 <= reaction <= duration) |
| TaskPairs.PairsAligned | python_analysis/metrics.py:130-152 | with nothing dropped, the i-th row is the i-th start paired with the i-th end |
| TaskPairs.DeriveTaskStats | python_analysis/metrics.py:105-157 | empty for an empty table; at most min(#task_start, #task_end) rows, less exactly the dropped pairs; every row coherent |
| TaskPairs.TruncatesToShorter | python_analysis/metrics.py:130-134 | when no pair has start > end, there are exactly min(#task_start, #task_end) rows |
| Statistics.DerivedValues | python_analysis/metrics.py:141-157 | derived durations and reactions are non-negative, with no more reactions than durations |
| Statistics.NumericCells | python_analysis/metrics.py:163-166 | exactly the converting cells of the column: empty exactly when none converts, every value is some converting cell's, and every converting cell's value is kept |
| Statistics.ToNumeric | python_analysis/metrics.py:165-166 | a number stays, true and false give 1 and 0, a string is read as a decimal literal, and null, timestamps, lists and dicts give NaN |
| Statistics.NumericStringCell | python_analysis/metrics.py:165-166 | a cell holding a decimal digit string converts to its number |
| Strings.ParseDecimal | python_analysis/metrics.py:165-166 | a string read as a number is non-positive after a leading minus and non-negative otherwise |
| Strings.ParseNatString | python_analysis/metrics.py:165-166 | a decimal digit string reads as its number |
| Strings.ParseNegativeNatString | python_analysis/metrics.py:165-166 | a minus followed by digits reads as the negated number |
| Strings.ParseFractionString | python_analysis/metrics.py:165-166 | digits, a point and digits read as the whole part plus the fraction over the matching power of ten |
| Strings.WordIsNotNumber | python_analysis/metrics.py:165-166 | a string without any digit does not convert |
| Statistics.ExplicitOrDerived | python_analysis/metrics.py:159-187 | the mean of the explicit column when it has a numeric value, otherwise the mean of the derived values, otherwise NaN |
| Statistics.AvgReactionTime | python_analysis/metrics.py:159-172 | never skipped; without a usable reaction_time_ms column, NaN exactly when no reaction is derived, else non-negative |
| Statistics.AvgTaskDuration | python_analysis/metrics.py:174-187 | never skipped; without a usable duration_ms column, NaN exactly when no duration is derived, else non-negative |
| Statistics.TimePerSuccess | python_analysis/metrics.py:189-195 | NaN exactly without successes or timestamps; otherwise the seconds from the earliest to the latest stamp divided by the number of action_success positions, hence non-negative |
| Statistics.VoluntaryPlayTime | python_analysis/metrics.py:201-222 | either 0.0 or above 2 s; non-zero exactly when some task_end with value exactly "success" (case-sensitive) has a stamp and the latest stamp lies more than 2 s after the latest such stamp, and then it is that gap in seconds |
| Statistics.NameCountIgnoresRoles | python_analysis/metrics.py:292-294 | counting rows by event name depends only on the names, row by row |
| Statistics.ErrorCountsIgnoreRoles | python_analysis/metrics.py:292-313 | navigation and interface errors count the raw names collision and ui_error, so relabelling roles leaves them unchanged |
| Statistics.NavigationErrors | python_analysis/metrics.py:292-294 | the number of rows named collision |
| Statistics.AimErrors | python_analysis/metrics.py:296-298 | the number of action_fail rows |
| Statistics.InterfaceErrors | python_analysis/metrics.py:311-313 | the number of rows named ui_error |
| Statistics.RetriesAfterEnd | python_analysis/metrics.py:197-199 | the number of task_restart rows |
| Statistics.AidUsage | python_analysis/metrics.py:224-226 | the number of help_event rows |
| Statistics.SuccessAfterRestart | python_analysis/metrics.py:280-290 | 0.0 whatever the table, the placeholder the source returns |
| Statistics.GapSum | python_analysis/metrics.py:228-232 | a sum of gaps above a non-negative threshold is non-negative |
| Statistics.GapSumWithinSpan | python_analysis/metrics.py:228-232 | over sorted times the summed long gaps lie between 0 and the whole span |
| Statistics.InactivityTime | python_analysis/metrics.py:228-232 | non-negative |
| Statistics.InactivityWithinSpan | python_analysis/metrics.py:228-232 | never more than the time from the first to the last event |
| Statistics.FirstSuccessTime | python_analysis/metrics.py:234-240 | NaN exactly when there is no timed session_start or no timed success; otherwise the seconds from the earliest session_start stamp to the earliest success stamp, negative when the success is earlier; never skipped |
| Statistics.SoundLocalizationTime | python_analysis/metrics.py:242-257 | never NaN; skipped (None) exactly when audio_triggered or head_turn has no stamp (absent or all NaT) or the earliest head_turn is not strictly after the earliest audio_triggered; otherwise the positive seconds between the two |
| Statistics.ActivityLevel | python_analysis/metrics.py:259-263 | NaN exactly when there are no timestamps or the span is not positive; otherwise the row count divided by the span in minutes, hence positive; never skipped |
| Statistics.LearningStability | python_analysis/metrics.py:315-319 | in [0, 1], and 0.0 with fewer than two blocks |
| Statistics.ErrorReductionRate | python_analysis/metrics.py:320-325 | the last block minus the first lies in [-1, 1]; it is 0.0 with fewer than two blocks, so in particular with at most one block's worth of actions |
| Statistics.AudioPerformanceGain | python_analysis/metrics.py:364-378 | 0.0 without an audio_enabled column, and never below -1 |
| Registry.AllMetricsComplete | python_analysis/metrics.py:331-362 | every metric kind appears in the registry |
| Registry.Find | python_analysis/metrics.py:331-362 | a found metric is registered under that name; none found means no metric of the list has the name |
| Registry.MetricOfName | python_analysis/metrics.py:394-397 | a found metric carries the name; none exactly when no metric has it |
| Registry.NotRegistered | python_analysis/metrics.py:394-397 | a name missing from the table belongs to no metric |
| Registry.Evaluate | python_analysis/metrics.py:331-362 | only sound localisation can skip; the task_duration_success and task_duration_fail placeholders equal avg_task_duration |
| Registry.SkipOnlySoundLocalization | python_analysis/metrics.py:242-257 | a metric is skipped exactly when it is sound localisation and that statistic skips |
| Registry.SuccessAfterRestartZero | python_analysis/metrics.py:280-290 | success_after_restart is always 0.0 |
| Registry.AudioGainNeverSkips | python_analysis/metrics.py:364-378 | audio_performance_gain is always a number, never None, and 0.0 without an audio_enabled column |
| Registry.CountsAreValues | python_analysis/metrics.py:197-313 | the count metrics always yield a non-negative number |
| Registry.NameOfInjective | python_analysis/metrics.py:331-362 | no two metrics share a configuration name |
| Registry.MetricOfNameRoundTrip | python_analysis/metrics.py:331-362 | looking a metric's own name up finds that metric |
| Scoring.EntryOf | python_analysis/metrics.py:393-430 | a metric contributes an entry exactly when it is registered, enabled and not skipped |
| Scoring.ScorableTail | python_analysis/metrics.py:393-430 | scoring preconditions pass from a configuration to its tail |
| Scoring.Entries | python_analysis/metrics.py:393-430 | no more entries than configured metrics |
| Scoring.AccumulateIsEntries | python_analysis/metrics.py:393-431 | the loop's accumulated results, weighted sum and weight total are those of the counted entries |
| Scoring.ComputeCategory | python_analysis/metrics.py:383-433 | the category lists exactly the counted entries of its configuration, in order, and its score is their weighted mean, or 0.0 for a zero total |
| Scoring.EntriesAreCounted | python_analysis/metrics.py:400-430 | each entry comes from a configured, registered, enabled, non-skipped metric, with its name, weight (default 1.0), raw value (NaN as 0.0) and the normalised raw value under its bounds and inversion |
| Scoring.EntriesComplete | python_analysis/metrics.py:393-430 | every configured metric has an entry exactly when all of them are counted |
| Scoring.CountedAreListed | python_analysis/metrics.py:400-430 | no counted metric is lost: every configured metric that is registered, enabled and not skipped has an entry with its name, weight, raw and normalised value |
| Scoring.NothingCountedScoresZero | python_analysis/metrics.py:431 | when nothing is counted the category is empty with score 0.0 |
| Scoring.NoneCounted | python_analysis/metrics.py:393-430 | when nothing is counted there are no entries |
| Scoring.WeightedSumBounds | python_analysis/metrics.py:419-431 | with non-negative weights and unit values, the weighted sum lies between 0 and the weight total |
| Scoring.ScoreInUnit | python_analysis/metrics.py:431 | with non-negative weights and unit values the category score is in [0, 1] |
| Scoring.BoundedSpecsGiveUnitEntries | python_analysis/metrics.py:414-430 | metrics with both bounds and non-negative weight give entries with values in [0, 1] |
| Scoring.ConstantWeightedSum | python_analysis/metrics.py:419-431 | equal normalised values v give a weighted sum of v times the weight total |
| Scoring.UniformCategory | python_analysis/metrics.py:431 | if every entry normalises to v and the weights are positive, the category score is v |
| Scoring.DefaultProfileAverages | python_analysis/metrics.py:438-453 | an empty profile gives the plain average of the four category scores |
| Scoring.WeightedScoresBound | python_analysis/metrics.py:446-452 | with non-negative weights and unit scores, the weighted sum lies between 0 and the weight total |
| Scoring.ComputeGlobalScore | python_analysis/metrics.py:438-453 | the global score times the profile's weight total is the profile-weighted sum of the four category scores |
| Scoring.GlobalScoreInUnit | python_analysis/metrics.py:438-453 | with non-negative weights of positive total and unit scores, the global score is in [0, 1] |
| Scoring.UniformWeighted | python_analysis/metrics.py:446-452 | four equal scores v give v times the weight total |
| Scoring.UniformGlobalScore | python_analysis/metrics.py:438-453 | four equal scores v give the global score v whatever the weights |
| Calculator.EvaluatorDispatches | python_analysis/metrics.py:394-404 | a registered name runs its statistic; an unknown name gives no function |
| Calculator.CategoryOn | python_analysis/metrics.py:383-433 | a category of the calculator lists its counted entries and scores their weighted mean |
| Calculator.ReportOn | python_analysis/metrics.py:575-593 | each of the four categories lists the entries of its own configuration and scores their weighted mean; the global score is the profile-weighted mean of those four scores |
| Calculator.ComputeAll | python_analysis/metrics.py:575-593 | the same for the calculator's whole table: each category's entries and weighted-mean score, and the global score over the user's profile |
| Calculator.EmptyConfigScoresZero | python_analysis/metrics.py:383-453 | without metric blocks and profiles any table reports four empty categories and a global score of 0.0 |
| Calculator.UnconfiguredScoresZero | python_analysis/metrics.py:575-593 | without a configuration every category is empty and every score is 0.0 |
| Calculator.GlobalScoreBounded | python_analysis/metrics.py:438-453 | with sound weights and unit entries, the global score is in [0, 1] |
| Calculator.KeyLessIrreflexive | python_analysis/metrics.py:462 | the order of the groupby keys is irreflexive |
| Calculator.KeyLessTransitive | python_analysis/metrics.py:462 | the order of the groupby keys is transitive |
| Calculator.KeyLessTotal | python_analysis/metrics.py:462 | the order of the groupby keys is total |
| Calculator.InsertKey | python_analysis/metrics.py:462 | inserting into a strictly sorted key list keeps it strictly sorted and adds exactly that key |
| Calculator.Keys | python_analysis/metrics.py:462 | the groups are the distinct (user, group, session) triples of the rows, in sorted order |
| Calculator.KeysDistinct | python_analysis/metrics.py:462 | no triple is listed twice |
| Calculator.Partition | python_analysis/metrics.py:462-464 | a partition keeps all columns and every copy of each row of its triple, in table order: each row occurs as often as in the table when its triple matches and not at all otherwise, the row count is the number of matching positions, and its j-th row is the table row at the j-th matching position |
| Calculator.PresentValues | python_analysis/metrics.py:503-508 | `dropna` keeps only non-null values, and is empty exactly when the column is null or missing in every row |
| Calculator.FromSession | python_analysis/metrics.py:507-521 | the tag comes unchanged or from a session dict or decoded JSON string; after a string is seen the json name is bound |
| Calculator.FromContext | python_analysis/metrics.py:528-543 | a falsy or missing context gives no tag, and so does a string context while json is unbound |
| Calculator.FromStarts | python_analysis/metrics.py:524-545 | the tag comes unchanged or from the context of some session_start row |
| Calculator.ResolveIvAsWritten | python_analysis/metrics.py:499-547 | the tag is always truthy; a truthy column value wins; json once bound stays bound; the tag is "N/A", the column value, an independent_variable read from a session cell (dict or decoded string), or one read from a session_start context, a string context being decoded only when json is bound |
| Calculator.ResolveIv | python_analysis/metrics.py:499-547 | with json available to step 3: always truthy; a truthy column value wins; otherwise "N/A", a session-cell value, or a value read from a decoded session_start context |
| Calculator.FromSessionBound | python_analysis/metrics.py:507-521 | step 2's tag does not depend on whether json was bound before, and json is bound after it exactly when it was before or step 2 imports it |
| Calculator.ResolveIvBound | python_analysis/metrics.py:499-547 | after one partition json is bound exactly when it was bound before or this partition runs the import |
| Calculator.AsWrittenOnceBound | python_analysis/metrics.py:515-532 | once json is bound the as-written resolution gives the corrected tag |
| Calculator.SessionSecond | python_analysis/metrics.py:507-521 | without a truthy column value, a truthy tag from the session column wins over step 3 |
| Calculator.NothingTruthyIsNotAvailable | python_analysis/metrics.py:499-547 | when the column, every session cell and every session_start context read as written yield only falsy values, the tag is "N/A" |
| Calculator.ColumnFirst | python_analysis/metrics.py:502-504 | a truthy independent_variable column value wins over every other source |
| Calculator.NoSourceIsNotAvailable | python_analysis/metrics.py:547 | without the column, the session column and any session_start row the tag is "N/A" |
| Calculator.StringContextIgnored | python_analysis/metrics.py:515-534 | a JSON-string context naming "A" yields "N/A" as written, and "A" once json is available |
| Calculator.LastRaw | python_analysis/metrics.py:481-485 | present exactly when some entry has the name; then the raw value of an entry with that name that no later entry shares |
| Calculator.LastRawCons | python_analysis/metrics.py:481-485 | an earlier entry decides the value only when no later entry has its name |
| Calculator.PutRaws | python_analysis/metrics.py:481-485 | the raw columns are exactly the earlier ones plus one per listed metric name; a listed name holds the number of the last entry with that name, any other key keeps its earlier value |
| Calculator.RawColumns | python_analysis/metrics.py:481-485 | the row has one raw entry per metric counted in some category, keyed by the metric's own name (no prefix), and no other; it holds the raw value of the last category entry with that name |
| Calculator.GroupedMetrics | python_analysis/metrics.py:458-551 | one row per distinct triple, in sorted order, each with a truthy tag, json being bound across partitions as written |
| Calculator.AsWrittenThreads | python_analysis/metrics.py:515-547 | the as-written resolution keeps json bound once bound and always gives a truthy tag |
| Calculator.Tags | python_analysis/metrics.py:464-547 | one tag per partition, in order, all truthy when the resolution always is; the first is resolved with the incoming binding |
| Calculator.TagsBound | python_analysis/metrics.py:464-547 | the i-th partition is resolved with json bound exactly when it came bound or some earlier partition bound it |
| Calculator.GroupedMetricsCorrected | python_analysis/metrics.py:458-551 | one row per distinct triple, in sorted order, each tagged with its partition's corrected resolution |
| Calculator.GroupedScores | python_analysis/metrics.py:464-495 | each row holds the raw metric values, the four category scores and the global score of its own partition's report |
| Calculator.GroupedCorrectedScores | python_analysis/metrics.py:464-495 | the same for the corrected rows |
| Calculator.GroupedSameScores | python_analysis/metrics.py:458-551 | the as-written and the corrected rows agree in everything but the tag |
| Calculator.GroupedAgainstCorrected | python_analysis/metrics.py:458-551 | row i's as-written tag is its partition resolved with json bound exactly when an earlier partition bound it; it equals the corrected tag whenever one did |
| Calculator.GroupedStringContextIgnored | python_analysis/metrics.py:458-551 | for the one-partition sheet with a JSON-string session_start context, the as-written row is tagged "N/A" and the corrected row "A" |
| Calculator.OneRowPerTriple | python_analysis/metrics.py:458-551 | every event's triple has a row, no triple has two, and no partition is empty |
| Calculator.KeysCover | python_analysis/metrics.py:462 | every event's triple is a group key, and no key's partition is empty |
| LogParser.IdOf | python_analysis/log_parser.py:25-26 | the root id when truthy, otherwise the context's; fails when a non-dict context is consulted |
| LogParser.WithoutIds | python_analysis/log_parser.py:47-48 | drops exactly session_id and group_id and keeps every other key's value |
| LogParser.ContextBag | python_analysis/log_parser.py:45-48 | never holds session_id or group_id; empty unless event_context is a dict |
| LogParser.Spread | python_analysis/log_parser.py:50-52 | with expansion a context key overrides the fixed field, otherwise the field is kept |
| LogParser.AsFloat | python_analysis/log_parser.py:38-42 | the float conversion when it succeeds, the value unchanged otherwise |
| LogParser.ParseLog | python_analysis/log_parser.py:22-57 | a row exists exactly when the timestamp parses and both ids resolve; ids as resolved; the context is the JSON of the bag, or the bag's own context key when expanded |
| LogParser.ParsedFields | python_analysis/log_parser.py:28-42 | user_id defaults to UNKNOWN, event_type and event_name to undefined, and the value is its float conversion |
| LogParser.ContextOverrides | python_analysis/log_parser.py:50-52 | with expansion the bag's user_id, event_name and timestamp override the fixed fields |
| LogParser.Collect | python_analysis/log_parser.py:22-57 | a batch of per-log results yields rows exactly when every log has one, the rows in input order |
| LogParser.ParseAll | python_analysis/log_parser.py:22-57 | succeeds exactly when every log parses, with one row per log in input order |
| LogParser.Columns | python_analysis/log_parser.py:59-66 | the present members of the fixed eight-name list, in that order; context only when some row has it |
| LogParser.ParseLogs | python_analysis/log_parser.py:22-68 | one row per log in input order, columns drawn from the fixed list only |
| LogParser.AllColumnsWithoutExpansion | python_analysis/log_parser.py:53-55 | without expansion a non-empty batch has all eight columns |
| LogParser.NoContextColumns | python_analysis/log_parser.py:62-66 | expanded context keys are dropped: no column starts with event_context. |
| Exporter.PutKeepsDistinct | python_analysis/exporter.py:62 | storing under a key keeps keys distinct and appends a new key at the end |
| Exporter.Update | python_analysis/exporter.py:51-60 | the keys are those of both sides, and keys not in the update keep their values |
| Exporter.UpdateDistinct | python_analysis/exporter.py:51-60 | an update keeps keys distinct |
| Exporter.UpdateLaterWins | python_analysis/exporter.py:51-60 | on a collision the later value wins |
| Exporter.Flatten | python_analysis/exporter.py:39-66 | a top-level scalar gives the single entry value; any other non-container gives {parent: d} |
| Exporter.FlattenList | python_analysis/exporter.py:47-52 | the keys are exactly those bound by flattening each element under parent.index |
| Exporter.FlattenDict | python_analysis/exporter.py:54-63 | the keys are exactly the dotted keys of the non-container entries and the keys bound by flattening the container entries under their dotted keys |
| Exporter.FlattenDistinct | python_analysis/exporter.py:39-66 | the flattened dict never repeats a key |
| Exporter.FlattenListDistinct | python_analysis/exporter.py:47-52 | a flattened list never repeats a key |
| Exporter.FlattenDictDistinct | python_analysis/exporter.py:54-63 | a flattened dict never repeats a key |
| Exporter.ScalarListKeepsLast | python_analysis/exporter.py:43-52 | a list of scalars keeps only its last element, under "value" |
| Exporter.EmptyContainersVanish | python_analysis/exporter.py:47-63 | empty dicts and lists contribute no entries |
| Exporter.LeafStored | python_analysis/exporter.py:56-62 | a non-container value, None included, is stored unchanged under key or parent.key, winning over earlier entries |
| Exporter.NestedUnderKey | python_analysis/exporter.py:56-60 | a nested container is flattened with the dotted key as its prefix |
| Exporter.DottedUnder | python_analysis/exporter.py:50-56 | a key under a dotted child key is also under the parent |
| Exporter.FlattenUnderParent | python_analysis/exporter.py:47-63 | below a non-empty parent every key is the parent, a dotted extension of it, or "value" |
| Exporter.ListUnderParent | python_analysis/exporter.py:47-52 | list elements are keyed under parent.index, or under "value" |
| Exporter.DictUnderParent | python_analysis/exporter.py:54-63 | dict entries are keyed under parent.key |
| ConfigSystem.New | python_analysis/config_system.py:22-24 | each section is the configured block, or an empty dict when it is missing |
| ConfigSystem.GetOr | python_analysis/config_system.py:29-49 | a lookup in a dict section gives the configured value or the default; a non-dict section fails |
| ConfigSystem.GetEventRole | python_analysis/config_system.py:29-31 | fails exactly when event_roles is not a dict; otherwise the configured role, or "other" |
| ConfigSystem.GetMetricConfig | python_analysis/config_system.py:36-38 | fails exactly when metrics is not a dict; otherwise the category block, or an empty dict |
| ConfigSystem.GetAllMetricConfigs | python_analysis/config_system.py:36-42 | the whole metrics section, from which every category block is read |
| ConfigSystem.GetCustomEventType | python_analysis/config_system.py:47-49 | fails exactly when custom_events is not a dict; otherwise the configured type, or "custom_event" |
| ConfigSystem.DocumentLookups | python_analysis/config_system.py:22-49 | read from the document: a lookup fails exactly when its section is present and not a dict, an absent section answers with the default, and a dict section with the configured value |
| ConfigSystem.DeclaredRole | python_analysis/config_system.py:29-31 | a declared event role is returned as configured |
| ConfigSystem.MissingSectionsDefault | python_analysis/config_system.py:22-49 | with no sections: role other, empty metric block, type custom_event, all configs empty |
| ConfigSystem.GetVersionInfo | python_analysis/config_system.py:54-60 | the three keys in order, configured or defaulted to unknown, "" and "" |
| Configurator.ComputeSus | python_analysis/experiment_configurator.py:520-526 | the loop computes the SUS score: odd items add answer-1, even items add 5-answer, times 2.5 |
| Configurator.SusSumBounds | python_analysis/experiment_configurator.py:520-525 | answers on the 1-5 scale sum to between 0 and 4 per item |
| Configurator.SusScoreBounds | python_analysis/experiment_configurator.py:503-526 | ten answers on the 1-5 scale give a score in [0, 100] |
| Configurator.NeutralSum | python_analysis/experiment_configurator.py:520-525 | all answers 3 add 2 per item |
| Configurator.NeutralScoresFifty | python_analysis/experiment_configurator.py:503-526 | ten answers of 3 score 50 |
| Configurator.BestSum | python_analysis/experiment_configurator.py:520-525 | the best answers (5 on odd items, 1 on even ones) add 4 per item |
| Configurator.BestScoresHundred | python_analysis/experiment_configurator.py:503-526 | ten best answers score 100 |
| Configurator.GetVal | python_analysis/experiment_configurator.py:102-110 | the empty path returns the whole profile; a non-empty path on a non-dict gives the default |
| Configurator.GetValDefault | python_analysis/experiment_configurator.py:102-110 | an unresolved path gives the default; a resolved one does not depend on the default |
| Configurator.GetValCompose | python_analysis/experiment_configurator.py:102-110 | looking up p + q is looking up q below p when p resolves, and the default otherwise |
| Configurator.Sanitize | python_analysis/experiment_configurator.py:36 | same length, no spaces, lower case |
| Configurator.SanitizeOfSanitized | python_analysis/experiment_configurator.py:36 | a name already without spaces and in lower case is unchanged |
| Configurator.SafeProfileName | python_analysis/experiment_configurator.py:36-38 | ends in .json, has no spaces, is lower case; .json is appended exactly when it is missing |
| Configurator.SafeProfileNameIdempotent | python_analysis/experiment_configurator.py:36-38 | sanitising a safe name changes nothing |
| Configurator.CustomMetricName | python_analysis/experiment_configurator.py:291 | no spaces, lower case, no longer than the input, no blank at either end |
| Configurator.KeepsNonSpace | python_analysis/experiment_configurator.py:291 | lowering and space replacement never turn a non-blank character into a blank |
| Configurator.CustomMetricNameIdempotent | python_analysis/experiment_configurator.py:291 | sanitising a sanitised metric name changes nothing |
| Configurator.AddedMetricName | python_analysis/experiment_configurator.py:289-291 | a metric is added exactly when name and target are non-empty, under the sanitised name |
| Configurator.BlankNameAccepted | python_analysis/experiment_configurator.py:289-291 | the guard tests the raw name, so a single space is accepted and sanitises to the empty name |
| Configurator.ManualOverride | python_analysis/experiment_configurator.py:318-320 | a manual participant forces count 1 and order [manual]; otherwise both are kept |
| Configurator.ParticipantId | python_analysis/experiment_configurator.py:421-423 | an id exists exactly when group and user are non-empty, with length group + 1 + user |
| Configurator.ParticipantIdParts | python_analysis/experiment_configurator.py:423 | with no _ in the group, splitting the id at _ gives the group back and then the user |
| Configurator.ParticipantIdInjective | python_analysis/experiment_configurator.py:423 | with no _ in the groups, equal ids mean equal group and user |
| Analysis.EarliestIn | python_analysis/vr_analysis.py:48-51 | over the rows' sort keys: none exactly when no key marks a config row; otherwise a config row that no config row precedes in time, with ties going to the first |
| Analysis.EarliestConfig | python_analysis/vr_analysis.py:48-51 | none exactly when the sheet has no config row; otherwise a config row that no config row precedes in time, earlier than every config row before it |
| Analysis.ContextPath | python_analysis/vr_analysis.py:54-60 | an event_context. column's path is its remaining dotted segments, never empty |
| Analysis.ContextCells | python_analysis/vr_analysis.py:54 | only event_context. columns contribute, each with a non-empty path |
| Analysis.SetPath | python_analysis/vr_analysis.py:61-64 | succeeds exactly when every level met is a dict; the result is a dict whose keys add the first segment |
| Analysis.FreshLevels | python_analysis/vr_analysis.py:62-63 | an empty dict accepts any path, since levels are created on demand |
| Analysis.SetThenGet | python_analysis/vr_analysis.py:61-64 | after setting a path its value is read back there |
| Analysis.SetKeepsOthers | python_analysis/vr_analysis.py:61-64 | setting a path leaves every diverging path's value unchanged |
| Analysis.SetKeepsDictsAlong | python_analysis/vr_analysis.py:62-63 | setting one path keeps the levels of a diverging path dicts, so prefixes are shared |
| Analysis.Reconstruct | python_analysis/vr_analysis.py:57-64 | the result is a dict, and empty without context columns |
| Analysis.ReconstructPrefix | python_analysis/vr_analysis.py:57-64 | with diverging paths every prefix of the loop succeeds and leaves room for the rest |
| Analysis.ReconstructRetrieves | python_analysis/vr_analysis.py:57-64 | with diverging paths every cell's value is found at its path |
| Analysis.LeafThenNestedFails | python_analysis/vr_analysis.py:62-64 | a leaf followed by a path through it makes setdefault meet a non-dict and raise |
| Analysis.ExperimentConfig | python_analysis/vr_analysis.py:48-69 | None exactly without config rows; otherwise the reconstruction of the context cells of the earliest config row, ties going to the first |
| Analysis.ParsedConfigIsEmpty | python_analysis/vr_analysis.py:33-69 | on a parsed frame the reconstructed configuration is the empty dict when a config row exists, None otherwise |
| Analysis.NoCellsNoConfig | python_analysis/vr_analysis.py:48-69 | a sheet without event_context. columns rebuilds to the empty dict when a config row exists, None otherwise |
| Analysis.ScriptScores | python_analysis/vr_analysis.py:95-96 | the script's unconfigured calculator reports empty categories and all scores 0.0 |
| Serialization.Get | vr_logger/Runtime/Manager/SerializableDictionary.cs:12 | a value exists exactly when the key is present |
| Serialization.Assign | vr_logger/Runtime/Manager/SerializableDictionary.cs:43 | the key then maps to the value and every other key is unchanged |
| Serialization.AssignFresh | vr_logger/Runtime/Manager/SerializableDictionary.cs:43 | a new key is appended at the end |
| Serialization.AssignDistinct | vr_logger/Runtime/Manager/SerializableDictionary.cs:43 | assignment keeps keys distinct |
| Serialization.OnBeforeSerialize | vr_logger/Runtime/Manager/SerializableDictionary.cs:21-31 | both lists are refilled pairwise from the entries and are as long as the dictionary |
| Serialization.BeforeSerializeIdempotent | vr_logger/Runtime/Manager/SerializableDictionary.cs:23-24 | a second call gives the same lists, with no stale entries |
| Serialization.OnAfterDeserialize | vr_logger/Runtime/Manager/SerializableDictionary.cs:34-45 | throws exactly on a length mismatch, and then the dictionary is already empty; the lists are kept |
| Serialization.LoadLaterWins | vr_logger/Runtime/Manager/SerializableDictionary.cs:41-44 | each key maps to the value of its last occurrence |
| Serialization.LoadDistinct | vr_logger/Runtime/Manager/SerializableDictionary.cs:41-44 | the loaded dictionary has distinct keys |
| Serialization.DeserializedLookups | vr_logger/Runtime/Manager/SerializableDictionary.cs:34-45 | with equal lengths nothing throws and each key maps to its last value |
| Serialization.LoadEntries | vr_logger/Runtime/Manager/SerializableDictionary.cs:21-44 | loading the first n serialised pairs rebuilds the first n entries |
| Serialization.RoundTrip | vr_logger/Runtime/Manager/SerializableDictionary.cs:7-45 | serialising and then deserialising restores the original dictionary without throwing |
| ParticipantFlow.StartedAppend | vr_logger/Runtime/Manager/ParticipantFlowController.cs:91 | calls other than StartSessionForUser do not change who was started |
| ParticipantFlow.Begin | vr_logger/Runtime/Manager/ParticipantFlowController.cs:77-97 | past the end it only sets turnActive false; otherwise it starts the current participant, stamps the turn and activates it |
| ParticipantFlow.Next | vr_logger/Runtime/Manager/ParticipantFlowController.cs:102-129 | a no-op without an active turn; otherwise it ends the turn, increments the index by one and continues only if someone remains |
| ParticipantFlow.Update | vr_logger/Runtime/Manager/ParticipantFlowController.cs:61-72 | changes the state only when a turn is active and its time is up, and then acts as Next |
| ParticipantFlow.Start | vr_logger/Runtime/Manager/ParticipantFlowController.cs:34-59 | the duration is 60 unless the configured one is strictly positive; the config is logged twice; the first turn is active exactly when the order is non-empty |
| ParticipantFlow.BeginValid | vr_logger/Runtime/Manager/ParticipantFlowController.cs:77-97 | beginning keeps the invariant: index within bounds, active only below the end, started exactly the prefix |
| ParticipantFlow.StartValid | vr_logger/Runtime/Manager/ParticipantFlowController.cs:34-59 | the initial flow satisfies the invariant |
| ParticipantFlow.NextValid | vr_logger/Runtime/Manager/ParticipantFlowController.cs:102-129 | the next step keeps the invariant and the index never decreases, growing by at most one |
| ParticipantFlow.Run | vr_logger/Runtime/Manager/ParticipantFlowController.cs:61-139 | along any run of frames and forced skips the index never decreases |
| ParticipantFlow.RunValid | vr_logger/Runtime/Manager/ParticipantFlowController.cs:61-139 | every run keeps the invariant, the order and a non-decreasing index |
| ParticipantFlow.ForceTimesProgress | vr_logger/Runtime/Manager/ParticipantFlowController.cs:135-139 | k forced skips from an active turn advance the index by exactly k |
| ParticipantFlow.ForceTimesOrder | vr_logger/Runtime/Manager/ParticipantFlowController.cs:135-139 | forced skips never change the participant order |
| ParticipantFlow.EveryoneTakesATurn | vr_logger/Runtime/Manager/ParticipantFlowController.cs:86-124 | skipping through the whole list starts every participant once, in list order, and ends inactive |

## Left out

**Outside the pure engine:**
- MongoDB access, file reads and writes, and the web and Unity UI. These are I/O and presentation. They cover `fetch_logs`/`close`, profile load/save, the Mongo pushes, exports to disk, and the streamlit rendering.
- `compute_variable_metrics`. It picks columns by their pandas dtype, and the model has no dtype information.
- `ConfigSystem.__init__`'s file check and `json.load`. The model starts from the decoded document.
- Unity's `Awake` singleton, `Debug.Log` and the engine's session and tracking managers. The managers appear only as calls recorded in the trace.
- `ParticipantFlow`: `ForceNextParticipant` is modelled as `Next` itself (its step in `Run`). It has no contract of its own.

**Library calls taken as parameters:**
- `np.std`, `json.loads`, `json.dumps`, `float()` on an event value, and `pd.to_datetime` are given by the caller.
- `np.std` is assumed to return a non-negative number.
- `np.nanmean` over the learning curve is the plain mean, because block ratios are never NaN.

**Numbers and strings:**
- Python floats and C# `float` are exact reals. There is no rounding, infinity or NaN arithmetic.
- Timestamps are integer milliseconds, with `None` for NaT.
- Lower-casing is ASCII only. Python's full Unicode `str.lower` is not modelled.

**Other simplifications:**
- pandas `sort_values` (quicksort, not stable) is modelled through the sorted timestamps and the NaT count, which is all the statistics use.
- Analysis.EarliestIn / Analysis.ExperimentConfig: among config rows with the same earliest timestamp, the first row in table order is taken. `sort_values` uses quicksort, which is not stable, so the source leaves this tie open.
- A frame without a `timestamp` column is modelled as a frame whose timestamps are all NaT. `_derive_task_stats` then yields NaN rows instead of none, and the derived durations and reactions are empty in both cases.
- On such a frame the source raises `KeyError` where a statistic reads the column: `time_per_success` (line 194, once there is a success), `voluntary_play_time` (line 209, once there is a successful `task_end`), `inactivity_time` (line 230), `first_success_time` (line 236) and `activity_level` (line 261). The model gives NaN or 0.0 there instead.
- In the batch script, a NaN cell of an `event_context.` column is read as null.
- `unique()` is modelled as first-occurrence order over the present values.
- C# `Dictionary` enumeration is insertion order. Removal never happens in the modelled code.
- Calculator.New: every raw row carries an event name, so the frame always has an `event_name` column. The source raises `KeyError` at line 44 of `metrics.py` on a frame without one. That is the frame `parse_logs` returns for an empty batch, since `LogParser.Columns` gives no columns for it. The model builds an empty calculator instead. The batch script guards against an empty batch before constructing one (`vr_analysis.py` line 36).
- ParticipantFlow.Start: the order is a `seq<string>`, so a null `participants.order` cannot be represented. In the source it throws a `NullReferenceException` at `participantOrder.Length` (line 54 of `ParticipantFlowController.cs`), after the first `SendConfigAsLog`. A null `participants` or `session` object throws at lines 42-43 in the same way.

**Weaker or preconditioned contracts:**
- Scoring.Normalize: requires `min != max`, where the source divides by zero.
- Calculator.ReportOn / Calculator.ComputeAll / Calculator.GroupedMetrics / Calculator.GroupedMetricsCorrected: require a non-zero profile weight total, where `compute_global_score` divides by zero, and `min != max` for every counted metric of every category, where `normalize` divides by zero. The grouped variants require both on every partition.
- Calculator.CategoryOn: requires `min != max` for every counted metric of the category, where `normalize` divides by zero.
- Scoring.ComputeGlobalScore: requires a non-zero profile weight total, where `compute_global_score` divides by zero.
- Exporter.NestedUnderKey: states that the flattened child binds the same keys to the same values as the flattening under the dotted key. It does not state that the two association lists are equal element by element.
- Statistics.AvgReactionTime: gives the NaN and sign facts only on the derived path. The explicit-column path is stated by Statistics.ExplicitOrDerived.
- Statistics.AvgTaskDuration: the same as AvgReactionTime, for the duration column.
- Statistics.AudioPerformanceGain: states only the missing-column case and the lower bound -1.
- Strings.ParseDecimal: reads an optional sign, digits and at most one point. Exponents, `inf`/`nan`, surrounding whitespace and digit underscores, which `pd.to_numeric` accepts, read as non-numeric. Its contract states the sign only; the values are stated by Strings.ParseNatString, Strings.ParseNegativeNatString and Strings.ParseFractionString.
- Statistics.ToNumeric: a timestamp cell is treated as non-numeric.
- Scoring.EntryOf: a weight is a number or absent. A configured null weight, which makes the source raise when it multiplies, is not representable.
- Scoring.EntryOf: inversion is a boolean or absent. A configured non-boolean `invert`, which the source reads by truthiness, is not representable.
- Statistics.Progression: the counts are reals. The source returns Python ints, which the scoring uses the same way.

## Findings

| source | as written | input that shows it | evidently intended | confidence | as-written member | corrected member |
|---|---|---|---|---|---|---|
| python_analysis/metrics.py:515 | `import json` inside the step-2 `try` makes `json` a local name of the whole method. Step 3's `json.loads` at line 532 then raises `UnboundLocalError` unless step 2 already ran the import. The bare `except` turns this into `ctx = {}`, so a JSON-string context is ignored. | one partition, no `independent_variable` or `session` column, and one `session_start` row whose `context` is a JSON string holding `independent_variable` "A" | the tag "A" read from the decoded context | not executed | Calculator.GroupedStringContextIgnored (with Calculator.GroupedMetrics, Calculator.ResolveIvAsWritten) | Calculator.GroupedMetricsCorrected (with Calculator.ResolveIv) |
