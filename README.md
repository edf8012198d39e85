# Tennis match statistics: a verified model of the stats and scoring pipeline

The pipeline works on a tennis video. The ball tracker yields a list of **shot frames**. A mini-court projection yields the ball and player positions per frame. The pipeline then goes through four stages:

1. **Shot-event accumulator and forward-fill** (`main.py`).
   - The table starts from an all-zero statistics row at frame 0.
   - Every pair of consecutive shot frames appends a copy of the last row. In the copy, the shooter's shot count, total shot speed and last shot speed change, and the opponent's total and last movement speed change.
   - The shooter is the player nearer the ball.
   - The sparse rows are spread over every video frame (left merge plus forward fill).
   - Per-player average columns are added, guarded against a zero count.
2. **Derived series and the session summary** (`player_stats_drawer_utils.py`).
   - Each player gets six derived columns: acceleration, a rolling 5-sample shot-speed spread, cumulative distance, rally contribution, total shots and rally percentage.
   - `generate_report_max_only` reduces the table to a one-row summary: column maxima, and means over the non-zero entries only.
3. **Threshold scoring** (`app_rep.py`).
   - A three-tier table turns each summary metric into 0–3 points.
   - The column loop adds a `<col>_Points` column per scorable player column.
   - The points are summed per player and expressed as a percentage of 30.
4. **Talent report** (`generate_report.py`).
   - Each report metric gets a paragraph chosen by the first explanation key found in its label, and rated against that key's thresholds.
   - Counting strong, moderate and weak skills gives one of three verdicts.
   - An empty table produces no report.

The Dafny modules follow these files:

| Module | File | Content |
|---|---|---|
| `Values` | `values.dfy` | Cell values (a real or NaN); named columns of a one-row table. |
| `Strings` | `strings.dfy` | `startswith`, `in`, `split`, `join`, `lower`, `replace` on strings; the split/join round trip. |
| `StatsTable` | `stats_table.dfy` | Statistics rows and per-player totals. The class `StatsFrame` is the table that later stages extend in place. |
| `ShotStats` | `shot_stats.dfy` | The accumulator loop, the forward fill and the average columns (`main.py`). |
| `PlayerStatsDrawer` | `player_stats_drawer.dfy` | The derived series, `draw_player_stats`, `calculate_average_speed` and `generate_report_max_only`. |
| `Scoring` | `scoring.dfy` | `thresholds`, `calculate_points` and `calculate_player_scores`. |
| `TalentReport` | `talent_report.dfy` | `generate_paragraph`, `evaluate_talent` and `generate_player_report`. |

The loops of the source are Dafny methods with loop invariants, each proved against a specification function:
- the accumulator loop;
- the forward fill;
- the column loop of the scorer;
- the talent counters;
- the two report loops.

The methods of the model are:
- the loops above (`AccumulateStats`, `ExpandFrames`, `ScoreColumns`, `EvaluateTalent`, `ReadMetrics`, `AnalyseMetrics`);
- the deep-copy-and-update step of the accumulator (`CopyWithShot`);
- the two entry points `CalculatePlayerScores` and `GeneratePlayerReport`;
- `draw_player_stats` and the average-column step (`DrawPlayerStats`, `AddAverageColumns`), which change the caller's table in place and so modify a `StatsFrame` object.

The remaining operations are functions, with lemmas that relate them to each other.

Two source helpers become parameters of the model:
- The distance and pixel-to-metre helpers of the `utils` module are fields of a `Geometry` value. `utils` is not part of this model.
- The square root of the rolling standard deviation is a function parameter `root`, assumed to give 0 for 0 and to be non-negative.

## Model

| member | source | states |
|---|---|---|
| ShotStats.Speed | main.py:89-100 | The speed in km/h times the interval in seconds is the distance times 3.6. It is non-negative when the shot frames increase and the distance is non-negative. Equal frames are excluded, because the source would divide by zero. |
| ShotStats.NearerPlayer | main.py:107 | The chosen player's distance is at most the other's, and a tie goes to the first player. |
| ShotStats.DistanceToBall | main.py:107 | The distance from a player to the ball at a frame; it is non-negative under non-negative geometry helpers. |
| ShotStats.MeasureInterval | main.py:86-120 | The event of one pair of shot frames: its start frame, and a shooter at minimal distance to the ball (the first player on a tie). The ball speed is the speed of the ball's converted distance between the two frames. The opponent speed is the speed of the non-shooter's converted distance between its positions at the two frames. Both are non-negative under non-negative geometry helpers. |
| StatsTable.Other | main.py:111 | The opponent is never the shooter. |
| StatsTable.StatRow.With | main.py:122-129 | Replacing one player's totals keeps the frame and the other player's totals. |
| ShotStats.Events | main.py:86-120 | One event per adjacent pair of shot frames (none with fewer than two), the i-th measuring frames i and i+1. |
| ShotStats.ApplyShot | main.py:122-129 | The next row: frame_num becomes the start frame. The shooter's shot count goes up by exactly 1, its total shot speed goes up by the ball speed, and its last shot speed becomes the ball speed. The opponent's total player speed goes up by the opponent speed and its last player speed becomes it. Every other field is unchanged. |
| ShotStats.History | main.py:71-131 | The specification of the table: the zero seed first, and each later row is the previous one updated by its event. |
| ShotStats.CopyWithShot | main.py:122-131 | The deep-copy-and-mutate step yields exactly the next row of the history. |
| ShotStats.AccumulateStats | main.py:71-131 | The loop builds exactly the history of the events. With k ≥ 1 shot frames there are k rows (1 with none). It hands back the last pair's shooter, which is absent exactly when there are fewer than two shot frames. |
| ShotStats.HistoryStep | main.py:131 | One more event appends exactly one row, derived from the last. |
| ShotStats.HistoryUnique | main.py:71-131 | Any rows that start at the seed and follow the update rule are the history, so the loop's result is determined. |
| ShotStats.ShotCountsAddUp | main.py:122-124 | In row i the two players' shot counts sum to i. |
| ShotStats.TotalsNeverDecrease | main.py:124-128 | With non-negative speeds, a player's shot count and running totals never decrease from one row to any later row. |
| ShotStats.NoShotsNoShotSpeed | main.py:124-126 | A player with no shots yet has zero total and last shot speed. |
| ShotStats.EventsHaveNonNegativeSpeeds | main.py:86-120 | Strictly increasing shot frames and non-negative geometry give non-negative event speeds. |
| ShotStats.EventStarts | main.py:87-123 | Event i starts at shot frame i. |
| ShotStats.HistoryFramesIncrease | main.py:71-131 | With increasing shot frames that start above 0, the rows' frame numbers strictly increase. |
| ShotStats.LatestRow | main.py:133-136 | The index of the row with the largest frame_num not above f. |
| ShotStats.LatestRowUnique | main.py:133-136 | That row is the only one with this property. |
| ShotStats.ExpandFrames | main.py:133-136 | The merge and forward fill give one row per video frame. The row of frame f carries the columns of the latest statistics row at or before f, with frame_num f. |
| ShotStats.BeforeFirstShotIsZero | main.py:71-136 | Every frame before the first shot carries the all-zero totals. |
| ShotStats.Guard | main.py:140-143 | `replace(0, 1)`: the divisor is positive, and equals the count unless the count is 0. |
| ShotStats.AverageRowOf | main.py:140-143 | The four average columns of one row, written in terms of the last shooter and its opponent. For each player they are its total shot speed over its own guarded shot count, and its total player speed over the other player's guarded shot count. |
| ShotStats.AverageColumns | main.py:140-143 | Average shot speed is the total shot speed over the player's own guarded shot count. Average player speed is the total player speed over the other player's guarded shot count. |
| ShotStats.AveragesIgnoreLastShooter | main.py:140-143 | The four columns do not depend on which player shot last. A player with no shots gets the total itself as the average. |
| ShotStats.AddAverageColumns | main.py:140-143 | Adds the average columns to the table in place, leaving the rows and the derived series unchanged. |
| StatsTable.LastShotSpeeds | main.py:126 | The `last_shot_speed` column of a player, frame by frame. |
| StatsTable.LastPlayerSpeeds | main.py:129 | The `last_player_speed` column of a player, frame by frame. |
| StatsTable.StatsFrame.constructor | main.py:133 | A fresh table holds the dense rows and no added columns yet. |
| PlayerStatsDrawer.Acceleration | player_stats_drawer_utils.py:22-23 | The `diff().fillna(0)` series: 0 at frame 0, otherwise the difference from the previous frame. |
| PlayerStatsDrawer.AccelerationTelescopes | player_stats_drawer_utils.py:22-23 | Summing the acceleration up to frame f gives speed[f] − speed[0]. |
| PlayerStatsDrawer.CumSum | player_stats_drawer_utils.py:42-43 | `cumsum`: entry f is the sum of the first f+1 entries. |
| PlayerStatsDrawer.RunningTotals | player_stats_drawer_utils.py:42-43 | The first n running sums, each the sum of a prefix. |
| PlayerStatsDrawer.Scale | player_stats_drawer_utils.py:42-43 | Entry-wise multiplication by the frame time. |
| PlayerStatsDrawer.SumScaled | player_stats_drawer_utils.py:40-43 | Summing the scaled series is scaling the sum. |
| PlayerStatsDrawer.ScaledSums | player_stats_drawer_utils.py:40-43 | The same for every prefix at once. |
| PlayerStatsDrawer.DistanceCovered | player_stats_drawer_utils.py:40-43 | `(speed * frame_time).cumsum()`: one entry per frame, and entry f is the sum of the speeds up to f divided by the FPS. |
| PlayerStatsDrawer.DistanceIsScaledSum | player_stats_drawer_utils.py:40-43 | The distance at frame f is the sum of speeds up to f divided by the FPS. It grows by speed[f]/FPS per frame. |
| PlayerStatsDrawer.DistanceNeverDecreases | player_stats_drawer_utils.py:40-43 | With non-negative speeds the distance covered never decreases. |
| PlayerStatsDrawer.CountIncreases | player_stats_drawer_utils.py:45-46 | The number of frames j in 1..f whose shot speed rose; it is at most f. |
| PlayerStatsDrawer.RallyContribution | player_stats_drawer_utils.py:45-46 | `(diff() > 0).cumsum()`: entry f counts the increases up to frame f. |
| PlayerStatsDrawer.RallyContributionSteps | player_stats_drawer_utils.py:45-46 | 0 at frame 0, never above f, and it rises by 0 or 1 per frame: by 1 exactly when the shot speed rose. |
| PlayerStatsDrawer.TotalShots | player_stats_drawer_utils.py:48-56 | `diff().gt(0).cumsum()`: entry f is the size of the set of frames with an increase. |
| PlayerStatsDrawer.CountIsSize | player_stats_drawer_utils.py:45-56 | The count of increases equals the size of that set. |
| PlayerStatsDrawer.TotalShotsIsRallyContribution | player_stats_drawer_utils.py:45-56 | The total-shots column equals the rally-contribution column at every frame. |
| PlayerStatsDrawer.Percent | player_stats_drawer_utils.py:58-59 | a/b·100 lies in [0, 100] when a ≤ b, and equals 100 exactly when a = b. |
| PlayerStatsDrawer.RallyPercentage | player_stats_drawer_utils.py:58-59 | 0 where the total is 0 (the `fillna(0)` of 0/0), otherwise the percentage. |
| PlayerStatsDrawer.RallyPercentageAllOrNothing | player_stats_drawer_utils.py:45-59 | Because both counters are equal, the rally percentage is 0 before the first increase and exactly 100 after it. |
| PlayerStatsDrawer.Window | player_stats_drawer_utils.py:25-38 | `rolling(5, min_periods=1)`: the window at frame f holds frames max(0, f−4)..f, in order. |
| PlayerStatsDrawer.Mean | player_stats_drawer_utils.py:29 | The mean of a non-empty window times its size is its sum. |
| PlayerStatsDrawer.SquaredDeviations | player_stats_drawer_utils.py:29 | A sum of squares, never negative. |
| PlayerStatsDrawer.SampleVariance | player_stats_drawer_utils.py:29 | The `ddof=1` variance of at least two samples is non-negative. |
| PlayerStatsDrawer.Spread | player_stats_drawer_utils.py:29 | `std().fillna(0)` of one window: 0 for a single sample. With a root that maps 0 to 0 and is non-negative, it is non-negative, and 0 on a window holding one repeated value. |
| PlayerStatsDrawer.ConstantHasNoVariance | player_stats_drawer_utils.py:29 | A window of at least two copies of one value has sample variance 0. |
| PlayerStatsDrawer.ShotInconsistency | player_stats_drawer_utils.py:25-38 | Entry f is the spread of the window ending at frame f. |
| PlayerStatsDrawer.SumConstant | player_stats_drawer_utils.py:29 | The sum of n copies of c is n·c. |
| PlayerStatsDrawer.NoDeviationFromConstant | player_stats_drawer_utils.py:29 | A constant window has no deviation from its value. |
| PlayerStatsDrawer.ShotInconsistencyFacts | player_stats_drawer_utils.py:25-38 | The spread is non-negative. It is 0 at frame 0 (a single sample, NaN filled with 0) and 0 on any constant window. |
| PlayerStatsDrawer.SeriesMax | player_stats_drawer_utils.py:91-110 | `max()`: NaN exactly for an empty series; otherwise an element at least as large as every element. |
| PlayerStatsDrawer.NonZero | player_stats_drawer_utils.py:13-17 | `replace(0, nan)` then skipping NaN: as a multiset, exactly the entries of the series with every 0 removed, each non-zero value as often as it occurs. |
| PlayerStatsDrawer.NonZeroCount | player_stats_drawer_utils.py:13-17 | The kept entries number as many as the series has entries other than 0 (its length minus its count of 0). There are none exactly when every entry is 0. |
| PlayerStatsDrawer.NonZeroMember | player_stats_drawer_utils.py:13-17 | Every kept value is a non-zero entry of the series. |
| PlayerStatsDrawer.NonZeroSum | player_stats_drawer_utils.py:13-17 | Dropping the zeros leaves the sum unchanged. |
| PlayerStatsDrawer.SumAppend | player_stats_drawer_utils.py:13-17 | Appending a value adds it to the sum. |
| PlayerStatsDrawer.SumToPrefix | player_stats_drawer_utils.py:13-17 | A prefix sum depends only on the entries of that prefix. |
| PlayerStatsDrawer.NonZeroMean | player_stats_drawer_utils.py:13-17 | `replace(0, nan).mean()`: NaN exactly when every entry is 0 (or there are none). Otherwise the sum of the series over the number of its entries that are not 0. |
| PlayerStatsDrawer.SumBounded | player_stats_drawer_utils.py:13-17 | n entries between lo and hi sum to between n·lo and n·hi. |
| PlayerStatsDrawer.MeanBetween | player_stats_drawer_utils.py:13-17 | A sum between n·lo and n·hi, divided by n, lies between lo and hi. |
| PlayerStatsDrawer.NonZeroMeanWithin | player_stats_drawer_utils.py:13-17 | The mean lies within any bounds of the non-zero entries: it is a mean of those entries only. |
| PlayerStatsDrawer.CalculateAverageSpeed | player_stats_drawer_utils.py:12-19 | Each of the four averages (last player speed of each player, then last shot speed of each player) is the non-zero mean of its column: NaN when the column is all zero, otherwise the column's sum over its number of non-zero entries. |
| PlayerStatsDrawer.AverageSpeedNaN | player_stats_drawer_utils.py:12-19 | Each of the four averages is NaN exactly when the rows' column it reads is 0 at every frame. |
| PlayerStatsDrawer.Derive | player_stats_drawer_utils.py:22-59 | The six derived columns of one player. Acceleration is 0 at frame 0 and otherwise the change of speed. Distance at frame f is the speed sum up to f over the FPS. The shot inconsistency is the spread of the trailing window. The rally contribution counts the frames whose shot speed rose, total shots equals it, and the rally percentage is 0 before the first rise and 100 from it on. |
| PlayerStatsDrawer.DrawPlayerStats | player_stats_drawer_utils.py:21-83 | Returns the video frames unchanged. Adds each player's six derived columns to the caller's table in place, and leaves the rows and averages as they were; the per-row loop changes nothing. |
| PlayerStatsDrawer.Reals | player_stats_drawer_utils.py:105-108 | The counter columns read as reals, entry by entry. |
| PlayerStatsDrawer.PlayerSummary | player_stats_drawer_utils.py:88-110 | A player's ten summary values, one per metric. The maximum and the non-zero mean of its last shot speeds, then of its last player speeds. Then the maximum of acceleration, shot inconsistency, distance, rally contribution, total shots and rally percentage. Each maximum is NaN only for an empty column, and otherwise an entry of the column that no entry exceeds. |
| PlayerStatsDrawer.SpeedSummary | player_stats_drawer_utils.py:88-98 | The first four of those values: maximum and non-zero mean of the shot speeds, then of the player speeds. |
| PlayerStatsDrawer.DerivedSummary | player_stats_drawer_utils.py:99-110 | The last six: the maximum of each derived column. |
| PlayerStatsDrawer.Interleave | player_stats_drawer_utils.py:90-111 | The summary row's column order: metric by metric, the first player's column then the second's, each named `player_<id>_<metric>`. |
| PlayerStatsDrawer.GenerateReportMaxOnly | player_stats_drawer_utils.py:87-117 | The summary has 20 columns, named `player_<id>_<metric>` in dictionary order. |
| PlayerStatsDrawer.SummaryColumns | player_stats_drawer_utils.py:87-117 | Column 2k holds the first player's value of metric k and column 2k+1 the second player's. |
| PlayerStatsDrawer.MaxRallyPercentage | player_stats_drawer_utils.py:48-110 | On a non-empty table the maximal rally percentage is 0 or 100. |
| PlayerStatsDrawer.PlayerSummaryFacts | player_stats_drawer_utils.py:105-110 | In the summary, `total_shots` always equals `max_rally_contribution`, and `max_rally_percentage` is 0 or 100. |
| Scoring.ThresholdsWellFormed | app_rep.py:5-16 | The ten table metrics are exactly the summary metrics. Each metric's tiers are nested: High ≥ Med ≥ Low, reversed for the inconsistency. |
| Scoring.CalculatePoints | app_rep.py:18-40 | At most 3 points. At least 1, 2 or 3 points exactly when the value clears the Low, Med or High tier: `>=`, or `<=` for the inconsistency. A name outside the table, or a NaN, scores 0. |
| Scoring.PointsMonotone | app_rep.py:23-40 | Points never decrease with the value, and never increase for the inconsistency. |
| Scoring.InclusiveBoundaries | app_rep.py:6-40 | `max_shot_speed` 55 scores 3 and 54.9 scores 2. Inconsistency 23 scores 3, 23.1 scores 2 and 36.1 scores 0. NaN scores 0. |
| Scoring.Clears | app_rep.py:23-40 | Only a real value reaches a threshold. It reaches it when at or above it, or at or below it for the inconsistency. |
| Scoring.StatNamePieces | app_rep.py:49 | `"_".join(col.split("_")[2:])`: the stat name splits into exactly the pieces of the column name after the second, and is empty when there are at most two pieces. |
| Scoring.StatNameOfColumn | app_rep.py:49 | Dropping the first two `_`-separated tokens of `player_<id>_<metric>` gives back the metric, whatever underscores it holds. |
| Strings.JoinSplit | app_rep.py:49 | Joining the split pieces with the same separator restores the string. |
| Strings.Split | app_rep.py:49 | `split` yields at least one piece, and no piece holds the separator. |
| Strings.SplitNoSep | app_rep.py:49 | A string without the separator splits into itself alone. |
| Strings.SplitJoin | app_rep.py:49 | Splitting a join of separator-free pieces gives back the pieces. |
| Strings.DropTwoPieces | app_rep.py:49 | Splitting `a_b_c` with separator-free a and b yields a and b, and then pieces that rejoin to c. |
| Strings.ContainsWitness | app_rep.py:53-54 | `t in s` yields a position where t occurs. |
| Strings.MissingCharNotContained | app_rep.py:53-54 | A string lacking one of t's characters does not contain t. |
| Strings.Lower | generate_report.py:79 | `lower()` on ASCII: upper-case letters shift by 32 and every other character is kept. |
| Strings.ReplaceChar | generate_report.py:79 | `replace(a, b)` for single characters: every a becomes b, and nothing else changes. |
| Scoring.PointsColumn | app_rep.py:50-51 | The points column is named `<col>_Points` and holds 0–3. |
| Scoring.SetColumn | app_rep.py:51-53 | `df[name] = v`: the column is present with value v afterwards, every other column is kept, and a new name is appended at the end. |
| Scoring.Replace | app_rep.py:51-53 | Overwriting a column keeps the order and names of the columns. |
| Scoring.PlayerColumnMetric | app_rep.py:46-49 | A column that starts with `player_1_` or `player_2_` has as stat name everything after those nine characters. |
| Scoring.ScorableColumns | app_rep.py:46-50 | The loop scores a column exactly when it belongs to player 1 or 2 and its part after `player_<id>_` is a metric of the table. |
| Scoring.PointsTable | app_rep.py:45-51 | The table after the loop has visited n columns: every input column keeps its place and name, and the table only grows. |
| Scoring.NewPoints | app_rep.py:50-51 | The points columns of the scorable columns: at most one per input column, each holding 0–3. |
| Scoring.ScoreColumns | app_rep.py:45-51 | The column loop produces the points table: one `_Points` column per scorable player column, visited in order. |
| Scoring.PointsTableStep | app_rep.py:45-51 | Visiting one column sets its points column when it belongs to player 1 or 2 and its stat name is in the table, and otherwise changes nothing. |
| Scoring.PointsTableAppends | app_rep.py:45-51 | On a table without `_Points` names the loop appends exactly the points columns of the scorable columns, in input order. |
| Scoring.FreshPointsName | app_rep.py:51 | A new points name clashes with no input column and no earlier points column. |
| Scoring.TotalScore | app_rep.py:53-54 | A player's total (NaN cells skipped): 0 when no column counts toward it, and non-negative when every counting cell is. |
| Scoring.TotalScoreAppend | app_rep.py:53-54 | The total of two column lists is the sum of their totals. |
| Scoring.TotalScoreOfNoPoints | app_rep.py:53-54 | Columns without `_Points` add nothing to a total. |
| Scoring.TotalScoreIgnores | app_rep.py:53-54 | Setting a column outside a player's prefix leaves that player's total unchanged, so the first total column does not change the second total. |
| Scoring.ReplaceKeepsTotal | app_rep.py:53-54 | The same for overwriting an existing column. |
| Scoring.PlayerPoints | app_rep.py:50-54 | The reference total: the points of the scorable columns with the player's prefix, at most 3 per column. |
| Scoring.PlayerPointsAppend | app_rep.py:50-54 | The reference total of two lists is the sum of theirs. |
| Scoring.CountsTowardPoints | app_rep.py:46-54 | A player column's points column counts toward a player's total exactly when the column is that player's. |
| Scoring.TotalOfPointsColumn | app_rep.py:50-54 | The points column of one scorable column adds its points to its own player's total and nothing to the other's. |
| Scoring.TotalOfNewPoints | app_rep.py:50-54 | The sum of the appended points columns with a player's prefix is that player's reference total. |
| Scoring.TotalOfScoredRow | app_rep.py:45-54 | On an input without `_Points` names, a player's total after the loop is its reference total. |
| Scoring.Percentage | app_rep.py:56-58 | total/30·100 lies in [0, 100] for a total in [0, 30], and is 100 exactly for 30. |
| Scoring.CalculatePlayerScores | app_rep.py:42-69 | The two returned percentages are each player's `_Points` total after the column loop, as a percentage of 30. The first total column does not leak into the second total. |
| Scoring.MetricPoints | app_rep.py:18-53 | Points of a list of metric values: at most 3 per metric, and full marks exactly when every metric scores 3. |
| Scoring.ColumnFacts | app_rep.py:45-51 | A summary name of player 1 or 2 is a player column of the matching player, its stat name is the metric, and it does not contain `_Points`. |
| Scoring.ColumnNameInjective | app_rep.py:49 | Names `player_<id>_<metric>` with `_`-free ids are equal only for equal ids and metrics. |
| Scoring.SummaryRowNames | app_rep.py:43-51 | A players-1-and-2 summary row over distinct metrics has distinct names, none mentioning `_Points`. |
| Scoring.InterleavedNamesUnique | app_rep.py:43 | Two different `_`-free ids over distinct metrics give distinct column names. |
| Scoring.SummaryRowPoints | app_rep.py:50-54 | The reference total of each player in a summary row is the metric points of that player's values. |
| Scoring.PairPoints | app_rep.py:50-54 | The two columns of one metric give each player the points of their own value. |
| Scoring.ReportMetricsFacts | app_rep.py:5-16 | The summary metrics are distinct and hold no `P`. |
| Scoring.RowScore | app_rep.py:42-54 | Scoring a players-1-and-2 summary row gives each player the metric points of their values. |
| Scoring.SummaryScore | app_rep.py:42-54 | The same for the actual summary metrics. |
| Scoring.MetricPercentage | app_rep.py:5-58 | For the ten table metrics the percentage lies in [0, 100], and is 100 exactly when every value clears its High tier. |
| Scoring.SummaryPercentage | app_rep.py:5-58 | For each of the two players, the percentage on the summary lies in [0, 100], and is 100 exactly when every one of that player's metrics clears its High tier. |
| Scoring.OtherIdNotPlayerColumn | app_rep.py:45-47 | A name `player_<id>_…` with an id other than 1 or 2 is skipped by the loop. |
| Scoring.NothingScorable | app_rep.py:45-51 | A table without player-1 or player-2 columns comes out of the loop unchanged. |
| Scoring.OtherIdsScoreNothing | app_rep.py:42-54 | A summary whose tracker ids are not 1 and 2 scores 0 for both players. |
| TalentReport.Rate | generate_report.py:54-59 | High text exactly when the value is strictly above high. Mid text exactly when it is strictly above mid and at most high. Low text otherwise, NaN included. |
| TalentReport.FirstMatch | generate_report.py:52-53 | The index of the first table key that occurs in the label, and no earlier key occurs. |
| TalentReport.GenerateParagraph | generate_report.py:19-63 | The fallback exactly when no key occurs in the label. Otherwise the first occurring key, in table order, rated against its own thresholds. |
| TalentReport.Picks | generate_report.py:52-61 | A label containing a key, with no earlier key in it, gets that key's explanation and rating. |
| TalentReport.ShotSpeedLabel | generate_report.py:21-61 | A label ending in "Shot Speed" is rated against 80/50. |
| TalentReport.PlayerSpeedLabel | generate_report.py:29-61 | A label ending in "Player Speed", with no `h` before that ending, is rated against 12/8. |
| TalentReport.AccelerationLabel | generate_report.py:36-61 | A label ending in "Acceleration", with no `h` and no `P` before that ending, is rated against 10/5. |
| TalentReport.InconsistencyLabelIsPlain | generate_report.py:43-63 | "Shot inConsistency" contains no key (the table's key is "Shot Consistency"), so it gets the fallback sentence. |
| TalentReport.ReportParagraphs | generate_report.py:115-132 | The six report labels are rated as Shot Speed, Shot Speed, Player Speed, Player Speed and Acceleration. The inconsistency label gets the fallback. |
| TalentReport.TalentKey | generate_report.py:79 | The key `player_<player>_<metric>` with the metric lower-cased and spaces replaced: it starts with `player_<player>_`, its length is the lengths of player and metric plus 8, and it has no space when the player id has none. |
| TalentReport.LookupOrZero | generate_report.py:79 | `get(key, [0])[0]`: the column's value, or 0 when the column is missing. |
| TalentReport.Classify | generate_report.py:78-86 | Strong exactly above high. Moderate exactly in (0.6·high, high]. Weak otherwise, NaN included. |
| TalentReport.TalentSkills | generate_report.py:70-86 | One skill per talent metric. Metric k is strong exactly when the value read for its key is strictly above its high value, and weak exactly when that value is NaN or at most 0.6 times the high value. |
| TalentReport.TalentSkill | generate_report.py:77-86 | The same for one metric. |
| TalentReport.Count | generate_report.py:66-86 | A count of skills never exceeds their number. |
| TalentReport.CountsPartition | generate_report.py:81-86 | Every skill lands in exactly one bucket: strong + moderate + weak = number of metrics. |
| TalentReport.CountAll | generate_report.py:81-86 | A bucket holds every skill exactly when every skill is of that kind. |
| TalentReport.CountStep | generate_report.py:77-86 | One more metric adds exactly one to its own bucket. |
| TalentReport.VerdictOf | generate_report.py:90-98 | Elite exactly for at least four strong skills. Highly skilled exactly for two or three strong and at least two moderate. Foundational otherwise. |
| TalentReport.EvaluateTalent | generate_report.py:65-100 | The loop's counters give the verdict of the strong and moderate counts of the talent skills. |
| TalentReport.VerdictMeaning | generate_report.py:90-98 | Over four skills: elite exactly when all are strong. Highly skilled forces exactly two strong, two moderate and no weak. |
| TalentReport.MissingMetricIsWeak | generate_report.py:79-86 | A missing talent column reads as 0 and counts as weak. |
| TalentReport.TalentSuffixes | generate_report.py:79 | The talent keys ask for `shot_speed`, `speed`, `acceleration` and `shot_inconsistency`. |
| TalentReport.KeyMissesRow | generate_report.py:79 | A key whose metric part is not a summary metric names no column of a summary row. |
| TalentReport.TalentKeysMissSummary | generate_report.py:70-79 | None of the four talent keys names a column of the session summary. |
| TalentReport.SummaryTalentIsFoundational | generate_report.py:65-100 | On a session summary every talent skill is weak and the verdict is always the foundational one. |
| TalentReport.MetricValues | generate_report.py:115-126 | One value per report key: the value looked up for the player's column of that key, which is 0 for a missing column. |
| TalentReport.MetricParagraphs | generate_report.py:130-132 | One paragraph per report label: the paragraph that `generate_paragraph` gives for that label and its value. |
| TalentReport.ReadMetrics | generate_report.py:124-126 | The metrics-table loop reads exactly the report values. |
| TalentReport.AnalyseMetrics | generate_report.py:130-132 | The analysis loop produces exactly one paragraph per label, for its value. |
| TalentReport.GeneratePlayerReport | generate_report.py:102-143 | No report exactly when the table is empty. Otherwise `Some(report)`, standing for the content of the report file the source writes: the report values, one paragraph per metric, and the talent verdict. The source function itself returns nothing in either case. |
| Values.Names | app_rep.py:45 | The column names of a row, in order. |

## Left out

- Video reading and writing, FPS detection and drawing on frames. The frames are an opaque type parameter of `DrawPlayerStats`.
- The player and ball trackers, the court-keypoint model, the mini-court projection and shot-frame detection. Their outputs (positions per frame, shot frames) are inputs of the model.
- The choice of the two player ids from the first two keys of the tracker dictionary. The model's players are `P1` and `P2`.
- `measure_distance` and `convert_pixel_distance_to_meters`. They are fields of `ShotStats.Geometry`, assumed non-negative only where a lemma says so. `utils` is not part of this model.
- The square root of the rolling standard deviation. It is the parameter `root`, assumed to map 0 to 0 and to be non-negative.
- Floating point. All arithmetic is exact real arithmetic. `TalentReport.Classify` uses 0.6·12 = 7.2 exactly, whereas the float product is 7.199999999999999. So a value of exactly 7.2 counts as weak in the model but moderate in the source.
- The report file itself. `TalentReport.GeneratePlayerReport` returns as `Some(report)` the content the source writes to its Markdown file, and `None` where the source writes nothing; the source returns nothing either way.
- CSV and JSON writes, Markdown assembly, the prose of the paragraphs and summaries, and the PDF conversion. A paragraph is the key it chose plus its rating, and a summary is a `Verdict`.
- The per-player JSON records of `calculate_player_scores` (app_rep.py:60-67). They only copy columns.
- The `Total_Score` and `Score_Percentage` columns. `Scoring.CalculatePlayerScores` computes them but returns only the two percentages, which is what the function returns.
- Tables are one-row where the source builds a one-row frame (the summary). A table with columns but zero rows, which pandas also calls empty, is not represented: `TalentReport.GeneratePlayerReport` sees an empty table as one with no columns.
- `dropna()` in the shot-inconsistency series is treated as a no-op. After the forward fill the `last_shot_speed` columns hold no NaN.
- The duplicated frame-0 row of the merge when a shot falls at frame 0. `ShotStats.ExpandFrames` requires strictly increasing row frames, so shot frames must be above 0 and increasing.
- Error paths the source does not handle are preconditions rather than results. Equal consecutive shot frames divide by zero (`ShotStats.Speed`, `ShotStats.Events` require distinct frames). Fewer than two shot frames leave the last shooter unbound; `ShotStats.AccumulateStats` returns `None` then, and `ShotStats.AddAverageColumns` takes a shooter.
- PlayerStatsDrawer.RallyPercentage: requires that a zero total means a zero contribution. A non-zero contribution over a zero total (x/0 = inf in pandas) cannot arise, because the two columns are equal.
- TalentReport.GeneratePlayerReport: the model reads the report values once and passes them to the analysis loop. The source reads the same cells a second time, which gives the same values.
- PlayerStatsDrawer.ShotInconsistencyFacts: states only the window, non-negativity and the single-sample and constant-window zeros, not the numeric value of the standard deviation.
- The code has no checks for an empty session, non-increasing shot frames or a zero-length interval. The model follows the code:
  - the maxima and means of empty columns are NaN (`PlayerStatsDrawer.SeriesMax`, `PlayerStatsDrawer.NonZeroMean`);
  - increasing shot frames are a precondition only of the forward-fill and non-negative-speed properties;
  - a zero-length interval is excluded by precondition.

## Consequences of the pipeline as written

Behaviours of the pipeline that the proofs make explicit. None of them is a defect within one function, so each is stated as a property of the code as written:
- The summary names its columns with the tracker ids (`player_<id>_…`), but the scorer looks only at `player_1_` and `player_2_`. With other ids every score is 0 (`Scoring.OtherIdsScoreNothing`).
- The talent keys (`shot_speed`, `speed`, `acceleration`, `shot_inconsistency`) never name a summary column, so the talent verdict on a summary is always the foundational one (`TalentReport.SummaryTalentIsFoundational`).
- The label "Shot inConsistency" matches no explanation key ("Shot Consistency"), so it always gets the fallback sentence (`TalentReport.ReportParagraphs`).
- `total_shots` repeats `rally_contribution`, so the rally percentage is only ever 0 or 100 (`PlayerStatsDrawer.TotalShotsIsRallyContribution`, `PlayerStatsDrawer.MaxRallyPercentage`).
