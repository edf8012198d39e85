/** The session score (app_rep.py): each summary metric of each player earns
    0 to 3 points against a table of three thresholds, the points are added
    up per player and expressed as a percentage of the 30 points that ten
    metrics can earn. */
module Scoring {
  import opened Values
  import opened Strings
  import PlayerStatsDrawer

  /** The `High`, `Med` and `Low` thresholds of one metric. */
  datatype Tiers = Tiers(high: real, med: real, low: real)

  /** The one metric for which lower is better. */
  const Inconsistency := "max_shot_inconsistency"

  const Thresholds: map<string, Tiers> := map[
    "max_shot_speed" := Tiers(55.0, 51.0, 47.0),
    "avg_shot_speed" := Tiers(49.0, 45.0, 41.0),
    "max_speed" := Tiers(10.0, 8.0, 6.0),
    "avg_speed" := Tiers(7.0, 6.5, 6.0),
    "max_acceleration" := Tiers(8.5, 6.0, 4.0),
    "max_shot_inconsistency" := Tiers(23.0, 28.0, 36.0),
    "max_distance_covered" := Tiers(48.0, 40.0, 32.0),
    "max_rally_contribution" := Tiers(2.0, 1.0, 0.0),
    "total_shots" := Tiers(2.0, 1.0, 0.0),
    "max_rally_percentage" := Tiers(96.0, 88.0, 75.0)]

  /** The tiers of a metric are nested: whoever earns a higher tier also
      earns every lower one. */
  predicate Nested(statName: string, th: Tiers) {
    if statName == Inconsistency then th.high <= th.med <= th.low
    else th.high >= th.med >= th.low
  }

  /** Whether value reaches threshold t: at or above it, or at or below it
      for the shot inconsistency. NaN reaches nothing. */
  predicate Clears(value: Num, statName: string, t: real)
    ensures Clears(value, statName, t) ==> value.Real?
    ensures value.Real? && statName != Inconsistency ==> (Clears(value, statName, t) <==> t <= value.r)
    ensures value.Real? && statName == Inconsistency ==> (Clears(value, statName, t) <==> value.r <= t)
  {
    if statName == Inconsistency then value.AtMost(t) else value.AtLeast(t)
  }

  /** The scored metrics are exactly the ten summary metrics, and every
      metric's tiers are nested. */
  lemma ThresholdsWellFormed()
    ensures forall k :: 0 <= k < |PlayerStatsDrawer.ReportMetrics| ==> PlayerStatsDrawer.ReportMetrics[k] in Thresholds
    ensures forall statName :: statName in Thresholds ==> statName in PlayerStatsDrawer.ReportMetrics
    ensures forall statName :: statName in Thresholds ==> Nested(statName, Thresholds[statName])
  {
  }

  /** `calculate_points`: three points for reaching `High`, two for `Med`,
      one for `Low`, none otherwise, for a NaN value or for an unknown
      metric. Since the tiers are nested, the points count the thresholds
      the value reaches. */
  function CalculatePoints(value: Num, statName: string): (points: nat)
    ensures points <= 3
    ensures points >= 1 <==> statName in Thresholds && Clears(value, statName, Thresholds[statName].low)
    ensures points >= 2 <==> statName in Thresholds && Clears(value, statName, Thresholds[statName].med)
    ensures points == 3 <==> statName in Thresholds && Clears(value, statName, Thresholds[statName].high)
  {
    if statName !in Thresholds then 0
    else
      var th := Thresholds[statName];
      ThresholdsWellFormed();
      if statName == Inconsistency then
        if value.AtMost(th.high) then 3
        else if value.AtMost(th.med) then 2
        else if value.AtMost(th.low) then 1
        else 0
      else
        if value.AtLeast(th.high) then 3
        else if value.AtLeast(th.med) then 2
        else if value.AtLeast(th.low) then 1
        else 0
  }

  /** A better value never earns fewer points: higher is better for every
      metric but the shot inconsistency, where lower is better. */
  lemma PointsMonotone(statName: string, a: real, b: real)
    requires a <= b
    ensures statName != Inconsistency ==> CalculatePoints(Real(a), statName) <= CalculatePoints(Real(b), statName)
    ensures statName == Inconsistency ==> CalculatePoints(Real(b), statName) <= CalculatePoints(Real(a), statName)
  {
    if statName in Thresholds {
      ThresholdsWellFormed();
    }
  }

  /** The thresholds are inclusive: a value equal to `High` earns three
      points, one just below it two. */
  lemma InclusiveBoundaries()
    ensures CalculatePoints(Real(55.0), "max_shot_speed") == 3
    ensures CalculatePoints(Real(54.9), "max_shot_speed") == 2
    ensures CalculatePoints(Real(23.0), Inconsistency) == 3
    ensures CalculatePoints(Real(23.1), Inconsistency) == 2
    ensures CalculatePoints(Real(36.1), Inconsistency) == 0
    ensures CalculatePoints(NaN, "max_shot_speed") == 0
  {
  }

  /** `"_".join(col.split("_")[2:])`: the column name without its
      `player_<id>_` part. */
  function StatName(col: string): string {
    var parts := Split(col, '_');
    Join(parts[if |parts| < 2 then |parts| else 2..], '_')
  }

  /** The metric name is made of exactly the `_`-separated pieces of the
      column name after the second, and is empty when there are no such
      pieces. */
  lemma StatNamePieces(col: string)
    ensures |Split(col, '_')| <= 2 ==> StatName(col) == ""
    ensures |Split(col, '_')| > 2 ==> Split(StatName(col), '_') == Split(col, '_')[2..]
  {
    var parts := Split(col, '_');
    if |parts| > 2 {
      SplitJoin(parts[2..], '_');
    }
  }

  /** The metric name comes back out of a summary column name, whatever
      underscores the metric holds, as long as the player id has none. */
  lemma StatNameOfColumn(id: string, metric: string)
    requires '_' !in id
    ensures StatName(PlayerStatsDrawer.ColumnName(id, metric)) == metric
  {
    assert PlayerStatsDrawer.ColumnName(id, metric) == "player" + ['_'] + id + ['_'] + metric;
    DropTwoPieces("player", id, metric, '_');
  }

  /** The loop looks only at columns of the first or second player. */
  predicate IsPlayerColumn(name: string) {
    StartsWith(name, "player_1_") || StartsWith(name, "player_2_")
  }

  /** The metric of a column of player 1 or 2 is everything after its
      `player_<id>_`. */
  lemma PlayerColumnMetric(name: string)
    requires IsPlayerColumn(name)
    ensures 9 <= |name| && StatName(name) == name[9..]
  {
    assert name == "player" + ['_'] + [name[7]] + ['_'] + name[9..];
    DropTwoPieces("player", [name[7]], name[9..], '_');
  }

  /** Columns the loop gives a points column. */
  predicate Scorable(name: string) {
    IsPlayerColumn(name) && StatName(name) in Thresholds
  }

  /** The columns the loop scores are exactly those of player 1 or 2 whose
      part after `player_<id>_` is a scored metric. */
  lemma ScorableColumns(name: string)
    ensures Scorable(name) <==> IsPlayerColumn(name) && name[9..] in Thresholds
  {
    if IsPlayerColumn(name) {
      PlayerColumnMetric(name);
    }
  }

  const PointsSuffix := "_Points"

  /** The points column `<col>_Points` for a scorable column. */
  function PointsColumn(c: Column): (p: Column)
    requires Scorable(c.name)
    ensures p.name == c.name + PointsSuffix
    ensures p.value.Real? && 0.0 <= p.value.r <= 3.0
  {
    Column(c.name + PointsSuffix, Real(CalculatePoints(c.value, StatName(c.name)) as real))
  }

  /** The columns of a table built from a dictionary have distinct names. */
  predicate UniqueNames(cols: seq<Column>) {
    forall i, j :: 0 <= i < j < |cols| ==> cols[i].name != cols[j].name
  }

  /** Every column named name, with its value replaced by v. */
  function Replace(cols: seq<Column>, name: string, v: Num): (r: seq<Column>)
    ensures |r| == |cols|
    ensures forall k :: 0 <= k < |cols| ==> r[k].name == cols[k].name
  {
    seq(|cols|, k requires 0 <= k < |cols| => if cols[k].name == name then Column(name, v) else cols[k])
  }

  /** `df[name] = v`: an existing column keeps its place and takes the new
      value, a new one is added at the end; every other column is kept. */
  function SetColumn(cols: seq<Column>, name: string, v: Num): (r: seq<Column>)
    ensures name in Names(r)
    ensures forall k :: 0 <= k < |r| && r[k].name == name ==> r[k].value == v
    ensures forall k :: 0 <= k < |cols| && cols[k].name != name ==> cols[k] in r
    ensures forall k :: 0 <= k < |r| && r[k].name != name ==> r[k] in cols
    ensures name !in Names(cols) ==> r == cols + [Column(name, v)]
  {
    if name in Names(cols) then Replace(cols, name, v)
    else
      assert Names(cols + [Column(name, v)])[|cols|] == name;
      cols + [Column(name, v)]
  }

  /** The table after the column loop has visited the first n input
      columns. */
  function PointsTable(data: seq<Column>, n: nat): (t: seq<Column>)
    requires n <= |data|
    ensures |data| <= |t|
    ensures forall k :: 0 <= k < |data| ==> t[k].name == data[k].name
  {
    if n == 0 then data
    else
      var c := data[n - 1];
      if Scorable(c.name) then SetColumn(PointsTable(data, n - 1), c.name + PointsSuffix, PointsColumn(c).value)
      else PointsTable(data, n - 1)
  }

  /** The points columns of the scorable columns among cols, in order. */
  function NewPoints(cols: seq<Column>): (np: seq<Column>)
    ensures |np| <= |cols|
    ensures forall k :: 0 <= k < |np| ==> np[k].value.Real? && 0.0 <= np[k].value.r <= 3.0
  {
    if |cols| == 0 then []
    else
      var last := cols[|cols| - 1];
      NewPoints(cols[..|cols| - 1]) + (if Scorable(last.name) then [PointsColumn(last)] else [])
  }

  lemma {:induction false} NamesAppend(a: seq<Column>, b: seq<Column>)
    ensures Names(a + b) == Names(a) + Names(b)
  {
  }

  /** A points name is written by the loop only for a column of that base
      name. */
  lemma {:induction false} NotInNewPoints(cols: seq<Column>, base: string)
    requires forall j :: 0 <= j < |cols| ==> cols[j].name != base
    ensures base + PointsSuffix !in Names(NewPoints(cols))
  {
    if |cols| > 0 {
      var last := cols[|cols| - 1];
      NotInNewPoints(cols[..|cols| - 1], base);
      if Scorable(last.name) {
        NamesAppend(NewPoints(cols[..|cols| - 1]), [PointsColumn(last)]);
        if last.name + PointsSuffix == base + PointsSuffix {
          SuffixCancels(last.name, base, PointsSuffix);
        }
      } else {
        assert NewPoints(cols) == NewPoints(cols[..|cols| - 1]);
      }
    }
  }

  /** The points name of an input column is in neither the input nor the
      points columns written before it. */
  lemma FreshPointsName(data: seq<Column>, n: nat)
    requires 0 < n <= |data| && UniqueNames(data)
    requires forall k :: 0 <= k < |data| ==> !Contains(data[k].name, PointsSuffix)
    ensures data[n - 1].name + PointsSuffix !in Names(data + NewPoints(data[..n - 1]))
  {
    var base := data[n - 1].name;
    var name := base + PointsSuffix;
    var prior := data[..n - 1];
    assert name !in Names(data) by {
      ContainsAfter(base, PointsSuffix);
      NotAnInputName(data, name);
    }
    assert name !in Names(NewPoints(prior)) by {
      forall j | 0 <= j < |prior|
        ensures prior[j].name != base
      {
        assert prior[j] == data[j];
      }
      NotInNewPoints(prior, base);
    }
    NamesAppend(data, NewPoints(prior));
  }

  /** A name mentioning `_Points` is none of the input names when no input
      name mentions it. */
  lemma NotAnInputName(data: seq<Column>, name: string)
    requires Contains(name, PointsSuffix)
    requires forall k :: 0 <= k < |data| ==> !Contains(data[k].name, PointsSuffix)
    ensures name !in Names(data)
  {
    forall k | 0 <= k < |data|
      ensures Names(data)[k] != name
    {
      assert !Contains(data[k].name, PointsSuffix);
    }
  }

  lemma {:induction false} SuffixCancels(a: string, b: string, t: string)
    requires a + t == b + t
    ensures a == b
  {
    assert a == (a + t)[..|a|];
    assert b == (b + t)[..|b|];
  }

  lemma {:induction false} ContainsAfter(a: string, t: string)
    ensures Contains(a + t, t)
  {
    if |a| > 0 {
      assert (a + t)[1..] == a[1..] + t;
      ContainsAfter(a[1..], t);
    } else {
      assert (a + t)[..|t|] == t;
    }
  }

  /** When no input column name mentions `_Points`, every points column the
      loop writes is new, so the loop only appends them, in input order. */
  lemma {:induction false} PointsTableAppends(data: seq<Column>, n: nat)
    requires n <= |data| && UniqueNames(data)
    requires forall k :: 0 <= k < |data| ==> !Contains(data[k].name, PointsSuffix)
    ensures PointsTable(data, n) == data + NewPoints(data[..n])
  {
    if n > 0 {
      PointsTableAppends(data, n - 1);
      assert data[..n][..n - 1] == data[..n - 1];
      if Scorable(data[n - 1].name) {
        FreshPointsName(data, n);
      }
    }
  }

  /** The value a cell adds to a row sum: `sum(axis=1)` skips NaN. */
  function CellValue(n: Num): real {
    if n.NaN? then 0.0 else n.r
  }

  /** The columns that `player_<id>_Total_Score` adds up. */
  predicate CountsToward(name: string, prefix: string) {
    StartsWith(name, prefix) && Contains(name, PointsSuffix)
  }

  /** `df[[c for c in df.columns if c.startswith(prefix) and '_Points' in
      c]].sum(axis=1)` on the one row. */
  function TotalScore(cols: seq<Column>, prefix: string): (total: real)
    ensures (forall k :: 0 <= k < |cols| ==> !CountsToward(cols[k].name, prefix)) ==> total == 0.0
    ensures (forall k :: 0 <= k < |cols| && CountsToward(cols[k].name, prefix) ==> 0.0 <= CellValue(cols[k].value))
            ==> 0.0 <= total
  {
    if |cols| == 0 then 0.0
    else
      var last := cols[|cols| - 1];
      TotalScore(cols[..|cols| - 1], prefix) + (if CountsToward(last.name, prefix) then CellValue(last.value) else 0.0)
  }

  lemma {:induction false} TotalScoreAppend(a: seq<Column>, b: seq<Column>, prefix: string)
    ensures TotalScore(a + b, prefix) == TotalScore(a, prefix) + TotalScore(b, prefix)
  {
    if |b| > 0 {
      assert (a + b)[..|a + b| - 1] == a + b[..|b| - 1];
      TotalScoreAppend(a, b[..|b| - 1], prefix);
    } else {
      assert a + b == a;
    }
  }

  lemma {:induction false} TotalScoreOfNoPoints(cols: seq<Column>, prefix: string)
    requires forall k :: 0 <= k < |cols| ==> !Contains(cols[k].name, PointsSuffix)
    ensures TotalScore(cols, prefix) == 0.0
  {
    if |cols| > 0 {
      TotalScoreOfNoPoints(cols[..|cols| - 1], prefix);
    }
  }

  /** Writing a column that does not count toward a total leaves the total
      as it was. */
  lemma {:induction false} TotalScoreIgnores(cols: seq<Column>, name: string, v: Num, prefix: string)
    requires !StartsWith(name, prefix)
    ensures TotalScore(SetColumn(cols, name, v), prefix) == TotalScore(cols, prefix)
  {
    if name in Names(cols) {
      ReplaceKeepsTotal(cols, name, v, prefix);
    } else {
      TotalScoreAppend(cols, [Column(name, v)], prefix);
      assert [Column(name, v)][..0] == [];
    }
  }

  lemma {:induction false} ReplaceKeepsTotal(cols: seq<Column>, name: string, v: Num, prefix: string)
    requires !StartsWith(name, prefix)
    ensures TotalScore(Replace(cols, name, v), prefix) == TotalScore(cols, prefix)
  {
    if |cols| > 0 {
      assert Replace(cols, name, v)[..|cols| - 1] == Replace(cols[..|cols| - 1], name, v);
      ReplaceKeepsTotal(cols[..|cols| - 1], name, v, prefix);
    }
  }

  /** The reference sum: the points of the scorable columns whose names start
      with prefix. */
  function PlayerPoints(cols: seq<Column>, prefix: string): (total: nat)
    ensures total <= 3 * |cols|
  {
    if |cols| == 0 then 0
    else
      var last := cols[|cols| - 1];
      PlayerPoints(cols[..|cols| - 1], prefix)
        + (if StartsWith(last.name, prefix) && Scorable(last.name) then CalculatePoints(last.value, StatName(last.name)) else 0)
  }

  lemma {:induction false} PlayerPointsAppend(a: seq<Column>, b: seq<Column>, prefix: string)
    ensures PlayerPoints(a + b, prefix) == PlayerPoints(a, prefix) + PlayerPoints(b, prefix)
  {
    if |b| > 0 {
      assert (a + b)[..|a + b| - 1] == a + b[..|b| - 1];
      PlayerPointsAppend(a, b[..|b| - 1], prefix);
    } else {
      assert a + b == a;
    }
  }

  /** A name that starts with `player_<d>_`, for a single character d,
      starts with `player_<d>` and with no other player's prefix. */
  lemma PrefixFacts(name: string, suffix: string)
    ensures StartsWith(name, "player_1_") ==> StartsWith(name + suffix, "player_1") && !StartsWith(name + suffix, "player_2")
    ensures StartsWith(name, "player_2_") ==> StartsWith(name + suffix, "player_2") && !StartsWith(name + suffix, "player_1")
  {
    if |name| >= 9 {
      assert (name + suffix)[..8] == name[..8];
      assert name[..8] == name[..9][..8];
    }
  }

  /** The points column of a player column counts toward the total of
      `player_1` exactly when the column belongs to the first player, and
      likewise for `player_2`. */
  lemma CountsTowardPoints(name: string)
    requires IsPlayerColumn(name)
    ensures CountsToward(name + PointsSuffix, "player_1") <==> StartsWith(name, "player_1_")
    ensures CountsToward(name + PointsSuffix, "player_2") <==> StartsWith(name, "player_2_")
  {
    ContainsAfter(name, PointsSuffix);
    PrefixFacts(name, PointsSuffix);
  }

  /** The one points column of c adds its points to its own player's total
      only. */
  lemma TotalOfPointsColumn(c: Column, prefix: string)
    requires Scorable(c.name) && (prefix == "player_1" || prefix == "player_2")
    ensures TotalScore([PointsColumn(c)], prefix)
      == (if StartsWith(c.name, prefix + "_") then CalculatePoints(c.value, StatName(c.name)) else 0) as real
  {
    assert [PointsColumn(c)][..0] == [];
    CountsTowardPoints(c.name);
  }

  /** The total of the new points columns is the reference sum. */
  lemma {:induction false} TotalOfNewPoints(cols: seq<Column>, prefix: string)
    requires prefix == "player_1" || prefix == "player_2"
    ensures TotalScore(NewPoints(cols), prefix) == PlayerPoints(cols, prefix + "_") as real
  {
    if |cols| > 0 {
      var last := cols[|cols| - 1];
      TotalOfNewPoints(cols[..|cols| - 1], prefix);
      if Scorable(last.name) {
        TotalScoreAppend(NewPoints(cols[..|cols| - 1]), [PointsColumn(last)], prefix);
        TotalOfPointsColumn(last, prefix);
      } else {
        assert NewPoints(cols) == NewPoints(cols[..|cols| - 1]);
      }
    }
  }

  const MaxScore := 30.0

  /** `player_<id>_Score_Percentage`: the total as a percentage of 30. */
  function Percentage(total: real): (pct: real)
    ensures 0.0 <= total <= MaxScore ==> 0.0 <= pct <= 100.0
    ensures pct == 100.0 <==> total == MaxScore
  {
    total / MaxScore * 100.0
  }

  /** The column loop of `calculate_player_scores`: every scorable player
      column of the input gets its `<col>_Points` column. */
  method ScoreColumns(data: seq<Column>) returns (df: seq<Column>)
    ensures df == PointsTable(data, |data|)
  {
    df := data;
    for i := 0 to |data|
      invariant df == PointsTable(data, i)
    {
      var c := data[i];
      PointsTableStep(data, i);
      if IsPlayerColumn(c.name) {
        var statName := StatName(c.name);
        if statName in Thresholds {
          df := SetColumn(df, c.name + PointsSuffix, Real(CalculatePoints(c.value, statName) as real));
        }
      }
    }
  }

  /** `calculate_player_scores` on the one-row table `data`: the column
      loop, then each player's total and percentage columns. Returns the two
      percentages. */
  method CalculatePlayerScores(data: seq<Column>) returns (pct1: real, pct2: real)
    ensures pct1 == Percentage(TotalScore(PointsTable(data, |data|), "player_1"))
    ensures pct2 == Percentage(TotalScore(PointsTable(data, |data|), "player_2"))
  {
    var df := ScoreColumns(data);
    ghost var scored := df;
    var total1 := TotalScore(df, "player_1");
    df := SetColumn(df, "player_1_Total_Score", Real(total1));
    FirstTotalNotSecondPlayer();
    TotalScoreIgnores(scored, "player_1_Total_Score", Real(total1), "player_2");
    var total2 := TotalScore(df, "player_2");
    pct1 := Percentage(total1);
    pct2 := Percentage(total2);
  }

  /** One more input column visited by the loop. */
  lemma PointsTableStep(data: seq<Column>, i: nat)
    requires i < |data|
    ensures Scorable(data[i].name) ==>
      (PointsTable(data, i + 1) == SetColumn(PointsTable(data, i), data[i].name + PointsSuffix,
         Real(CalculatePoints(data[i].value, StatName(data[i].name)) as real)))
    ensures !Scorable(data[i].name) ==> PointsTable(data, i + 1) == PointsTable(data, i)
  {
  }

  /** The first player's total column is not one of the second player's. */
  lemma FirstTotalNotSecondPlayer()
    ensures !StartsWith("player_1_Total_Score", "player_2")
  {
    assert "player_1_Total_Score"[..8][7] != "player_2"[7];
  }

  /** The reference score of a summary row: the points of each value
      against its metric, added up. Full marks means full marks on every
      metric. */
  function MetricPoints(metrics: seq<string>, vals: seq<Num>): (total: nat)
    requires |vals| == |metrics|
    ensures total <= 3 * |metrics|
    ensures total == 3 * |metrics| <==> forall k :: 0 <= k < |metrics| ==> CalculatePoints(vals[k], metrics[k]) == 3
  {
    if |metrics| == 0 then 0
    else CalculatePoints(vals[0], metrics[0]) + MetricPoints(metrics[1..], vals[1..])
  }

  /** What the scorer sees in a summary column name of player 1 or 2. */
  lemma ColumnFacts(id: string, metric: string)
    requires id == "1" || id == "2"
    ensures var name := PlayerStatsDrawer.ColumnName(id, metric);
      IsPlayerColumn(name) &&
      (StartsWith(name, "player_1_") <==> id == "1") &&
      (StartsWith(name, "player_2_") <==> id == "2") &&
      StatName(name) == metric &&
      ('P' !in metric ==> !Contains(name, PointsSuffix))
  {
    var name := PlayerStatsDrawer.ColumnName(id, metric);
    assert name[..9] == "player_" + id + "_";
    if id == "1" {
      assert name[..9] == "player_1_";
      assert name[..9][7] != "player_2_"[7];
    } else {
      assert name[..9] == "player_2_";
      assert name[..9][7] != "player_1_"[7];
    }
    StatNameOfColumn(id, metric);
    if 'P' !in metric {
      assert 'P' !in name;
      MissingCharNotContained(name, PointsSuffix, 'P');
    }
  }

  /** Two summary-style names `player_<id>_<metric>` with ids free of `_`
      are equal only for equal ids and metrics. */
  lemma ColumnNameInjective(id1: string, m1: string, id2: string, m2: string)
    requires '_' !in id1 && '_' !in id2
    requires PlayerStatsDrawer.ColumnName(id1, m1) == PlayerStatsDrawer.ColumnName(id2, m2)
    ensures id1 == id2 && m1 == m2
  {
    assert PlayerStatsDrawer.ColumnName(id1, m1) == "player" + ['_'] + id1 + ['_'] + m1;
    assert PlayerStatsDrawer.ColumnName(id2, m2) == "player" + ['_'] + id2 + ['_'] + m2;
    DropTwoPieces("player", id1, m1, '_');
    DropTwoPieces("player", id2, m2, '_');
  }

  /** A summary row of players 1 and 2 over distinct metrics free of `P`
      has distinct column names, none of which mentions `_Points`. */
  lemma SummaryRowNames(metrics: seq<string>, v1: seq<Num>, v2: seq<Num>)
    requires |v1| == |metrics| && |v2| == |metrics|
    requires forall i, j :: 0 <= i < j < |metrics| ==> metrics[i] != metrics[j]
    requires forall k :: 0 <= k < |metrics| ==> 'P' !in metrics[k]
    ensures var row := PlayerStatsDrawer.Interleave("1", "2", metrics, v1, v2);
      UniqueNames(row) && forall k :: 0 <= k < |row| ==> !Contains(row[k].name, PointsSuffix)
  {
    var row := PlayerStatsDrawer.Interleave("1", "2", metrics, v1, v2);
    forall i | 0 <= i < |row|
      ensures !Contains(row[i].name, PointsSuffix)
    {
      var k := i / 2;
      assert i == 2 * k || i == 2 * k + 1;
      ColumnFacts(if i % 2 == 0 then "1" else "2", metrics[k]);
    }
    InterleavedNamesUnique("1", "2", metrics, v1, v2);
  }

  /** The columns of a summary row of two different `_`-free ids over
      distinct metrics have distinct names. */
  lemma InterleavedNamesUnique(id1: string, id2: string, metrics: seq<string>, v1: seq<Num>, v2: seq<Num>)
    requires |v1| == |metrics| && |v2| == |metrics|
    requires '_' !in id1 && '_' !in id2 && id1 != id2
    requires forall i, j :: 0 <= i < j < |metrics| ==> metrics[i] != metrics[j]
    ensures UniqueNames(PlayerStatsDrawer.Interleave(id1, id2, metrics, v1, v2))
  {
    var row := PlayerStatsDrawer.Interleave(id1, id2, metrics, v1, v2);
    forall i | 0 <= i < |row|
      ensures row[i].name == PlayerStatsDrawer.ColumnName(if i % 2 == 0 then id1 else id2, metrics[i / 2])
    {
      assert i == 2 * (i / 2) || i == 2 * (i / 2) + 1;
    }
    forall i, j | 0 <= i < j < |row|
      ensures row[i].name != row[j].name
    {
      if row[i].name == row[j].name {
        ColumnNameInjective(if i % 2 == 0 then id1 else id2, metrics[i / 2], if j % 2 == 0 then id1 else id2, metrics[j / 2]);
      }
    }
  }

  /** The reference score of each player in a summary row of players 1
      and 2 is the metric points of that player's values. */
  lemma {:induction false} SummaryRowPoints(metrics: seq<string>, v1: seq<Num>, v2: seq<Num>)
    requires |v1| == |metrics| && |v2| == |metrics|
    ensures PlayerPoints(PlayerStatsDrawer.Interleave("1", "2", metrics, v1, v2), "player_1_") == MetricPoints(metrics, v1)
    ensures PlayerPoints(PlayerStatsDrawer.Interleave("1", "2", metrics, v1, v2), "player_2_") == MetricPoints(metrics, v2)
  {
    if |metrics| > 0 {
      var pair := PairOf(metrics[0], v1[0], v2[0]);
      var rest := PlayerStatsDrawer.Interleave("1", "2", metrics[1..], v1[1..], v2[1..]);
      assert PlayerStatsDrawer.Interleave("1", "2", metrics, v1, v2) == pair + rest;
      SummaryRowPoints(metrics[1..], v1[1..], v2[1..]);
      PlayerPointsAppend(pair, rest, "player_1_");
      PlayerPointsAppend(pair, rest, "player_2_");
      PairPoints(metrics[0], v1[0], v2[0]);
    }
  }

  /** The two columns of one metric in a summary row of players 1 and 2. */
  function PairOf(metric: string, x: Num, y: Num): seq<Column> {
    [Column(PlayerStatsDrawer.ColumnName("1", metric), x), Column(PlayerStatsDrawer.ColumnName("2", metric), y)]
  }

  lemma PairPoints(metric: string, x: Num, y: Num)
    ensures PlayerPoints(PairOf(metric, x, y), "player_1_") == CalculatePoints(x, metric)
    ensures PlayerPoints(PairOf(metric, x, y), "player_2_") == CalculatePoints(y, metric)
  {
    var pair := PairOf(metric, x, y);
    ColumnFacts("1", metric);
    ColumnFacts("2", metric);
    assert pair[..1][..0] == [];
  }

  lemma ReportMetricsFacts()
    ensures forall i, j :: 0 <= i < j < |PlayerStatsDrawer.ReportMetrics| ==> PlayerStatsDrawer.ReportMetrics[i] != PlayerStatsDrawer.ReportMetrics[j]
    ensures forall k :: 0 <= k < |PlayerStatsDrawer.ReportMetrics| ==> 'P' !in PlayerStatsDrawer.ReportMetrics[k]
  {
  }

  /** Scoring the session summary of players 1 and 2: each player's total is
      the sum over the ten metrics of the points that player's value earns,
      so at most 30. */
  lemma SummaryScore(v1: seq<Num>, v2: seq<Num>)
    requires |v1| == |PlayerStatsDrawer.ReportMetrics| && |v2| == |PlayerStatsDrawer.ReportMetrics|
    ensures var row := PlayerStatsDrawer.Interleave("1", "2", PlayerStatsDrawer.ReportMetrics, v1, v2);
      TotalScore(PointsTable(row, |row|), "player_1") == MetricPoints(PlayerStatsDrawer.ReportMetrics, v1) as real &&
      TotalScore(PointsTable(row, |row|), "player_2") == MetricPoints(PlayerStatsDrawer.ReportMetrics, v2) as real
  {
    ReportMetricsFacts();
    RowScore(PlayerStatsDrawer.ReportMetrics, v1, v2);
  }

  /** Scoring a summary row of players 1 and 2 over distinct metrics free of
      `P`: each player's total is the metric points of that player's
      values. */
  lemma RowScore(metrics: seq<string>, v1: seq<Num>, v2: seq<Num>)
    requires |v1| == |metrics| && |v2| == |metrics|
    requires forall i, j :: 0 <= i < j < |metrics| ==> metrics[i] != metrics[j]
    requires forall k :: 0 <= k < |metrics| ==> 'P' !in metrics[k]
    ensures var row := PlayerStatsDrawer.Interleave("1", "2", metrics, v1, v2);
      TotalScore(PointsTable(row, |row|), "player_1") == MetricPoints(metrics, v1) as real &&
      TotalScore(PointsTable(row, |row|), "player_2") == MetricPoints(metrics, v2) as real
  {
    var row := PlayerStatsDrawer.Interleave("1", "2", metrics, v1, v2);
    SummaryRowNames(metrics, v1, v2);
    PointsTableAppends(row, |row|);
    assert row[..|row|] == row;
    SummaryRowPoints(metrics, v1, v2);
    TotalOfScoredRow(row, "player_1");
    TotalOfScoredRow(row, "player_2");
    assert "player_1" + "_" == "player_1_" && "player_2" + "_" == "player_2_";
  }

  /** On a table without points columns, a player's total after the column
      loop appended the points columns is the reference sum. */
  lemma TotalOfScoredRow(row: seq<Column>, prefix: string)
    requires prefix == "player_1" || prefix == "player_2"
    requires forall k :: 0 <= k < |row| ==> !Contains(row[k].name, PointsSuffix)
    ensures TotalScore(row + NewPoints(row), prefix) == PlayerPoints(row, prefix + "_") as real
  {
    TotalScoreOfNoPoints(row, prefix);
    TotalScoreAppend(row, NewPoints(row), prefix);
    TotalOfNewPoints(row, prefix);
  }

  /** The percentage of each player of a summary row lies in [0, 100], and
      it is 100 exactly when that player's value of every metric reaches its
      `High` tier. */
  lemma SummaryPercentage(v1: seq<Num>, v2: seq<Num>)
    requires |v1| == |PlayerStatsDrawer.ReportMetrics| && |v2| == |PlayerStatsDrawer.ReportMetrics|
    ensures var row := PlayerStatsDrawer.Interleave("1", "2", PlayerStatsDrawer.ReportMetrics, v1, v2);
      var pct := Percentage(TotalScore(PointsTable(row, |row|), "player_1"));
      0.0 <= pct <= 100.0 &&
      (pct == 100.0 <==> forall k :: 0 <= k < |v1| ==>
        Clears(v1[k], PlayerStatsDrawer.ReportMetrics[k], Thresholds[PlayerStatsDrawer.ReportMetrics[k]].high))
    ensures var row := PlayerStatsDrawer.Interleave("1", "2", PlayerStatsDrawer.ReportMetrics, v1, v2);
      var pct := Percentage(TotalScore(PointsTable(row, |row|), "player_2"));
      0.0 <= pct <= 100.0 &&
      (pct == 100.0 <==> forall k :: 0 <= k < |v2| ==>
        Clears(v2[k], PlayerStatsDrawer.ReportMetrics[k], Thresholds[PlayerStatsDrawer.ReportMetrics[k]].high))
  {
    SummaryScore(v1, v2);
    ThresholdsWellFormed();
    MetricPercentage(PlayerStatsDrawer.ReportMetrics, v1);
    MetricPercentage(PlayerStatsDrawer.ReportMetrics, v2);
  }

  /** The percentage of the metric points of table metrics lies in [0, 100]
      and is 100 exactly when every value clears its high tier. */
  lemma MetricPercentage(metrics: seq<string>, vals: seq<Num>)
    requires |vals| == |metrics| && |metrics| == 10
    requires forall k :: 0 <= k < |metrics| ==> metrics[k] in Thresholds
    ensures var pct := Percentage(MetricPoints(metrics, vals) as real);
      0.0 <= pct <= 100.0 &&
      (pct == 100.0 <==> forall k :: 0 <= k < |vals| ==> Clears(vals[k], metrics[k], Thresholds[metrics[k]].high))
  {
  }

  /** A column name `player_<id>_<metric>` is a player column of the scorer
      only for the ids 1 and 2. */
  lemma OtherIdNotPlayerColumn(id: string, metric: string)
    requires '_' !in id && id != "1" && id != "2"
    ensures !IsPlayerColumn(PlayerStatsDrawer.ColumnName(id, metric))
  {
    var name := PlayerStatsDrawer.ColumnName(id, metric);
    if |id| == 0 {
      assert name[7] == '_';
    } else {
      assert name[7] == id[0];
      if |id| == 1 {
        assert id == [id[0]];
      } else {
        assert name[8] == id[1];
      }
    }
  }

  lemma {:induction false} NothingScorable(data: seq<Column>, n: nat)
    requires n <= |data|
    requires forall k :: 0 <= k < |data| ==> !IsPlayerColumn(data[k].name)
    ensures PointsTable(data, n) == data
  {
    if n > 0 {
      NothingScorable(data, n - 1);
    }
  }

  /** The scorer knows the players only as `player_1` and `player_2`. The
      summary columns are named after the tracker ids of the two players, so
      for any other ids, free of `_` and `P`, neither player earns a point. */
  lemma OtherIdsScoreNothing(id1: string, id2: string, metrics: seq<string>, v1: seq<Num>, v2: seq<Num>)
    requires |v1| == |metrics| && |v2| == |metrics|
    requires '_' !in id1 && id1 != "1" && id1 != "2" && 'P' !in id1
    requires '_' !in id2 && id2 != "1" && id2 != "2" && 'P' !in id2
    requires forall k :: 0 <= k < |metrics| ==> 'P' !in metrics[k]
    ensures var row := PlayerStatsDrawer.Interleave(id1, id2, metrics, v1, v2);
      TotalScore(PointsTable(row, |row|), "player_1") == 0.0 &&
      TotalScore(PointsTable(row, |row|), "player_2") == 0.0
  {
    var row := PlayerStatsDrawer.Interleave(id1, id2, metrics, v1, v2);
    forall i | 0 <= i < |row|
      ensures !IsPlayerColumn(row[i].name) && !Contains(row[i].name, PointsSuffix)
    {
      var k := i / 2;
      var id := if i % 2 == 0 then id1 else id2;
      assert i == 2 * k || i == 2 * k + 1;
      assert row[i].name == PlayerStatsDrawer.ColumnName(id, metrics[k]);
      OtherIdNotPlayerColumn(id, metrics[k]);
      assert 'P' !in row[i].name;
      MissingCharNotContained(row[i].name, PointsSuffix, 'P');
    }
    NothingScorable(row, |row|);
    TotalScoreOfNoPoints(row, "player_1");
    TotalScoreOfNoPoints(row, "player_2");
  }
}
