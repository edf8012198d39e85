/** The player report (generate_report.py): a rated paragraph per metric and
    an overall talent verdict from counting strong, moderate and weak
    skills. The prose itself, the Markdown assembly and the PDF conversion
    are not modelled; a paragraph is represented by the explanation it
    chose and the rating it gave. */
module TalentReport {
  import opened Values
  import opened Strings
  import PlayerStatsDrawer
  import Scoring

  /** The rating a paragraph gives: the high, mid or low text. */
  datatype Rating = HighText | MidText | LowText

  /** One entry of the explanation table: the key looked for in the metric
      label, and its `high` and `mid` thresholds. */
  datatype Explanation = Explanation(key: string, high: real, mid: real)

  /** The explanation table, in the order its keys are tried. */
  const Explanations: seq<Explanation> := [
    Explanation("Shot Speed", 80.0, 50.0),
    Explanation("Player Speed", 12.0, 8.0),
    Explanation("Acceleration", 10.0, 5.0),
    Explanation("Shot Consistency", 30.0, 15.0)]

  /** The rating of a value: strictly above `high`, strictly above `mid`, or
      neither. NaN compares false and gets the low text. */
  function Rate(value: Num, high: real, mid: real): (r: Rating)
    ensures r == HighText <==> value.Above(high)
    ensures mid <= high ==> (r == MidText <==> value.Real? && mid < value.r <= high)
    ensures mid <= high ==> (r == LowText <==> value.NaN? || value.r <= mid)
  {
    if value.Above(high) then HighText
    else if value.Above(mid) then MidText
    else LowText
  }

  /** The position of the first entry whose key occurs in the label, or the
      length of the table when none does. */
  function FirstMatch(metric: string, table: seq<Explanation>): (i: nat)
    ensures i <= |table|
    ensures i < |table| ==> Contains(metric, table[i].key)
    ensures forall j :: 0 <= j < i ==> !Contains(metric, table[j].key)
  {
    if |table| == 0 then 0
    else if Contains(metric, table[0].key) then 0
    else 1 + FirstMatch(metric, table[1..])
  }

  /** A paragraph: the explanation of the matched key with its rating, or
      the plain fallback sentence. */
  datatype Paragraph = Explained(key: string, rating: Rating) | Plain

  /** `generate_paragraph`: the first key of the table, in order, that
      occurs in the label picks the explanation, and the value is rated
      against that key's thresholds; a label holding no key gets the
      fallback sentence. */
  function GenerateParagraph(metric: string, value: Num): (p: Paragraph)
    ensures p.Plain? <==> forall j :: 0 <= j < |Explanations| ==> !Contains(metric, Explanations[j].key)
    ensures p.Explained? ==> exists i :: (0 <= i < |Explanations| && Contains(metric, Explanations[i].key) &&
      (forall j :: 0 <= j < i ==> !Contains(metric, Explanations[j].key)) &&
      p == Explained(Explanations[i].key, Rate(value, Explanations[i].high, Explanations[i].mid)))
  {
    var i := FirstMatch(metric, Explanations);
    if i == |Explanations| then Plain
    else Explained(Explanations[i].key, Rate(value, Explanations[i].high, Explanations[i].mid))
  }

  /** The six metrics of the report, as labels and as summary metric names. */
  const ReportLabels: seq<string> := [
    "Max Shot Speed", "Avg Shot Speed", "Max Player Speed", "Avg Player Speed",
    "Max Acceleration", "Shot inConsistency"]
  const ReportKeys: seq<string> := [
    "max_shot_speed", "avg_shot_speed", "max_speed", "avg_speed",
    "max_acceleration", "max_shot_inconsistency"]

  /** The paragraph of a label `pre + key + post` in which no earlier key
      of the table occurs: the explanation of that key, rated against its
      thresholds. */
  lemma Picks(metric: string, pre: string, post: string, first: nat, value: Num)
    requires first < |Explanations| && metric == pre + Explanations[first].key + post
    requires forall j :: 0 <= j < first ==> !Contains(metric, Explanations[j].key)
    ensures GenerateParagraph(metric, value) ==
      Explained(Explanations[first].key, Rate(value, Explanations[first].high, Explanations[first].mid))
  {
    var key := Explanations[first].key;
    assert metric[|pre|..|pre| + |key|] == key;
    ContainsAt(metric, key, |pre|);
    assert FirstMatch(metric, Explanations) == first;
  }

  /** Which explanation each report label gets: the two shot-speed labels
      the shot-speed text, the two player-speed labels the player-speed
      text, the acceleration label the acceleration text. The label
      "Shot inConsistency" holds no key ("Shot Consistency" is spelled
      differently), so the consistency explanation is never used and that
      metric gets the fallback sentence. */
  lemma ReportParagraphs(k: nat, value: Num)
    requires k < |ReportLabels|
    ensures k < 2 ==> GenerateParagraph(ReportLabels[k], value) == Explained("Shot Speed", Rate(value, 80.0, 50.0))
    ensures 2 <= k < 4 ==> GenerateParagraph(ReportLabels[k], value) == Explained("Player Speed", Rate(value, 12.0, 8.0))
    ensures k == 4 ==> GenerateParagraph(ReportLabels[k], value) == Explained("Acceleration", Rate(value, 10.0, 5.0))
    ensures k == 5 ==> GenerateParagraph(ReportLabels[k], value) == Plain
  {
    var name := ReportLabels[k];
    if k == 0 {
      assert name == "Max " + Explanations[0].key;
      ShotSpeedLabel(name, "Max ", value);
    } else if k == 1 {
      assert name == "Avg " + Explanations[0].key;
      ShotSpeedLabel(name, "Avg ", value);
    } else if k == 2 {
      assert name == "Max " + Explanations[1].key;
      PlayerSpeedLabel(name, "Max ", value);
    } else if k == 3 {
      assert name == "Avg " + Explanations[1].key;
      PlayerSpeedLabel(name, "Avg ", value);
    } else if k == 4 {
      assert name == "Max " + Explanations[2].key;
      AccelerationLabel(name, "Max ", value);
    } else {
      InconsistencyLabelIsPlain(name, value);
    }
  }

  /** A label `pre + key` cannot hold a key `other` with a character that
      neither `pre` nor `key` has. */
  lemma NoCharAfter(name: string, pre: string, key: string, other: string, c: char)
    requires name == pre + key && c !in pre && c in other
    requires forall i :: 0 <= i < |key| ==> key[i] != c
    ensures !Contains(name, other)
  {
    MissingCharNotContained(name, other, c);
  }

  /** A label ending in "Shot Speed" gets the shot-speed text. */
  lemma ShotSpeedLabel(name: string, pre: string, value: Num)
    requires name == pre + Explanations[0].key
    ensures GenerateParagraph(name, value) == Explained("Shot Speed", Rate(value, 80.0, 50.0))
  {
    Picks(name, pre, "", 0, value);
  }

  /** A label ending in "Player Speed" whose prefix has no `h` cannot hold
      "Shot Speed" and gets the player-speed text. */
  lemma PlayerSpeedLabel(name: string, pre: string, value: Num)
    requires name == pre + Explanations[1].key && 'h' !in pre
    ensures GenerateParagraph(name, value) == Explained("Player Speed", Rate(value, 12.0, 8.0))
  {
    NoCharAfter(name, pre, Explanations[1].key, Explanations[0].key, 'h');
    Picks(name, pre, "", 1, value);
  }

  /** A label ending in "Acceleration" whose prefix has neither `h` nor `P`
      gets the acceleration text. */
  lemma AccelerationLabel(name: string, pre: string, value: Num)
    requires name == pre + Explanations[2].key && 'h' !in pre && 'P' !in pre
    ensures GenerateParagraph(name, value) == Explained("Acceleration", Rate(value, 10.0, 5.0))
  {
    NoCharAfter(name, pre, Explanations[2].key, Explanations[0].key, 'h');
    NoCharAfter(name, pre, Explanations[2].key, Explanations[1].key, 'P');
    Picks(name, pre, "", 2, value);
  }

  lemma InconsistencyLabelIsPlain(name: string, value: Num)
    requires name == "Shot inConsistency"
    ensures GenerateParagraph(name, value) == Plain
  {
    NoShotSpeedKey(name);
    NoPlayerSpeedKey(name);
    NoAccelerationKey(name);
    NoConsistencyKey(name);
  }

  lemma NoShotSpeedKey(name: string)
    requires name == "Shot inConsistency"
    ensures !Contains(name, Explanations[0].key)
  {
    var key := Explanations[0].key;
    assert key == "Shot Speed";
    MissingCharNotContained(name, key, 'p');
  }

  lemma NoPlayerSpeedKey(name: string)
    requires name == "Shot inConsistency"
    ensures !Contains(name, Explanations[1].key)
  {
    var key := Explanations[1].key;
    assert key == "Player Speed";
    MissingCharNotContained(name, key, 'P');
  }

  lemma NoAccelerationKey(name: string)
    requires name == "Shot inConsistency"
    ensures !Contains(name, Explanations[2].key)
  {
    var key := Explanations[2].key;
    assert key == "Acceleration";
    MissingCharNotContained(name, key, 'A');
  }

  /** "Shot inConsistency" has no capital `C` five places after an `S`. */
  lemma NoConsistencyKey(name: string)
    requires name == "Shot inConsistency"
    ensures !Contains(name, Explanations[3].key)
  {
    var key := Explanations[3].key;
    assert key == "Shot Consistency";
    if Contains(name, key) {
      var i := ContainsWitness(name, key);
      NoConsistencyAt(name, key, i);
      assert false;
    }
  }

  /** At each of the three places "Shot Consistency" could start inside
      "Shot inConsistency", its `S` or its `C` is missing. */
  lemma NoConsistencyAt(name: string, key: string, i: nat)
    requires name == "Shot inConsistency" && key == "Shot Consistency"
    requires i + |key| <= |name|
    ensures name[i..i + |key|] != key
  {
    assert name[i..i + |key|][0] != key[0] || name[i..i + |key|][5] != key[5];
  }

  /** How one talent metric is counted. */
  datatype Skill = Strong | Moderate | Weak

  /** The talent metrics and their `high` values, in order. All four,
      the inconsistency included, count as higher-is-better. */
  const TalentThresholds: seq<(string, real)> := [
    ("Shot Speed", 80.0), ("Speed", 12.0), ("Acceleration", 10.0), ("Shot inConsistency", 30.0)]

  /** `f"player_{player}_{metric.lower().replace(' ', '_')}"` */
  function TalentKey(player: string, metric: string): (key: string)
    ensures |key| == |player| + |metric| + 8
    ensures StartsWith(key, "player_" + player + "_")
    ensures ' ' !in player ==> ' ' !in key
  {
    PlayerStatsDrawer.ColumnName(player, ReplaceChar(Lower(metric), ' ', '_'))
  }

  /** `player_stats.get(key, [0])[0]` on a one-row table: the value of the
      column named key, or 0 when there is none. */
  function LookupOrZero(stats: seq<Column>, key: string): (v: Num)
    ensures key !in Names(stats) ==> v == Real(0.0)
    ensures key in Names(stats) ==> exists k :: 0 <= k < |stats| && stats[k].name == key && v == stats[k].value
  {
    if |stats| == 0 then Real(0.0)
    else if stats[0].name == key then stats[0].value
    else
      var v := LookupOrZero(stats[1..], key);
      assert key in Names(stats) ==> key in Names(stats[1..]) by {
        if key in Names(stats) {
          var k :| 0 <= k < |stats| && Names(stats)[k] == key;
          assert Names(stats[1..])[k - 1] == key;
        }
      }
      assert forall k :: 0 <= k < |stats| - 1 ==> stats[1..][k] == stats[k + 1];
      v
  }

  /** Strictly above `high`, else strictly above 0.6 × `high`, else weak;
      NaN is weak. */
  function Classify(value: Num, high: real): (s: Skill)
    ensures s == Strong <==> value.Above(high)
    ensures 0.0 <= high ==> (s == Moderate <==> value.Real? && high * 0.6 < value.r <= high)
    ensures 0.0 <= high ==> (s == Weak <==> value.NaN? || value.r <= high * 0.6)
  {
    var mid := high * 0.6;
    if value.Above(high) then Strong
    else if value.Above(mid) then Moderate
    else Weak
  }

  /** The skill of each talent metric of player. */
  function TalentSkills(stats: seq<Column>, player: string): (skills: seq<Skill>)
    ensures |skills| == |TalentThresholds|
    ensures forall k :: 0 <= k < |skills| ==>
      var value, high := LookupOrZero(stats, TalentKey(player, TalentThresholds[k].0)), TalentThresholds[k].1;
      (skills[k] == Strong <==> value.Above(high)) &&
      (skills[k] == Weak <==> value.NaN? || value.r <= high * 0.6)
  {
    seq(|TalentThresholds|, k requires 0 <= k < |TalentThresholds| => TalentSkill(stats, player, k))
  }

  /** The skill of the k-th talent metric of player. */
  function TalentSkill(stats: seq<Column>, player: string, k: nat): (s: Skill)
    requires k < |TalentThresholds|
    ensures var value, high := LookupOrZero(stats, TalentKey(player, TalentThresholds[k].0)), TalentThresholds[k].1;
      (s == Strong <==> value.Above(high)) &&
      (s == Weak <==> value.NaN? || value.r <= high * 0.6)
  {
    var (metric, high) := TalentThresholds[k];
    assert 0.0 <= high;
    Classify(LookupOrZero(stats, TalentKey(player, metric)), high)
  }

  /** How many of the skills are s. */
  function Count(skills: seq<Skill>, s: Skill): (n: nat)
    ensures n <= |skills|
  {
    if |skills| == 0 then 0
    else Count(skills[..|skills| - 1], s) + (if skills[|skills| - 1] == s then 1 else 0)
  }

  /** Every skill lands in exactly one bucket. */
  lemma {:induction false} CountsPartition(skills: seq<Skill>)
    ensures Count(skills, Strong) + Count(skills, Moderate) + Count(skills, Weak) == |skills|
  {
    if |skills| > 0 {
      CountsPartition(skills[..|skills| - 1]);
    }
  }

  lemma {:induction false} CountAll(skills: seq<Skill>, s: Skill)
    ensures Count(skills, s) == |skills| <==> forall k :: 0 <= k < |skills| ==> skills[k] == s
  {
    if |skills| > 0 {
      CountAll(skills[..|skills| - 1], s);
    }
  }

  /** Counting one more skill. */
  lemma CountStep(skills: seq<Skill>, k: nat)
    requires k < |skills|
    ensures forall s :: Count(skills[..k + 1], s) == Count(skills[..k], s) + (if skills[k] == s then 1 else 0)
  {
    assert skills[..k + 1][..k] == skills[..k];
  }

  /** The three overall summaries. */
  datatype Verdict = Elite | HighlySkilled | Foundational

  /** The summary, tried in order: elite for at least four strong skills,
      highly skilled for at least two strong and two moderate ones,
      foundational otherwise. */
  function VerdictOf(high: nat, mid: nat): (v: Verdict)
    ensures v == Elite <==> 4 <= high
    ensures v == HighlySkilled <==> 2 <= high < 4 && 2 <= mid
    ensures v == Foundational <==> high < 2 || (high < 4 && mid < 2)
  {
    if high >= 4 then Elite
    else if high >= 2 && mid >= 2 then HighlySkilled
    else Foundational
  }

  /** `evaluate_talent`: counts strong, moderate and weak skills over the
      four talent metrics and picks the summary. */
  method EvaluateTalent(stats: seq<Column>, player: string) returns (verdict: Verdict)
    ensures var skills := TalentSkills(stats, player);
      verdict == VerdictOf(Count(skills, Strong), Count(skills, Moderate))
  {
    ghost var skills := TalentSkills(stats, player);
    var high, mid, weak := 0, 0, 0;
    for k := 0 to |TalentThresholds|
      invariant high == Count(skills[..k], Strong)
      invariant mid == Count(skills[..k], Moderate)
      invariant weak == Count(skills[..k], Weak)
    {
      var (metric, highValue) := TalentThresholds[k];
      var midValue := highValue * 0.6;
      var value := LookupOrZero(stats, TalentKey(player, metric));
      CountStep(skills, k);
      assert skills[k] == Classify(value, highValue);
      if value.Above(highValue) {
        high := high + 1;
      } else if value.Above(midValue) {
        mid := mid + 1;
      } else {
        weak := weak + 1;
      }
    }
    assert skills[..|TalentThresholds|] == skills;
    verdict := VerdictOf(high, mid);
  }

  /** What the verdict means: elite exactly when all four skills are strong,
      and highly skilled only with exactly two strong and two moderate
      skills. */
  lemma VerdictMeaning(skills: seq<Skill>)
    requires |skills| == 4
    ensures VerdictOf(Count(skills, Strong), Count(skills, Moderate)) == Elite <==> forall k :: 0 <= k < 4 ==> skills[k] == Strong
    ensures VerdictOf(Count(skills, Strong), Count(skills, Moderate)) == HighlySkilled ==>
      Count(skills, Strong) == 2 && Count(skills, Moderate) == 2 && Count(skills, Weak) == 0
  {
    CountsPartition(skills);
    CountAll(skills, Strong);
  }

  /** A metric missing from the table reads as 0, which is weak against a
      positive threshold. */
  lemma MissingMetricIsWeak(stats: seq<Column>, player: string, k: nat)
    requires k < |TalentThresholds|
    requires TalentKey(player, TalentThresholds[k].0) !in Names(stats)
    ensures TalentSkills(stats, player)[k] == Weak
  {
  }

  /** The talent keys ask for `shot_speed`, `speed`, `acceleration` and
      `shot_inconsistency`; the session summary holds `max_`/`avg_`
      columns only. */
  lemma TalentSuffixes()
    ensures ReplaceChar(Lower("Shot Speed"), ' ', '_') == "shot_speed"
    ensures ReplaceChar(Lower("Speed"), ' ', '_') == "speed"
    ensures ReplaceChar(Lower("Acceleration"), ' ', '_') == "acceleration"
    ensures ReplaceChar(Lower("Shot inConsistency"), ' ', '_') == "shot_inconsistency"
  {
  }

  /** Evaluated on a session summary row, as the pipeline's report step
      would, every talent key misses, every metric reads as 0, and the
      verdict is always the foundational one. */
  lemma SummaryTalentIsFoundational(id1: string, id2: string, v1: seq<Num>, v2: seq<Num>, player: string)
    requires |v1| == |PlayerStatsDrawer.ReportMetrics| && |v2| == |PlayerStatsDrawer.ReportMetrics|
    requires '_' !in id1 && '_' !in id2 && '_' !in player
    ensures var row := PlayerStatsDrawer.Interleave(id1, id2, PlayerStatsDrawer.ReportMetrics, v1, v2);
      var skills := TalentSkills(row, player);
      (forall k :: 0 <= k < 4 ==> skills[k] == Weak) &&
      VerdictOf(Count(skills, Strong), Count(skills, Moderate)) == Foundational
  {
    var row := PlayerStatsDrawer.Interleave(id1, id2, PlayerStatsDrawer.ReportMetrics, v1, v2);
    TalentKeysMissSummary(id1, id2, v1, v2, player);
    var skills := TalentSkills(row, player);
    forall k | 0 <= k < 4
      ensures skills[k] == Weak
    {
      MissingMetricIsWeak(row, player, k);
    }
    CountAll(skills, Weak);
    CountsPartition(skills);
  }

  /** None of the four talent keys names a column of a session summary row. */
  lemma TalentKeysMissSummary(id1: string, id2: string, v1: seq<Num>, v2: seq<Num>, player: string)
    requires |v1| == |PlayerStatsDrawer.ReportMetrics| && |v2| == |PlayerStatsDrawer.ReportMetrics|
    requires '_' !in id1 && '_' !in id2 && '_' !in player
    ensures forall k :: 0 <= k < |TalentThresholds| ==>
      TalentKey(player, TalentThresholds[k].0) !in Names(PlayerStatsDrawer.Interleave(id1, id2, PlayerStatsDrawer.ReportMetrics, v1, v2))
  {
    TalentSuffixes();
    forall k | 0 <= k < |TalentThresholds|
      ensures TalentKey(player, TalentThresholds[k].0) !in Names(PlayerStatsDrawer.Interleave(id1, id2, PlayerStatsDrawer.ReportMetrics, v1, v2))
    {
      var suffix := ReplaceChar(Lower(TalentThresholds[k].0), ' ', '_');
      assert suffix !in PlayerStatsDrawer.ReportMetrics;
      KeyMissesRow(id1, id2, PlayerStatsDrawer.ReportMetrics, v1, v2, player, suffix);
    }
  }

  /** A column `player_<player>_<suffix>` whose suffix is not one of the
      metrics is not in a summary row. */
  lemma KeyMissesRow(id1: string, id2: string, metrics: seq<string>, v1: seq<Num>, v2: seq<Num>,
                     player: string, suffix: string)
    requires |v1| == |metrics| && |v2| == |metrics|
    requires '_' !in id1 && '_' !in id2 && '_' !in player
    requires suffix !in metrics
    ensures PlayerStatsDrawer.ColumnName(player, suffix) !in Names(PlayerStatsDrawer.Interleave(id1, id2, metrics, v1, v2))
  {
    var row := PlayerStatsDrawer.Interleave(id1, id2, metrics, v1, v2);
    var key := PlayerStatsDrawer.ColumnName(player, suffix);
    if key in Names(row) {
      var i :| 0 <= i < |row| && Names(row)[i] == key;
      var j := i / 2;
      assert i == 2 * j || i == 2 * j + 1;
      Scoring.ColumnNameInjective(player, suffix, if i % 2 == 0 then id1 else id2, metrics[j]);
      assert false;
    }
  }

  /** The content of the report file: the six metric values, one paragraph
      per metric, and the verdict. */
  datatype Report = Report(values: seq<Num>, paragraphs: seq<Paragraph>, verdict: Verdict)

  /** The value of each of the given metric columns of player, 0 when the
      column is missing. */
  function MetricValues(stats: seq<Column>, player: string, keys: seq<string>): (values: seq<Num>)
    ensures |values| == |keys|
    ensures forall k :: 0 <= k < |keys| ==> values[k] == LookupOrZero(stats, PlayerStatsDrawer.ColumnName(player, keys[k]))
    ensures forall k :: 0 <= k < |keys| && PlayerStatsDrawer.ColumnName(player, keys[k]) !in Names(stats) ==>
      values[k] == Real(0.0)
  {
    seq(|keys|, k requires 0 <= k < |keys| => LookupOrZero(stats, PlayerStatsDrawer.ColumnName(player, keys[k])))
  }

  /** The paragraph of each labelled metric for its value. */
  function MetricParagraphs(labels: seq<string>, values: seq<Num>): (paragraphs: seq<Paragraph>)
    requires |values| == |labels|
    ensures |paragraphs| == |labels|
    ensures forall k :: 0 <= k < |labels| ==> paragraphs[k] == GenerateParagraph(labels[k], values[k])
  {
    seq(|labels|, k requires 0 <= k < |labels| => GenerateParagraph(labels[k], values[k]))
  }

  /** The metrics-table loop of `generate_player_report`: reads each metric
      column of player, 0 when it is missing. */
  method ReadMetrics(stats: seq<Column>, player: string, keys: seq<string>) returns (values: seq<Num>)
    ensures values == MetricValues(stats, player, keys)
  {
    ghost var expected := MetricValues(stats, player, keys);
    values := [];
    for k := 0 to |keys|
      invariant |values| == k
      invariant forall j :: 0 <= j < k ==> values[j] == expected[j]
    {
      values := values + [LookupOrZero(stats, PlayerStatsDrawer.ColumnName(player, keys[k]))];
    }
  }

  /** The analysis loop of `generate_player_report`: one paragraph per
      labelled metric for its value. */
  method AnalyseMetrics(labels: seq<string>, values: seq<Num>) returns (paragraphs: seq<Paragraph>)
    requires |values| == |labels|
    ensures paragraphs == MetricParagraphs(labels, values)
  {
    ghost var expected := MetricParagraphs(labels, values);
    paragraphs := [];
    for k := 0 to |labels|
      invariant |paragraphs| == k
      invariant forall j :: 0 <= j < k ==> paragraphs[j] == expected[j]
    {
      paragraphs := paragraphs + [GenerateParagraph(labels[k], values[k])];
    }
  }

  /** `generate_player_report`: for an empty table it writes nothing, which
      the model returns as None; otherwise it writes a report file, and
      `Some(report)` stands for that file's content: the value of each
      report metric (0 when missing), its paragraph, and the talent verdict.
      The source itself returns nothing in either case. */
  method GeneratePlayerReport(stats: seq<Column>, player: string) returns (report: Option<Report>)
    ensures report.None? <==> |stats| == 0
    ensures report.Some? ==> report.value == Report(
      MetricValues(stats, player, ReportKeys),
      MetricParagraphs(ReportLabels, MetricValues(stats, player, ReportKeys)),
      VerdictOf(Count(TalentSkills(stats, player), Strong), Count(TalentSkills(stats, player), Moderate)))
  {
    if |stats| == 0 {
      return None;
    }
    var values := ReadMetrics(stats, player, ReportKeys);
    var paragraphs := AnalyseMetrics(ReportLabels, values);
    var verdict := EvaluateTalent(stats, player);
    report := Some(Report(values, paragraphs, verdict));
  }
}
