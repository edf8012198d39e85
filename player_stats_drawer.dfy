/** The derived per-frame series and the session summary
    (player_stats_drawer_utils.py): acceleration, shot-speed spread,
    distance covered and the rally counters are added to the statistics
    table as columns, and the table is then reduced to one row of maxima and
    means per player. */
module PlayerStatsDrawer {
  import opened Values
  import opened StatsTable

  /** The sum of the first n entries of s. */
  function SumTo(s: seq<real>, n: nat): real
    requires n <= |s|
  {
    if n == 0 then 0.0 else SumTo(s, n - 1) + s[n - 1]
  }

  /** `series.diff().fillna(0)`: the change from the previous frame, and 0
      at the first frame, which has no previous one. */
  function Acceleration(speed: seq<real>): (acc: seq<real>)
    ensures |acc| == |speed|
    ensures forall f :: 0 <= f < |speed| ==> acc[f] == if f == 0 then 0.0 else speed[f] - speed[f - 1]
  {
    seq(|speed|, f requires 0 <= f < |speed| => if f == 0 then 0.0 else speed[f] - speed[f - 1])
  }

  /** Adding up the accelerations up to frame f gives back the change of
      speed since frame 0: the first difference and the running sum undo
      each other. */
  lemma {:induction false} AccelerationTelescopes(speed: seq<real>, f: nat)
    requires f < |speed|
    ensures SumTo(Acceleration(speed), f + 1) == speed[f] - speed[0]
  {
    if f > 0 {
      AccelerationTelescopes(speed, f - 1);
    }
  }

  /** The first n running totals of s, each one the previous total plus
      the next entry. */
  function RunningTotals(s: seq<real>, n: nat): (c: seq<real>)
    requires n <= |s|
    ensures |c| == n
    ensures forall f :: 0 <= f < n ==> c[f] == SumTo(s, f + 1)
  {
    if n == 0 then []
    else
      var before := RunningTotals(s, n - 1);
      before + [(if n == 1 then 0.0 else before[n - 2]) + s[n - 1]]
  }

  /** `series.cumsum()` */
  function CumSum(s: seq<real>): (c: seq<real>)
    ensures |c| == |s|
    ensures forall f :: 0 <= f < |s| ==> c[f] == SumTo(s, f + 1)
  {
    RunningTotals(s, |s|)
  }

  /** `series * c`, element by element. */
  function Scale(s: seq<real>, c: real): (r: seq<real>)
    ensures |r| == |s|
    ensures forall j :: 0 <= j < |s| ==> r[j] == s[j] * c
  {
    seq(|s|, j requires 0 <= j < |s| => s[j] * c)
  }

  /** `(speed * (1 / fps)).cumsum()`: the distance covered up to each frame,
      which is the sum of the speeds so far over the frame rate. */
  function DistanceCovered(speed: seq<real>, fps: real): (d: seq<real>)
    requires 0.0 < fps
    ensures |d| == |speed|
    ensures forall f :: 0 <= f < |speed| ==> d[f] == SumTo(speed, f + 1) / fps
  {
    ScaledSums(speed, 1.0 / fps);
    CumSum(Scale(speed, 1.0 / fps))
  }

  /** Scaling every element scales every prefix sum. */
  lemma ScaledSums(s: seq<real>, c: real)
    ensures forall n :: 0 <= n <= |s| ==> SumTo(Scale(s, c), n) == SumTo(s, n) * c
  {
    forall n | 0 <= n <= |s| {
      SumScaled(s, c, n);
    }
  }

  /** Scaling every element scales the sum. */
  lemma {:induction false} SumScaled(s: seq<real>, c: real, n: nat)
    requires n <= |s|
    ensures SumTo(Scale(s, c), n) == SumTo(s, n) * c
  {
    if n > 0 {
      SumScaled(s, c, n - 1);
    }
  }

  /** The distance covered at frame f is the sum of the speeds up to f,
      divided by the frame rate; each frame adds its own speed over the frame
      rate to the frame before. */
  lemma DistanceIsScaledSum(speed: seq<real>, fps: real, f: nat)
    requires 0.0 < fps && f < |speed|
    ensures DistanceCovered(speed, fps)[f] == SumTo(speed, f + 1) / fps
    ensures f > 0 ==> DistanceCovered(speed, fps)[f] == DistanceCovered(speed, fps)[f - 1] + speed[f] / fps
  {
  }

  /** With non-negative speeds the distance covered never decreases. */
  lemma {:induction false} DistanceNeverDecreases(speed: seq<real>, fps: real, f: nat, g: nat)
    requires 0.0 < fps && f <= g < |speed|
    requires forall j :: 0 <= j < |speed| ==> 0.0 <= speed[j]
    ensures DistanceCovered(speed, fps)[f] <= DistanceCovered(speed, fps)[g]
  {
    if f < g {
      DistanceNeverDecreases(speed, fps, f, g - 1);
      DistanceIsScaledSum(speed, fps, g);
      assert 0.0 <= speed[g] / fps;
    }
  }

  /** The value of s at frame j is strictly above its value at frame j - 1. */
  predicate RoseAt(s: seq<real>, j: nat)
    requires 1 <= j < |s|
  {
    s[j] > s[j - 1]
  }

  /** The number of frames j in 1..f at which s rose. */
  function CountIncreases(s: seq<real>, f: nat): (n: nat)
    requires f < |s|
    ensures n <= f
  {
    if f == 0 then 0
    else CountIncreases(s, f - 1) + (if RoseAt(s, f) then 1 else 0)
  }

  /** `(shot_speed.diff() > 0).astype(int).cumsum()`: the running count of
      frames whose shot speed rose. */
  function RallyContribution(shotSpeed: seq<real>): (rc: seq<nat>)
    ensures |rc| == |shotSpeed|
    ensures forall f :: 0 <= f < |shotSpeed| ==> rc[f] == CountIncreases(shotSpeed, f)
  {
    seq(|shotSpeed|, f requires 0 <= f < |shotSpeed| => CountIncreases(shotSpeed, f))
  }

  /** The rally counter starts at 0, rises by at most one per frame and never
      exceeds the frame number. */
  lemma RallyContributionSteps(shotSpeed: seq<real>, f: nat)
    requires f < |shotSpeed|
    ensures RallyContribution(shotSpeed)[f] <= f
    ensures f == 0 ==> RallyContribution(shotSpeed)[f] == 0
    ensures f > 0 ==> RallyContribution(shotSpeed)[f] - RallyContribution(shotSpeed)[f - 1] in {0, 1}
    ensures f > 0 ==> (RallyContribution(shotSpeed)[f] == RallyContribution(shotSpeed)[f - 1] + 1 <==> RoseAt(shotSpeed, f))
  {
  }

  /** The frames j in 1..f at which s rose. */
  function IncreaseFrames(s: seq<real>, f: nat): set<nat>
    requires f < |s|
  {
    set j: nat | 1 <= j <= f && RoseAt(s, j)
  }

  /** `shot_speed.diff().gt(0).cumsum()`: at every frame, how many frames so
      far had a rising shot speed. */
  function TotalShots(shotSpeed: seq<real>): (ts: seq<nat>)
    ensures |ts| == |shotSpeed|
    ensures forall f :: 0 <= f < |shotSpeed| ==> ts[f] == |IncreaseFrames(shotSpeed, f)|
  {
    seq(|shotSpeed|, f requires 0 <= f < |shotSpeed| => |IncreaseFrames(shotSpeed, f)|)
  }

  lemma {:induction false} CountIsSize(s: seq<real>, f: nat)
    requires f < |s|
    ensures |IncreaseFrames(s, f)| == CountIncreases(s, f)
  {
    if f > 0 {
      CountIsSize(s, f - 1);
      if RoseAt(s, f) {
        assert IncreaseFrames(s, f) == IncreaseFrames(s, f - 1) + {f};
      } else {
        assert IncreaseFrames(s, f) == IncreaseFrames(s, f - 1);
      }
    } else {
      assert IncreaseFrames(s, 0) == {};
    }
  }

  /** The total-shots column is the rally-contribution column: both count
      the frames at which the shot speed rose. */
  lemma TotalShotsIsRallyContribution(shotSpeed: seq<real>)
    ensures TotalShots(shotSpeed) == RallyContribution(shotSpeed)
  {
    forall f | 0 <= f < |shotSpeed| {
      CountIsSize(shotSpeed, f);
    }
  }

  /** a / b * 100 for a positive count b. */
  function Percent(a: nat, b: nat): (p: real)
    requires 0 < b
    ensures a <= b ==> 0.0 <= p <= 100.0
    ensures p == 100.0 <==> a == b
  {
    var q := a as real / b as real;
    assert q * b as real == a as real;
    q * 100.0
  }

  /** `(rally_contribution / total_shots).fillna(0) * 100`: 0/0 gives NaN,
      which becomes 0. */
  function RallyPercentage(rc: seq<nat>, ts: seq<nat>): (pct: seq<real>)
    requires |rc| == |ts|
    requires forall f :: 0 <= f < |ts| && ts[f] == 0 ==> rc[f] == 0
    ensures |pct| == |ts|
    ensures forall f :: 0 <= f < |ts| ==> (ts[f] == 0 ==> pct[f] == 0.0) && (ts[f] > 0 ==> pct[f] == Percent(rc[f], ts[f]))
  {
    seq(|ts|, f requires 0 <= f < |ts| => if ts[f] == 0 then 0.0 else Percent(rc[f], ts[f]))
  }

  /** Because the two counters are the same column, the rally percentage is
      0 exactly while no rise has been counted, and exactly 100 afterwards. */
  lemma RallyPercentageAllOrNothing(shotSpeed: seq<real>, f: nat)
    requires f < |shotSpeed|
    ensures TotalShots(shotSpeed) == RallyContribution(shotSpeed)
    ensures RallyPercentage(RallyContribution(shotSpeed), TotalShots(shotSpeed))[f]
            == if TotalShots(shotSpeed)[f] == 0 then 0.0 else 100.0
  {
    TotalShotsIsRallyContribution(shotSpeed);
  }

  /** The trailing window of `rolling(5, min_periods=1)` at frame f: frames
      max(0, f - 4) .. f, so fewer than five samples near the start. */
  function Window(s: seq<real>, f: nat): (w: seq<real>)
    requires f < |s|
    ensures |w| == if f < 4 then f + 1 else 5
    ensures forall k :: 0 <= k < |w| ==> w[k] == s[f + 1 - |w| + k]
  {
    s[if f < 4 then 0 else f - 4 .. f + 1]
  }

  /** The mean of a non-empty window: the value that, taken |w| times,
      adds up to the window's sum. */
  function Mean(w: seq<real>): (m: real)
    requires |w| > 0
    ensures m * |w| as real == SumTo(w, |w|)
  {
    SumTo(w, |w|) / |w| as real
  }

  /** The sum of squared deviations from m of the first n entries of w. */
  function SquaredDeviations(w: seq<real>, m: real, n: nat): (d: real)
    requires n <= |w|
    ensures 0.0 <= d
  {
    if n == 0 then 0.0
    else
      var e := w[n - 1] - m;
      assert 0.0 <= e * e;
      SquaredDeviations(w, m, n - 1) + e * e
  }

  /** The sample variance (ddof = 1) of at least two samples. */
  function SampleVariance(w: seq<real>): (v: real)
    requires |w| >= 2
    ensures 0.0 <= v
  {
    SquaredDeviations(w, Mean(w), |w|) / (|w| - 1) as real
  }

  /** What the model assumes of the square root taken by `std()`: it is
      never negative on non-negative arguments, and the root of 0 is 0. */
  ghost predicate RootLike(root: real -> real) {
    root(0.0) == 0.0 && forall x :: 0.0 <= x ==> 0.0 <= root(x)
  }

  /** `std()` of one window: the root of the sample variance, and 0 for a
      single sample (whose NaN the `fillna(0)` turns into 0). */
  function Spread(w: seq<real>, root: real -> real): (r: real)
    ensures |w| < 2 ==> r == 0.0
    ensures RootLike(root) ==> 0.0 <= r
    ensures RootLike(root) && (forall k :: 0 <= k < |w| ==> w[k] == w[0]) ==> r == 0.0
  {
    if |w| < 2 then 0.0
    else
      ConstantHasNoVariance(w);
      root(SampleVariance(w))
  }

  /** A window holding one repeated value has sample variance 0. */
  lemma ConstantHasNoVariance(w: seq<real>)
    requires |w| >= 2
    ensures (forall k :: 0 <= k < |w| ==> w[k] == w[0]) ==> SampleVariance(w) == 0.0
  {
    if forall k :: 0 <= k < |w| ==> w[k] == w[0] {
      SumConstant(w, w[0], |w|);
      assert Mean(w) == w[0];
      NoDeviationFromConstant(w, w[0], |w|);
    }
  }

  /** `shot_speed.dropna().rolling(5, min_periods=1).std().fillna(0)` */
  function ShotInconsistency(shotSpeed: seq<real>, root: real -> real): (r: seq<real>)
    ensures |r| == |shotSpeed|
    ensures forall f :: 0 <= f < |shotSpeed| ==> r[f] == Spread(Window(shotSpeed, f), root)
  {
    seq(|shotSpeed|, f requires 0 <= f < |shotSpeed| => Spread(Window(shotSpeed, f), root))
  }

  lemma {:induction false} SumConstant(w: seq<real>, c: real, n: nat)
    requires n <= |w| && forall k :: 0 <= k < n ==> w[k] == c
    ensures SumTo(w, n) == n as real * c
  {
    if n > 0 {
      SumConstant(w, c, n - 1);
    }
  }

  lemma {:induction false} NoDeviationFromConstant(w: seq<real>, c: real, n: nat)
    requires n <= |w| && forall k :: 0 <= k < n ==> w[k] == c
    ensures SquaredDeviations(w, c, n) == 0.0
  {
    if n > 0 {
      NoDeviationFromConstant(w, c, n - 1);
    }
  }

  /** The shot inconsistency is never negative, is 0 at the first frame
      (a single sample), and is 0 wherever the window holds one repeated
      value. */
  lemma ShotInconsistencyFacts(shotSpeed: seq<real>, root: real -> real, f: nat)
    requires RootLike(root) && f < |shotSpeed|
    ensures 0.0 <= ShotInconsistency(shotSpeed, root)[f]
    ensures f == 0 ==> ShotInconsistency(shotSpeed, root)[f] == 0.0
    ensures (forall k :: 0 <= k < |Window(shotSpeed, f)| ==> Window(shotSpeed, f)[k] == shotSpeed[f])
            ==> ShotInconsistency(shotSpeed, root)[f] == 0.0
  {
    var w := Window(shotSpeed, f);
    assert |w| > 0 && w[|w| - 1] == shotSpeed[f];
  }

  /** m is what `series.max()` gives for s: NaN for an empty column,
      otherwise an entry of s that no entry exceeds. */
  predicate IsMax(s: seq<real>, m: Num) {
    (m.NaN? <==> |s| == 0) &&
    (m.Real? ==> (exists k :: 0 <= k < |s| && s[k] == m.r) && forall k :: 0 <= k < |s| ==> s[k] <= m.r)
  }

  /** `series.max()`: NaN for an empty column, otherwise its largest entry. */
  function SeriesMax(s: seq<real>): (m: Num)
    ensures IsMax(s, m)
  {
    if |s| == 0 then NaN
    else
      var rest := SeriesMax(s[1..]);
      if rest.NaN? || s[0] >= rest.r then Real(s[0]) else rest
  }

  /** The entries of s that are not zero, in order: every non-zero value
      as often as it occurs in s, and no zero. */
  function NonZero(s: seq<real>): (nz: seq<real>)
    ensures multiset(nz) == multiset(s)[0.0 := 0]
    decreases |s|
  {
    if |s| == 0 then []
    else
      var init, last := s[..|s| - 1], s[|s| - 1];
      assert s == init + [last];
      NonZero(init) + (if last != 0.0 then [last] else [])
  }

  /** The number of entries of s that are not 0. */
  function CountNonZero(s: seq<real>): nat
    decreases |s|
  {
    if |s| == 0 then 0
    else CountNonZero(s[..|s| - 1]) + (if s[|s| - 1] != 0.0 then 1 else 0)
  }

  /** NonZero keeps one entry per entry of s that is not 0, that is every
      entry but the zeros, and none exactly when every entry is 0. */
  lemma {:induction false} NonZeroCount(s: seq<real>)
    ensures |NonZero(s)| == CountNonZero(s) == |s| - multiset(s)[0.0]
    ensures |NonZero(s)| == 0 <==> forall k :: 0 <= k < |s| ==> s[k] == 0.0
    decreases |s|
  {
    if |s| > 0 {
      var init, last := s[..|s| - 1], s[|s| - 1];
      assert s == init + [last];
      NonZeroCount(init);
      assert multiset(s)[0.0] == multiset(init)[0.0] + (if last == 0.0 then 1 else 0);
      assert forall k :: 0 <= k < |init| ==> init[k] == s[k];
    }
  }

  /** A value kept by NonZero is a non-zero entry of s. */
  lemma NonZeroMember(s: seq<real>, x: real)
    requires x in NonZero(s)
    ensures x in s && x != 0.0
  {
    assert multiset(NonZero(s))[x] > 0;
    assert multiset(s)[x] > 0;
  }

  /** Dropping the zeros leaves the sum unchanged. */
  lemma {:induction false} NonZeroSum(s: seq<real>)
    ensures SumTo(NonZero(s), |NonZero(s)|) == SumTo(s, |s|)
    decreases |s|
  {
    if |s| > 0 {
      var init, last := s[..|s| - 1], s[|s| - 1];
      assert s == init + [last];
      NonZeroSum(init);
      SumAppend(init, last);
      if last != 0.0 {
        assert NonZero(s) == NonZero(init) + [last];
        SumAppend(NonZero(init), last);
      } else {
        assert NonZero(s) == NonZero(init);
      }
    }
  }

  /** Appending x adds x to the sum. */
  lemma SumAppend(a: seq<real>, x: real)
    ensures SumTo(a + [x], |a| + 1) == SumTo(a, |a|) + x
  {
    SumToPrefix(a + [x], a, |a|);
  }

  /** The sum of the first n entries depends on those entries only. */
  lemma {:induction false} SumToPrefix(s: seq<real>, t: seq<real>, n: nat)
    requires n <= |s| && n <= |t|
    requires forall k :: 0 <= k < n ==> s[k] == t[k]
    ensures SumTo(s, n) == SumTo(t, n)
  {
    if n > 0 {
      SumToPrefix(s, t, n - 1);
    }
  }

  /** m is the mean of the non-zero entries of s: NaN when every entry is
      0, otherwise the sum of s (zeros add nothing to it) over the number of
      entries that are not 0. */
  predicate IsNonZeroMean(s: seq<real>, m: Num) {
    (m.NaN? <==> forall k :: 0 <= k < |s| ==> s[k] == 0.0) &&
    (m.Real? ==> CountNonZero(s) > 0 && m.r == SumTo(s, |s|) / CountNonZero(s) as real)
  }

  /** `series.replace(0, nan).mean()`: the sum of the column over the
      number of its non-zero entries, and NaN when there are none. */
  function NonZeroMean(s: seq<real>): (m: Num)
    ensures IsNonZeroMean(s, m)
  {
    var nz := NonZero(s);
    NonZeroCount(s);
    NonZeroSum(s);
    if |nz| == 0 then NaN
    else Real(SumTo(nz, |nz|) / |nz| as real)
  }

  lemma {:induction false} SumBounded(w: seq<real>, lo: real, hi: real, n: nat)
    requires n <= |w| && forall k :: 0 <= k < n ==> lo <= w[k] <= hi
    ensures n as real * lo <= SumTo(w, n) <= n as real * hi
  {
    if n > 0 {
      SumBounded(w, lo, hi, n - 1);
      assert n as real * lo == (n - 1) as real * lo + lo;
      assert n as real * hi == (n - 1) as real * hi + hi;
    }
  }

  /** The mean of the non-zero entries lies between any bounds of those
      entries: zeros never drag it down. */
  lemma NonZeroMeanWithin(s: seq<real>, lo: real, hi: real)
    requires forall x :: x in s && x != 0.0 ==> lo <= x <= hi
    ensures NonZeroMean(s).Real? ==> lo <= NonZeroMean(s).r <= hi
  {
    var nz := NonZero(s);
    if |nz| > 0 {
      forall k | 0 <= k < |nz|
        ensures lo <= nz[k] <= hi
      {
        NonZeroMember(s, nz[k]);
      }
      SumBounded(nz, lo, hi, |nz|);
      MeanBetween(SumTo(nz, |nz|), |nz| as real, lo, hi);
      assert NonZeroMean(s) == Real(SumTo(nz, |nz|) / |nz| as real);
    }
  }

  lemma MeanBetween(sum: real, n: real, lo: real, hi: real)
    requires 0.0 < n && n * lo <= sum <= n * hi
    ensures lo <= sum / n <= hi
  {
    assert sum / n * n == sum;
  }

  /** The mean columns of the summary (`calculate_average_speed`): for each
      player the mean of the non-zero last player speeds and of the non-zero
      last shot speeds. */
  function CalculateAverageSpeed(rows: seq<StatRow>): (avg: (Num, Num, Num, Num))
    ensures IsNonZeroMean(LastPlayerSpeeds(rows, P1), avg.0)
    ensures IsNonZeroMean(LastPlayerSpeeds(rows, P2), avg.1)
    ensures IsNonZeroMean(LastShotSpeeds(rows, P1), avg.2)
    ensures IsNonZeroMean(LastShotSpeeds(rows, P2), avg.3)
  {
    (NonZeroMean(LastPlayerSpeeds(rows, P1)), NonZeroMean(LastPlayerSpeeds(rows, P2)),
     NonZeroMean(LastShotSpeeds(rows, P1)), NonZeroMean(LastShotSpeeds(rows, P2)))
  }

  /** Each average is NaN exactly when its column holds only zeros. */
  lemma AverageSpeedNaN(rows: seq<StatRow>)
    ensures var avg := CalculateAverageSpeed(rows);
      (avg.0.NaN? <==> forall f :: 0 <= f < |rows| ==> rows[f].p1.lastPlayerSpeed == 0.0) &&
      (avg.1.NaN? <==> forall f :: 0 <= f < |rows| ==> rows[f].p2.lastPlayerSpeed == 0.0) &&
      (avg.2.NaN? <==> forall f :: 0 <= f < |rows| ==> rows[f].p1.lastShotSpeed == 0.0) &&
      (avg.3.NaN? <==> forall f :: 0 <= f < |rows| ==> rows[f].p2.lastShotSpeed == 0.0)
  {
    var avg := CalculateAverageSpeed(rows);
    ColumnNaN(rows, LastPlayerSpeeds(rows, P1), avg.0, P1, false);
    ColumnNaN(rows, LastPlayerSpeeds(rows, P2), avg.1, P2, false);
    ColumnNaN(rows, LastShotSpeeds(rows, P1), avg.2, P1, true);
    ColumnNaN(rows, LastShotSpeeds(rows, P2), avg.3, P2, true);
  }

  /** A mean column is NaN exactly when the table column it averages is all
      zeros. */
  lemma ColumnNaN(rows: seq<StatRow>, s: seq<real>, m: Num, p: Player, shot: bool)
    requires |s| == |rows|
    requires forall f :: 0 <= f < |rows| ==>
      s[f] == (if shot then rows[f].Of(p).lastShotSpeed else rows[f].Of(p).lastPlayerSpeed)
    requires IsNonZeroMean(s, m)
    ensures m.NaN? <==> forall f :: 0 <= f < |rows| ==>
      (if shot then rows[f].Of(p).lastShotSpeed else rows[f].Of(p).lastPlayerSpeed) == 0.0
  {
  }

  /** The six derived columns of one player, from its last player speed and
      last shot speed columns. */
  function Derive(playerSpeed: seq<real>, shotSpeed: seq<real>, fps: real, root: real -> real): (d: DerivedSeries)
    requires 0.0 < fps
    ensures |d.acceleration| == |d.distanceCovered| == |playerSpeed|
    ensures |d.shotInconsistency| == |d.rallyContribution| == |d.rallyPercentage| == |shotSpeed|
    ensures forall f :: 0 <= f < |playerSpeed| ==>
      d.acceleration[f] == (if f == 0 then 0.0 else playerSpeed[f] - playerSpeed[f - 1]) &&
      d.distanceCovered[f] == SumTo(playerSpeed, f + 1) / fps
    ensures forall f :: 0 <= f < |shotSpeed| ==>
      d.shotInconsistency[f] == Spread(Window(shotSpeed, f), root) &&
      d.rallyContribution[f] == CountIncreases(shotSpeed, f)
    ensures d.totalShots == d.rallyContribution
    ensures forall f :: 0 <= f < |shotSpeed| ==>
      d.rallyPercentage[f] == if d.totalShots[f] == 0 then 0.0 else 100.0
  {
    var rc := RallyContribution(shotSpeed);
    var ts := TotalShots(shotSpeed);
    TotalShotsIsRallyContribution(shotSpeed);
    DerivedSeries(
      Acceleration(playerSpeed),
      ShotInconsistency(shotSpeed, root),
      DistanceCovered(playerSpeed, fps),
      rc,
      ts,
      RallyPercentage(rc, ts))
  }

  /** `draw_player_stats`: adds each player's derived columns to the table
      in place and hands the video frames back unchanged. Its per-row loop
      only builds a display dictionary for rows that have a frame and drops
      it. */
  method DrawPlayerStats<F>(frames: seq<F>, df: StatsFrame, fps: real, root: real -> real) returns (out: seq<F>)
    requires 0.0 < fps
    modifies df
    ensures out == frames
    ensures df.rows == old(df.rows) && df.averages == old(df.averages)
    ensures df.derived1 == Some(Derive(LastPlayerSpeeds(df.rows, P1), LastShotSpeeds(df.rows, P1), fps, root))
    ensures df.derived2 == Some(Derive(LastPlayerSpeeds(df.rows, P2), LastShotSpeeds(df.rows, P2), fps, root))
  {
    df.derived1 := Some(Derive(LastPlayerSpeeds(df.rows, P1), LastShotSpeeds(df.rows, P1), fps, root));
    df.derived2 := Some(Derive(LastPlayerSpeeds(df.rows, P2), LastShotSpeeds(df.rows, P2), fps, root));
    var index := 0;
    while index < |df.rows|
      invariant 0 <= index <= |df.rows|
    {
      if index < |frames| {
        var row := df.rows[index];
        var display := (row.p1.lastShotSpeed, row.p2.lastShotSpeed, row.p1.lastPlayerSpeed, row.p2.lastPlayerSpeed);
      }
      index := index + 1;
    }
    out := frames;
  }

  /** The metric part of the summary's column names, in column order. */
  const ReportMetrics: seq<string> := [
    "max_shot_speed", "avg_shot_speed", "max_speed", "avg_speed", "max_acceleration",
    "max_shot_inconsistency", "max_distance_covered", "max_rally_contribution",
    "total_shots", "max_rally_percentage"]

  /** `f"player_{id}_{metric}"` */
  function ColumnName(id: string, metric: string): string {
    "player_" + id + "_" + metric
  }

  /** Integer counts as real cells. */
  function Reals(s: seq<nat>): (r: seq<real>)
    ensures |r| == |s| && forall k :: 0 <= k < |s| ==> r[k] == s[k] as real
  {
    seq(|s|, k requires 0 <= k < |s| => s[k] as real)
  }

  /** One player's ten summary values, in the order of ReportMetrics: the
      maximum and the non-zero mean of its last shot speeds and of its last
      player speeds, then the maximum of each derived column. */
  function PlayerSummary(rows: seq<StatRow>, d: DerivedSeries, p: Player): (v: seq<Num>)
    ensures |v| == |ReportMetrics|
    ensures IsMax(LastShotSpeeds(rows, p), v[0]) && IsNonZeroMean(LastShotSpeeds(rows, p), v[1])
    ensures IsMax(LastPlayerSpeeds(rows, p), v[2]) && IsNonZeroMean(LastPlayerSpeeds(rows, p), v[3])
    ensures IsMax(d.acceleration, v[4]) && IsMax(d.shotInconsistency, v[5]) && IsMax(d.distanceCovered, v[6])
    ensures IsMax(Reals(d.rallyContribution), v[7]) && IsMax(Reals(d.totalShots), v[8])
    ensures IsMax(d.rallyPercentage, v[9])
  {
    SpeedSummary(LastShotSpeeds(rows, p), LastPlayerSpeeds(rows, p)) + DerivedSummary(d)
  }

  /** The maximum and non-zero mean of the shot speeds, then of the player
      speeds. */
  function SpeedSummary(shotSpeed: seq<real>, playerSpeed: seq<real>): (v: seq<Num>)
    ensures |v| == 4
    ensures IsMax(shotSpeed, v[0]) && IsNonZeroMean(shotSpeed, v[1])
    ensures IsMax(playerSpeed, v[2]) && IsNonZeroMean(playerSpeed, v[3])
  {
    [SeriesMax(shotSpeed), NonZeroMean(shotSpeed), SeriesMax(playerSpeed), NonZeroMean(playerSpeed)]
  }

  /** The maximum of each derived column. */
  function DerivedSummary(d: DerivedSeries): (v: seq<Num>)
    ensures |v| == 6
    ensures IsMax(d.acceleration, v[0]) && IsMax(d.shotInconsistency, v[1]) && IsMax(d.distanceCovered, v[2])
    ensures IsMax(Reals(d.rallyContribution), v[3]) && IsMax(Reals(d.totalShots), v[4])
    ensures IsMax(d.rallyPercentage, v[5])
  {
    [SeriesMax(d.acceleration), SeriesMax(d.shotInconsistency), SeriesMax(d.distanceCovered),
     SeriesMax(Reals(d.rallyContribution)), SeriesMax(Reals(d.totalShots)), SeriesMax(d.rallyPercentage)]
  }

  /** The columns for each metric, first player then second. */
  function Interleave(id1: string, id2: string, metrics: seq<string>, v1: seq<Num>, v2: seq<Num>): (cols: seq<Column>)
    requires |v1| == |metrics| && |v2| == |metrics|
    ensures |cols| == 2 * |metrics|
    ensures forall k :: 0 <= k < |metrics| ==>
      cols[2 * k] == Column(ColumnName(id1, metrics[k]), v1[k]) &&
      cols[2 * k + 1] == Column(ColumnName(id2, metrics[k]), v2[k])
    ensures forall k :: 0 <= k < |metrics| ==>
      cols[2 * k].name == ColumnName(id1, metrics[k]) && cols[2 * k + 1].name == ColumnName(id2, metrics[k])
  {
    if |metrics| == 0 then []
    else
      var rest := Interleave(id1, id2, metrics[1..], v1[1..], v2[1..]);
      assert forall k :: 1 <= k < |metrics| ==> rest[2 * (k - 1)] == Column(ColumnName(id1, metrics[k]), v1[k]);
      [Column(ColumnName(id1, metrics[0]), v1[0]), Column(ColumnName(id2, metrics[0]), v2[0])] + rest
  }

  /** `generate_report_max_only`: the one-row session summary, with the
      column `player_<id>_<metric>` for each metric and each player. */
  function GenerateReportMaxOnly(df: StatsFrame, id1: string, id2: string): (report: seq<Column>)
    reads df
    requires df.derived1.Some? && df.derived2.Some?
    ensures |report| == 2 * |ReportMetrics|
    ensures forall k :: 0 <= k < |ReportMetrics| ==>
      report[2 * k].name == ColumnName(id1, ReportMetrics[k]) &&
      report[2 * k + 1].name == ColumnName(id2, ReportMetrics[k])
  {
    Interleave(id1, id2, ReportMetrics,
               PlayerSummary(df.rows, df.derived1.value, P1),
               PlayerSummary(df.rows, df.derived2.value, P2))
  }

  /** The largest rally percentage of a non-empty table is 0 or 100. */
  lemma MaxRallyPercentage(shotSpeed: seq<real>)
    requires |shotSpeed| > 0
    ensures TotalShots(shotSpeed) == RallyContribution(shotSpeed)
    ensures var m := SeriesMax(RallyPercentage(RallyContribution(shotSpeed), TotalShots(shotSpeed)));
      m == Real(0.0) || m == Real(100.0)
  {
    TotalShotsIsRallyContribution(shotSpeed);
    var pct := RallyPercentage(RallyContribution(shotSpeed), TotalShots(shotSpeed));
    forall f | 0 <= f < |shotSpeed|
      ensures pct[f] == 0.0 || pct[f] == 100.0
    {
      RallyPercentageAllOrNothing(shotSpeed, f);
    }
  }

  /** In one player's summary values, `max_rally_contribution` and
      `total_shots` are the same value, and the max rally percentage of a
      non-empty table is 0 or 100. */
  lemma PlayerSummaryFacts(rows: seq<StatRow>, p: Player, fps: real, root: real -> real)
    requires 0.0 < fps
    ensures var v := PlayerSummary(rows, Derive(LastPlayerSpeeds(rows, p), LastShotSpeeds(rows, p), fps, root), p);
      v[7] == v[8] && (|rows| > 0 ==> v[9] == Real(0.0) || v[9] == Real(100.0))
  {
    var shotSpeed := LastShotSpeeds(rows, p);
    TotalShotsIsRallyContribution(shotSpeed);
    if |rows| > 0 {
      MaxRallyPercentage(shotSpeed);
    }
  }

  /** The summary column `player_<id>_<metric>` of each player holds that
      player's value of the metric. */
  lemma SummaryColumns(df: StatsFrame, id1: string, id2: string, k: nat)
    requires df.derived1.Some? && df.derived2.Some? && k < |ReportMetrics|
    ensures var r := GenerateReportMaxOnly(df, id1, id2);
      r[2 * k] == Column(ColumnName(id1, ReportMetrics[k]), PlayerSummary(df.rows, df.derived1.value, P1)[k]) &&
      r[2 * k + 1] == Column(ColumnName(id2, ReportMetrics[k]), PlayerSummary(df.rows, df.derived2.value, P2)[k])
  {
  }
}
