/** The statistics accumulator of the match analysis (main.py): for every
    pair of consecutive shot frames it measures the ball's speed, picks the
    player who hit it and measures the opponent's movement, and appends a
    full copy of the previous statistics row with those players' columns
    updated. The sparse rows are then spread over every video frame by a
    left merge and a forward fill, and the average columns are added. */
module ShotStats {
  import opened Values
  import opened StatsTable

  /** A position on the mini court. */
  type Point = (real, real)

  /** Mini-court positions per frame: the ball's and each player's. */
  datatype Tracks = Tracks(ball: seq<Point>, player1: seq<Point>, player2: seq<Point>) {

    /** Every track has a position for frame f. */
    predicate Covers(f: nat) {
      f < |ball| && f < |player1| && f < |player2|
    }

    function Of(p: Player, f: nat): Point
      requires Covers(f)
    {
      if p == P1 then player1[f] else player2[f]
    }
  }

  /** The two geometry helpers of the utils package, which are not part of
      this model: `measure_distance` between two mini-court points, and
      `convert_pixel_distance_to_meters` with the court's fixed calibration
      (the double-line width and the mini court's pixel width). */
  datatype Geometry = Geometry(measure: (Point, Point) -> real, toMeters: real -> real)

  /** What the model assumes of those helpers: distances are never negative,
      and neither is a conversion of a non-negative distance. */
  ghost predicate ValidGeometry(g: Geometry) {
    && (forall a, b :: 0.0 <= g.measure(a, b))
    && (forall d :: 0.0 <= d ==> 0.0 <= g.toMeters(d))
  }

  /** Speed in km/h of something that covered `meters` between frames start
      and end: metres over elapsed seconds ((end - start) / fps), times 3.6. */
  function Speed(meters: real, start: nat, end: nat, fps: real): (v: real)
    requires 0.0 < fps && start != end
    ensures v * ((end - start) as real / fps) == meters * 3.6
    ensures start < end && 0.0 <= meters ==> 0.0 <= v
  {
    var elapsed := (end - start) as real / fps;
    assert elapsed != 0.0;
    meters / elapsed * 3.6
  }

  /** The player `min` picks over [player_1, player_2] by distance to the
      ball: the second one only when strictly nearer. */
  function NearerPlayer(d1: real, d2: real): (p: Player)
    ensures (if p == P1 then d1 else d2) <= (if p == P1 then d2 else d1)
    ensures d1 == d2 ==> p == P1
  {
    if d2 < d1 then P2 else P1
  }

  /** Pixel distance from player p to the ball at frame f. */
  function DistanceToBall(tracks: Tracks, g: Geometry, p: Player, f: nat): (d: real)
    requires tracks.Covers(f)
    ensures ValidGeometry(g) ==> 0.0 <= d
  {
    g.measure(tracks.Of(p, f), tracks.ball[f])
  }

  /** What one pair of consecutive shot frames contributes: the frame the
      shot starts at, who hit it, the ball's speed and the opponent's speed. */
  datatype ShotEvent = ShotEvent(start: nat, shooter: Player, ballSpeed: real, opponentSpeed: real)

  /** The measurements of the interval between shot frames start and end. */
  function MeasureInterval(tracks: Tracks, g: Geometry, fps: real, start: nat, end: nat): (e: ShotEvent)
    requires 0.0 < fps && start != end
    requires tracks.Covers(start) && tracks.Covers(end)
    ensures e.start == start
    ensures DistanceToBall(tracks, g, e.shooter, start) <= DistanceToBall(tracks, g, Other(e.shooter), start)
    ensures DistanceToBall(tracks, g, P1, start) == DistanceToBall(tracks, g, P2, start) ==> e.shooter == P1
    ensures e.ballSpeed == Speed(g.toMeters(g.measure(tracks.ball[start], tracks.ball[end])), start, end, fps)
    ensures e.opponentSpeed ==
      Speed(g.toMeters(g.measure(tracks.Of(Other(e.shooter), start), tracks.Of(Other(e.shooter), end))), start, end, fps)
    ensures ValidGeometry(g) && start < end ==> 0.0 <= e.ballSpeed && 0.0 <= e.opponentSpeed
  {
    var ballMeters := g.toMeters(g.measure(tracks.ball[start], tracks.ball[end]));
    var shooter := NearerPlayer(DistanceToBall(tracks, g, P1, start), DistanceToBall(tracks, g, P2, start));
    var opponent := Other(shooter);
    var opponentMeters := g.toMeters(g.measure(tracks.Of(opponent, start), tracks.Of(opponent, end)));
    ShotEvent(start, shooter, Speed(ballMeters, start, end, fps), Speed(opponentMeters, start, end, fps))
  }

  /** Every shot frame is a frame the tracks have a position for. */
  predicate ShotsCovered(tracks: Tracks, shots: seq<nat>) {
    forall i :: 0 <= i < |shots| ==> tracks.Covers(shots[i])
  }

  /** No two consecutive shot frames are equal (an equal pair would make the
      elapsed time zero and the speed a division by zero). */
  predicate NoRepeats(shots: seq<nat>) {
    forall i, j :: 0 <= i < |shots| && j == i + 1 < |shots| ==> shots[i] != shots[j]
  }

  predicate StrictlyIncreasing(shots: seq<nat>) {
    forall i, j :: 0 <= i < j < |shots| ==> shots[i] < shots[j]
  }

  /** The events of all consecutive pairs of shot frames, in order. */
  function Events(tracks: Tracks, g: Geometry, fps: real, shots: seq<nat>): (es: seq<ShotEvent>)
    requires 0.0 < fps && ShotsCovered(tracks, shots) && NoRepeats(shots)
    ensures |es| == if |shots| < 2 then 0 else |shots| - 1
    ensures forall i :: 0 <= i < |es| ==> es[i] == MeasureInterval(tracks, g, fps, shots[i], shots[i + 1])
  {
    if |shots| < 2 then []
    else seq(|shots| - 1, i requires 0 <= i < |shots| - 1 =>
               MeasureInterval(tracks, g, fps, shots[i], shots[i + 1]))
  }

  /** The row that follows `row` for event e: frame_num becomes the shot's
      start frame; the shooter gains one shot, the ball speed is added to its
      total shot speed and becomes its last shot speed; the opponent's speed
      is added to the opponent's total player speed and becomes its last
      player speed. Every other column is carried over. */
  function ApplyShot(row: StatRow, e: ShotEvent): (r: StatRow)
    ensures r.frame == e.start
    ensures r.Of(e.shooter).shots == row.Of(e.shooter).shots + 1
    ensures r.Of(e.shooter).totalShotSpeed == row.Of(e.shooter).totalShotSpeed + e.ballSpeed
    ensures r.Of(e.shooter).lastShotSpeed == e.ballSpeed
    ensures r.Of(e.shooter).totalPlayerSpeed == row.Of(e.shooter).totalPlayerSpeed
    ensures r.Of(e.shooter).lastPlayerSpeed == row.Of(e.shooter).lastPlayerSpeed
    ensures r.Of(Other(e.shooter)).shots == row.Of(Other(e.shooter)).shots
    ensures r.Of(Other(e.shooter)).totalShotSpeed == row.Of(Other(e.shooter)).totalShotSpeed
    ensures r.Of(Other(e.shooter)).lastShotSpeed == row.Of(Other(e.shooter)).lastShotSpeed
    ensures r.Of(Other(e.shooter)).totalPlayerSpeed == row.Of(Other(e.shooter)).totalPlayerSpeed + e.opponentSpeed
    ensures r.Of(Other(e.shooter)).lastPlayerSpeed == e.opponentSpeed
  {
    var s := row.Of(e.shooter);
    var o := row.Of(Other(e.shooter));
    row.(frame := e.start)
       .With(e.shooter, s.(shots := s.shots + 1,
                           totalShotSpeed := s.totalShotSpeed + e.ballSpeed,
                           lastShotSpeed := e.ballSpeed))
       .With(Other(e.shooter), o.(totalPlayerSpeed := o.totalPlayerSpeed + e.opponentSpeed,
                                  lastPlayerSpeed := e.opponentSpeed))
  }

  /** The statistics rows for a sequence of events: the zero seed, then one
      snapshot per event, each derived from the one before it. */
  function History(es: seq<ShotEvent>): (rows: seq<StatRow>)
    ensures |rows| == |es| + 1
    ensures rows[0] == Seed
    ensures forall i {:trigger es[i]} :: 0 <= i < |es| ==> rows[i + 1] == ApplyShot(rows[i], es[i])
    decreases |es|
  {
    if |es| == 0 then [Seed]
    else
      var before := History(es[..|es| - 1]);
      before + [ApplyShot(before[|before| - 1], es[|es| - 1])]
  }

  /** The loop body's row update: a copy of the last row with frame_num
      set to the shot's start frame, the shooter's three shot columns and
      the opponent's two movement columns updated. */
  method CopyWithShot(last: StatRow, e: ShotEvent) returns (current: StatRow)
    ensures current == ApplyShot(last, e)
  {
    var shooter := e.shooter;
    var opponent := if shooter == P1 then P2 else P1;
    current := last;
    var s, o := current.Of(shooter), current.Of(opponent);
    current := current.(frame := e.start);
    current := current.With(shooter, s.(shots := s.shots + 1,
                                        totalShotSpeed := s.totalShotSpeed + e.ballSpeed,
                                        lastShotSpeed := e.ballSpeed));
    current := current.With(opponent, o.(totalPlayerSpeed := o.totalPlayerSpeed + e.opponentSpeed,
                                         lastPlayerSpeed := e.opponentSpeed));
  }

  /** The accumulator loop: starting from the zero seed, for every pair of
      consecutive shot frames, copy the last row, update it and append it.
      It also hands back the shooter of the last pair, which the average
      columns use afterwards (None when there was no pair). */
  method AccumulateStats(tracks: Tracks, g: Geometry, fps: real, shots: seq<nat>)
    returns (rows: seq<StatRow>, lastShooter: Option<Player>)
    requires 0.0 < fps
    requires ShotsCovered(tracks, shots) && NoRepeats(shots)
    ensures rows == History(Events(tracks, g, fps, shots))
    ensures |rows| == if |shots| == 0 then 1 else |shots|
    ensures lastShooter.None? <==> |shots| < 2
    ensures lastShooter.Some? ==> lastShooter.value == Events(tracks, g, fps, shots)[|shots| - 2].shooter
  {
    ghost var es := Events(tracks, g, fps, shots);
    rows := [Seed];
    lastShooter := None;
    var i := 0;
    while i < |shots| - 1
      invariant 0 <= i <= |es|
      invariant rows == History(es[..i])
      invariant lastShooter.None? <==> i == 0
      invariant lastShooter.Some? ==> lastShooter.value == es[i - 1].shooter
    {
      var e := MeasureInterval(tracks, g, fps, shots[i], shots[i + 1]);
      var current := CopyWithShot(rows[|rows| - 1], e);
      HistoryStep(es, i);
      rows := rows + [current];
      lastShooter := Some(e.shooter);
      i := i + 1;
    }
    assert es[..i] == es;
  }

  /** One more event appends one more row to the history. */
  lemma HistoryStep(es: seq<ShotEvent>, i: nat)
    requires i < |es|
    ensures History(es[..i + 1]) == History(es[..i]) + [ApplyShot(History(es[..i])[i], es[i])]
  {
    assert es[..i + 1][..i] == es[..i];
  }

  /** Any rows that start from the seed and follow the recurrence are the
      history. */
  lemma {:induction false} HistoryUnique(es: seq<ShotEvent>, rows: seq<StatRow>)
    requires |rows| == |es| + 1 && rows[0] == Seed
    requires forall k {:trigger es[k]} :: 0 <= k < |es| ==> rows[k + 1] == ApplyShot(rows[k], es[k])
    ensures rows == History(es)
  {
    if |es| > 0 {
      var n := |es| - 1;
      HistoryUnique(es[..n], rows[..n + 1]);
      assert rows == rows[..n + 1] + [rows[n + 1]];
    }
  }

  /** In row i the two players' shot counts add up to i: every event credits
      exactly one shot. */
  lemma {:induction false} ShotCountsAddUp(es: seq<ShotEvent>, i: nat)
    requires i <= |es|
    ensures History(es)[i].p1.shots + History(es)[i].p2.shots == i
  {
    if i > 0 {
      ShotCountsAddUp(es, i - 1);
      var e := es[i - 1];
      assert History(es)[i] == ApplyShot(History(es)[i - 1], e);
    }
  }

  predicate NonNegativeSpeeds(es: seq<ShotEvent>) {
    forall i :: 0 <= i < |es| ==> 0.0 <= es[i].ballSpeed && 0.0 <= es[i].opponentSpeed
  }

  /** The running columns of b are each at least those of a. */
  predicate NoLessThan(a: PlayerTotals, b: PlayerTotals) {
    && a.shots <= b.shots
    && a.totalShotSpeed <= b.totalShotSpeed
    && a.totalPlayerSpeed <= b.totalPlayerSpeed
  }

  /** With non-negative speeds, no player's shot count, total shot speed or
      total player speed ever decreases from one row to a later one. */
  lemma {:induction false} TotalsNeverDecrease(es: seq<ShotEvent>, i: nat, j: nat, p: Player)
    requires NonNegativeSpeeds(es)
    requires i <= j <= |es|
    ensures NoLessThan(History(es)[i].Of(p), History(es)[j].Of(p))
  {
    if i < j {
      TotalsNeverDecrease(es, i, j - 1, p);
      var e := es[j - 1];
      assert History(es)[j] == ApplyShot(History(es)[j - 1], e);
      assert 0.0 <= e.ballSpeed && 0.0 <= e.opponentSpeed;
    }
  }

  /** A player with no shots yet has zero total and last shot speed: the
      shot-speed columns only move when that player is the shooter. */
  lemma {:induction false} NoShotsNoShotSpeed(es: seq<ShotEvent>, i: nat, p: Player)
    requires i <= |es|
    requires History(es)[i].Of(p).shots == 0
    ensures History(es)[i].Of(p).totalShotSpeed == 0.0
    ensures History(es)[i].Of(p).lastShotSpeed == 0.0
  {
    if i > 0 {
      var e := es[i - 1];
      assert History(es)[i] == ApplyShot(History(es)[i - 1], e);
      assert e.shooter != p;
      NoShotsNoShotSpeed(es, i - 1, p);
    }
  }

  /** With strictly increasing shot frames and a well-behaved geometry, every
      measured speed is non-negative. */
  lemma EventsHaveNonNegativeSpeeds(tracks: Tracks, g: Geometry, fps: real, shots: seq<nat>)
    requires 0.0 < fps && ShotsCovered(tracks, shots) && StrictlyIncreasing(shots)
    requires ValidGeometry(g)
    ensures NoRepeats(shots)
    ensures NonNegativeSpeeds(Events(tracks, g, fps, shots))
  {
  }

  /** Row frames are strictly increasing. */
  predicate IncreasingFrames(rows: seq<StatRow>) {
    forall i, j :: 0 <= i < j < |rows| ==> rows[i].frame < rows[j].frame
  }

  /** Each event starts at the first frame of its pair of shot frames. */
  lemma EventStarts(tracks: Tracks, g: Geometry, fps: real, shots: seq<nat>)
    requires 0.0 < fps && ShotsCovered(tracks, shots) && NoRepeats(shots)
    ensures forall i :: 0 <= i < |Events(tracks, g, fps, shots)| ==> Events(tracks, g, fps, shots)[i].start == shots[i]
  {
  }

  /** The seed sits at frame 0 and row k + 1 at the start frame of event k,
      so when the events start at increasing frames that all lie after
      frame 0 the rows are in strictly increasing frame order. */
  lemma {:induction false} HistoryFramesIncrease(es: seq<ShotEvent>)
    requires forall i, j :: 0 <= i < j < |es| ==> es[i].start < es[j].start
    requires |es| > 0 ==> es[0].start > 0
    ensures IncreasingFrames(History(es))
  {
    var rows := History(es);
    forall k | 0 < k < |rows|
      ensures rows[k].frame == es[k - 1].start
    {
      assert rows[k] == ApplyShot(rows[k - 1], es[k - 1]);
    }
    forall i, j | 0 <= i < j < |rows|
      ensures rows[i].frame < rows[j].frame
    {
      if i == 0 {
        assert es[0].start <= es[j - 1].start;
      } else {
        assert es[i - 1].start < es[j - 1].start;
      }
    }
  }

  /** The index of the last row whose frame is at most f: the row a forward
      fill carries into frame f. */
  function LatestRow(rows: seq<StatRow>, f: nat): (j: nat)
    requires |rows| > 0 && rows[0].frame <= f
    ensures j < |rows| && rows[j].frame <= f
    ensures forall i :: j < i < |rows| ==> rows[i].frame > f
    decreases |rows|
  {
    if rows[|rows| - 1].frame <= f then |rows| - 1
    else LatestRow(rows[..|rows| - 1], f)
  }

  /** The last row at or before f is the only row with the two properties
      above. */
  lemma LatestRowUnique(rows: seq<StatRow>, f: nat, j: nat)
    requires |rows| > 0 && rows[0].frame <= f
    requires j < |rows| && rows[j].frame <= f
    requires forall i :: j < i < |rows| ==> rows[i].frame > f
    ensures LatestRow(rows, f) == j
  {
  }

  /** The left merge of the rows onto the frame numbers 0 .. n - 1 followed
      by a forward fill: frame f gets the columns of the last row at or
      before f, and its own frame number. */
  method ExpandFrames(rows: seq<StatRow>, n: nat) returns (dense: seq<StatRow>)
    requires |rows| > 0 && rows[0].frame == 0
    requires IncreasingFrames(rows)
    ensures |dense| == n
    ensures forall f :: 0 <= f < n ==> dense[f] == rows[LatestRow(rows, f)].(frame := f)
  {
    dense := [];
    var current := rows[0];
    var k := 0;
    for f := 0 to n
      invariant |dense| == f
      invariant forall h :: 0 <= h < f ==> dense[h] == rows[LatestRow(rows, h)].(frame := h)
      invariant k <= |rows|
      invariant f == 0 ==> k == 0
      invariant 0 < f ==> 0 < k && current == rows[k - 1] && k - 1 == LatestRow(rows, f - 1)
      invariant k < |rows| ==> f <= rows[k].frame
    {
      if k < |rows| && rows[k].frame == f {
        current := rows[k];
        k := k + 1;
      }
      LatestRowUnique(rows, f, k - 1);
      dense := dense + [current.(frame := f)];
    }
  }

  /** Frames before the first shot carry the zero seed's columns. */
  lemma BeforeFirstShotIsZero(rows: seq<StatRow>, f: nat)
    requires |rows| > 0 && rows[0] == Seed
    requires IncreasingFrames(rows)
    requires |rows| > 1 ==> f < rows[1].frame
    ensures rows[LatestRow(rows, f)].p1 == NoTotals
    ensures rows[LatestRow(rows, f)].p2 == NoTotals
  {
    LatestRowUnique(rows, f, 0);
  }

  /** `replace(0, 1)` on a count used as a divisor. */
  function Guard(n: nat): (d: nat)
    ensures 0 < d
    ensures d == n || (n == 0 && d == 1)
  {
    if n == 0 then 1 else n
  }

  /** The four average columns of one row, written as the source writes
      them: in terms of the shooter and the opponent of the last pair. */
  function AverageRowOf(row: StatRow, shooter: Player): (r: AverageRow)
    ensures forall p :: r.Of(p) == PlayerAverages(
      row.Of(p).totalShotSpeed / Guard(row.Of(p).shots) as real,
      row.Of(p).totalPlayerSpeed / Guard(row.Of(Other(p)).shots) as real)
  {
    var s, o := shooter, Other(shooter);
    var avgShotS := row.Of(s).totalShotSpeed / Guard(row.Of(s).shots) as real;
    var avgShotO := row.Of(o).totalShotSpeed / Guard(row.Of(o).shots) as real;
    var avgPlayerS := row.Of(s).totalPlayerSpeed / Guard(row.Of(o).shots) as real;
    var avgPlayerO := row.Of(o).totalPlayerSpeed / Guard(row.Of(s).shots) as real;
    if s == P1 then AverageRow(PlayerAverages(avgShotS, avgPlayerS), PlayerAverages(avgShotO, avgPlayerO))
    else AverageRow(PlayerAverages(avgShotO, avgPlayerO), PlayerAverages(avgShotS, avgPlayerS))
  }

  /** The average columns over the whole table. Whichever player shot last,
      each player's average shot speed is its total shot speed over its own
      (guarded) shot count, and its average player speed is its total player
      speed over the OTHER player's (guarded) shot count. */
  function AverageColumns(rows: seq<StatRow>, shooter: Player): (avgs: seq<AverageRow>)
    ensures |avgs| == |rows|
    ensures forall f, p :: 0 <= f < |rows| ==>
      avgs[f].Of(p) == PlayerAverages(
        rows[f].Of(p).totalShotSpeed / Guard(rows[f].Of(p).shots) as real,
        rows[f].Of(p).totalPlayerSpeed / Guard(rows[f].Of(Other(p)).shots) as real)
  {
    seq(|rows|, f requires 0 <= f < |rows| => AverageRowOf(rows[f], shooter))
  }

  /** The average columns do not depend on which player happened to shoot
      last, and a player without shots averages its total (which the
      accumulator keeps at zero). */
  lemma AveragesIgnoreLastShooter(rows: seq<StatRow>, f: nat, p: Player)
    requires f < |rows|
    ensures AverageColumns(rows, P1)[f] == AverageColumns(rows, P2)[f]
    ensures rows[f].Of(p).shots == 0 ==>
      AverageColumns(rows, P1)[f].Of(p).avgShotSpeed == rows[f].Of(p).totalShotSpeed
  {
    assert AverageColumns(rows, P1)[f].Of(P1) == AverageColumns(rows, P2)[f].Of(P1);
    assert AverageColumns(rows, P1)[f].Of(P2) == AverageColumns(rows, P2)[f].Of(P2);
  }

  /** The four column assignments after the forward fill. */
  method AddAverageColumns(df: StatsFrame, lastShooter: Player)
    modifies df
    ensures df.rows == old(df.rows)
    ensures df.averages == Some(AverageColumns(df.rows, lastShooter))
    ensures df.derived1 == old(df.derived1) && df.derived2 == old(df.derived2)
  {
    df.averages := Some(AverageColumns(df.rows, lastShooter));
  }
}
