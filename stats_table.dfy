/** The per-player statistics table: the rows the shot accumulator writes,
    and the table (a pandas DataFrame in the system) that later stages
    extend with columns in place. */
module StatsTable {
  import opened Values

  /** The two tracked players, in the order they are listed: the first-listed
      one is `player_1` everywhere in the system. */
  datatype Player = P1 | P2

  function Other(p: Player): (q: Player)
    ensures q != p
  {
    if p == P1 then P2 else P1
  }

  /** The five running columns kept for one player:
      `number_of_shots`, `total_shot_speed`, `last_shot_speed`,
      `total_player_speed` and `last_player_speed`. */
  datatype PlayerTotals = PlayerTotals(
    shots: nat,
    totalShotSpeed: real,
    lastShotSpeed: real,
    totalPlayerSpeed: real,
    lastPlayerSpeed: real)

  const NoTotals := PlayerTotals(0, 0.0, 0.0, 0.0, 0.0)

  /** One row of the statistics table: `frame_num` and both players' columns. */
  datatype StatRow = StatRow(frame: nat, p1: PlayerTotals, p2: PlayerTotals) {

    function Of(p: Player): PlayerTotals {
      if p == P1 then p1 else p2
    }

    /** This row with p's columns replaced by t and nothing else changed. */
    function With(p: Player, t: PlayerTotals): (r: StatRow)
      ensures r.frame == frame
      ensures r.Of(p) == t && r.Of(Other(p)) == Of(Other(p))
    {
      if p == P1 then this.(p1 := t) else this.(p2 := t)
    }
  }

  /** The all-zero row the accumulator starts from, at frame 0. */
  const Seed := StatRow(0, NoTotals, NoTotals)

  /** The two average columns added for one player. */
  datatype PlayerAverages = PlayerAverages(avgShotSpeed: real, avgPlayerSpeed: real)

  datatype AverageRow = AverageRow(p1: PlayerAverages, p2: PlayerAverages) {
    function Of(p: Player): PlayerAverages {
      if p == P1 then p1 else p2
    }
  }

  /** The six per-frame columns the drawing stage derives for one player:
      `acceleration`, `shot_inconsistency`, `distance_covered`,
      `rally_contribution`, `total_shots` and `rally_percentage`. */
  datatype DerivedSeries = DerivedSeries(
    acceleration: seq<real>,
    shotInconsistency: seq<real>,
    distanceCovered: seq<real>,
    rallyContribution: seq<nat>,
    totalShots: seq<nat>,
    rallyPercentage: seq<real>)

  /** The `last_shot_speed` column of player p. */
  function LastShotSpeeds(rows: seq<StatRow>, p: Player): (s: seq<real>)
    ensures |s| == |rows|
    ensures forall f :: 0 <= f < |rows| ==> s[f] == rows[f].Of(p).lastShotSpeed
  {
    seq(|rows|, f requires 0 <= f < |rows| => rows[f].Of(p).lastShotSpeed)
  }

  /** The `last_player_speed` column of player p. */
  function LastPlayerSpeeds(rows: seq<StatRow>, p: Player): (s: seq<real>)
    ensures |s| == |rows|
    ensures forall f :: 0 <= f < |rows| ==> s[f] == rows[f].Of(p).lastPlayerSpeed
  {
    seq(|rows|, f requires 0 <= f < |rows| => rows[f].Of(p).lastPlayerSpeed)
  }

  /** The dense statistics table, one row per video frame. The pipeline
      creates it from the forward-filled rows and then adds columns to it in
      place: the average columns, then the derived series of each player. */
  class StatsFrame {
    var rows: seq<StatRow>
    var averages: Option<seq<AverageRow>>
    var derived1: Option<DerivedSeries>
    var derived2: Option<DerivedSeries>

    constructor (dense: seq<StatRow>)
      ensures rows == dense
      ensures averages == None && derived1 == None && derived2 == None
    {
      rows := dense;
      averages := None;
      derived1 := None;
      derived2 := None;
    }

    /** The derived columns of player p, once they have been added. */
    function Derived(p: Player): Option<DerivedSeries>
      reads this
    {
      if p == P1 then derived1 else derived2
    }
  }
}
