/** A worked case of the per-match statistics: a player with one spike
    that scored and one that missed. */
module MatchStatsExamples {
  import opened Optional
  import opened Sorting
  import opened MatchStats

  const SpikePoint: RallyEvent := RallyEvent("e1", "m1", Spike, Point, Some("p1"))
  const SpikeMiss: RallyEvent := RallyEvent("e2", "m1", Spike, Miss, Some("p1"))
  /** Another player's event in the same match, which the filter drops. */
  const OtherServe: RallyEvent := RallyEvent("e3", "m1", Serve, Point, Some("p2"))

  const Events: seq<RallyEvent> := [SpikePoint, SpikeMiss, OtherServe]

  /** A point weighs 1 and a miss 0, for every skill. */
  function PointOnly(s: Skill): Row {
    map[Point := 1.0, Miss := 0.0]
  }

  /** The helpers on the counts of the two spikes. */
  lemma SpikeCountsRates()
    ensures DecisionRate(Counts(1, 0, 0, 1)) == 0.5
    ensures EffectRate(Counts(1, 0, 0, 1), PointOnly(Spike)) == 0.5
  {
    ScoreTerms(Counts(1, 0, 0, 1), PointOnly(Spike));
  }

  lemma OnlyPlayerOne()
    ensures ForPlayer(Events, Some("p1")) == [SpikePoint, SpikeMiss]
  {
    var p := Some("p1");
    assert [SpikePoint][..0] == [];
    assert ForPlayer([SpikePoint], p) == [SpikePoint];
    assert [SpikePoint, SpikeMiss][..1] == [SpikePoint];
    assert ForPlayer([SpikePoint, SpikeMiss], p) == [SpikePoint, SpikeMiss];
    assert Events[..2] == [SpikePoint, SpikeMiss];
  }

  lemma PlayerOneTallies()
    ensures var mine := [SpikePoint, SpikeMiss];
            InMatch(mine, "m1") == 2 && PointsInMatch(mine, "m1") == 1 && EventScore(mine, "m1", PointOnly) == 1.0
  {
    var mine := [SpikePoint, SpikeMiss];
    assert mine[..1] == [SpikePoint];
    assert [SpikePoint][..0] == [];
    assert InMatch([SpikePoint], "m1") == 1 && PointsInMatch([SpikePoint], "m1") == 1;
    assert EventScore([SpikePoint], "m1", PointOnly) == 1.0;
  }

  /** Any row describing the two spikes. */
  lemma TwoSpikesRow(st: PlayerMatchStat)
    requires IsRowOf(st, [SpikePoint, SpikeMiss], IndexMatches([]), PointOnly)
    ensures st.matchId == "m1" && st.matchName == PLACEHOLDER && st.total == 2
    ensures st.decisionRate == 0.5 && st.effectRate == 0.5
  {
    var e :| e in [SpikePoint, SpikeMiss] && e.matchId == st.matchId;
    PlayerOneTallies();
    MatchNameMissing([], "m1");
  }

  /** Whatever else the list holds, when player "p1" has exactly the two
      spikes there is one row, for match "m1", unnamed, with both rates at
      one half. */
  lemma TwoSpikesScenario(events: seq<RallyEvent>, nameLe: (string, string) -> bool)
    requires ForPlayer(events, Some("p1")) == [SpikePoint, SpikeMiss]
    ensures var out := PlayerMatchStats(Some("p1"), [], events, PointOnly, nameLe);
            && |out| == 1
            && out[0].matchId == "m1" && out[0].matchName == PLACEHOLDER && out[0].total == 2
            && out[0].decisionRate == 0.5 && out[0].effectRate == 0.5
  {
    var out := PlayerMatchStats(Some("p1"), [], events, PointOnly, nameLe);
    assert forall e | e in [SpikePoint, SpikeMiss] :: e.matchId == "m1";
    SingleMatchTable(Some("p1"), [], events, PointOnly, nameLe, "m1");
    TwoSpikesRow(out[0]);
  }

  /** A player whose events all belong to one match gets exactly one row. */
  lemma SingleMatchTable(playerId: Option<string>, matches: seq<Match>, events: seq<RallyEvent>,
                         weights: Weights, nameLe: (string, string) -> bool, mid: string)
    requires ForPlayer(events, playerId) != []
    requires forall e | e in ForPlayer(events, playerId) :: e.matchId == mid
    ensures var out := PlayerMatchStats(playerId, matches, events, weights, nameLe);
            |out| == 1 && IsRowOf(out[0], ForPlayer(events, playerId), IndexMatches(matches), weights)
  {
    var mine := ForPlayer(events, playerId);
    var out := PlayerMatchStats(playerId, matches, events, weights, nameLe);
    PlayerMatchStatsTable(playerId, matches, events, weights, nameLe);
    assert (set e | e in mine :: e.matchId) == {mid} by {
      assert mine[0] in mine;
    }
    OneMatchOneRow(out, mid);
    PlayerMatchStatsRows(playerId, matches, events, weights, nameLe);
  }

  lemma OneMatchOneRow(out: seq<PlayerMatchStat>, mid: string)
    requires DistinctBy(out, MatchIdOf) && (set st | st in out :: st.matchId) == {mid}
    ensures |out| == 1
  {
    var ids := DistinctByCount(out, MatchIdOf);
    var names := set st | st in out :: st.matchId;
    forall m | m in ids ensures m == mid {
      var x :| x in out && MatchIdOf(x) == m;
      assert x.matchId in names;
    }
    assert mid in ids by {
      var x :| x in out && x.matchId == mid;
      assert MatchIdOf(x) in ids;
    }
    assert ids == {mid};
  }

  /** The example list is such a list. */
  lemma ExampleEvents(nameLe: (string, string) -> bool)
    ensures var out := PlayerMatchStats(Some("p1"), [], Events, PointOnly, nameLe);
            |out| == 1 && out[0].decisionRate == 0.5 && out[0].effectRate == 0.5
  {
    OnlyPlayerOne();
    TwoSpikesScenario(Events, nameLe);
  }
}
