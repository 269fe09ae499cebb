/**
 * One simulated season: fixtures are scored, and each result moves the
 * running table of points and goal difference. The same update builds the
 * baseline table from the matches already played.
 */
module Season {
  import opened Dicts
  import opened FeatureEngineering

  /** `sample_score`: two draws, each capped at `maxGoals`. */
  function SampleScore(drawHome: nat, drawAway: nat, maxGoals: int): (r: (int, int))
    ensures r.0 <= maxGoals && r.1 <= maxGoals
    ensures drawHome <= maxGoals ==> r.0 == drawHome
    ensures drawAway <= maxGoals ==> r.1 == drawAway
    ensures maxGoals <= drawHome ==> r.0 == maxGoals
    ensures maxGoals <= drawAway ==> r.1 == maxGoals
    ensures 0 <= maxGoals ==> 0 <= r.0 && 0 <= r.1
  {
    (if drawHome < maxGoals then drawHome else maxGoals,
     if drawAway < maxGoals then drawAway else maxGoals)
  }

  // ---------------------------------------------------------------------------
  // The running table

  /** The two tallies of a table: points and goal difference, each a `defaultdict(int)`. */
  datatype Standings = Standings(points: Dict<Team, int>, gd: Dict<Team, int>) {
    ghost predicate Valid() {
      points.Valid() && gd.Valid()
    }
  }

  function NoStandings(): (st: Standings)
    ensures st.Valid() && st.points.keys == [] && st.gd.keys == []
  {
    Standings(Empty(), Empty())
  }

  /** Points for one result: 3 to the winner and nothing written for the loser, or 1 to each side. */
  function AwardPoints(points: Dict<Team, int>, m: Match): Dict<Team, int>
  {
    if m.homeScore > m.awayScore then Add(points, m.homeTeam, 3)
    else if m.homeScore < m.awayScore then Add(points, m.awayTeam, 3)
    else Add(Add(points, m.homeTeam, 1), m.awayTeam, 1)
  }

  /** Goal difference for one result: the margin to the home side, its negation to the away side. */
  function AddGoalDifference(gd: Dict<Team, int>, m: Match): Dict<Team, int>
  {
    Add(Add(gd, m.homeTeam, m.homeScore - m.awayScore), m.awayTeam, m.awayScore - m.homeScore)
  }

  function ApplyResult(st: Standings, m: Match): Standings
  {
    Standings(AwardPoints(st.points, m), AddGoalDifference(st.gd, m))
  }

  /** The table after applying `ms` in order to `st`. */
  function Tally(st: Standings, ms: seq<Match>): Standings
  {
    if ms == [] then st else ApplyResult(Tally(st, ms[..|ms| - 1]), ms[|ms| - 1])
  }

  /** The teams that won or drew at least one of `ms`. */
  function Earners(ms: seq<Match>): (r: set<Team>)
    ensures r <= TeamsOf(ms)
  {
    if ms == [] then {}
    else
      var m := ms[|ms| - 1];
      Earners(ms[..|ms| - 1])
        + (if m.homeScore >= m.awayScore then {m.homeTeam} else {})
        + (if m.homeScore <= m.awayScore then {m.awayTeam} else {})
  }

  /** The number of drawn matches in `ms`. */
  function Draws(ms: seq<Match>): (n: nat)
    ensures n <= |ms|
  {
    if ms == [] then 0
    else Draws(ms[..|ms| - 1]) + (if ms[|ms| - 1].homeScore == ms[|ms| - 1].awayScore then 1 else 0)
  }

  // ---------------------------------------------------------------------------
  // One result

  /**
   * Between two different teams, each side's points move by exactly its share
   * under the 3/1/0 rule and every other team's points stay as they were. A
   * side that earns nothing is not written, so a team that has only lost has
   * no entry at all.
   */
  lemma AwardPointsRule(points: Dict<Team, int>, m: Match)
    requires m.homeTeam != m.awayTeam
    ensures var r := AwardPoints(points, m);
            var pts := CalculatePoints(m.homeScore, m.awayScore);
            && r.Get(m.homeTeam, 0) == points.Get(m.homeTeam, 0) + pts.0
            && r.Get(m.awayTeam, 0) == points.Get(m.awayTeam, 0) + pts.1
            && (pts.0 == 0 ==> (m.homeTeam in r.vals <==> m.homeTeam in points.vals))
            && (pts.1 == 0 ==> (m.awayTeam in r.vals <==> m.awayTeam in points.vals))
    ensures var r := AwardPoints(points, m);
            forall t :: t != m.homeTeam && t != m.awayTeam ==>
              (t in r.vals <==> t in points.vals) && r.Get(t, 0) == points.Get(t, 0)
  {
  }

  /** One result adds 3 points to the table in all when decisive and 2 when drawn. */
  lemma AwardPointsTotal(points: Dict<Team, int>, m: Match)
    requires points.Valid()
    ensures Total(AwardPoints(points, m)) == Total(points) + (if m.homeScore == m.awayScore then 2 else 3)
  {
    if m.homeScore > m.awayScore {
      TotalAdd(points, m.homeTeam, 3);
    } else if m.homeScore < m.awayScore {
      TotalAdd(points, m.awayTeam, 3);
    } else {
      TotalAddTwice(points, m.homeTeam, 1, m.awayTeam, 1);
    }
  }

  /** Between two different teams, the home side gains the margin, the away side loses it, nobody else moves. */
  lemma GoalDifferenceRule(gd: Dict<Team, int>, m: Match)
    requires m.homeTeam != m.awayTeam
    ensures var r := AddGoalDifference(gd, m);
            && r.Get(m.homeTeam, 0) == gd.Get(m.homeTeam, 0) + (m.homeScore - m.awayScore)
            && r.Get(m.awayTeam, 0) == gd.Get(m.awayTeam, 0) - (m.homeScore - m.awayScore)
    ensures var r := AddGoalDifference(gd, m);
            forall t :: t != m.homeTeam && t != m.awayTeam ==> r.Get(t, 0) == gd.Get(t, 0)
  {
  }

  /** Goal difference is zero-sum: one result leaves the sum over all teams unchanged. */
  lemma GoalDifferenceZeroSum(gd: Dict<Team, int>, m: Match)
    requires gd.Valid()
    ensures Total(AddGoalDifference(gd, m)) == Total(gd)
  {
    TotalAddTwice(gd, m.homeTeam, m.homeScore - m.awayScore, m.awayTeam, m.awayScore - m.homeScore);
  }

  /** Applying a result keeps both tallies well formed. */
  lemma ApplyResultValid(st: Standings, m: Match)
    requires st.Valid()
    ensures ApplyResult(st, m).Valid()
  {
    AwardPointsValid(st.points, m);
    GoalDifferenceValid(st.gd, m);
  }

  /** Awarding points keeps the points tally well formed. */
  lemma AwardPointsValid(points: Dict<Team, int>, m: Match)
    requires points.Valid()
    ensures AwardPoints(points, m).Valid()
  {
    if m.homeScore > m.awayScore {
      AddValid(points, m.homeTeam, 3);
    } else if m.homeScore < m.awayScore {
      AddValid(points, m.awayTeam, 3);
    } else {
      AddTwiceValid(points, m.homeTeam, 1, m.awayTeam, 1);
    }
  }

  /** Adding a goal difference keeps the goal-difference tally well formed. */
  lemma GoalDifferenceValid(gd: Dict<Team, int>, m: Match)
    requires gd.Valid()
    ensures AddGoalDifference(gd, m).Valid()
  {
    AddTwiceValid(gd, m.homeTeam, m.homeScore - m.awayScore, m.awayTeam, m.awayScore - m.homeScore);
  }

  /** A run of results keeps both tallies well formed. */
  lemma {:induction false} TallyValid(st: Standings, ms: seq<Match>)
    requires st.Valid()
    ensures Tally(st, ms).Valid()
  {
    if ms != [] {
      TallyValid(st, ms[..|ms| - 1]);
      ApplyResultValid(Tally(st, ms[..|ms| - 1]), ms[|ms| - 1]);
    }
  }

  // ---------------------------------------------------------------------------
  // A run of results

  /**
   * Over a run of results, the goal-difference sum is unchanged and the points
   * sum grows by 3 per match less 1 per draw.
   */
  lemma {:induction false} TallyTotals(st: Standings, ms: seq<Match>)
    requires st.Valid()
    ensures Total(Tally(st, ms).gd) == Total(st.gd)
    ensures Total(Tally(st, ms).points) == Total(st.points) + 3 * |ms| - Draws(ms)
  {
    if ms != [] {
      var init := ms[..|ms| - 1];
      TallyTotals(st, init);
      TallyValid(st, init);
      GoalDifferenceZeroSum(Tally(st, init).gd, ms[|ms| - 1]);
      AwardPointsTotal(Tally(st, init).points, ms[|ms| - 1]);
    }
  }

  /** The table after `i + 1` results is the table after `i` with result `i` applied. */
  lemma TallyStep(st: Standings, ms: seq<Match>, i: nat)
    requires i < |ms|
    ensures Tally(st, ms[..i + 1]) == ApplyResult(Tally(st, ms[..i]), ms[i])
  {
    assert ms[..i + 1][..i] == ms[..i];
  }

  /** Points never go down, and every table of results lies between 2 and 3 points per match. */
  lemma PointsBetween(st: Standings, ms: seq<Match>)
    requires st.Valid()
    ensures Total(st.points) + 2 * |ms| <= Total(Tally(st, ms).points) <= Total(st.points) + 3 * |ms|
  {
    TallyTotals(st, ms);
  }

  /** Every team that played has a goal-difference entry, and nobody else gains one. */
  lemma {:induction false} TallyGdTeams(st: Standings, ms: seq<Match>)
    ensures Tally(st, ms).gd.vals.Keys == st.gd.vals.Keys + TeamsOf(ms)
  {
    if ms != [] {
      TallyGdTeams(st, ms[..|ms| - 1]);
    }
  }

  /**
   * Exactly the teams that earned something gain a points entry: a team whose
   * every match was lost is missing from the points table although it is in
   * the goal-difference table.
   */
  lemma {:induction false} TallyPointsTeams(st: Standings, ms: seq<Match>)
    ensures Tally(st, ms).points.vals.Keys == st.points.vals.Keys + Earners(ms)
  {
    if ms != [] {
      TallyPointsTeams(st, ms[..|ms| - 1]);
    }
  }

  // ---------------------------------------------------------------------------
  // Past and future

  /** `df[df["matchday"] < START_MATCHDAY]`, in order. */
  function Past(ms: seq<Match>, start: int): seq<Match> {
    if ms == [] then []
    else
      var m := ms[|ms| - 1];
      Past(ms[..|ms| - 1], start) + (if m.matchday < start then [m] else [])
  }

  /** `df[df["matchday"] >= START_MATCHDAY]`, in order. */
  function Future(ms: seq<Match>, start: int): seq<Match> {
    if ms == [] then []
    else
      var m := ms[|ms| - 1];
      Future(ms[..|ms| - 1], start) + (if m.matchday >= start then [m] else [])
  }

  /** A match is in the past exactly when it is in the list and its matchday is before `start`. */
  lemma {:induction false} PastMembers(ms: seq<Match>, start: int)
    ensures forall m :: m in Past(ms, start) <==> m in ms && m.matchday < start
  {
    if ms != [] {
      PastMembers(ms[..|ms| - 1], start);
      assert ms == ms[..|ms| - 1] + [ms[|ms| - 1]];
    }
  }

  /** A match is in the future exactly when it is in the list and its matchday is `start` or later. */
  lemma {:induction false} FutureMembers(ms: seq<Match>, start: int)
    ensures forall m :: m in Future(ms, start) <==> m in ms && m.matchday >= start
  {
    if ms != [] {
      FutureMembers(ms[..|ms| - 1], start);
      assert ms == ms[..|ms| - 1] + [ms[|ms| - 1]];
    }
  }

  /** The split is a partition: every occurrence of a match lands on exactly one side. */
  lemma {:induction false} SplitPartitions(ms: seq<Match>, start: int)
    ensures multiset(Past(ms, start)) + multiset(Future(ms, start)) == multiset(ms)
  {
    if ms != [] {
      var init, m := ms[..|ms| - 1], ms[|ms| - 1];
      calc {
        multiset(Past(ms, start)) + multiset(Future(ms, start));
      == { SplitLast(ms, start); }
        multiset(Past(init, start)) + multiset(Future(init, start)) + multiset{m};
      == { SplitPartitions(init, start); }
        multiset(init) + multiset{m};
      == { assert ms == init + [m]; }
        multiset(ms);
      }
    }
  }

  /** The last match goes to exactly one of the two sides. */
  lemma SplitLast(ms: seq<Match>, start: int)
    requires ms != []
    ensures var init := ms[..|ms| - 1];
            multiset(Past(ms, start)) + multiset(Future(ms, start))
            == multiset(Past(init, start)) + multiset(Future(init, start)) + multiset{ms[|ms| - 1]}
  {
    var init, m := ms[..|ms| - 1], ms[|ms| - 1];
    if m.matchday < start {
      assert Past(ms, start) == Past(init, start) + [m];
      assert Future(ms, start) == Future(init, start);
    } else {
      assert Past(ms, start) == Past(init, start);
      assert Future(ms, start) == Future(init, start) + [m];
    }
  }

  /** Between them the two sides hold exactly as many matches as the season. */
  lemma SplitLengths(ms: seq<Match>, start: int)
    ensures |Past(ms, start)| + |Future(ms, start)| == |ms|
  {
    SplitPartitions(ms, start);
    assert |multiset(Past(ms, start)) + multiset(Future(ms, start))| == |multiset(ms)|;
  }

  /** No team is lost by the split: the teams of both sides together are the teams of the season. */
  lemma {:induction false} SplitKeepsTeams(ms: seq<Match>, start: int)
    ensures TeamsOf(Past(ms, start)) + TeamsOf(Future(ms, start)) == TeamsOf(ms)
  {
    if ms != [] {
      var init := ms[..|ms| - 1];
      var m := ms[|ms| - 1];
      SplitKeepsTeams(init, start);
      TeamsOfAppend(Past(init, start), if m.matchday < start then [m] else []);
      TeamsOfAppend(Future(init, start), if m.matchday >= start then [m] else []);
    }
  }

  lemma {:induction false} TeamsOfAppend(a: seq<Match>, b: seq<Match>)
    ensures TeamsOf(a + b) == TeamsOf(a) + TeamsOf(b)
  {
    if b == [] {
      assert a + b == a;
    } else {
      var bi := b[..|b| - 1];
      assert (a + b)[..|a + b| - 1] == a + bi;
      assert (a + b)[|a + b| - 1] == b[|b| - 1];
      TeamsOfAppend(a, bi);
    }
  }

  // ---------------------------------------------------------------------------
  // The loops

  /**
   * The baseline loop over the matches already played: the same 3/1/0 rule
   * (points first) and the same goal-difference rule, from an empty table.
   */
  method BuildBaseline(past: seq<Match>) returns (basePoints: Dict<Team, int>, baseGd: Dict<Team, int>)
    ensures Standings(basePoints, baseGd) == Tally(NoStandings(), past)
    ensures basePoints.Valid() && baseGd.Valid()
    ensures Total(baseGd) == 0
    ensures Total(basePoints) == 3 * |past| - Draws(past)
    ensures baseGd.vals.Keys == TeamsOf(past)
  {
    basePoints, baseGd := Empty(), Empty();
    for i := 0 to |past|
      invariant Standings(basePoints, baseGd) == Tally(NoStandings(), past[..i])
    {
      var ht, at := past[i].homeTeam, past[i].awayTeam;
      var hg, ag := past[i].homeScore, past[i].awayScore;
      ghost var before := Standings(basePoints, baseGd);

      if hg > ag {
        basePoints := Add(basePoints, ht, 3);
      } else if hg < ag {
        basePoints := Add(basePoints, at, 3);
      } else {
        basePoints := Add(basePoints, ht, 1);
        basePoints := Add(basePoints, at, 1);
      }
      AwardPointsOfScores(before.points, past[i].matchday, ht, at, hg, ag);

      baseGd := Add(baseGd, ht, hg - ag);
      baseGd := Add(baseGd, at, ag - hg);
      GoalDifferenceOfScores(before.gd, past[i].matchday, ht, at, hg, ag);
      TallyStep(NoStandings(), past, i);
    }
    assert past[..|past|] == past;
    TallyValid(NoStandings(), past);
    TallyTotals(NoStandings(), past);
    TallyGdTeams(NoStandings(), past);
  }

  /** A fixture still to be played: the two sides and the feature row computed for it. */
  datatype Fixture = Fixture(homeTeam: Team, awayTeam: Team, features: Features)

  /**
   * The simulated result of fixture `j` in trial `trial`: `predict` gives the
   * two scoring rates from the fixture's features, `draw` the two raw goal
   * counts drawn at those rates, and `SampleScore` caps them.
   */
  function Scoreline(f: Fixture, trial: nat, j: nat, predict: Features -> (real, real),
                     draw: (nat, nat, real, real) -> (nat, nat), maxGoals: int): (m: Match)
    ensures m.homeTeam == f.homeTeam && m.awayTeam == f.awayTeam
    ensures 0 <= maxGoals ==> 0 <= m.homeScore <= maxGoals && 0 <= m.awayScore <= maxGoals
  {
    var rates := predict(f.features);
    var raw := draw(trial, j, rates.0, rates.1);
    var goals := SampleScore(raw.0, raw.1, maxGoals);
    Match(f.features.matchday, f.homeTeam, f.awayTeam, goals.0, goals.1)
  }

  /** The simulated results of every fixture of one trial, in fixture order. */
  function Scorelines(fs: seq<Fixture>, trial: nat, predict: Features -> (real, real),
                      draw: (nat, nat, real, real) -> (nat, nat), maxGoals: int): (ms: seq<Match>)
    ensures |ms| == |fs|
  {
    if fs == [] then []
    else Scorelines(fs[..|fs| - 1], trial, predict, draw, maxGoals)
           + [Scoreline(fs[|fs| - 1], trial, |fs| - 1, predict, draw, maxGoals)]
  }

  /** Every team with a fixture still to play. */
  function FixtureTeams(fs: seq<Fixture>): set<Team> {
    if fs == [] then {} else FixtureTeams(fs[..|fs| - 1]) + {fs[|fs| - 1].homeTeam, fs[|fs| - 1].awayTeam}
  }

  /** Simulating never changes who plays: the teams of the results are the teams of the fixtures. */
  lemma {:induction false} ScorelinesTeams(fs: seq<Fixture>, trial: nat, predict: Features -> (real, real),
                                           draw: (nat, nat, real, real) -> (nat, nat), maxGoals: int)
    ensures TeamsOf(Scorelines(fs, trial, predict, draw, maxGoals)) == FixtureTeams(fs)
  {
    if fs != [] {
      ScorelinesTeams(fs[..|fs| - 1], trial, predict, draw, maxGoals);
    }
  }

  /**
   * `simulate_season`: starts from copies of the baseline tables and applies
   * each fixture's simulated result in order. The baseline values themselves
   * are never written.
   */
  method SimulateSeason(fixtures: seq<Fixture>, trial: nat, predict: Features -> (real, real),
                        draw: (nat, nat, real, real) -> (nat, nat), maxGoals: int,
                        basePoints: Dict<Team, int>, baseGd: Dict<Team, int>)
    returns (points: Dict<Team, int>, gd: Dict<Team, int>)
    requires basePoints.Valid() && baseGd.Valid()
    ensures Standings(points, gd)
            == Tally(Standings(basePoints, baseGd), Scorelines(fixtures, trial, predict, draw, maxGoals))
    ensures points.Valid() && gd.Valid()
    ensures Total(gd) == Total(baseGd)
    ensures Total(basePoints) + 2 * |fixtures| <= Total(points) <= Total(basePoints) + 3 * |fixtures|
    ensures gd.vals.Keys == baseGd.vals.Keys + FixtureTeams(fixtures)
  {
    ghost var results := Scorelines(fixtures, trial, predict, draw, maxGoals);
    points, gd := basePoints, baseGd;
    for j := 0 to |fixtures|
      invariant Standings(points, gd) == Tally(Standings(basePoints, baseGd), results[..j])
    {
      var f := fixtures[j];
      var rates := predict(f.features);
      var raw := draw(trial, j, rates.0, rates.1);
      var goals := SampleScore(raw.0, raw.1, maxGoals);
      var hg, ag := goals.0, goals.1;
      var ht, at := f.homeTeam, f.awayTeam;
      ghost var before := Standings(points, gd);
      ghost var m := Match(f.features.matchday, ht, at, hg, ag);

      gd := Add(gd, ht, hg - ag);
      gd := Add(gd, at, ag - hg);
      GoalDifferenceOfScores(before.gd, f.features.matchday, ht, at, hg, ag);

      if hg > ag {
        points := Add(points, ht, 3);
      } else if hg < ag {
        points := Add(points, at, 3);
      } else {
        points := Add(points, ht, 1);
        points := Add(points, at, 1);
      }
      AwardPointsOfScores(before.points, f.features.matchday, ht, at, hg, ag);
      SeasonStep(fixtures, trial, predict, draw, maxGoals, basePoints, baseGd, results, j, before, m);
    }
    assert results[..|fixtures|] == results;
    TallyValid(Standings(basePoints, baseGd), results);
    TallyTotals(Standings(basePoints, baseGd), results);
    TallyGdTeams(Standings(basePoints, baseGd), results);
    ScorelinesTeams(fixtures, trial, predict, draw, maxGoals);
  }

  lemma SeasonStep(fixtures: seq<Fixture>, trial: nat, predict: Features -> (real, real),
                   draw: (nat, nat, real, real) -> (nat, nat), maxGoals: int,
                   basePoints: Dict<Team, int>, baseGd: Dict<Team, int>, results: seq<Match>, j: nat,
                   before: Standings, m: Match)
    requires results == Scorelines(fixtures, trial, predict, draw, maxGoals)
    requires j < |fixtures|
    requires before == Tally(Standings(basePoints, baseGd), results[..j])
    requires m == Scoreline(fixtures[j], trial, j, predict, draw, maxGoals)
    ensures ApplyResult(before, m) == Tally(Standings(basePoints, baseGd), results[..j + 1])
  {
    ScorelineAt(fixtures, trial, predict, draw, maxGoals, j);
    TallyStep(Standings(basePoints, baseGd), results, j);
  }

  lemma GoalDifferenceOfScores(gd: Dict<Team, int>, day: int, ht: Team, at: Team, hg: int, ag: int)
    ensures AddGoalDifference(gd, Match(day, ht, at, hg, ag)) == Add(Add(gd, ht, hg - ag), at, ag - hg)
  {
  }

  lemma AwardPointsOfScores(points: Dict<Team, int>, day: int, ht: Team, at: Team, hg: int, ag: int)
    ensures AwardPoints(points, Match(day, ht, at, hg, ag))
            == if hg > ag then Add(points, ht, 3)
               else if hg < ag then Add(points, at, 3)
               else Add(Add(points, ht, 1), at, 1)
  {
  }

  /** Result `j` of a trial is fixture `j` scored with that trial's draws for it. */
  lemma {:induction false} ScorelineAt(fs: seq<Fixture>, trial: nat, predict: Features -> (real, real),
                                       draw: (nat, nat, real, real) -> (nat, nat), maxGoals: int, j: nat)
    requires j < |fs|
    ensures Scorelines(fs, trial, predict, draw, maxGoals)[j] == Scoreline(fs[j], trial, j, predict, draw, maxGoals)
  {
    var init := fs[..|fs| - 1];
    var ms := Scorelines(fs, trial, predict, draw, maxGoals);
    assert ms == Scorelines(init, trial, predict, draw, maxGoals)
                 + [Scoreline(fs[|fs| - 1], trial, |fs| - 1, predict, draw, maxGoals)];
    if j < |fs| - 1 {
      ScorelineAt(init, trial, predict, draw, maxGoals, j);
    }
  }
}
