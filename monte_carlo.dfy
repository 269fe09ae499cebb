/**
 * Many simulated seasons: every trial ranks the teams, each team's finishing
 * position is counted, and at the end each team's counts become percentages
 * of the trials it was ranked in.
 */
module MonteCarlo {
  import opened Dicts
  import opened FeatureEngineering
  import opened Season
  import opened Ranking
  import opened Outcome

  /** The positions reported for every team: 1 to 20. */
  const Positions: nat := 20

  /** `rank_counts`: for every team, a counter from finishing position to number of trials. */
  type Histogram = map<Team, Dict<int, int>>

  // ---------------------------------------------------------------------------
  // Counting one trial

  /** The histogram after the team at index `i` of `teams` is counted at position `i + 1`. */
  function RecordTable(h: Histogram, teams: seq<Team>): (r: Histogram)
    requires forall t :: t in teams ==> t in h
    ensures r.Keys == h.Keys
  {
    if teams == [] then h
    else
      var n := |teams| - 1;
      var before := RecordTable(h, teams[..n]);
      before[teams[n] := Add(before[teams[n]], n + 1, 1)]
  }

  /** Recording a table adds one finish at position `p` to the team ranked `p`-th, and to no other team. */
  lemma {:induction false} RecordTableAt(h: Histogram, teams: seq<Team>, t: Team, p: int)
    requires forall u :: u in teams ==> u in h
    requires t in h
    ensures RecordTable(h, teams)[t].Get(p, 0)
            == h[t].Get(p, 0) + (if 1 <= p <= |teams| && teams[p - 1] == t then 1 else 0)
  {
    if teams != [] {
      var n := |teams| - 1;
      RecordTableAt(h, teams[..n], t, p);
      if 1 <= p <= n {
        assert teams[..n][p - 1] == teams[p - 1];
      }
    }
  }

  /** Counts one trial: the team ranked at index `i` gains one finish at position `i + 1`. */
  method RecordTrial(h: Histogram, teams: seq<Team>) returns (r: Histogram)
    requires forall t :: t in teams ==> t in h
    ensures r == RecordTable(h, teams)
  {
    r := h;
    for i := 0 to |teams|
      invariant r == RecordTable(h, teams[..i])
    {
      assert teams[..i + 1][..i] == teams[..i];
      r := r[teams[i] := Add(r[teams[i]], i + 1, 1)];
    }
    assert teams[..|teams|] == teams;
  }

  /** How many times `t` occurs in `teams`. */
  function Occurrences(teams: seq<Team>, t: Team): (n: nat)
    ensures n <= |teams|
  {
    if teams == [] then 0
    else Occurrences(teams[..|teams| - 1], t) + (if teams[|teams| - 1] == t then 1 else 0)
  }

  /** `sum(counts.values())` over the reported positions only. */
  function PositionSum(c: Dict<int, int>, n: nat): int {
    if n == 0 then 0 else PositionSum(c, n - 1) + c.Get(n, 0)
  }

  /** Counting at position `p` adds one to the positions sum exactly when `p` is reported. */
  lemma {:induction false} PositionSumAdd(c: Dict<int, int>, p: int, n: nat)
    ensures PositionSum(Add(c, p, 1), n) == PositionSum(c, n) + (if 1 <= p <= n then 1 else 0)
  {
    if n > 0 {
      PositionSumAdd(c, p, n - 1);
    }
  }

  /** The counts a histogram holds are well formed and never negative. */
  ghost predicate Counts(c: Dict<int, int>) {
    c.Valid() && forall p :: p in c.vals ==> c.vals[p] >= 0
  }

  /**
   * Counting one trial adds to each team's counter exactly as many trials as
   * the team occurs in the table, and keeps the counter well formed.
   */
  lemma {:induction false} RecordCounts(h: Histogram, teams: seq<Team>, t: Team)
    requires forall s :: s in teams ==> s in h
    requires t in h && Counts(h[t])
    ensures Counts(RecordTable(h, teams)[t])
    ensures Total(RecordTable(h, teams)[t]) == Total(h[t]) + Occurrences(teams, t)
  {
    if teams != [] {
      var n := |teams| - 1;
      RecordCounts(h, teams[..n], t);
      RecordStep(h, teams, t);
      if teams[n] == t {
        CountOne(RecordTable(h, teams[..n])[t], n + 1);
      }
    }
  }

  /** When the table has at most 20 rows, every count a trial adds lands in a reported position. */
  lemma {:induction false} RecordPositions(h: Histogram, teams: seq<Team>, t: Team)
    requires forall s :: s in teams ==> s in h
    requires t in h && |teams| <= Positions
    ensures PositionSum(RecordTable(h, teams)[t], Positions) == PositionSum(h[t], Positions) + Occurrences(teams, t)
  {
    if teams != [] {
      var n := |teams| - 1;
      RecordPositions(h, teams[..n], t);
      RecordStep(h, teams, t);
      if teams[n] == t {
        PositionSumAdd(RecordTable(h, teams[..n])[t], n + 1, Positions);
      }
    }
  }

  /** The last team of a table is counted at the table's last position; nobody else moves. */
  lemma RecordStep(h: Histogram, teams: seq<Team>, t: Team)
    requires forall s :: s in teams ==> s in h
    requires t in h && teams != []
    ensures var n := |teams| - 1;
            var c := RecordTable(h, teams[..n])[t];
            && RecordTable(h, teams)[t] == (if teams[n] == t then Add(c, n + 1, 1) else c)
            && Occurrences(teams, t) == Occurrences(teams[..n], t) + (if teams[n] == t then 1 else 0)
  {
  }

  /** Counting one more trial at position `p` keeps a counter well formed and adds one to its total. */
  lemma CountOne(c: Dict<int, int>, p: int)
    requires Counts(c)
    ensures Counts(Add(c, p, 1))
    ensures Total(Add(c, p, 1)) == Total(c) + 1
  {
    AddValid(c, p, 1);
    AddEntries(c, p, 1);
    TotalAdd(c, p, 1);
  }

  // ---------------------------------------------------------------------------
  // From counts to percentages

  /** A counter as percentages of `total`, one entry per position 1 to `n` (unrounded). */
  function PercentRow(c: Dict<int, int>, total: int, n: nat): (row: seq<real>)
    requires total != 0
    ensures |row| == n
  {
    if n == 0 then [] else PercentRow(c, total, n - 1) + [100.0 * (c.Get(n, 0) as real) / (total as real)]
  }

  function SumReals(s: seq<real>): real {
    if s == [] then 0.0 else SumReals(s[..|s| - 1]) + s[|s| - 1]
  }

  /** Each entry of a row is its position's share of the team's trials, in percent. */
  lemma {:induction false} PercentRowAt(c: Dict<int, int>, total: int, n: nat, p: nat)
    requires total != 0
    requires 1 <= p <= n
    ensures PercentRow(c, total, n)[p - 1] == 100.0 * (c.Get(p, 0) as real) / (total as real)
  {
    if p < n {
      PercentRowAt(c, total, n - 1, p);
    }
  }

  /** The entries of a row add up to the share of the team's trials spent in the reported positions. */
  lemma {:induction false} PercentRowSum(c: Dict<int, int>, total: int, n: nat)
    requires total != 0
    ensures SumReals(PercentRow(c, total, n)) == 100.0 * (PositionSum(c, n) as real) / (total as real)
  {
    if n > 0 {
      var row := PercentRow(c, total, n);
      assert row[..n - 1] == PercentRow(c, total, n - 1);
      PercentRowSum(c, total, n - 1);
      ShareAdd(PositionSum(c, n - 1), c.Get(n, 0), total);
    }
  }

  lemma ShareAdd(a: int, b: int, total: int)
    requires total != 0
    ensures 100.0 * (a as real) / (total as real) + 100.0 * (b as real) / (total as real)
            == 100.0 * ((a + b) as real) / (total as real)
  {
  }

  /** With no negative count, every entry of a team's row lies between 0 and 100. */
  lemma PercentBounds(c: Dict<int, int>, p: nat)
    requires Counts(c) && Total(c) > 0
    requires 1 <= p <= Positions
    ensures 0.0 <= PercentRow(c, Total(c), Positions)[p - 1] <= 100.0
  {
    PercentRowAt(c, Total(c), Positions, p);
    if p in c.vals {
      assert forall j :: j in c.keys ==> j in c.vals && c.vals[j] >= 0;
      EntryAtMostTotal(c.keys, c.vals, p);
    }
    ShareBounds(c.Get(p, 0), Total(c));
  }

  lemma ShareBounds(k: int, total: int)
    requires 0 <= k <= total && total > 0
    ensures 0.0 <= 100.0 * (k as real) / (total as real) <= 100.0
  {
    assert (k as real) / (total as real) <= 1.0;
  }

  /** A row whose trials all fell in the reported positions adds up to exactly 100. */
  lemma PercentRowComplete(c: Dict<int, int>)
    requires Total(c) != 0
    requires PositionSum(c, Positions) == Total(c)
    ensures SumReals(PercentRow(c, Total(c), Positions)) == 100.0
  {
    PercentRowSum(c, Total(c), Positions);
    var t := Total(c) as real;
    assert 100.0 * t / t == 100.0;
  }

  /**
   * One team's row: its total first, then one percentage per reported
   * position. A team never ranked has a total of 0 and the division raises.
   */
  method NormaliseRow(c: Dict<int, int>) returns (r: Result<seq<real>>)
    ensures Total(c) == 0 <==> r.Err?
    ensures r.Ok? ==> r.value == PercentRow(c, Total(c), Positions)
  {
    var total := Total(c);
    if total == 0 {
      return Err("division by zero");
    }
    var row := [];
    for pos := 1 to Positions + 1
      invariant row == PercentRow(c, total, pos - 1)
    {
      row := row + [100.0 * (c.Get(pos, 0) as real) / (total as real)];
    }
    return Ok(row);
  }

  /** Every team's row, or the division error of the first team never ranked. */
  method Normalise(h: Histogram) returns (r: Result<map<Team, seq<real>>>)
    ensures r.Ok? <==> forall t :: t in h ==> Total(h[t]) != 0
    ensures r.Ok? ==> r.value.Keys == h.Keys
    ensures r.Ok? ==> forall t :: t in h ==> r.value[t] == PercentRow(h[t], Total(h[t]), Positions)
  {
    var rows: map<Team, seq<real>> := map[];
    var remaining := h.Keys;
    while remaining != {}
      invariant remaining <= h.Keys
      invariant rows.Keys == h.Keys - remaining
      invariant forall t :: t in rows ==> Total(h[t]) != 0 && rows[t] == PercentRow(h[t], Total(h[t]), Positions)
      decreases remaining
    {
      var t :| t in remaining;
      var row := NormaliseRow(h[t]);
      if row.Err? {
        return Err(row.reason);
      }
      rows := rows[t := row.value];
      remaining := remaining - {t};
    }
    return Ok(rows);
  }

  // ---------------------------------------------------------------------------
  // The trials

  /**
   * What a run depends on besides the match list: the first matchday still to
   * be played, the rolling-average window, the goal cap, and the three outside
   * computations (the Elo expectation, the fitted scoring-rate models and the
   * Poisson draws of trial `trial`, fixture `j`).
   */
  datatype Engine = Engine(start: int, window: nat, maxGoals: int,
                           expectedScore: real -> real,
                           predict: Features -> (real, real),
                           draw: (nat, nat, real, real) -> (nat, nat))

  /** Every remaining match paired with its own feature row, by position. */
  function Fixtures(future: seq<Match>, x: seq<Features>): (fs: seq<Fixture>)
    requires |x| == |future|
    ensures |fs| == |future|
  {
    if future == [] then []
    else
      var n := |future| - 1;
      Fixtures(future[..n], x[..n]) + [Fixture(future[n].homeTeam, future[n].awayTeam, x[n])]
  }

  /** The fixtures still to be played are exactly the remaining matches' pairings. */
  lemma {:induction false} FixturesTeams(future: seq<Match>, x: seq<Features>)
    requires |x| == |future|
    ensures FixtureTeams(Fixtures(future, x)) == TeamsOf(future)
  {
    if future != [] {
      var n := |future| - 1;
      FixturesTeams(future[..n], x[..n]);
    }
  }

  /** Fixture `j` carries the `j`-th feature row, the one computed for its own match. */
  lemma {:induction false} FixturesAt(future: seq<Match>, x: seq<Features>, j: nat)
    requires |x| == |future| && j < |future|
    ensures Fixtures(future, x)[j] == Fixture(future[j].homeTeam, future[j].awayTeam, x[j])
  {
    var n := |future| - 1;
    if j < n {
      FixturesAt(future[..n], x[..n], j);
    }
  }

  // ---------------------------------------------------------------------------
  // The feature columns as written: assigned by row label

  /**
   * The row labels the remaining matches keep from the full match list: their
   * positions in it. The feature rows computed for them are labelled 0, 1, ...
   */
  function FutureLabels(ms: seq<Match>, start: int): (ls: seq<nat>)
    ensures |ls| == |Future(ms, start)|
  {
    if ms == [] then []
    else
      var n := |ms| - 1;
      FutureLabels(ms[..n], start) + (if ms[n].matchday >= start then [n] else [])
  }

  /** The j-th label is the position, in the full match list, of the j-th remaining match. */
  lemma {:induction false} FutureLabelsAt(ms: seq<Match>, start: int)
    ensures var ls := FutureLabels(ms, start);
            forall j :: 0 <= j < |ls| ==> ls[j] < |ms| && ms[ls[j]] == Future(ms, start)[j]
  {
    if ms != [] {
      var n := |ms| - 1;
      FutureLabelsAt(ms[..n], start);
      var ls0 := FutureLabels(ms[..n], start);
      var ls := FutureLabels(ms, start);
      var tail := if ms[n].matchday >= start then [ms[n]] else [];
      assert ls == ls0 + (if ms[n].matchday >= start then [n] else []);
      assert Future(ms, start) == Future(ms[..n], start) + tail;
      forall j | 0 <= j < |ls|
        ensures ls[j] < |ms| && ms[ls[j]] == Future(ms, start)[j]
      {
        if j < |ls0| {
          assert ms[..n][ls0[j]] == ms[ls0[j]];
        }
      }
    }
  }

  /** A feature row whose every column was missing and then filled with 0. */
  const Blank := Features(0, 0.0, 0.0, 0.0, 0.0, 0.0, 0.0, 0.0, 0.0)

  /** The feature row that label `l` receives: the row labelled `l`, or a blank one if there is none. */
  function RowAtLabel(x: seq<Features>, l: nat): Features {
    if l < |x| then x[l] else Blank
  }

  /** The remaining matches with the feature rows matched to them by label. */
  function FixturesByLabel(future: seq<Match>, labels: seq<nat>, x: seq<Features>): (fs: seq<Fixture>)
    requires |labels| == |future|
    ensures |fs| == |future|
  {
    if future == [] then []
    else
      var n := |future| - 1;
      FixturesByLabel(future[..n], labels[..n], x) + [Fixture(future[n].homeTeam, future[n].awayTeam, RowAtLabel(x, labels[n]))]
  }

  lemma {:induction false} FixturesByLabelAt(future: seq<Match>, labels: seq<nat>, x: seq<Features>, j: nat)
    requires |labels| == |future| && j < |future|
    ensures FixturesByLabel(future, labels, x)[j] == Fixture(future[j].homeTeam, future[j].awayTeam, RowAtLabel(x, labels[j]))
  {
    var n := |future| - 1;
    if j < n {
      FixturesByLabelAt(future[..n], labels[..n], x, j);
    }
  }

  /** The remaining fixtures as the code builds them, with features matched by label. */
  function RemainingAsWritten(matches: seq<Match>, e: Engine): seq<Fixture> {
    var future := Future(matches, e.start);
    FixturesByLabel(future, FutureLabels(matches, e.start), FeatureRows(future, e.window, e.expectedScore))
  }

  /** With no match before the start, every match keeps its own position as label and nothing moves. */
  lemma {:induction false} LabelsWhenNothingPlayed(ms: seq<Match>, start: int)
    requires Past(ms, start) == []
    ensures Future(ms, start) == ms
    ensures forall j :: 0 <= j < |ms| ==> FutureLabels(ms, start)[j] == j
  {
    if ms != [] {
      var n := |ms| - 1;
      assert Past(ms[..n], start) == [] && ms[n].matchday >= start;
      LabelsWhenNothingPlayed(ms[..n], start);
      var labels := FutureLabels(ms, start);
      assert labels == FutureLabels(ms[..n], start) + [n];
      forall j | 0 <= j < |ms|
        ensures labels[j] == j
      {
        if j < n {
          assert labels[j] == FutureLabels(ms[..n], start)[j];
        }
      }
      assert Future(ms, start) == ms[..n] + [ms[n]];
      assert ms == ms[..n] + [ms[n]];
    }
  }

  /** Matching by label gives the intended pairing exactly when no match was played before the start. */
  lemma AlignedWhenNothingPlayed(matches: seq<Match>, e: Engine)
    requires Past(matches, e.start) == []
    ensures RemainingAsWritten(matches, e) == Remaining(matches, e)
  {
    var future := Future(matches, e.start);
    var x := FeatureRows(future, e.window, e.expectedScore);
    LabelsWhenNothingPlayed(matches, e.start);
    forall j | 0 <= j < |future|
      ensures RemainingAsWritten(matches, e)[j] == Remaining(matches, e)[j]
    {
      FixturesByLabelAt(future, FutureLabels(matches, e.start), x, j);
      FixturesAt(future, x, j);
    }
  }

  /**
   * One match played on matchday 1 and one left on matchday 2: the remaining
   * match has label 1, the only feature row has label 0, so the fixture is
   * simulated with a blank row (rating 0, matchday 0) instead of its own
   * (both ratings at the base 1000, matchday 2).
   */
  lemma MisalignedFeatures(a: Team, b: Team, e: Engine)
    requires e.start == 2
    ensures var ms := [Match(1, a, b, 0, 0), Match(2, a, b, 0, 0)];
            && RemainingAsWritten(ms, e) == [Fixture(a, b, Blank)]
            && |Remaining(ms, e)| == 1
            && Remaining(ms, e)[0].features.matchday == 2
            && Remaining(ms, e)[0].features.homeElo == BaseElo
            && Remaining(ms, e)[0].features.awayElo == BaseElo
  {
    var m1, m2 := Match(1, a, b, 0, 0), Match(2, a, b, 0, 0);
    var ms := [m1, m2];
    SplitOfTwo(m1, m2, 2);
    var x := FeatureRows([m2], e.window, e.expectedScore);
    assert RemainingAsWritten(ms, e) == FixturesByLabel([m2], [1], x);
    assert Remaining(ms, e) == Fixtures([m2], x);
    OneFixtureByLabel(m2, 1, x);
    FeatureRowsAt([m2], 0, e.window, e.expectedScore);
    assert [m2][..0] == [];
    ColdStart([m2], 0, e.window, e.expectedScore);
    FixturesAt([m2], x, 0);
  }

  /** A match before the start followed by one from the start on: only the second remains, with label 1. */
  lemma SplitOfTwo(m1: Match, m2: Match, start: int)
    requires m1.matchday < start <= m2.matchday
    ensures Future([m1, m2], start) == [m2]
    ensures FutureLabels([m1, m2], start) == [1]
  {
    assert [m1, m2][..1] == [m1];
    assert [m1][..0] == [];
    assert Future([m1], start) == [];
    assert FutureLabels([m1], start) == [];
  }

  /** A single match whose label has no feature row gets a blank one. */
  lemma OneFixtureByLabel(m: Match, l: nat, x: seq<Features>)
    requires |x| <= l
    ensures FixturesByLabel([m], [l], x) == [Fixture(m.homeTeam, m.awayTeam, Blank)]
  {
    assert [m][..0] == [];
  }

  /** A team of the last remaining match is a team of the league. */
  lemma FutureTeamInLeague(matches: seq<Match>, start: int)
    requires Future(matches, start) != []
    ensures var future := Future(matches, start);
            future[|future| - 1].homeTeam in TeamsOf(matches)
  {
    SplitKeepsTeams(matches, start);
  }

  /** The remaining fixtures, each with the features computed over the remaining matches. */
  function Remaining(matches: seq<Match>, e: Engine): seq<Fixture> {
    var future := Future(matches, e.start);
    Fixtures(future, FeatureRows(future, e.window, e.expectedScore))
  }

  /** The standings after the matches already played. */
  function Baseline(matches: seq<Match>, e: Engine): Standings {
    Tally(NoStandings(), Past(matches, e.start))
  }

  /** The final standings of trial `trial`. */
  function TrialStandings(matches: seq<Match>, e: Engine, trial: nat): Standings {
    Tally(Baseline(matches, e), Scorelines(Remaining(matches, e), trial, e.predict, e.draw, e.maxGoals))
  }

  /** The ranked team column of trial `trial`, top first. */
  function TrialTable(matches: seq<Match>, e: Engine, trial: nat): seq<Team> {
    var st := TrialStandings(matches, e, trial);
    Teams(Rank(TableByKey(st.points, st.gd)))
  }

  /** The standings after the played matches are well formed and cover exactly their teams. */
  lemma BaselineTeams(matches: seq<Match>, e: Engine)
    ensures Baseline(matches, e).Valid()
    ensures Baseline(matches, e).gd.vals.Keys == TeamsOf(Past(matches, e.start))
    ensures Baseline(matches, e).points.vals.Keys <= TeamsOf(Past(matches, e.start))
  {
    var past := Past(matches, e.start);
    TallyValid(NoStandings(), past);
    TallyGdTeams(NoStandings(), past);
    TallyPointsTeams(NoStandings(), past);
  }

  /** The simulated results of a trial involve exactly the teams of the remaining matches. */
  lemma RemainingTeams(matches: seq<Match>, e: Engine, trial: nat)
    ensures TeamsOf(Scorelines(Remaining(matches, e), trial, e.predict, e.draw, e.maxGoals))
            == TeamsOf(Future(matches, e.start))
  {
    var future := Future(matches, e.start);
    ScorelinesTeams(Remaining(matches, e), trial, e.predict, e.draw, e.maxGoals);
    FixturesTeams(future, FeatureRows(future, e.window, e.expectedScore));
  }

  /**
   * Every team of the league has a goal difference at the end of every trial,
   * only teams of the league have points, and both tables are well formed.
   */
  lemma TrialStandingsTeams(matches: seq<Match>, e: Engine, trial: nat)
    ensures TrialStandings(matches, e, trial).Valid()
    ensures TrialStandings(matches, e, trial).gd.vals.Keys == TeamsOf(matches)
    ensures TrialStandings(matches, e, trial).points.vals.Keys <= TeamsOf(matches)
  {
    var results := Scorelines(Remaining(matches, e), trial, e.predict, e.draw, e.maxGoals);
    var base := Baseline(matches, e);
    BaselineTeams(matches, e);
    RemainingTeams(matches, e, trial);
    TallyValid(base, results);
    TallyGdTeams(base, results);
    TallyPointsTeams(base, results);
    SplitKeepsTeams(matches, e.start);
  }

  /** Every team of the league is ranked exactly once in every trial, and no other team is ranked. */
  lemma TrialTableTeams(matches: seq<Match>, e: Engine, trial: nat, t: Team)
    ensures multiset(TrialTable(matches, e, trial))[t] == if t in TeamsOf(matches) then 1 else 0
  {
    var st := TrialStandings(matches, e, trial);
    TrialStandingsTeams(matches, e, trial);
    RankTeams(TableByKey(st.points, st.gd), t);
    TableByKeyTeams(st.points, st.gd);
    TableTeamsOnce(st.points, st.gd, t);
  }

  lemma TrialTableWithin(matches: seq<Match>, e: Engine, trial: nat)
    ensures forall t :: t in TrialTable(matches, e, trial) ==> t in TeamsOf(matches)
  {
    forall t | t in TrialTable(matches, e, trial)
      ensures t in TeamsOf(matches)
    {
      TrialTableTeams(matches, e, trial, t);
    }
  }

  /** Every trial's table has one row per team of the league. */
  lemma TrialTableLength(matches: seq<Match>, e: Engine, trial: nat)
    ensures |TrialTable(matches, e, trial)| == |TeamsOf(matches)|
  {
    var table := TrialTable(matches, e, trial);
    forall t
      ensures multiset(table)[t] == if t in TeamsOf(matches) then 1 else 0
    {
      TrialTableTeams(matches, e, trial, t);
    }
    ListsOnce(table, TeamsOf(matches));
  }

  /** A sequence listing each member of a set exactly once, and nothing else, is as long as the set is large. */
  lemma {:induction false} ListsOnce(ts: seq<Team>, league: set<Team>)
    requires forall t :: multiset(ts)[t] == if t in league then 1 else 0
    ensures |ts| == |league|
  {
    if ts == [] {
      forall t
        ensures t !in league
      {
        assert multiset(ts)[t] == 0;
      }
      assert league == {};
    } else {
      var n := |ts| - 1;
      var x := ts[n];
      assert ts == ts[..n] + [x];
      assert x in league by {
        assert multiset(ts)[x] > 0;
      }
      forall t
        ensures multiset(ts[..n])[t] == if t in league - {x} then 1 else 0
      {
        assert multiset(ts)[t] == multiset(ts[..n])[t] + (if t == x then 1 else 0);
      }
      ListsOnce(ts[..n], league - {x});
    }
  }

  lemma TrialTableOf(matches: seq<Match>, e: Engine, trial: nat, pts: Dict<Team, int>, gds: Dict<Team, int>)
    requires Standings(pts, gds) == TrialStandings(matches, e, trial)
    ensures Teams(Rank(TableByKey(pts, gds))) == TrialTable(matches, e, trial)
  {
  }

  /** Every trial's table, by trial number. */
  function Trials(matches: seq<Match>, e: Engine): nat -> seq<Team> {
    (trial: nat) => TrialTable(matches, e, trial)
  }

  /** The tables of trials `0` to `n - 1`, in trial order. */
  function Tables(table: nat -> seq<Team>, n: nat): (ts: seq<seq<Team>>)
    ensures |ts| == n
  {
    if n == 0 then [] else Tables(table, n - 1) + [table(n - 1)]
  }

  lemma {:induction false} TablesAt(table: nat -> seq<Team>, n: nat, i: nat)
    requires i < n
    ensures Tables(table, n)[i] == table(i)
  {
    if i < n - 1 {
      TablesAt(table, n - 1, i);
    }
  }

  /** Every table of `tables` lists each team of `league` exactly once and no other team. */
  ghost predicate EachOnce(tables: seq<seq<Team>>, league: set<Team>) {
    forall i, t :: 0 <= i < |tables| ==> multiset(tables[i])[t] == if t in league then 1 else 0
  }

  /** The histogram `h` after every table of `tables` is counted, first table first. */
  function Count(h: Histogram, tables: seq<seq<Team>>): (r: Histogram)
    requires forall i, t :: 0 <= i < |tables| && t in tables[i] ==> t in h
    ensures r.Keys == h.Keys
  {
    if tables == [] then h
    else
      var n := |tables| - 1;
      RecordTable(Count(h, tables[..n]), tables[n])
  }

  /** Each team's counter counts one trial per table that ranks the team once. */
  lemma {:induction false} CountTotals(h: Histogram, tables: seq<seq<Team>>, t: Team)
    requires EachOnce(tables, h.Keys)
    requires t in h && Counts(h[t])
    ensures forall i, s :: 0 <= i < |tables| && s in tables[i] ==> s in h
    ensures Counts(Count(h, tables)[t])
    ensures Total(Count(h, tables)[t]) == Total(h[t]) + |tables|
  {
    EachOnceWithin(tables, h.Keys);
    if tables != [] {
      var n := |tables| - 1;
      CountTotals(h, tables[..n], t);
      RecordCounts(Count(h, tables[..n]), tables[n], t);
      OccurrencesCount(tables[n], t);
    }
  }

  /** When no table has more than 20 rows, every count lands in a reported position. */
  lemma {:induction false} CountPositions(h: Histogram, tables: seq<seq<Team>>, t: Team)
    requires EachOnce(tables, h.Keys)
    requires forall i :: 0 <= i < |tables| ==> |tables[i]| <= Positions
    requires t in h
    ensures forall i, s :: 0 <= i < |tables| && s in tables[i] ==> s in h
    ensures PositionSum(Count(h, tables)[t], Positions) == PositionSum(h[t], Positions) + |tables|
  {
    EachOnceWithin(tables, h.Keys);
    if tables != [] {
      var n := |tables| - 1;
      CountPositions(h, tables[..n], t);
      RecordPositions(Count(h, tables[..n]), tables[n], t);
      OccurrencesCount(tables[n], t);
    }
  }

  lemma EachOnceWithin(tables: seq<seq<Team>>, league: set<Team>)
    requires EachOnce(tables, league)
    ensures forall i, t :: 0 <= i < |tables| && t in tables[i] ==> t in league
  {
    forall i, t | 0 <= i < |tables| && t in tables[i]
      ensures t in league
    {
      assert multiset(tables[i])[t] > 0;
    }
  }

  /** Every trial ranks each team of the league exactly once, in a table with one row per team. */
  lemma TablesOnce(matches: seq<Match>, e: Engine, n: nat)
    ensures EachOnce(Tables(Trials(matches, e), n), TeamsOf(matches))
    ensures forall i :: 0 <= i < n ==> |Tables(Trials(matches, e), n)[i]| == |TeamsOf(matches)|
  {
    var tables := Tables(Trials(matches, e), n);
    forall i, t | 0 <= i < n
      ensures multiset(tables[i])[t] == if t in TeamsOf(matches) then 1 else 0
    {
      TablesAt(Trials(matches, e), n, i);
      TrialTableTeams(matches, e, i, t);
    }
    forall i | 0 <= i < n
      ensures |tables[i]| == |TeamsOf(matches)|
    {
      TablesAt(Trials(matches, e), n, i);
      TrialTableLength(matches, e, i);
    }
  }

  /** One empty counter per team of the league. */
  function Start(matches: seq<Match>): (h: Histogram)
    ensures h.Keys == TeamsOf(matches)
    ensures forall t :: t in h ==> Counts(h[t]) && Total(h[t]) == 0 && PositionSum(h[t], Positions) == 0
  {
    PositionSumEmpty(Positions);
    map t | t in TeamsOf(matches) :: Empty()
  }

  /** `rank_counts` after `n` trials. */
  function Histo(matches: seq<Match>, e: Engine, n: nat): (h: Histogram)
    ensures h.Keys == TeamsOf(matches)
  {
    TablesOnce(matches, e, n);
    EachOnceWithin(Tables(Trials(matches, e), n), TeamsOf(matches));
    Count(Start(matches), Tables(Trials(matches, e), n))
  }

  /** After `n` trials every team's counter is well formed and has counted exactly `n` trials. */
  lemma HistoCounts(matches: seq<Match>, e: Engine, n: nat, t: Team)
    requires t in TeamsOf(matches)
    ensures Counts(Histo(matches, e, n)[t])
    ensures Total(Histo(matches, e, n)[t]) == n
  {
    TablesOnce(matches, e, n);
    CountTotals(Start(matches), Tables(Trials(matches, e), n), t);
  }

  /** In a league of at most 20 teams, every trial counted lands in one of the reported positions. */
  lemma HistoPositions(matches: seq<Match>, e: Engine, n: nat, t: Team)
    requires t in TeamsOf(matches) && |TeamsOf(matches)| <= Positions
    ensures PositionSum(Histo(matches, e, n)[t], Positions) == n
  {
    TablesOnce(matches, e, n);
    CountPositions(Start(matches), Tables(Trials(matches, e), n), t);
  }

  /** The next trial's table is counted on top of the histogram of the trials before it. */
  lemma HistoStep(matches: seq<Match>, e: Engine, n: nat)
    requires forall t :: t in TrialTable(matches, e, n) ==> t in TeamsOf(matches)
    ensures Histo(matches, e, n + 1) == RecordTable(Histo(matches, e, n), TrialTable(matches, e, n))
  {
    var tables := Tables(Trials(matches, e), n + 1);
    assert tables[..n] == Tables(Trials(matches, e), n);
  }

  /** The number of trials among the first `n` of `table` in which team `t` finished at position `p`. */
  function Finishes(table: nat -> seq<Team>, n: nat, t: Team, p: int): (k: nat)
    ensures k <= n
  {
    if n == 0 then 0
    else Finishes(table, n - 1, t, p) + (if 1 <= p <= |table(n - 1)| && table(n - 1)[p - 1] == t then 1 else 0)
  }

  /** Counting the first `n` tables adds, at position `p`, one per table that ranks `t` there. */
  lemma {:induction false} CountAt(h: Histogram, table: nat -> seq<Team>, n: nat, t: Team, p: int)
    requires forall i, u :: 0 <= i < n && u in Tables(table, n)[i] ==> u in h
    requires t in h
    ensures Count(h, Tables(table, n))[t].Get(p, 0) == h[t].Get(p, 0) + Finishes(table, n, t, p)
  {
    if n > 0 {
      var ts := Tables(table, n);
      assert ts[..n - 1] == Tables(table, n - 1);
      assert ts[n - 1] == table(n - 1);
      CountAt(h, table, n - 1, t, p);
      RecordTableAt(Count(h, Tables(table, n - 1)), table(n - 1), t, p);
    }
  }

  /** After `n` trials, a team's count at position `p` is the number of trials in which it finished `p`-th. */
  lemma HistoAt(matches: seq<Match>, e: Engine, n: nat, t: Team, p: int)
    requires t in TeamsOf(matches)
    ensures Histo(matches, e, n)[t].Get(p, 0) == Finishes(Trials(matches, e), n, t, p)
  {
    TablesOnce(matches, e, n);
    EachOnceWithin(Tables(Trials(matches, e), n), TeamsOf(matches));
    CountAt(Start(matches), Trials(matches, e), n, t, p);
  }

  lemma {:induction false} OccurrencesCount(teams: seq<Team>, t: Team)
    ensures Occurrences(teams, t) == multiset(teams)[t]
  {
    if teams != [] {
      var n := |teams| - 1;
      OccurrencesCount(teams[..n], t);
      assert teams == teams[..n] + [teams[n]];
    }
  }

  lemma {:induction false} PositionSumEmpty(n: nat)
    ensures PositionSum(Empty(), n) == 0
  {
    if n > 0 {
      PositionSumEmpty(n - 1);
    }
  }

  /**
   * In a league of at most 20 teams, after at least one trial every team's
   * percentages lie between 0 and 100 and add up to 100.
   */
  lemma LeagueRows(matches: seq<Match>, e: Engine, trials: nat, t: Team)
    requires trials > 0 && t in TeamsOf(matches) && |TeamsOf(matches)| <= Positions
    ensures var row := PercentRow(Histo(matches, e, trials)[t], trials, Positions);
            && SumReals(row) == 100.0
            && forall i :: 0 <= i < Positions ==> 0.0 <= row[i] <= 100.0
  {
    HistoCounts(matches, e, trials, t);
    HistoPositions(matches, e, trials, t);
    CompleteRow(Histo(matches, e, trials)[t]);
  }

  /** A counter of non-negative counts, all in reported positions, gives a row of percentages adding up to 100. */
  lemma CompleteRow(c: Dict<int, int>)
    requires Counts(c) && Total(c) > 0
    requires PositionSum(c, Positions) == Total(c)
    ensures var row := PercentRow(c, Total(c), Positions);
            && SumReals(row) == 100.0
            && forall i :: 0 <= i < Positions ==> 0.0 <= row[i] <= 100.0
  {
    PercentRowComplete(c);
    forall i | 0 <= i < Positions
      ensures 0.0 <= PercentRow(c, Total(c), Positions)[i] <= 100.0
    {
      PercentBounds(c, i + 1);
    }
  }

  /**
   * The trial loop: every trial simulates the remaining fixtures from the
   * baseline, ranks the table and counts every team at its position.
   */
  method RunTrials(matches: seq<Match>, e: Engine, fixtures: seq<Fixture>,
                   basePoints: Dict<Team, int>, baseGd: Dict<Team, int>, trials: nat)
    returns (h: Histogram)
    requires Standings(basePoints, baseGd) == Baseline(matches, e)
    requires fixtures == Remaining(matches, e)
    ensures h == Histo(matches, e, trials)
  {
    BaselineTeams(matches, e);
    h := map t | t in TeamsOf(matches) :: Empty();
    assert h == Histo(matches, e, 0);
    for trial := 0 to trials
      invariant h == Histo(matches, e, trial)
    {
      var pts, gds := SimulateSeason(fixtures, trial, e.predict, e.draw, e.maxGoals, basePoints, baseGd);
      var table := Rank(TableByKey(pts, gds));
      TrialTableOf(matches, e, trial, pts, gds);
      TrialTableWithin(matches, e, trial);
      HistoStep(matches, e, trial);
      h := RecordTrial(h, Teams(table));
    }
  }

  /** After `n` trials every team's counts add up to `n`. */
  lemma HistoTotals(matches: seq<Match>, e: Engine, n: nat)
    ensures forall t :: t in Histo(matches, e, n) ==> Total(Histo(matches, e, n)[t]) == n
  {
    forall t | t in Histo(matches, e, n)
      ensures Total(Histo(matches, e, n)[t]) == n
    {
      HistoCounts(matches, e, n, t);
    }
  }

  /**
   * The whole run: tallies the played matches, computes the features of the
   * remaining ones, simulates `trials` seasons from the same baseline, counts
   * every team's finishing position, and turns the counts into percentages.
   * With no remaining match the feature pass raises; with the table built by
   * team, every team is ranked in every trial, so otherwise the percentages
   * exist exactly when at least one trial ran.
   */
  method SimulateManySeasons(matches: seq<Match>, e: Engine, trials: nat)
    returns (r: Result<map<Team, seq<real>>>)
    ensures r.Ok? <==> Future(matches, e.start) != [] && trials > 0
    ensures r.Ok? ==> r.value.Keys == TeamsOf(matches)
    ensures r.Ok? ==> forall t :: t in r.value ==>
              r.value[t] == PercentRow(Histo(matches, e, trials)[t], trials, Positions)
  {
    var past := Past(matches, e.start);
    var future := Future(matches, e.start);
    var basePoints, baseGd := BuildBaseline(past);
    var features := EngineerFeatureGoals(future, e.window, e.expectedScore);
    if features.Err? {
      return Err(features.reason);
    }
    var fixtures := Fixtures(future, features.value.x);
    assert fixtures == Remaining(matches, e);
    var h := RunTrials(matches, e, fixtures, basePoints, baseGd, trials);
    HistoTotals(matches, e, trials);
    r := Normalise(h);
    if trials == 0 {
      var t := future[|future| - 1].homeTeam;
      FutureTeamInLeague(matches, e.start);
      assert t in h && Total(h[t]) == trials;
    }
  }
}
