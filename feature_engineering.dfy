/**
 * The walk-forward feature pass of the league engine: every team carries its
 * history of points, goals for and goals against, and an Elo-style rating.
 * Matches are replayed in order; before a match is applied, a snapshot of both
 * teams' rolling form and ratings becomes that match's feature row.
 */
module FeatureEngineering {
  import opened Dicts
  import opened Outcome

  type Team = string

  /** One finished match: its round, the two sides and the final score. */
  datatype Match = Match(matchday: int, homeTeam: Team, awayTeam: Team, homeScore: int, awayScore: int)

  /** The set of every team that plays in `ms`, home or away. */
  function TeamsOf(ms: seq<Match>): set<Team> {
    if ms == [] then {} else TeamsOf(ms[..|ms| - 1]) + {ms[|ms| - 1].homeTeam, ms[|ms| - 1].awayTeam}
  }

  /** The home side's goals of every match, in order (the target `y_home`). */
  function HomeGoals(ms: seq<Match>): (r: seq<int>)
    ensures |r| == |ms|
  {
    if ms == [] then [] else HomeGoals(ms[..|ms| - 1]) + [ms[|ms| - 1].homeScore]
  }

  /** The away side's goals of every match, in order (the target `y_away`). */
  function AwayGoals(ms: seq<Match>): (r: seq<int>)
    ensures |r| == |ms|
  {
    if ms == [] then [] else AwayGoals(ms[..|ms| - 1]) + [ms[|ms| - 1].awayScore]
  }

  /** The targets are the recorded scores, match by match. */
  lemma {:induction false} GoalsAt(ms: seq<Match>, i: nat)
    requires i < |ms|
    ensures HomeGoals(ms)[i] == ms[i].homeScore && AwayGoals(ms)[i] == ms[i].awayScore
  {
    if i < |ms| - 1 {
      GoalsAt(ms[..|ms| - 1], i);
    }
  }

  /** The 3/1/0 rule: points earned by the home side and by the away side. */
  function CalculatePoints(homeGoals: int, awayGoals: int): (r: (int, int))
    ensures r == (3, 0) <==> homeGoals > awayGoals
    ensures r == (0, 3) <==> homeGoals < awayGoals
    ensures r == (1, 1) <==> homeGoals == awayGoals
  {
    if homeGoals > awayGoals then (3, 0)
    else if homeGoals < awayGoals then (0, 3)
    else (1, 1)
  }

  // ---------------------------------------------------------------------------
  // Rolling averages

  function Sum(s: seq<int>): int {
    if s == [] then 0 else Sum(s[..|s| - 1]) + s[|s| - 1]
  }

  /**
   * The slice `lst[-w:]`: the last `w` entries, or the whole list when it is
   * shorter. A window of 0 reads as `lst[0:]`, the whole list.
   */
  function Window(lst: seq<int>, w: nat): seq<int> {
    if w == 0 || w >= |lst| then lst else lst[|lst| - w..]
  }

  /** The rolling average: the mean of the window, and 0 for a team with no history. */
  function Avg(lst: seq<int>, w: nat): real {
    if lst == [] then 0.0
    else
      var win := Window(lst, w);
      Sum(win) as real / |win| as real
  }

  /**
   * The rolling average reads only the last `w` entries: two histories, of any
   * lengths, whose last `w` entries agree have the same average.
   */
  lemma AvgOnlyRecent(a: seq<int>, b: seq<int>, w: nat)
    requires 0 < w <= |a| && w <= |b|
    requires a[|a| - w..] == b[|b| - w..]
    ensures Avg(a, w) == Avg(b, w)
  {
    assert Window(a, w) == a[|a| - w..];
    assert Window(b, w) == b[|b| - w..];
  }

  /**
   * Keeping only the window, as a tracker that evicts older entries would,
   * gives the same average as keeping the whole history.
   */
  lemma AvgOfWindow(lst: seq<int>, w: nat)
    ensures Avg(lst, w) == Avg(Window(lst, w), w)
  {
  }

  /** Once a team has `w` newer results, its oldest result no longer counts. */
  lemma AvgForgetsOldest(x: int, y: int, rest: seq<int>, w: nat)
    requires 0 < w <= |rest|
    ensures Avg([x] + rest, w) == Avg([y] + rest, w)
  {
    assert ([x] + rest)[|rest| + 1 - w..] == rest[|rest| - w..];
    assert ([y] + rest)[|rest| + 1 - w..] == rest[|rest| - w..];
    AvgOnlyRecent([x] + rest, [y] + rest, w);
  }

  lemma {:induction false} SumBounds(s: seq<int>, lo: int, hi: int)
    requires forall i :: 0 <= i < |s| ==> lo <= s[i] <= hi
    ensures lo * |s| <= Sum(s) <= hi * |s|
  {
    if s != [] {
      var n := |s| - 1;
      SumBounds(s[..n], lo, hi);
      assert Sum(s) == Sum(s[..n]) + s[n];
      assert lo * |s| == lo * n + lo;
      assert hi * |s| == hi * n + hi;
    }
  }

  lemma IntToRealProduct(a: int, b: int)
    ensures (a * b) as real == a as real * b as real
  {
  }

  lemma DivBetween(s: real, n: real, lo: real, hi: real)
    requires 0.0 < n && lo * n <= s <= hi * n
    ensures lo <= s / n <= hi
  {
    assert (s / n) * n == s;
  }

  /** An integer ratio `total / n` bounded through `lo * n <= total <= hi * n`. */
  lemma RatioBounds(total: int, n: int, lo: int, hi: int)
    requires 0 < n && lo * n <= total <= hi * n
    ensures lo as real <= total as real / n as real <= hi as real
  {
    IntToRealProduct(lo, n);
    IntToRealProduct(hi, n);
    DivBetween(total as real, n as real, lo as real, hi as real);
  }

  lemma MeanBounds(win: seq<int>, lo: int, hi: int)
    requires win != []
    requires forall i :: 0 <= i < |win| ==> lo <= win[i] <= hi
    ensures lo as real <= Sum(win) as real / |win| as real <= hi as real
  {
    SumBounds(win, lo, hi);
    RatioBounds(Sum(win), |win|, lo, hi);
  }

  /** A rolling average lies between the smallest and largest value the list can hold. */
  lemma AvgBounds(lst: seq<int>, w: nat, lo: int, hi: int)
    requires forall i :: 0 <= i < |lst| ==> lo <= lst[i] <= hi
    requires lst != [] || (lo <= 0 <= hi)
    ensures lo as real <= Avg(lst, w) <= hi as real
  {
    if lst != [] {
      var win := Window(lst, w);
      assert win == lst[|lst| - |win|..];
      MeanBounds(win, lo, hi);
    }
  }

  // ---------------------------------------------------------------------------
  // Per-team state

  /** What the tracker keeps for one team. The lists are never trimmed. */
  datatype TeamState = TeamState(points: seq<int>, gf: seq<int>, ga: seq<int>, elo: real)

  /** Every rating starts here. */
  const BaseElo: real := 1000.0

  /** The K-factor of the rating update (`elo_k`, left at its default of 20 by every caller). */
  const EloK: real := 20.0

  /** The state of a team seen for the first time. */
  const Fresh: TeamState := TeamState([], [], [], BaseElo)

  /** `team_states`: a defaultdict from team to state, in first-lookup order. */
  type Tracker = Dict<Team, TeamState>

  /** `team_states[t]`: looking a team up inserts a fresh state the first time. */
  function Touch(d: Tracker, t: Team): (r: Tracker)
    ensures d.Valid() ==> r.Valid()
    ensures t in r.vals && r.vals[t] == d.Get(t, Fresh)
    ensures r.vals.Keys == d.vals.Keys + {t}
    ensures forall j :: j in d.vals ==> r.vals[j] == d.vals[j]
  {
    if t in d.vals then d else d.Put(t, Fresh)
  }

  /** Looking two teams up hands back the states they already had, or fresh ones. */
  lemma TouchTwice(d: Tracker, home: Team, away: Team)
    ensures var r := Touch(Touch(d, home), away);
            r.vals[home] == d.Get(home, Fresh) && r.vals[away] == d.Get(away, Fresh)
  {
  }

  /** Appends one match's points, goals for and goals against to a team's lists. */
  function Record(s: TeamState, pts: int, goalsFor: int, goalsAgainst: int): TeamState {
    s.(points := s.points + [pts], gf := s.gf + [goalsFor], ga := s.ga + [goalsAgainst])
  }

  /** Moves a team's rating by `delta`. */
  function Shift(s: TeamState, delta: real): TeamState {
    s.(elo := s.elo + delta)
  }

  /** The home side's actual score in the rating update. */
  function ActualHome(homeGoals: int, awayGoals: int): (r: real)
    ensures r == 1.0 <==> homeGoals > awayGoals
    ensures r == 0.5 <==> homeGoals == awayGoals
    ensures r == 0.0 <==> homeGoals < awayGoals
  {
    if homeGoals > awayGoals then 1.0 else if homeGoals == awayGoals then 0.5 else 0.0
  }

  /** Appends a match's result to both teams' lists, home side first. */
  function RecordResult(d: Tracker, m: Match): (r: Tracker)
    requires m.homeTeam in d.vals && m.awayTeam in d.vals
    ensures d.Valid() ==> r.Valid()
    ensures r.keys == d.keys && r.vals.Keys == d.vals.Keys
  {
    var pts := CalculatePoints(m.homeScore, m.awayScore);
    var d1 := d.Put(m.homeTeam, Record(d.vals[m.homeTeam], pts.0, m.homeScore, m.awayScore));
    d1.Put(m.awayTeam, Record(d1.vals[m.awayTeam], pts.1, m.awayScore, m.homeScore))
  }

  /**
   * The home side's expected score. The logistic curve of the rating difference
   * is floating point, so `expectedScore` is any function of that difference.
   */
  function ExpectedHome(homeElo: real, awayElo: real, expectedScore: real -> real): real {
    expectedScore(awayElo - homeElo)
  }

  /**
   * The rating update. `expectedScore` stands for the home side's expected
   * score as a function of `away rating - home rating`; the home side moves by
   * `EloK * (actual - expected)` and the away side by `EloK * ((1 - actual) - (1 - expected))`.
   */
  function UpdateElo(d: Tracker, m: Match, expectedScore: real -> real): (r: Tracker)
    requires m.homeTeam in d.vals && m.awayTeam in d.vals
    ensures d.Valid() ==> r.Valid()
    ensures r.keys == d.keys && r.vals.Keys == d.vals.Keys
  {
    var expected := ExpectedHome(d.vals[m.homeTeam].elo, d.vals[m.awayTeam].elo, expectedScore);
    var actual := ActualHome(m.homeScore, m.awayScore);
    var d1 := d.Put(m.homeTeam, Shift(d.vals[m.homeTeam], EloK * (actual - expected)));
    d1.Put(m.awayTeam, Shift(d1.vals[m.awayTeam], EloK * ((1.0 - actual) - (1.0 - expected))))
  }

  /**
   * Applies one match to the tracker: both teams are looked up (home first),
   * the result is appended to their lists, then the ratings move. Every part
   * re-reads the team's current state, so a fixture with the same team on both
   * sides is handled as the league engine does, on one shared record.
   */
  function Step(d: Tracker, m: Match, expectedScore: real -> real): (r: Tracker)
    ensures d.Valid() ==> r.Valid()
    ensures r.vals.Keys == d.vals.Keys + {m.homeTeam, m.awayTeam}
  {
    var touched := Touch(Touch(d, m.homeTeam), m.awayTeam);
    UpdateElo(RecordResult(touched, m), m, expectedScore)
  }

  /** The tracker after replaying `ms` in order from an empty one. */
  function Replay(ms: seq<Match>, expectedScore: real -> real): (d: Tracker)
    ensures d.Valid()
  {
    if ms == [] then Empty() else Step(Replay(ms[..|ms| - 1], expectedScore), ms[|ms| - 1], expectedScore)
  }

  /** The tracker holds a state for exactly the teams that have played. */
  lemma {:induction false} ReplayTeams(ms: seq<Match>, expectedScore: real -> real)
    ensures Replay(ms, expectedScore).vals.Keys == TeamsOf(ms)
  {
    if ms != [] {
      ReplayTeams(ms[..|ms| - 1], expectedScore);
    }
  }

  // ---------------------------------------------------------------------------
  // Feature rows

  /** One row of the feature matrix X: the round and both teams' pre-match form and ratings. */
  datatype Features = Features(
    matchday: int,
    homeAvgPts: real, awayAvgPts: real,
    homeAvgGf: real, awayAvgGf: real,
    homeAvgGa: real, awayAvgGa: real,
    homeElo: real, awayElo: real)

  function Snapshot(matchday: int, home: TeamState, away: TeamState, w: nat): Features {
    Features(matchday,
             Avg(home.points, w), Avg(away.points, w),
             Avg(home.gf, w), Avg(away.gf, w),
             Avg(home.ga, w), Avg(away.ga, w),
             home.elo, away.elo)
  }

  /** The feature row of match `i`: both teams as they stood after matches 0..i-1. */
  function FeaturesAt(ms: seq<Match>, i: nat, w: nat, expectedScore: real -> real): Features
    requires i < |ms|
  {
    var before := Replay(ms[..i], expectedScore);
    Snapshot(ms[i].matchday, before.Get(ms[i].homeTeam, Fresh), before.Get(ms[i].awayTeam, Fresh), w)
  }

  /** The feature rows of every match of `ms`, in order. */
  function FeatureRows(ms: seq<Match>, w: nat, expectedScore: real -> real): (rows: seq<Features>)
    ensures |rows| == |ms|
  {
    if ms == [] then [] else FeatureRows(ms[..|ms| - 1], w, expectedScore) + [FeaturesAt(ms, |ms| - 1, w, expectedScore)]
  }

  /** Row `i` of the feature matrix is the snapshot taken just before match `i`. */
  lemma {:induction false} FeatureRowsAt(ms: seq<Match>, i: nat, w: nat, expectedScore: real -> real)
    requires i < |ms|
    ensures FeatureRows(ms, w, expectedScore)[i] == FeaturesAt(ms, i, w, expectedScore)
  {
    FeatureRowsUnfold(ms, w, expectedScore);
    if i < |ms| - 1 {
      FeatureRowsAt(ms[..|ms| - 1], i, w, expectedScore);
      FeaturesAtPrefix(ms, |ms| - 1, i, w, expectedScore);
    }
  }

  lemma FeatureRowsUnfold(ms: seq<Match>, w: nat, expectedScore: real -> real)
    requires ms != []
    ensures forall i :: 0 <= i < |ms| - 1 ==>
              FeatureRows(ms, w, expectedScore)[i] == FeatureRows(ms[..|ms| - 1], w, expectedScore)[i]
    ensures FeatureRows(ms, w, expectedScore)[|ms| - 1] == FeaturesAt(ms, |ms| - 1, w, expectedScore)
  {
  }

  /** A match's feature row depends only on the matches up to and including it. */
  lemma FeaturesAtPrefix(ms: seq<Match>, n: nat, i: nat, w: nat, expectedScore: real -> real)
    requires i < n <= |ms|
    ensures FeaturesAt(ms[..n], i, w, expectedScore) == FeaturesAt(ms, i, w, expectedScore)
  {
    assert ms[..n][..i] == ms[..i];
  }

  /** Extending the prefix by match `i` extends every product of the feature pass by that match. */
  lemma PrefixStep(ms: seq<Match>, i: nat, w: nat, expectedScore: real -> real)
    requires i < |ms|
    ensures var before := Replay(ms[..i], expectedScore);
            && Replay(ms[..i + 1], expectedScore) == Step(before, ms[i], expectedScore)
            && FeatureRows(ms[..i + 1], w, expectedScore)
               == FeatureRows(ms[..i], w, expectedScore)
                  + [Snapshot(ms[i].matchday, before.Get(ms[i].homeTeam, Fresh), before.Get(ms[i].awayTeam, Fresh), w)]
            && HomeGoals(ms[..i + 1]) == HomeGoals(ms[..i]) + [ms[i].homeScore]
            && AwayGoals(ms[..i + 1]) == AwayGoals(ms[..i]) + [ms[i].awayScore]
  {
    assert ms[..i + 1][..i] == ms[..i];
  }

  /** The feature matrix and the two goal targets, one entry per match. */
  datatype FeatureMatrix = FeatureMatrix(x: seq<Features>, yHome: seq<int>, yAway: seq<int>)

  /**
   * The feature pass: one feature row and one pair of targets per match, in
   * input order. Each row is taken before its own match is applied. With no
   * match at all the frame of rows has no columns, and dropping the goal and
   * team columns from it raises a key error.
   */
  method EngineerFeatureGoals(ms: seq<Match>, w: nat, expectedScore: real -> real)
    returns (r: Result<FeatureMatrix>)
    ensures r.Err? <==> ms == []
    ensures r.Ok? ==> r.value.x == FeatureRows(ms, w, expectedScore)
    ensures r.Ok? ==> r.value.yHome == HomeGoals(ms) && r.value.yAway == AwayGoals(ms)
  {
    var teamStates: Tracker := Empty();
    var x, yHome, yAway := [], [], [];
    for i := 0 to |ms|
      invariant teamStates == Replay(ms[..i], expectedScore)
      invariant x == FeatureRows(ms[..i], w, expectedScore)
      invariant yHome == HomeGoals(ms[..i]) && yAway == AwayGoals(ms[..i])
    {
      var m := ms[i];
      PrefixStep(ms, i, w, expectedScore);
      ghost var before := teamStates;
      teamStates := Touch(Touch(teamStates, m.homeTeam), m.awayTeam);
      var homeStats, awayStats := teamStates.vals[m.homeTeam], teamStates.vals[m.awayTeam];
      TouchTwice(before, m.homeTeam, m.awayTeam);
      x := x + [Snapshot(m.matchday, homeStats, awayStats, w)];
      yHome, yAway := yHome + [m.homeScore], yAway + [m.awayScore];

      teamStates := RecordResult(teamStates, m);
      teamStates := UpdateElo(teamStates, m, expectedScore);
    }
    assert ms[..|ms|] == ms;
    if ms == [] {
      return Err("KeyError: no columns to drop");
    }
    return Ok(FeatureMatrix(x, yHome, yAway));
  }

  // ---------------------------------------------------------------------------
  // Properties of one step

  /**
   * A match between two different teams appends exactly one entry to each of
   * their three lists: its points, its goals for and its goals against.
   */
  lemma StepAppendsOneEntry(d: Tracker, m: Match, expectedScore: real -> real)
    requires m.homeTeam != m.awayTeam
    ensures var r := Step(d, m, expectedScore);
            var h := d.Get(m.homeTeam, Fresh);
            var a := d.Get(m.awayTeam, Fresh);
            var pts := CalculatePoints(m.homeScore, m.awayScore);
            && r.vals[m.homeTeam].points == h.points + [pts.0]
            && r.vals[m.awayTeam].points == a.points + [pts.1]
            && r.vals[m.homeTeam].gf == h.gf + [m.homeScore]
            && r.vals[m.awayTeam].gf == a.gf + [m.awayScore]
            && r.vals[m.homeTeam].ga == h.ga + [m.awayScore]
            && r.vals[m.awayTeam].ga == a.ga + [m.homeScore]
  {
  }

  /** A match leaves every team that did not play it exactly as it was. */
  lemma StepLeavesOthers(d: Tracker, m: Match, expectedScore: real -> real)
    ensures var r := Step(d, m, expectedScore);
            forall t :: t != m.homeTeam && t != m.awayTeam ==>
              (t in r.vals <==> t in d.vals) && r.Get(t, Fresh) == d.Get(t, Fresh)
  {
  }

  /** The home side's new goals-for entry is the away side's new goals-against entry, and vice versa. */
  lemma StepCrossesGoals(d: Tracker, m: Match, expectedScore: real -> real)
    requires m.homeTeam != m.awayTeam
    ensures var r := Step(d, m, expectedScore);
            && |r.vals[m.homeTeam].gf| > 0 && |r.vals[m.awayTeam].ga| > 0
            && |r.vals[m.awayTeam].gf| > 0 && |r.vals[m.homeTeam].ga| > 0
            && Last(r.vals[m.homeTeam].gf) == Last(r.vals[m.awayTeam].ga)
            && Last(r.vals[m.awayTeam].gf) == Last(r.vals[m.homeTeam].ga)
  {
    StepAppendsOneEntry(d, m, expectedScore);
  }

  function Last(s: seq<int>): int
    requires s != []
  {
    s[|s| - 1]
  }

  /** Looking teams up and appending a result leave every rating where it was. */
  lemma RatingsBeforeUpdate(d: Tracker, m: Match)
    ensures var rec := RecordResult(Touch(Touch(d, m.homeTeam), m.awayTeam), m);
            && rec.vals[m.homeTeam].elo == d.Get(m.homeTeam, Fresh).elo
            && rec.vals[m.awayTeam].elo == d.Get(m.awayTeam, Fresh).elo
  {
  }

  /** The update moves the home side by `EloK * (actual - expected)` and the away side by the opposite amount. */
  lemma UpdateEloDeltas(d: Tracker, m: Match, expectedScore: real -> real)
    requires m.homeTeam != m.awayTeam
    requires m.homeTeam in d.vals && m.awayTeam in d.vals
    ensures var r := UpdateElo(d, m, expectedScore);
            var delta := EloK * (ActualHome(m.homeScore, m.awayScore)
                              - ExpectedHome(d.vals[m.homeTeam].elo, d.vals[m.awayTeam].elo, expectedScore));
            && r.vals[m.homeTeam].elo == d.vals[m.homeTeam].elo + delta
            && r.vals[m.awayTeam].elo == d.vals[m.awayTeam].elo - delta
  {
    var expected := ExpectedHome(d.vals[m.homeTeam].elo, d.vals[m.awayTeam].elo, expectedScore);
    OppositeDelta(ActualHome(m.homeScore, m.awayScore), expected);
  }

  /**
   * The rating update is zero-sum: the home side moves by `EloK * (actual - expected)`,
   * the expectation taken from the ratings before the match, and the away side
   * by exactly the opposite amount.
   */
  lemma StepEloZeroSum(d: Tracker, m: Match, expectedScore: real -> real)
    requires m.homeTeam != m.awayTeam
    ensures var r := Step(d, m, expectedScore);
            var h := d.Get(m.homeTeam, Fresh);
            var a := d.Get(m.awayTeam, Fresh);
            var delta := EloK * (ActualHome(m.homeScore, m.awayScore) - ExpectedHome(h.elo, a.elo, expectedScore));
            && r.vals[m.homeTeam].elo == h.elo + delta
            && r.vals[m.awayTeam].elo == a.elo - delta
  {
    RatingsBeforeUpdate(d, m);
    UpdateEloDeltas(RecordResult(Touch(Touch(d, m.homeTeam), m.awayTeam), m), m, expectedScore);
  }

  /**
   * With the expected score in [0, 1] and a non-negative K, a home win never
   * lowers the home rating or raises the away rating, and a home loss does the
   * opposite.
   */
  lemma EloMovesWithResult(d: Tracker, m: Match, expectedScore: real -> real)
    requires m.homeTeam != m.awayTeam
    requires forall diff :: 0.0 <= expectedScore(diff) <= 1.0
    ensures var r := Step(d, m, expectedScore);
            var h := d.Get(m.homeTeam, Fresh);
            var a := d.Get(m.awayTeam, Fresh);
            && (m.homeScore > m.awayScore ==> r.vals[m.homeTeam].elo >= h.elo && r.vals[m.awayTeam].elo <= a.elo)
            && (m.homeScore < m.awayScore ==> r.vals[m.homeTeam].elo <= h.elo && r.vals[m.awayTeam].elo >= a.elo)
  {
    StepEloZeroSum(d, m, expectedScore);
    var h := d.Get(m.homeTeam, Fresh);
    var a := d.Get(m.awayTeam, Fresh);
    var e := ExpectedHome(h.elo, a.elo, expectedScore);
    assert 0.0 <= e <= 1.0;
    var actual := ActualHome(m.homeScore, m.awayScore);
    ProductSign(actual - e);
  }

  /** The away side's change, `EloK * ((1 - actual) - (1 - expected))`, is the negated home change. */
  lemma OppositeDelta(actual: real, expected: real)
    ensures EloK * ((1.0 - actual) - (1.0 - expected)) == -(EloK * (actual - expected))
  {
    assert (1.0 - actual) - (1.0 - expected) == -(actual - expected);
  }

  lemma ProductSign(x: real)
    ensures 0.0 <= x ==> 0.0 <= EloK * x
    ensures x <= 0.0 ==> EloK * x <= 0.0
  {
  }

  // ---------------------------------------------------------------------------
  // The sum of all ratings

  function EloSum(ks: seq<Team>, m: map<Team, TeamState>): real
    requires forall t :: t in ks ==> t in m
  {
    if ks == [] then 0.0 else EloSum(ks[..|ks| - 1], m) + m[ks[|ks| - 1]].elo
  }

  /** The sum of every tracked team's rating. */
  function EloTotal(d: Tracker): real
    requires d.Valid()
  {
    EloSum(d.keys, d.vals)
  }

  lemma {:induction false} EloSumUpdate(ks: seq<Team>, m: map<Team, TeamState>, t: Team, s: TeamState)
    requires NoDup(ks)
    requires forall j :: j in ks ==> j in m
    ensures EloSum(ks, m[t := s]) == EloSum(ks, m) + (if t in ks then s.elo - m[t].elo else 0.0)
  {
    if ks != [] {
      var init := ks[..|ks| - 1];
      assert forall j :: j in init ==> j in ks;
      EloSumUpdate(init, m, t, s);
      if ks[|ks| - 1] != t {
        assert t in ks <==> t in init by {
          assert ks == init + [ks[|ks| - 1]];
        }
      }
    }
  }

  /** Storing a state moves the rating total by the change in that team's rating; a new team adds its rating. */
  lemma EloTotalPut(d: Tracker, t: Team, s: TeamState)
    requires d.Valid()
    ensures EloTotal(d.Put(t, s)) == EloTotal(d) - (if t in d.vals then d.vals[t].elo else 0.0) + s.elo
  {
    EloSumUpdate(d.keys, d.vals, t, s);
    if t !in d.vals {
      var ks := d.keys + [t];
      assert ks[..|ks| - 1] == d.keys;
    }
  }

  /** Every rating starts at the base value and every update is zero-sum. */
  ghost predicate EloBalanced(d: Tracker)
    requires d.Valid()
  {
    EloTotal(d) == BaseElo * |d.keys| as real
  }

  lemma TouchKeepsBalance(d: Tracker, t: Team)
    requires d.Valid() && EloBalanced(d)
    ensures EloBalanced(Touch(d, t))
  {
    if t !in d.vals {
      EloTotalPut(d, t, Fresh);
    }
  }

  /** Appending a result leaves every rating, and so the total, where it was. */
  lemma RecordKeepsBalance(d: Tracker, m: Match)
    requires d.Valid() && m.homeTeam in d.vals && m.awayTeam in d.vals && EloBalanced(d)
    ensures EloBalanced(RecordResult(d, m))
  {
    var pts := CalculatePoints(m.homeScore, m.awayScore);
    var d1 := d.Put(m.homeTeam, Record(d.vals[m.homeTeam], pts.0, m.homeScore, m.awayScore));
    EloTotalPut(d, m.homeTeam, Record(d.vals[m.homeTeam], pts.0, m.homeScore, m.awayScore));
    EloTotalPut(d1, m.awayTeam, Record(d1.vals[m.awayTeam], pts.1, m.awayScore, m.homeScore));
  }

  /** The rating update moves rating points from one side to the other and creates none. */
  lemma UpdateEloKeepsBalance(d: Tracker, m: Match, expectedScore: real -> real)
    requires d.Valid() && m.homeTeam in d.vals && m.awayTeam in d.vals && EloBalanced(d)
    ensures EloBalanced(UpdateElo(d, m, expectedScore))
  {
    var expected := ExpectedHome(d.vals[m.homeTeam].elo, d.vals[m.awayTeam].elo, expectedScore);
    var actual := ActualHome(m.homeScore, m.awayScore);
    var delta := EloK * (actual - expected);
    var d1 := d.Put(m.homeTeam, Shift(d.vals[m.homeTeam], delta));
    EloTotalPut(d, m.homeTeam, Shift(d.vals[m.homeTeam], delta));
    var awayDelta := EloK * ((1.0 - actual) - (1.0 - expected));
    OppositeDelta(actual, expected);
    EloTotalPut(d1, m.awayTeam, Shift(d1.vals[m.awayTeam], awayDelta));
  }

  /** One match keeps the rating total at the base value times the number of teams seen. */
  lemma StepKeepsBalance(d: Tracker, m: Match, expectedScore: real -> real)
    requires d.Valid() && EloBalanced(d)
    ensures EloBalanced(Step(d, m, expectedScore))
  {
    var d0 := Touch(d, m.homeTeam);
    TouchKeepsBalance(d, m.homeTeam);
    var d1 := Touch(d0, m.awayTeam);
    TouchKeepsBalance(d0, m.awayTeam);
    RecordKeepsBalance(d1, m);
    UpdateEloKeepsBalance(RecordResult(d1, m), m, expectedScore);
  }

  /**
   * After any replay, the ratings sum to the base rating times the number of
   * teams seen: the updates only move rating points between the two sides.
   */
  lemma {:induction false} ReplayEloTotal(ms: seq<Match>, expectedScore: real -> real)
    ensures EloTotal(Replay(ms, expectedScore)) == BaseElo * |Replay(ms, expectedScore).keys| as real
  {
    if ms != [] {
      ReplayEloTotal(ms[..|ms| - 1], expectedScore);
      StepKeepsBalance(Replay(ms[..|ms| - 1], expectedScore), ms[|ms| - 1], expectedScore);
    }
  }

  // ---------------------------------------------------------------------------
  // Properties of the feature rows

  /**
   * A match's row does not depend on its own result or on anything after it:
   * two schedules that agree on the earlier matches and on this fixture give the
   * same row.
   */
  lemma FeaturesBeforeResult(ms: seq<Match>, ms': seq<Match>, i: nat, w: nat, expectedScore: real -> real)
    requires i < |ms| && i < |ms'|
    requires ms[..i] == ms'[..i]
    requires ms[i].matchday == ms'[i].matchday
    requires ms[i].homeTeam == ms'[i].homeTeam && ms[i].awayTeam == ms'[i].awayTeam
    ensures FeaturesAt(ms, i, w, expectedScore) == FeaturesAt(ms', i, w, expectedScore)
  {
  }

  /**
   * Cold start: a team that has not played before match `i` enters its row with
   * averages of exactly 0 and the base rating.
   */
  lemma ColdStart(ms: seq<Match>, i: nat, w: nat, expectedScore: real -> real)
    requires i < |ms|
    ensures var f := FeaturesAt(ms, i, w, expectedScore);
            ms[i].homeTeam !in TeamsOf(ms[..i]) ==>
              f.homeAvgPts == 0.0 && f.homeAvgGf == 0.0 && f.homeAvgGa == 0.0 && f.homeElo == BaseElo
    ensures var f := FeaturesAt(ms, i, w, expectedScore);
            ms[i].awayTeam !in TeamsOf(ms[..i]) ==>
              f.awayAvgPts == 0.0 && f.awayAvgGf == 0.0 && f.awayAvgGa == 0.0 && f.awayElo == BaseElo
  {
    ReplayTeams(ms[..i], expectedScore);
  }
}
